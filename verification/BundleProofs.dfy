/** What bundles guarantee: the scanner agrees with the codec, and salvage is
    safe on arbitrary bytes. */
module BundleProofs {
  import opened Wrappers
  import opened Bytes
  import opened Codec
  import opened CodecProofs
  import opened Record
  import opened Blob
  import opened Bundle
  import Utf8

  // ------------------------------------------------------------------
  // The scanner against the encoder
  // ------------------------------------------------------------------

  /** The scanner's limits: strings of at most 64 MiB, and no container where 64
      counts are already on the stack. */
  ghost predicate Scans(v: Value, level: nat)
    decreases v
  {
    match v
    case Bytes(b) => |b| <= ITEM_STRING_LIMIT
    case Text(s) => |Utf8.Encode(s)| <= ITEM_STRING_LIMIT
    case Array(items) => level < 64 && ScansAll(items, level + 1)
    case Map(entries) => level < 64 && 2 * |entries| < U64_SIZE && ScansEntries(entries, level + 1)
    case _ => true
  }

  ghost predicate ScansAll(items: seq<Value>, level: nat)
    decreases items
  {
    items == [] || (Scans(items[0], level) && ScansAll(items[1..], level))
  }

  ghost predicate ScansEntries(entries: seq<Entry>, level: nat)
    decreases entries
  {
    entries == []
    || (assert entries[0].key < entries[0] && entries[0].val < entries[0];
        Scans(entries[0].key, level) && Scans(entries[0].val, level) && ScansEntries(entries[1..], level))
  }

  ghost function Plus(n: nat, r: Option<nat>): Option<nat> { if r.None? then None else Some(n + r.value) }

  lemma {:induction false} ReadHeadOf(major: nat, arg: u64, rest: seq<byte>)
    requires major < 8
    ensures ReadHead(Head(major, arg) + rest) == Some(RawHead(major, arg, |Head(major, arg)|))
  {
    hide FromBigEndian, ToBigEndian;
    Pow256Values();
    var h := Head(major, arg);
    var width := |h| - 1;
    if width > 0 {
      assert (h + rest)[1..1 + width] == ToBigEndian(width, arg);
      BigEndianRead(width, arg);
    }
  }

  /** One turn of the scanner's loop. */
  lemma {:induction false} ScanStep(s: seq<byte>, base: seq<nat>, k: nat, head: RawHead)
    requires ReadHead(s) == Some(head)
    ensures Scan(s, base + [k + 1])
         == match HeadEffect(head, |base| + 1)
            case Refuse => None
            case Skip(n) =>
              if head.used + n > |s| then None else Plus(head.used + n, Scan(s[head.used + n..], base + [k]))
            case Push(count) => Plus(head.used, Scan(s[head.used..], base + [k] + [count]))
  {
    hide ReadHead, HeadEffect;
    var stack := base + [k + 1];
    assert stack[..|stack| - 1] == base;
    assert stack[|stack| - 1] - 1 == k;
  }

  lemma {:induction false} ScanPop(s: seq<byte>, base: seq<nat>)
    ensures Scan(s, base + [0]) == Scan(s, base)
  {
    var stack := base + [0];
    assert stack[..|stack| - 1] == base;
  }

  /** The scanner passes over the encoding of a value, or gives up, exactly as
      its limits say. */
  lemma {:induction false} ScanEncoded(v: Value, rest: seq<byte>, base: seq<nat>, k: nat)
    requires IsCanonical(v)
    ensures Scan(Encoding(v).bytes + rest, base + [k + 1])
         == if Scans(v, |base| + 1) then Plus(|Encoding(v).bytes|, Scan(rest, base + [k])) else None
    decreases v, 2
  {
    match v
    case Array(items) => ScanEncodedArray(items, rest, base, k);
    case Map(entries) => ScanEncodedMap(entries, rest, base, k);
    case _ => ScanEncodedScalar(v, rest, base, k);
  }

  lemma {:induction false} ScanEncodedScalar(v: Value, rest: seq<byte>, base: seq<nat>, k: nat)
    requires !v.Array? && !v.Map?
    ensures Scan(Encoding(v).bytes + rest, base + [k + 1])
         == if Scans(v, |base| + 1) then Plus(|Encoding(v).bytes|, Scan(rest, base + [k])) else None
  {
    hide Scan, Head, ReadHead, Utf8.Encode;
    match v
    case Uint(n) => ScanInt(0, n, rest, base, k);
    case Nint(n) => ScanInt(1, n, rest, base, k);
    case Bytes(b) => ScanString(2, b, rest, base, k);
    case Text(t) => ScanString(3, Utf8.Encode(t), rest, base, k);
    case Bool(f) => ScanSimple(if f then 0xf5 else 0xf4, rest, base, k);
    case Null => ScanSimple(0xf6, rest, base, k);
  }

  lemma {:induction false} ScanSimple(b: byte, rest: seq<byte>, base: seq<nat>, k: nat)
    requires 0xf4 <= b <= 0xf6
    ensures Scan([b] + rest, base + [k + 1]) == Plus(1, Scan(rest, base + [k]))
  {
    hide Scan;
    ScanStep([b] + rest, base, k, RawHead(7, b % 32, 1));
    assert ([b] + rest)[1..] == rest;
  }

  lemma {:induction false} ScanInt(major: nat, n: u64, rest: seq<byte>, base: seq<nat>, k: nat)
    requires major < 2
    ensures Scan(Head(major, n) + rest, base + [k + 1]) == Plus(|Head(major, n)|, Scan(rest, base + [k]))
  {
    hide Scan, Head, ReadHead;
    var h := Head(major, n);
    ReadHeadOf(major, n, rest);
    ScanStep(h + rest, base, k, RawHead(major, n, |h|));
    assert (h + rest)[|h|..] == rest;
  }

  lemma {:induction false} ScanString(major: nat, b: Vec<byte>, rest: seq<byte>, base: seq<nat>, k: nat)
    requires 2 <= major <= 3
    ensures var w := Head(major, |b|) + b;
      Scan(w + rest, base + [k + 1])
      == if |b| <= ITEM_STRING_LIMIT then Plus(|w|, Scan(rest, base + [k])) else None
  {
    hide Scan, Head, ReadHead;
    var h := Head(major, |b|);
    var s := h + b + rest;
    assert s == h + (b + rest);
    ReadHeadOf(major, |b|, b + rest);
    ScanStep(s, base, k, RawHead(major, |b|, |h|));
    assert s[|h| + |b|..] == rest;
  }

  lemma {:induction false} ScanContainer(major: nat, n: u64, body: seq<byte>, base: seq<nat>, k: nat)
    requires 4 <= major <= 5
    ensures var count := if major == 4 then n else 2 * n;
      Scan(Head(major, n) + body, base + [k + 1])
      == if |base| + 1 < 64 && count < U64_SIZE then Plus(|Head(major, n)|, Scan(body, base + [k] + [count])) else None
  {
    hide Scan, Head, ReadHead;
    var h := Head(major, n);
    ReadHeadOf(major, n, body);
    ScanStep(h + body, base, k, RawHead(major, n, |h|));
    assert (h + body)[|h|..] == body;
  }

  lemma {:induction false} ScanEncodedArray(items: Vec<Value>, rest: seq<byte>, base: seq<nat>, k: nat)
    requires AllCanonical(items)
    ensures var v := Array(items);
      Scan(Encoding(v).bytes + rest, base + [k + 1])
      == if Scans(v, |base| + 1) then Plus(|Encoding(v).bytes|, Scan(rest, base + [k])) else None
    decreases items, 1
  {
    hide Scan, Head, ScansAll, EncodingAll;
    var h, body := Head(4, |items|), EncodingAll(items).bytes;
    assert h + body + rest == h + (body + rest);
    ScanContainer(4, |items|, body + rest, base, k);
    ScanEncodedAll(items, rest, base + [k]);
  }

  lemma {:induction false} ScanEncodedAll(items: seq<Value>, rest: seq<byte>, base: seq<nat>)
    requires AllCanonical(items)
    ensures var w := EncodingAll(items).bytes;
      Scan(w + rest, base + [|items|])
      == if ScansAll(items, |base| + 1) then Plus(|w|, Scan(rest, base)) else None
    decreases items, 0
  {
    hide Scan, Scans, Encoding, IsCanonical;
    if items == [] {
      assert [] + rest == rest;
      ScanPop(rest, base);
    } else {
      CanonicalAllEncodes(items);
      var h, t := Encoding(items[0]).bytes, EncodingAll(items[1..]).bytes;
      assert h + t + rest == h + (t + rest);
      ScanEncoded(items[0], t + rest, base, |items| - 1);
      ScanEncodedAll(items[1..], rest, base);
    }
  }

  lemma {:induction false} ScanEncodedMap(entries: Vec<Entry>, rest: seq<byte>, base: seq<nat>, k: nat)
    requires IsCanonical(Map(entries))
    ensures var v := Map(entries);
      Scan(Encoding(v).bytes + rest, base + [k + 1])
      == if Scans(v, |base| + 1) then Plus(|Encoding(v).bytes|, Scan(rest, base + [k])) else None
    decreases entries, 1
  {
    hide Scan, Head, ScansEntries, Flatten, EncodedPairs, KeyedByEncoding, MapEncoding;
    CanonicalEntriesEncode(entries);
    SortedMap(entries);
    var h, body := Head(5, |entries|), Flatten(EncodedPairs(entries).value);
    assert h + body + rest == h + (body + rest);
    ScanContainer(5, |entries|, body + rest, base, k);
    ScanEncodedEntries(entries, rest, base + [k]);
  }

  lemma {:induction false} ScanEncodedEntries(entries: seq<Entry>, rest: seq<byte>, base: seq<nat>)
    requires EntriesCanonical(entries)
    ensures EncodedPairs(entries).Some?
    ensures var w := Flatten(EncodedPairs(entries).value);
      Scan(w + rest, base + [2 * |entries|])
      == if ScansEntries(entries, |base| + 1) then Plus(|w|, Scan(rest, base)) else None
    decreases entries, 0
  {
    hide *;
    CanonicalEntriesEncode(entries);
    if entries == [] {
      NoEntriesScan(rest, base);
    } else {
      SplitEntries(entries);
      var x, xs := entries[0], entries[1..];
      assert x.key < x && x.val < x;
      var k, v, t := Encoding(x.key).bytes, Encoding(x.val).bytes, Flatten(EncodedPairs(xs).value);
      assert k + v + t + rest == k + (v + (t + rest));
      ScanEncoded(x.key, v + (t + rest), base, 2 * |xs| + 1);
      ScanEncoded(x.val, t + rest, base, 2 * |xs|);
      ScanEncodedEntries(xs, rest, base);
      ScansEntriesStep(x, xs, |base| + 1);
      PlusPlus(|k|, |v|, |t|, Scan(rest, base));
    }
  }

  lemma NoEntriesScan(rest: seq<byte>, base: seq<nat>)
    ensures Scan(Flatten(EncodedPairs([]).value) + rest, base + [0]) == Plus(0, Scan(rest, base))
    ensures Flatten(EncodedPairs([]).value) == [] && ScansEntries([], |base| + 1)
  {
    assert [] + rest == rest;
    ScanPop(rest, base);
  }

  lemma ScansEntriesStep(x: Entry, xs: seq<Entry>, depth: nat)
    ensures ScansEntries([x] + xs, depth) <==> Scans(x.key, depth) && Scans(x.val, depth) && ScansEntries(xs, depth)
  {
    hide Scans;
    assert ([x] + xs)[1..] == xs;
  }

  lemma PlusPlus(a: nat, b: nat, c: nat, r: Option<nat>)
    ensures Plus(a, Plus(b, Plus(c, r))) == Plus(a + b + c, r)
    ensures Plus(a, None) == None && Plus(b, None) == None
  {
  }

  /** On the encoding of any encodable value, followed by anything, the scanner
      returns exactly that encoding or refuses, as its limits say. */
  lemma {:induction false} ReadItemOfEncoding(v: Value, rest: seq<byte>)
    requires Encode(v).Some?
    ensures ReadItem(Encode(v).value + rest)
         == if Scans(Canonical(v), 1) then Item(|Encode(v).value|) else Unreadable
  {
    var c := Canonical(v);
    CanonicalKeepsEncoding(v);
    CanonicalIsCanonical(v);
    CanonicalEncodes(c);
    EncodingNonEmpty(c);
    ReadCanonical(c, rest);
  }

  lemma {:induction false} ReadCanonical(c: Value, rest: seq<byte>)
    requires IsCanonical(c) && |Encoding(c).bytes| >= 1
    ensures ReadItem(Encoding(c).bytes + rest) == if Scans(c, 1) then Item(|Encoding(c).bytes|) else Unreadable
  {
    ScanNothing(rest);
    hide Encoding, IsCanonical, Scan, Scans;
    assert [] + [1] == [1] && [] + [0] == [0];
    ScanEncoded(c, rest, [], 0);
    ScanPop(rest, []);
  }

  lemma ScanNothing(s: seq<byte>)
    ensures Scan(s, []) == Some(0)
  {
  }

  /** What the scanner lets through, the decoder's depth limit admits. */
  lemma {:induction false} ScansDepth(v: Value, level: nat)
    requires Scans(v, level) && level <= 64
    ensures level + Depth(v) <= 64
    decreases v, 1
  {
    match v
    case Array(items) => ScansAllDepth(items, level + 1);
    case Map(entries) => ScansEntriesDepth(entries, level + 1);
    case _ =>
  }

  lemma {:induction false} ScansAllDepth(items: seq<Value>, level: nat)
    requires ScansAll(items, level) && level <= 64
    ensures level + DepthAll(items) <= 65
    decreases items, 0
  {
    hide Scans, Depth;
    if items != [] {
      ScansDepth(items[0], level);
      ScansAllDepth(items[1..], level);
    }
  }

  lemma {:induction false} ScansEntriesDepth(entries: seq<Entry>, level: nat)
    requires ScansEntries(entries, level) && level <= 64
    ensures level + DepthEntries(entries) <= 65
    decreases entries, 0
  {
    hide Scans, Depth;
    if entries != [] {
      assert entries[0].key < entries[0] && entries[0].val < entries[0];
      ScansDepth(entries[0].key, level);
      ScansDepth(entries[0].val, level);
      ScansEntriesDepth(entries[1..], level);
    }
  }

  // ------------------------------------------------------------------
  // Importing a list of items
  // ------------------------------------------------------------------

  /** The import of item values, stopping at the first the scanner refuses. */
  ghost function Fold(h: Hash, check: SigCheck, items: seq<Value>, st: ImportState): ImportState
    decreases |items|
  {
    if items == [] then st
    else if !Scans(items[0], 1) then Report1(st, UnreadableItem)
    else Fold(h, check, items[1..], Step(h, check, st, Some(items[0])))
  }

  ghost predicate AllItems(items: seq<Value>)
  {
    forall i :: 0 <= i < |items| ==> IsCanonical(items[i])
  }

  /** Streaming over encoded items is folding over the items. */
  lemma {:induction false} LoopIsFold(h: Hash, check: SigCheck, items: seq<Value>, st: ImportState)
    requires AllItems(items)
    ensures Loop(h, check, ItemBytes(items), st) == Fold(h, check, items, st)
    decreases |items|
  {
    hide Step, ReadItem, Encoding, IsCanonical, Scans, Decode;
    if items == [] {
      assert ReadItem([]) == Eof by { EmptyStream(); }
    } else {
      var v, rest := items[0], ItemBytes(items[1..]);
      ItemInFront(v, rest);
      if Scans(v, 1) {
        LoopIsFold(h, check, items[1..], Step(h, check, st, Some(v)));
      }
    }
  }

  lemma EmptyStream()
    ensures ReadItem([]) == Eof
  {
  }

  lemma {:induction false} ItemInFront(v: Value, rest: seq<byte>)
    requires IsCanonical(v)
    ensures var b := Encoding(v).bytes;
      ReadItem(b + rest) == (if Scans(v, 1) then Item(|b|) else Unreadable)
      && (b + rest)[..|b|] == b && (b + rest)[|b|..] == rest
      && (Scans(v, 1) ==> Decode(b) == Some(v))
  {
    CanonicalEncodes(v);
    CanonicalOfCanonical(v);
    ReadItemOfEncoding(v, rest);
    if Scans(v, 1) {
      ScansDepth(v, 1);
      EncodeThenDecode(v);
    }
  }

  // ------------------------------------------------------------------
  // Salvage is safe on arbitrary bytes
  // ------------------------------------------------------------------

  ghost predicate DistinctRecords(h: Hash, records: seq<Record>)
  {
    forall i, j :: 0 <= i < j < |records| ==> Id(h, records[i]) != Id(h, records[j])
  }

  ghost predicate DistinctBlobs(blobs: seq<BlobItem>)
  {
    forall i, j :: 0 <= i < j < |blobs| ==> blobs[i].id != blobs[j].id
  }

  /** What the importer keeps true from the first item to the last. */
  ghost predicate Sane(h: Hash, check: SigCheck, st: ImportState)
  {
    (forall i :: 0 <= i < |st.records| ==>
      Verifies(h, check, st.records[i]) && ToCbor(st.records[i]).Some? && Id(h, st.records[i]) in st.seenRecords)
    && (forall i :: 0 <= i < |st.blobs| ==> h(st.blobs[i].content) == st.blobs[i].id && st.blobs[i].id in st.seenBlobs)
    && DistinctRecords(h, st.records) && DistinctBlobs(st.blobs)
    && st.nRecords == |st.records| && st.nBlobs == |st.blobs|
  }

  /** Later states only add records, blobs and reports. */
  ghost predicate Extends(a: ImportState, b: ImportState)
  {
    a.records <= b.records && a.blobs <= b.blobs && a.skipped <= b.skipped
  }

  lemma {:induction false} FlushSane(h: Hash, check: SigCheck, st: ImportState)
    requires Sane(h, check, st)
    ensures Sane(h, check, Flush(h, st)) && Extends(st, Flush(h, st))
    ensures Flush(h, st).records == st.records && Flush(h, st).pending.None?
    ensures Flush(h, st).ended == st.ended && Flush(h, st).first == st.first
  {
    hide Verifies, Id;
  }

  lemma {:induction false} StepRecordSane(h: Hash, check: SigCheck, st: ImportState, arr: seq<Value>)
    requires Sane(h, check, st)
    ensures Sane(h, check, StepRecord(h, check, st, arr)) && Extends(st, StepRecord(h, check, st, arr))
  {
    hide Verifies, Id, FromCbor, ToCbor, Sane, Extends;
    ReportSane(h, check, st, BadRecordItem);
    ReportSane(h, check, st, InvalidRecord);
    SameStateExtends(st);
    var bytes := BytesAt(arr, 1);
    if bytes.Some? && FromCbor(bytes.value).Some? {
      FromCborThenToCbor(bytes.value);
      var r := FromCbor(bytes.value).value;
      if Verifies(h, check, r) && Id(h, r) !in st.seenRecords {
        AddRecordSane(h, check, st, r);
      }
    }
  }

  lemma SameStateExtends(st: ImportState)
    ensures Extends(st, st)
  {
  }

  lemma {:induction false} AddRecordSane(h: Hash, check: SigCheck, st: ImportState, r: Record)
    requires Sane(h, check, st) && Verifies(h, check, r) && ToCbor(r).Some? && Id(h, r) !in st.seenRecords
    ensures var next := st.(seenRecords := st.seenRecords + {Id(h, r)}, nRecords := st.nRecords + 1,
                            records := st.records + [r]);
      Sane(h, check, next) && Extends(st, next)
  {
    hide Verifies, Id, ToCbor;
  }

  lemma {:induction false} StepBlobSane(h: Hash, check: SigCheck, st: ImportState, arr: seq<Value>)
    requires Sane(h, check, st)
    ensures Sane(h, check, StepBlob(h, st, arr)) && Extends(st, StepBlob(h, st, arr))
  {
    hide Verifies, Id;
  }

  lemma {:induction false} StepPartSane(h: Hash, check: SigCheck, st: ImportState, arr: seq<Value>)
    requires Sane(h, check, st)
    ensures Sane(h, check, StepPart(h, st, arr)) && Extends(st, StepPart(h, st, arr))
  {
    hide Verifies, Id, Flush;
    var id, index, part := BytesAt(arr, 1), UintAt(arr, 2), BytesAt(arr, 3);
    if id.Some? && index.Some? && part.Some? && |id.value| == 32 {
      if st.pending.Some? {
        var p := st.pending.value;
        FlushSane(h, check, st.(pending := Some(Pending(p.id, p.next + 1, p.content + part.value))));
        FlushSane(h, check, Report1(st, PartNotContiguous));
      } else {
        FlushSane(h, check, st.(pending := Some(Pending(id.value, 1, part.value))));
      }
    }
  }

  lemma {:induction false} StepTaggedSane(h: Hash, check: SigCheck, st: ImportState, arr: seq<Value>)
    requires Sane(h, check, st)
    ensures Sane(h, check, StepTagged(h, check, st, arr)) && Extends(st, StepTagged(h, check, st, arr))
  {
    hide Sane, Tag, StepRecord, StepBlob, StepPart, StepEnd, Flush, Extends, Report1;
    var f := Flush(h, st);
    FlushSane(h, check, st);
    StepRecordSane(h, check, f, arr);
    StepBlobSane(h, check, f, arr);
    StepPartSane(h, check, st, arr);
    StepEndSane(h, check, f, arr);
    ReportSane(h, check, st, DuplicateHdr);
    ReportSane(h, check, st, UnknownTag);
    ExtendsTwice(st, f, StepRecord(h, check, f, arr));
    ExtendsTwice(st, f, StepBlob(h, f, arr));
    ExtendsTwice(st, f, StepEnd(f, arr));
  }

  lemma {:induction false} StepEndSane(h: Hash, check: SigCheck, st: ImportState, arr: seq<Value>)
    requires Sane(h, check, st)
    ensures Sane(h, check, StepEnd(st, arr)) && Extends(st, StepEnd(st, arr))
  {
    hide Verifies, Id;
  }

  lemma ExtendsTwice(a: ImportState, b: ImportState, c: ImportState)
    ensures Extends(a, b) && Extends(b, c) ==> Extends(a, c)
  {
  }

  lemma {:induction false} StepSane(h: Hash, check: SigCheck, st: ImportState, value: Option<Value>)
    requires Sane(h, check, st)
    ensures Sane(h, check, Step(h, check, st, value)) && Extends(st, Step(h, check, st, value))
  {
    hide Verifies, Id, StepTagged;
    if value.Some? && value.value.Array? {
      var arr := value.value.items;
      StepTaggedSane(h, check, st, arr);
      StepTaggedSane(h, check, Report1(st.(first := false), NotHdrFirst), arr);
    }
  }

  lemma {:induction false} LoopSane(h: Hash, check: SigCheck, s: seq<byte>, st: ImportState)
    requires Sane(h, check, st)
    ensures Sane(h, check, Loop(h, check, s, st)) && Extends(st, Loop(h, check, s, st))
    decreases |s|
  {
    hide Sane, Step, ReadItem, Decode;
    ReportSane(h, check, st, UnreadableItem);
    match ReadItem(s)
    case Item(n) =>
      var next := Step(h, check, st, Decode(s[..n]));
      StepSane(h, check, st, Decode(s[..n]));
      LoopSane(h, check, s[n..], next);
    case _ =>
  }

  lemma ReportSane(h: Hash, check: SigCheck, st: ImportState, r: Report)
    requires Sane(h, check, st)
    ensures Sane(h, check, Report1(st, r)) && Extends(st, Report1(st, r))
  {
    hide Verifies, Id;
  }

  /** Salvage is safe: on any byte string with a good magic, every record handed
      out verifies, every blob hashes to its id, and no id occurs twice. */
  lemma {:induction false} ImportIsSafe(h: Hash, check: SigCheck, s: seq<byte>)
    requires Import(h, check, s).Some?
    ensures var r := Import(h, check, s).value;
      (forall i :: 0 <= i < |r.records| ==> Verifies(h, check, r.records[i]))
      && (forall i :: 0 <= i < |r.blobs| ==> h(r.blobs[i].content) == r.blobs[i].id)
      && DistinctRecords(h, r.records) && DistinctBlobs(r.blobs)
  {
    hide Loop, Verifies, Id;
    LoopSane(h, check, s[5..], START);
    FlushSane(h, check, Loop(h, check, s[5..], START));
  }

  // ------------------------------------------------------------------
  // Truncation
  // ------------------------------------------------------------------

  lemma {:induction false} ReadHeadPrefix(p: seq<byte>, s: seq<byte>)
    requires p <= s && ReadHead(p).Some?
    ensures ReadHead(s) == ReadHead(p)
  {
    hide FromBigEndian;
    var width := ReadHead(p).value.used - 1;
    assert s[1..1 + width] == p[1..1 + width];
  }

  /** A complete item is read the same from a longer stream. */
  lemma {:induction false} ScanPrefix(p: seq<byte>, s: seq<byte>, stack: seq<nat>)
    requires p <= s && Scan(p, stack).Some?
    ensures Scan(s, stack) == Scan(p, stack)
    decreases |p|, |stack|
  {
    hide ReadHead, HeadEffect;
    if stack != [] {
      var last := |stack| - 1;
      if stack[last] == 0 {
        ScanPrefix(p, s, stack[..last]);
      } else {
        ReadHeadPrefix(p, s);
        var head := ReadHead(p).value;
        var rest := stack[..last] + [stack[last] - 1];
        match HeadEffect(head, |stack|)
        case Skip(n) => ScanPrefix(p[head.used + n..], s[head.used + n..], rest);
        case Push(count) => ScanPrefix(p[head.used..], s[head.used..], rest + [count]);
        case Refuse =>
      }
    }
  }

  lemma {:induction false} LoopPrefix(h: Hash, check: SigCheck, p: seq<byte>, s: seq<byte>, st: ImportState)
    requires p <= s && Sane(h, check, st)
    ensures Loop(h, check, p, st).records <= Loop(h, check, s, st).records
    decreases |p|
  {
    hide Sane, Step, Decode, Scan;
    match ReadItem(p)
    case Item(n) =>
      ScanPrefix(p, s, [1]);
      assert s[..n] == p[..n];
      StepSane(h, check, st, Decode(p[..n]));
      LoopPrefix(h, check, p[n..], s[n..], Step(h, check, st, Decode(p[..n])));
    case _ =>
      LoopSane(h, check, s, st);
  }

  /** Cutting a stream short anywhere after the magic loses records only from
      the end. */
  lemma {:induction false} TruncationKeepsPrefix(h: Hash, check: SigCheck, p: seq<byte>, s: seq<byte>)
    requires p <= s && Import(h, check, p).Some?
    ensures Import(h, check, s).Some?
    ensures Import(h, check, p).value.records <= Import(h, check, s).value.records
  {
    hide Loop;
    assert s[..5] == p[..5];
    LoopPrefix(h, check, p[5..], s[5..], START);
    LoopSane(h, check, p[5..], START);
    LoopSane(h, check, s[5..], START);
    FlushSane(h, check, Loop(h, check, p[5..], START));
    FlushSane(h, check, Loop(h, check, s[5..], START));
  }
}
