/** `bundle.rs` as it runs: the scanner's explicit stack and growing buffer, the
    importer's mutable salvage state, and the exporter's sequential writes. */
module BundleImpl {
  import opened Wrappers
  import opened Bytes
  import opened Codec
  import opened CodecImpl
  import opened Record
  import opened RecordImpl
  import opened Blob
  import opened Bundle
  import opened BundleProofs
  import opened BundleRoundTrip
  import CodecProofs

  /** A byte stream read front to back. */
  class ByteStream {
    var data: seq<byte>

    constructor (data: seq<byte>)
      ensures this.data == data
    {
      this.data := data;
    }

    /** `read_exact`: all of `n` bytes or a failure. */
    method ReadExact(n: nat) returns (r: Option<seq<byte>>)
      modifies this
      ensures r.Some? <==> n <= |old(data)|
      ensures r.Some? ==> r.value == old(data)[..n] && data == old(data)[n..]
      ensures r.None? ==> data == []
    {
      if n > |data| {
        data := [];
        return None;
      }
      r := Some(data[..n]);
      data := data[n..];
    }
  }

  datatype ItemBytesRead = AtEnd | Failed | Read(bytes: seq<byte>)

  lemma {:induction false} TopOf(s: seq<byte>, stack: seq<nat>)
    requires stack != []
    ensures var last := |stack| - 1; var base := stack[..last];
      if stack[last] == 0 then Scan(s, stack) == Scan(s, base)
      else
        var rest := base + [stack[last] - 1]; var head := ReadHead(s);
        if head.None? then Scan(s, stack) == None
        else
          Scan(s, stack)
          == match HeadEffect(head.value, |stack|)
             case Refuse => None
             case Skip(n) =>
               if head.value.used + n > |s| then None
               else Plus(head.value.used + n, Scan(s[head.value.used + n..], rest))
             case Push(count) => Plus(head.value.used, Scan(s[head.value.used..], rest + [count]))
  {
    hide ReadHead, HeadEffect;
  }

  /** Read one head, with its argument bytes. */
  method ReadRawHead(input: ByteStream) returns (r: Option<RawHead>, bytes: seq<byte>)
    requires input.data != []
    modifies input
    ensures r == ReadHead(old(input.data))
    ensures r.Some? ==> bytes == old(input.data)[..r.value.used] && input.data == old(input.data)[r.value.used..]
  {
    bytes := [];
    ghost var s := input.data;
    var first := input.ReadExact(1);
    var head := first.value[0];
    var major, additional := head / 32, head % 32;
    bytes := [head];
    if additional < 24 {
      return Some(RawHead(major, additional, 1)), bytes;
    }
    if additional > 27 {
      return None, bytes;
    }
    var width := if additional == 24 then 1 else if additional == 25 then 2 else if additional == 26 then 4 else 8;
    var arg := input.ReadExact(width);
    if arg.None? {
      return None, bytes;
    }
    assert arg.value == s[1..1 + width];
    Pow256Values();
    bytes := bytes + arg.value;
    r := Some(RawHead(major, FromBigEndian(arg.value), 1 + width));
  }

  /** One head of an item, with the string bytes that belong to it; `pushed`
      tells how many items it announces. */
  datatype HeadRead = BadHead | GoodHead(bytes: seq<byte>, pushed: Option<nat>)

  ghost function HeadAt(s: seq<byte>, depth: nat): HeadRead
  {
    var head := ReadHead(s);
    if head.None? then BadHead
    else
      match HeadEffect(head.value, depth)
      case Refuse => BadHead
      case Skip(n) =>
        if head.value.used + n > |s| then BadHead else GoodHead(s[..head.value.used + n], None)
      case Push(count) => GoodHead(s[..head.value.used], Some(count))
  }

  method ReadOneHead(input: ByteStream, depth: nat) returns (r: HeadRead)
    requires input.data != []
    modifies input
    ensures r == HeadAt(old(input.data), depth)
    ensures r.GoodHead? ==> 1 <= |r.bytes| <= |old(input.data)| && input.data == old(input.data)[|r.bytes|..]
  {
    hide ReadHead, HeadEffect;
    ghost var s := input.data;
    var head, bytes := ReadRawHead(input);
    if head.None? {
      return BadHead;
    }
    match HeadEffect(head.value, depth)
    case Refuse => r := BadHead;
    case Skip(n) =>
      var data := input.ReadExact(n);
      if data.None? {
        return BadHead;
      }
      r := GoodHead(bytes + data.value, None);
    case Push(count) => r := GoodHead(bytes, Some(count));
  }

  lemma {:induction false} ScanTurn(s: seq<byte>, stack: seq<nat>)
    requires stack != [] && stack[|stack| - 1] > 0
    ensures var last := |stack| - 1; var rest := stack[..last] + [stack[last] - 1]; var head := HeadAt(s, |stack|);
      Scan(s, stack)
      == if head.BadHead? then None
         else Plus(|head.bytes|,
                   Scan(s[|head.bytes|..], if head.pushed.None? then rest else rest + [head.pushed.value]))
  {
    hide ReadHead, HeadEffect, Scan;
    TopOf(s, stack);
  }

  /** `read_item`: the bytes of the item in front, never fewer nor more. */
  method ReadOneItem(input: ByteStream) returns (r: ItemBytesRead)
    modifies input
    ensures match ReadItem(old(input.data))
            case Eof => r == AtEnd
            case Unreadable => r == Failed
            case Item(n) => r == Read(old(input.data)[..n]) && input.data == old(input.data)[n..]
  {
    hide Scan, HeadAt;
    ghost var s := input.data;
    var buf: seq<byte> := [];
    var stack: seq<nat> := [1];
    var firstByte := true;
    PlusZero(Scan(s, [1]));
    while stack != []
      invariant s == buf + input.data
      invariant Plus(|buf|, Scan(input.data, stack)) == Scan(s, [1])
      invariant firstByte ==> buf == [] && stack == [1]
      invariant !firstByte ==> buf != []
      decreases |input.data|, |stack|
    {
      ghost var here := input.data;
      var last := |stack| - 1;
      if stack[last] == 0 {
        ScanEmptied(here, stack);
        stack := stack[..last];
        continue;
      }
      ScanTurn(here, stack);
      var depth := |stack|;
      stack := stack[..last] + [stack[last] - 1];
      if input.data == [] {
        NoHead(depth);
        if firstByte {
          return AtEnd;
        }
        return Failed;
      }
      var head := ReadOneHead(input, depth);
      if head.BadHead? {
        return Failed;
      }
      firstByte := false;
      HeadIsPrefix(here, depth);
      Regroup(buf, head.bytes, here);
      buf := buf + head.bytes;
      if head.pushed.Some? {
        stack := stack + [head.pushed.value];
      }
    }
    NothingExpected(input.data);
    assert s[..|buf|] == buf && s[|buf|..] == input.data;
    r := Read(buf);
  }

  lemma HeadIsPrefix(s: seq<byte>, depth: nat)
    ensures var head := HeadAt(s, depth); head.GoodHead? ==> head.bytes == s[..|head.bytes|]
  {
    hide ReadHead, HeadEffect;
  }

  lemma Regroup(buf: seq<byte>, bytes: seq<byte>, here: seq<byte>)
    requires |bytes| <= |here| && bytes == here[..|bytes|]
    ensures buf + here == buf + bytes + here[|bytes|..]
  {
  }

  lemma ScanEmptied(s: seq<byte>, stack: seq<nat>)
    requires stack != [] && stack[|stack| - 1] == 0
    ensures Scan(s, stack) == Scan(s, stack[..|stack| - 1])
  {
    TopOf(s, stack);
  }

  lemma PlusZero(r: Option<nat>)
    ensures Plus(0, r) == r
  {
  }

  lemma NoHead(depth: nat)
    ensures HeadAt([], depth) == BadHead
  {
  }

  lemma NothingExpected(s: seq<byte>)
    ensures Scan(s, []) == Some(0)
  {
  }

  // ------------------------------------------------------------------
  // Import
  // ------------------------------------------------------------------

  class Importer {
    const h: Hash
    const check: SigCheck
    var records: seq<Record>
    var blobs: seq<BlobItem>
    var skipped: seq<Report>
    var seenRecords: set<Digest>
    var seenBlobs: set<Digest>
    var nRecords: nat
    var nBlobs: nat
    var pending: Option<Pending>
    var first: bool
    var ended: bool

    ghost function State(): ImportState
      reads this
    {
      ImportState(records, blobs, skipped, seenRecords, seenBlobs, nRecords, nBlobs, pending, first, ended)
    }

    constructor (h: Hash, check: SigCheck)
      ensures this.h == h && this.check == check && State() == START
    {
      this.h, this.check := h, check;
      records, blobs, skipped, seenRecords, seenBlobs := [], [], [], {}, {};
      nRecords, nBlobs, pending, first, ended := 0, 0, None, true, false;
    }

    method Skipped(r: Report)
      modifies this`skipped
      ensures State() == Report1(old(State()), r)
    {
      skipped := skipped + [r];
    }

    method Emit(id: Digest, content: seq<byte>)
      modifies this`seenBlobs, this`nBlobs, this`blobs
      ensures State() == EmitBlob(old(State()), id, content)
    {
      if id !in seenBlobs {
        seenBlobs := seenBlobs + {id};
        nBlobs := nBlobs + 1;
        blobs := blobs + [BlobItem(id, content)];
      }
    }

    method FlushParts()
      modifies this
      ensures State() == Flush(h, old(State()))
    {
      if pending.None? { return; }
      var p := pending.value;
      pending := None;
      if h(p.content) == p.id {
        Emit(p.id, p.content);
      } else {
        Skipped(PartedHashMismatch);
      }
    }

    method TakeRecord(arr: seq<Value>)
      modifies this
      ensures State() == StepRecord(h, check, old(State()), arr)
    {
      var bytes := BytesAt(arr, 1);
      if bytes.None? {
        Skipped(BadRecordItem);
        return;
      }
      var r := ReadRecord(bytes.value);
      if r.None? || !Verifies(h, check, r.value) {
        Skipped(InvalidRecord);
        return;
      }
      var id := Id(h, r.value);
      if id !in seenRecords {
        seenRecords := seenRecords + {id};
        nRecords := nRecords + 1;
        records := records + [r.value];
      }
    }

    method TakeBlob(arr: seq<Value>)
      modifies this
      ensures State() == StepBlob(h, old(State()), arr)
    {
      var id, content := BytesAt(arr, 1), BytesAt(arr, 2);
      if id.None? || content.None? || |id.value| != 32 {
        Skipped(BadBlobItem);
      } else if h(content.value) != id.value {
        Skipped(BlobHashMismatch);
      } else {
        Emit(id.value, content.value);
      }
    }

    method TakePart(arr: seq<Value>)
      modifies this
      ensures State() == StepPart(h, old(State()), arr)
    {
      var id, index, part := BytesAt(arr, 1), UintAt(arr, 2), BytesAt(arr, 3);
      if id.None? || index.None? || part.None? || |id.value| != 32 {
        Skipped(BadPartItem);
        return;
      }
      if pending.Some? {
        if pending.value.id == id.value && pending.value.next == index.value {
          pending := Some(Pending(pending.value.id, pending.value.next + 1, pending.value.content + part.value));
          if |part.value| < CHUNK_SIZE {
            FlushParts();
          }
        } else {
          Skipped(PartNotContiguous);
          FlushParts();
          pending := None;
        }
      } else if index.value == 0 {
        pending := Some(Pending(id.value, 1, part.value));
        if |part.value| < CHUNK_SIZE {
          FlushParts();
        }
      } else {
        Skipped(PartNotFirst);
      }
    }

    method TakeEnd(arr: seq<Value>)
      modifies this
      ensures State() == StepEnd(old(State()), arr)
    {
      ended := true;
      var rc, bc := UintAt(arr, 1), UintAt(arr, 2);
      if rc.None? || bc.None? {
        Skipped(BadEndItem);
      } else if rc.value != nRecords || bc.value != nBlobs {
        Skipped(EndCountMismatch);
      }
    }

    /** One turn of the import loop. */
    method TakeItem(itemBytes: seq<byte>)
      modifies this
      ensures State() == Step(h, check, old(State()), Decode(itemBytes))
    {
      hide Decode, Flush, StepRecord, StepBlob, StepPart, StepEnd, Tag;
      if ended {
        Skipped(AfterEnd);
        return;
      }
      var value := DecodeCanonical(itemBytes);
      if value.None? {
        Skipped(Undecodable);
        return;
      }
      if !value.value.Array? {
        Skipped(NotAnArray);
        return;
      }
      var arr := value.value.items;
      var tag := Tag(arr);
      if first {
        first := false;
        if tag == "hdr" {
          return;
        }
        Skipped(NotHdrFirst);
      }
      if tag == "hdr" {
        Skipped(DuplicateHdr);
      } else if tag == "r" {
        FlushParts();
        TakeRecord(arr);
      } else if tag == "b" {
        FlushParts();
        TakeBlob(arr);
      } else if tag == "bp" {
        TakePart(arr);
      } else if tag == "end" {
        FlushParts();
        TakeEnd(arr);
      } else {
        Skipped(UnknownTag);
      }
    }
  }

  /** The whole import. What it hands out verifies, hashes to its id and is free of
      repetitions, for any input bytes. */
  method ImportStreaming(h: Hash, check: SigCheck, s: seq<byte>) returns (r: Option<ImportResult>)
    ensures r == Import(h, check, s)
    ensures r.Some? ==>
      (forall i :: 0 <= i < |r.value.records| ==> Verifies(h, check, r.value.records[i]))
      && (forall i :: 0 <= i < |r.value.blobs| ==> h(r.value.blobs[i].content) == r.value.blobs[i].id)
      && DistinctRecords(h, r.value.records) && DistinctBlobs(r.value.blobs)
  {
    hide Step, Flush, Verifies, Id, ReadItem, Decode;
    var input := new ByteStream(s);
    var magic := input.ReadExact(5);
    if magic.None? || magic.value != MAGIC {
      return None;
    }
    var imp := new Importer(h, check);
    while true
      invariant fresh(imp) && fresh(input) && imp.h == h && imp.check == check
      invariant Loop(h, check, s[5..], START) == Loop(h, check, input.data, imp.State())
      decreases |input.data|
    {
      LoopTurn(h, check, input.data, imp.State());
      var item := ReadOneItem(input);
      if item.AtEnd? {
        break;
      }
      if item.Failed? {
        imp.Skipped(UnreadableItem);
        break;
      }
      imp.TakeItem(item.bytes);
    }
    imp.FlushParts();
    ImportIsSafe(h, check, s);
    r := Some(ImportResult(imp.records, imp.blobs, imp.skipped, !imp.ended));
  }

  lemma LoopTurn(h: Hash, check: SigCheck, s: seq<byte>, st: ImportState)
    ensures Loop(h, check, s, st)
         == match ReadItem(s)
            case Eof => st
            case Unreadable => Report1(st, UnreadableItem)
            case Item(n) => Loop(h, check, s[n..], Step(h, check, st, Decode(s[..n])))
  {
    hide Step, ReadItem, Decode;
  }

  // ------------------------------------------------------------------
  // Export
  // ------------------------------------------------------------------

  method WriteItem(out: Buffer, item: Value)
    modifies out
    requires Encode(item).Some?
    ensures out.bytes == old(out.bytes) + Encoding(item).bytes
  {
    var ok := EncodeValue(item, out);
  }

  lemma {:induction false} ItemBytesAppend(a: seq<Value>, b: seq<Value>)
    ensures ItemBytes(a + b) == ItemBytes(a) + ItemBytes(b)
    decreases |a|
  {
    hide Encoding;
    if a == [] {
      assert a + b == b;
    } else {
      ItemBytesAppend(a[1..], b);
      assert (a + b)[1..] == a[1..] + b;
    }
  }

  method WriteRecords(out: Buffer, records: seq<Record>)
    requires forall i :: 0 <= i < |records| ==> Exportable(records[i])
    modifies out
    ensures out.bytes == old(out.bytes) + ItemBytes(RecordItems(records))
  {
    hide Encoding, ToCbor, RecordItem, Encode;
    var rest := records;
    while rest != []
      invariant forall i :: 0 <= i < |rest| ==> Exportable(rest[i])
      invariant out.bytes + ItemBytes(RecordItems(rest)) == old(out.bytes) + ItemBytes(RecordItems(records))
      decreases |rest|
    {
      assert Exportable(rest[0]);
      var item := RecordItem(ToCbor(rest[0]).value);
      RecordItemEncodes(ToCbor(rest[0]).value);
      WriteItem(out, item);
      rest := rest[1..];
    }
  }

  lemma RecordItemEncodes(bytes: Vec<byte>)
    ensures Encode(RecordItem(bytes)).Some?
  {
    RecordItemFine(bytes);
    CodecProofs.CanonicalEncodes(RecordItem(bytes));
  }

  method WriteParts(out: Buffer, id: Digest, parts: seq<seq<byte>>)
    requires |parts| < U64_SIZE && forall i :: 0 <= i < |parts| ==> |parts[i]| <= CHUNK_SIZE
    modifies out
    ensures out.bytes == old(out.bytes) + ItemBytes(PartItems(id, 0, parts))
  {
    hide Encoding, IsCanonical, PartItem, Encode;
    var rest, index := parts, 0;
    while rest != []
      invariant index + |rest| == |parts| && forall i :: 0 <= i < |rest| ==> |rest[i]| <= CHUNK_SIZE
      invariant out.bytes + ItemBytes(PartItems(id, index, rest)) == old(out.bytes) + ItemBytes(PartItems(id, 0, parts))
      decreases |rest|
    {
      PartEncodes(id, index, rest[0]);
      WriteItem(out, PartItem(id, index, rest[0]));
      rest, index := rest[1..], index + 1;
    }
  }

  lemma PartEncodes(id: Digest, index: u64, part: Vec<byte>)
    requires |part| <= CHUNK_SIZE
    ensures Encode(PartItem(id, index, part)).Some?
  {
    PartFine(id, index, part);
    FineScans(PartItem(id, index, part));
    CodecProofs.CanonicalEncodes(PartItem(id, index, part));
  }

  lemma WholeBlobEncodes(b: Input)
    requires !Parted(b)
    ensures Encode(WholeBlobItem(b.id, b.content)).Some?
  {
    WholeBlobFine(b);
    FineScans(WholeBlobItem(b.id, b.content));
    CodecProofs.CanonicalEncodes(WholeBlobItem(b.id, b.content));
  }

  /** One blob, whole or in parts. */
  method WriteBlob(out: Buffer, b: Input)
    modifies out
    ensures out.bytes == old(out.bytes) + ItemBytes(BlobItems(b))
  {
    hide Encoding, IsCanonical, Chunks, WholeBlobItem, Encode;
    ChunkSizes(b.content);
    if |b.content| > PART_SPLIT_THRESHOLD {
      WriteParts(out, b.id, Chunks(b.content));
    } else {
      WholeBlobEncodes(b);
      OneItem(WholeBlobItem(b.id, b.content));
      WriteItem(out, WholeBlobItem(b.id, b.content));
    }
  }

  lemma NoBlobsLeft(distinct: set<Digest>)
    ensures Distinct([], distinct) == [] && ItemBytes(AllBlobItems([])) == []
  {
  }

  /** The distinct blobs, unless one does not hash to its id. */
  method WriteBlobs(h: Hash, out: Buffer, blobs: seq<Input>) returns (n: Option<nat>)
    modifies out
    ensures n.None? <==> exists b :: b in blobs && h(b.content) != b.id
    ensures n.Some? ==> n.value == |Distinct(blobs, {})|
    ensures n.Some? ==> out.bytes == old(out.bytes) + ItemBytes(AllBlobItems(Distinct(blobs, {})))
  {
    hide Encoding, BlobItems, Distinct, AllBlobItems, ItemBytes;
    var distinct: set<Digest> := {};
    ghost var d := Distinct(blobs, {});
    var rest := blobs;
    while rest != []
      invariant (forall b :: b in blobs ==> h(b.content) == b.id || b in rest) && forall b :: b in rest ==> b in blobs
      invariant |d| == |distinct| + |Distinct(rest, distinct)|
      invariant out.bytes + ItemBytes(AllBlobItems(Distinct(rest, distinct))) == old(out.bytes) + ItemBytes(AllBlobItems(d))
      decreases |rest|
    {
      var b := rest[0];
      if h(b.content) != b.id {
        assert b in blobs;
        return None;
      }
      BlobsStep(rest, distinct);
      rest := rest[1..];
      if b.id in distinct { continue; }
      distinct := distinct + {b.id};
      WriteBlob(out, b);
    }
    NoBlobsLeft(distinct);
    n := Some(|distinct|);
  }

  /** `Bundle::export`: the bundle, unless some blob does not hash to its id. */
  method ExportBundle(h: Hash, records: Vec<Record>, blobs: Vec<Input>) returns (r: Option<seq<byte>>)
    requires forall i :: 0 <= i < |records| ==> Exportable(records[i])
    ensures r == Export(h, records, blobs)
  {
    hide Encoding, HdrItem, EndItem, Encode, RecordItems, AllBlobItems, Distinct, ItemBytes;
    ghost var d := Distinct(blobs, {});
    var out := new Buffer();
    out.Extend(MAGIC);
    HdrEncodes();
    WriteItem(out, HdrItem());
    WriteRecords(out, records);
    var n := WriteBlobs(h, out, blobs);
    if n.None? {
      return None;
    }
    EndEncodes(|records|, n.value);
    WriteItem(out, EndItem(|records|, n.value));
    AssembledBytes(records, d);
    var a, b, c, e := Encoding(HdrItem()).bytes, ItemBytes(RecordItems(records)), ItemBytes(AllBlobItems(d)),
                      Encoding(EndItem(|records|, |d|)).bytes;
    assert MAGIC + a + b + c + e == MAGIC + (a + b + c + e);
    assert out.bytes == MAGIC + a + b + c + e;
    assert ExportItems(records, blobs) == [HdrItem()] + RecordItems(records) + AllBlobItems(d) + [EndItem(|records|, |d|)];
    r := Some(out.bytes);
  }

  lemma HdrEncodes()
    ensures Encode(HdrItem()).Some?
  {
    HdrFine();
    FineScans(HdrItem());
    CodecProofs.CanonicalEncodes(HdrItem());
  }

  lemma EndEncodes(rc: u64, bc: u64)
    ensures Encode(EndItem(rc, bc)).Some?
  {
    EndFine(rc, bc);
    FineScans(EndItem(rc, bc));
    CodecProofs.CanonicalEncodes(EndItem(rc, bc));
  }

  lemma BlobsStep(rest: seq<Input>, distinct: set<Digest>)
    requires rest != []
    ensures var t := rest[1..]; var b := rest[0];
      if b.id in distinct then Distinct(rest, distinct) == Distinct(t, distinct)
      else |Distinct(rest, distinct)| == 1 + |Distinct(t, distinct + {b.id})|
           && ItemBytes(AllBlobItems(Distinct(rest, distinct)))
              == ItemBytes(BlobItems(b)) + ItemBytes(AllBlobItems(Distinct(t, distinct + {b.id})))
  {
    hide Encoding, BlobItems;
    if rest[0].id !in distinct {
      var d := Distinct(rest[1..], distinct + {rest[0].id});
      assert Distinct(rest, distinct)[1..] == d;
      ItemBytesAppend(BlobItems(rest[0]), AllBlobItems(d));
    }
  }

  lemma AssembledBytes(records: Vec<Record>, d: Vec<Input>)
    requires forall i :: 0 <= i < |records| ==> Exportable(records[i])
    ensures ItemBytes([HdrItem()] + RecordItems(records) + AllBlobItems(d) + [EndItem(|records|, |d|)])
         == Encoding(HdrItem()).bytes + ItemBytes(RecordItems(records)) + ItemBytes(AllBlobItems(d))
            + Encoding(EndItem(|records|, |d|)).bytes
  {
    hide Encoding, HdrItem, EndItem, RecordItems, AllBlobItems;
    var hdr, end := HdrItem(), EndItem(|records|, |d|);
    ItemBytesAppend([hdr] + RecordItems(records) + AllBlobItems(d), [end]);
    ItemBytesAppend([hdr] + RecordItems(records), AllBlobItems(d));
    ItemBytesAppend([hdr], RecordItems(records));
    OneItem(hdr);
    OneItem(end);
  }

  lemma OneItem(v: Value)
    ensures ItemBytes([v]) == Encoding(v).bytes
  {
    hide Encoding;
    assert [v][1..] == [];
    assert ItemBytes([]) == [];
  }
}
