/** What a damaged item costs. */
module Salvage {
  import opened Wrappers
  import opened Bytes
  import opened Codec
  import opened Record
  import opened Blob
  import opened Bundle
  import opened BundleProofs

  // ------------------------------------------------------------------
  // Reports do not influence anything else
  // ------------------------------------------------------------------

  /** `b` goes from `t` as `a` goes from `s`: the same new reports, everything else
      equal. */
  ghost predicate Alike(s: ImportState, a: ImportState, t: ImportState, b: ImportState)
  {
    s.skipped <= a.skipped && b == a.(skipped := t.skipped + a.skipped[|s.skipped|..])
  }

  ghost function Having(st: ImportState, reports: seq<Report>): ImportState { st.(skipped := reports) }

  lemma {:induction false} AlikeTwice(s: ImportState, a: ImportState, c: ImportState, x: seq<Report>, y: seq<Report>, d: ImportState)
    requires Alike(s, a, Having(s, x), Having(a, y)) && Alike(a, c, Having(a, y), d)
    ensures Alike(s, c, Having(s, x), d)
  {
    assert c.skipped[|s.skipped|..] == a.skipped[|s.skipped|..] + c.skipped[|a.skipped|..];
  }

  lemma ReportAlike(st: ImportState, x: seq<Report>, r: Report)
    ensures Alike(st, Report1(st, r), Having(st, x), Report1(Having(st, x), r))
  {
  }

  lemma {:induction false} FlushAlike(h: Hash, st: ImportState, x: seq<Report>)
    ensures Alike(st, Flush(h, st), Having(st, x), Flush(h, Having(st, x)))
  {
  }

  lemma {:induction false} RecordAlike(h: Hash, check: SigCheck, st: ImportState, x: seq<Report>, arr: seq<Value>)
    ensures Alike(st, StepRecord(h, check, st, arr), Having(st, x), StepRecord(h, check, Having(st, x), arr))
  {
    hide FromCbor, Verifies, Id, BytesAt;
  }

  lemma {:induction false} BlobAlike(h: Hash, st: ImportState, x: seq<Report>, arr: seq<Value>)
    ensures Alike(st, StepBlob(h, st, arr), Having(st, x), StepBlob(h, Having(st, x), arr))
  {
    hide BytesAt;
  }

  lemma {:induction false} PartAlike(h: Hash, st: ImportState, x: seq<Report>, arr: seq<Value>)
    ensures Alike(st, StepPart(h, st, arr), Having(st, x), StepPart(h, Having(st, x), arr))
  {
    hide BytesAt, UintAt, Flush;
    var id, index, part := BytesAt(arr, 1), UintAt(arr, 2), BytesAt(arr, 3);
    if id.Some? && index.Some? && part.Some? && |id.value| == 32 {
      if st.pending.Some? {
        var p := st.pending.value;
        FlushAlike(h, st.(pending := Some(Pending(p.id, p.next + 1, p.content + part.value))), x);
        FlushAlike(h, Report1(st, PartNotContiguous), x + [PartNotContiguous]);
        AlikeTwice(st, Report1(st, PartNotContiguous), Flush(h, Report1(st, PartNotContiguous)), x, x + [PartNotContiguous],
                   Flush(h, Report1(Having(st, x), PartNotContiguous)));
      } else {
        FlushAlike(h, st.(pending := Some(Pending(id.value, 1, part.value))), x);
      }
    }
  }

  lemma {:induction false} EndAlike(st: ImportState, x: seq<Report>, arr: seq<Value>)
    ensures Alike(st, StepEnd(st, arr), Having(st, x), StepEnd(Having(st, x), arr))
  {
    hide UintAt;
  }

  lemma {:induction false} TaggedAlike(h: Hash, check: SigCheck, st: ImportState, x: seq<Report>, arr: seq<Value>)
    ensures Alike(st, StepTagged(h, check, st, arr), Having(st, x), StepTagged(h, check, Having(st, x), arr))
  {
    hide Tag, Flush, StepRecord, StepBlob, StepPart, StepEnd, Alike;
    var f := Flush(h, st);
    var g := Flush(h, Having(st, x));
    FlushAlike(h, st, x);
    FlushedHaving(h, st, x);
    RecordAlike(h, check, f, g.skipped, arr);
    BlobAlike(h, f, g.skipped, arr);
    EndAlike(f, g.skipped, arr);
    PartAlike(h, st, x, arr);
    ReportAlike(st, x, DuplicateHdr);
    ReportAlike(st, x, UnknownTag);
    if Tag(arr) == "r" {
      AlikeTwice(st, f, StepRecord(h, check, f, arr), x, g.skipped, StepRecord(h, check, g, arr));
    } else if Tag(arr) == "b" {
      AlikeTwice(st, f, StepBlob(h, f, arr), x, g.skipped, StepBlob(h, g, arr));
    } else if Tag(arr) == "end" {
      AlikeTwice(st, f, StepEnd(f, arr), x, g.skipped, StepEnd(g, arr));
    }
  }

  lemma FlushedHaving(h: Hash, st: ImportState, x: seq<Report>)
    ensures Flush(h, Having(st, x)) == Having(Flush(h, st), Flush(h, Having(st, x)).skipped)
  {
  }

  lemma {:induction false} StepAlike(h: Hash, check: SigCheck, st: ImportState, x: seq<Report>, v: Option<Value>)
    ensures Alike(st, Step(h, check, st, v), Having(st, x), Step(h, check, Having(st, x), v))
  {
    hide Tag, StepTagged;
    if v.Some? && v.value.Array? {
      var arr := v.value.items;
      TaggedAlike(h, check, st, x, arr);
      var st1, y := Report1(st.(first := false), NotHdrFirst), x + [NotHdrFirst];
      TaggedAlike(h, check, st1, y, arr);
      assert Having(st1, y) == Report1(Having(st, x).(first := false), NotHdrFirst);
      AfterReport(st, x, NotHdrFirst, StepTagged(h, check, st1, arr), StepTagged(h, check, Having(st1, y), arr));
    }
  }

  lemma AfterReport(st: ImportState, x: seq<Report>, r: Report, c: ImportState, d: ImportState)
    requires var st1 := Report1(st.(first := false), r); Alike(st1, c, Having(st1, x + [r]), d)
    ensures Alike(st, c, Having(st, x), d)
  {
    var st1 := Report1(st.(first := false), r);
    assert c.skipped[|st.skipped|..] == [r] + c.skipped[|st1.skipped|..];
  }

  lemma {:induction false} LoopAlike(h: Hash, check: SigCheck, s: seq<byte>, st: ImportState, x: seq<Report>)
    ensures Alike(st, Loop(h, check, s, st), Having(st, x), Loop(h, check, s, Having(st, x)))
    decreases |s|
  {
    hide Step, ReadItem, Decode, Alike;
    match ReadItem(s)
    case Item(n) =>
      var v := Decode(s[..n]);
      var next, other := Step(h, check, st, v), Step(h, check, Having(st, x), v);
      StepAlike(h, check, st, x, v);
      AlikeIsHaving(st, next, x, other);
      LoopAlike(h, check, s[n..], next, other.skipped);
      AlikeTwice(st, next, Loop(h, check, s[n..], next), x, other.skipped, Loop(h, check, s[n..], other));
    case Unreadable => ReportAlike(st, x, UnreadableItem);
    case Eof => NothingAlike(st, x);
  }

  lemma AlikeIsHaving(s: ImportState, a: ImportState, x: seq<Report>, b: ImportState)
    requires Alike(s, a, Having(s, x), b)
    ensures b == Having(a, b.skipped)
  {
  }

  lemma NothingAlike(st: ImportState, x: seq<Report>)
    ensures Alike(st, st, Having(st, x), Having(st, x))
  {
    assert st.skipped[|st.skipped|..] == [];
  }

  // ------------------------------------------------------------------
  // Streams of items
  // ------------------------------------------------------------------

  /** The stream ends where an item ends. */
  ghost predicate WholeItems(s: seq<byte>)
    decreases |s|
  {
    s == [] || (ReadItem(s).Item? && WholeItems(s[ReadItem(s).n..]))
  }

  /** The items of a stream, decoded, up to the first that cannot be read. */
  function ItemsOf(s: seq<byte>): seq<Option<Value>>
    decreases |s|
  {
    match ReadItem(s)
    case Item(n) => [Decode(s[..n])] + ItemsOf(s[n..])
    case _ => []
  }

  lemma {:induction false} ItemBefore(p: seq<byte>, s: seq<byte>)
    requires ReadItem(p).Item?
    ensures var n := ReadItem(p).n;
      ReadItem(p + s) == Item(n) && (p + s)[..n] == p[..n] && (p + s)[n..] == p[n..] + s
  {
    hide Scan;
    ScanPrefix(p, p + s, [1]);
  }

  lemma {:induction false} LoopSplits(h: Hash, check: SigCheck, p: seq<byte>, s: seq<byte>, st: ImportState)
    requires WholeItems(p)
    ensures Loop(h, check, p + s, st) == Loop(h, check, s, Loop(h, check, p, st))
    decreases |p|
  {
    hide Step, ReadItem, Decode;
    if p == [] {
      EmptyStream();
      assert p + s == s;
    } else {
      ItemBefore(p, s);
      var n := ReadItem(p).n;
      LoopSplits(h, check, p[n..], s, Step(h, check, st, Decode(p[..n])));
    }
  }

  /** An array whose first element is the text `tag`. */
  predicate Tagged(v: Option<Value>, tag: string)
  {
    v.Some? && v.value.Array? && v.value.items != [] && v.value.items[0].Text? && v.value.items[0].s == tag
  }

  predicate IsArray(v: Option<Value>) { v.Some? && v.value.Array? }

  predicate AnyTagged(items: seq<Option<Value>>, tag: string)
  {
    exists i :: 0 <= i < |items| && Tagged(items[i], tag)
  }

  predicate AnyArray(items: seq<Option<Value>>)
  {
    exists i :: 0 <= i < |items| && IsArray(items[i])
  }

  lemma TagIs(v: Value)
    requires v.Array?
    ensures forall tag: string :: tag != "" ==> (Tag(v.items) == tag <==> Tagged(Some(v), tag))
  {
  }

  /** What a step does to the flags. */
  lemma {:induction false} StepFlags(h: Hash, check: SigCheck, st: ImportState, v: Option<Value>)
    ensures var next := Step(h, check, st, v);
      next.ended == (st.ended || Tagged(v, "end"))
      && (!st.ended ==> next.first == (st.first && !IsArray(v)))
  {
    hide StepRecord, StepBlob, StepPart, StepEnd, Flush;
    if v.Some? && v.value.Array? {
      var arr := v.value.items;
      TagIs(v.value);
      SameFlags(h, check, st, arr);
      SameFlags(h, check, st.(first := false), arr);
      SameFlags(h, check, Report1(st.(first := false), NotHdrFirst), arr);
    }
  }

  lemma SameFlags(h: Hash, check: SigCheck, st: ImportState, arr: seq<Value>)
    ensures var t := StepRecord(h, check, Flush(h, st), arr); t.first == st.first && t.ended == st.ended
    ensures var t := StepBlob(h, Flush(h, st), arr); t.first == st.first && t.ended == st.ended
    ensures var t := StepPart(h, st, arr); t.first == st.first && t.ended == st.ended
    ensures var t := StepEnd(Flush(h, st), arr); t.first == st.first && t.ended
  {
    hide FromCbor, Verifies, Id, BytesAt, UintAt, Flush, StepPart;
    FlushFlags(h, st);
    PartFlags(h, st, arr);
  }

  lemma FlushFlags(h: Hash, st: ImportState)
    ensures Flush(h, st).first == st.first && Flush(h, st).ended == st.ended
  {
  }

  lemma {:induction false} PartFlags(h: Hash, st: ImportState, arr: seq<Value>)
    ensures StepPart(h, st, arr).first == st.first && StepPart(h, st, arr).ended == st.ended
  {
    hide BytesAt, UintAt, Flush;
    forall x: ImportState
      ensures Flush(h, x).first == x.first && Flush(h, x).ended == x.ended
    {
      FlushFlags(h, x);
    }
  }

  lemma {:induction false} LoopFlags(h: Hash, check: SigCheck, p: seq<byte>, st: ImportState)
    requires !st.ended
    ensures var t := Loop(h, check, p, st);
      t.ended == AnyTagged(ItemsOf(p), "end")
      && (!t.ended ==> t.first == (st.first && !AnyArray(ItemsOf(p))))
    decreases |p|
  {
    hide Step, ReadItem, Decode, Tagged, IsArray;
    match ReadItem(p)
    case Item(n) =>
      var v, rest := Decode(p[..n]), ItemsOf(p[n..]);
      var items := [v] + rest;
      StepFlags(h, check, st, v);
      assert ItemsOf(p) == items && items[0] == v;
      assert forall i :: 0 <= i < |rest| ==> items[i + 1] == rest[i];
      assert forall i :: 0 < i < |items| ==> items[i] == rest[i - 1];
      if Tagged(v, "end") {
        EndedStays(h, check, p[n..], Step(h, check, st, v));
      } else {
        LoopFlags(h, check, p[n..], Step(h, check, st, v));
      }
    case _ =>
  }

  /** After an end item everything is only reported. */
  lemma {:induction false} EndedStays(h: Hash, check: SigCheck, s: seq<byte>, st: ImportState)
    requires st.ended
    ensures var t := Loop(h, check, s, st); t == st.(skipped := t.skipped) && t.ended
    decreases |s|
  {
    hide ReadItem, Decode;
    match ReadItem(s)
    case Item(n) => EndedStays(h, check, s[n..], Step(h, check, st, Decode(s[..n])));
    case _ =>
  }

  // ------------------------------------------------------------------
  // A damaged item
  // ------------------------------------------------------------------

  /** An item that says nothing to the importer: it cannot be decoded, is no array
      or bears no known tag. */
  predicate Meaningless(v: Option<Value>)
  {
    !IsArray(v) || !(Tagged(v, "hdr") || Tagged(v, "r") || Tagged(v, "b") || Tagged(v, "bp") || Tagged(v, "end"))
  }

  /** A record item without a record that decodes and verifies. */
  predicate BadRecord(h: Hash, check: SigCheck, v: Option<Value>)
  {
    Tagged(v, "r") && (RecordIn(v).None? || !Verifies(h, check, RecordIn(v).value))
  }

  function RecordIn(v: Option<Value>): Option<Record>
  {
    if Tagged(v, "r") && |v.value.items| > 1 && v.value.items[1].Bytes? then FromCbor(v.value.items[1].b) else None
  }

  /** A blob item without 32 octets of id and a content that hashes to them. */
  predicate BadBlob(h: Hash, v: Option<Value>)
  {
    Tagged(v, "b")
    && !(|v.value.items| > 2 && v.value.items[1].Bytes? && v.value.items[2].Bytes? && |v.value.items[1].b| == 32
         && h(v.value.items[2].b) == v.value.items[1].b)
  }

  lemma {:induction false} MeaninglessStep(h: Hash, check: SigCheck, st: ImportState, v: Option<Value>)
    requires !st.ended && Meaningless(v) && (IsArray(v) ==> !st.first)
    ensures exists r :: Step(h, check, st, v) == Report1(st, r)
  {
    hide StepRecord, StepBlob, StepPart, StepEnd, Flush;
    if v.Some? && v.value.Array? { TagIs(v.value); }
    if v.None? {
      assert Step(h, check, st, v) == Report1(st, Undecodable);
    } else if !v.value.Array? {
      assert Step(h, check, st, v) == Report1(st, NotAnArray);
    } else {
      assert Step(h, check, st, v) == Report1(st, UnknownTag);
    }
  }

  lemma {:induction false} BadStep(h: Hash, check: SigCheck, st: ImportState, v: Option<Value>)
    requires !st.ended && !st.first && (BadRecord(h, check, v) || BadBlob(h, v))
    ensures exists r :: Step(h, check, st, v) == Report1(Flush(h, st), r)
  {
    hide StepPart, StepEnd, Flush, FromCbor, Verifies, Id, EmitBlob;
    var arr := v.value.items;
    TagIs(v.value);
    var f := Flush(h, st);
    if Tagged(v, "r") {
      assert BytesAt(arr, 1) == if |arr| > 1 then arr[1].AsBytes() else None;
      assert Step(h, check, st, v) == StepRecord(h, check, f, arr);
      assert Step(h, check, st, v) == Report1(f, BadRecordItem) || Step(h, check, st, v) == Report1(f, InvalidRecord);
    } else {
      assert BytesAt(arr, 1) == if |arr| > 1 then arr[1].AsBytes() else None;
      assert BytesAt(arr, 2) == if |arr| > 2 then arr[2].AsBytes() else None;
      assert Step(h, check, st, v) == StepBlob(h, f, arr);
      assert Step(h, check, st, v) == Report1(f, BadBlobItem) || Step(h, check, st, v) == Report1(f, BlobHashMismatch);
    }
  }

  /** The reports of `a` are those of `b` and one more. */
  ghost predicate OneMore(a: seq<Report>, b: seq<Report>)
  {
    exists i :: 0 <= i < |a| && b == a[..i] + a[i + 1..]
  }

  /** "EVMS" and version 1. */
  function Stream(s: seq<byte>): seq<byte> { [0x45, 0x56, 0x4d, 0x53, 0x01] + s }

  lemma {:induction false} ImportOf(h: Hash, check: SigCheck, s: seq<byte>)
    ensures Import(h, check, Stream(s)) == Some(Result(Flush(h, Loop(h, check, s, START))))
  {
    hide Loop;
    assert Stream(s)[5..] == s && Stream(s)[..5] == MAGIC;
  }

  /** Continuing with one report more ends with one report more. */
  lemma {:induction false} OneReportMore(h: Hash, check: SigCheck, st: ImportState, r: Report, m: seq<byte>)
    ensures var a, b := Result(Flush(h, Loop(h, check, m, Report1(st, r)))), Result(Flush(h, Loop(h, check, m, st)));
      a == b.(skipped := a.skipped) && OneMore(a.skipped, b.skipped)
  {
    hide Loop, Flush, Alike;
    var x := st.skipped + [r];
    var p, q := Loop(h, check, m, st), Loop(h, check, m, Having(st, x));
    LoopAlike(h, check, m, st, x);
    AlikeIsHaving(st, p, x, q);
    FlushAlike(h, p, q.skipped);
    AlikeTwice(st, p, Flush(h, p), x, q.skipped, Flush(h, q));
    AlikeMeans(st, Flush(h, p), x, Flush(h, q));
    var a, b := Flush(h, q).skipped, Flush(h, p).skipped;
    assert a[..|st.skipped|] + a[|st.skipped| + 1..] == b;
  }

  lemma AlikeMeans(s: ImportState, a: ImportState, x: seq<Report>, b: ImportState)
    requires Alike(s, a, Having(s, x), b)
    ensures s.skipped <= a.skipped && b == a.(skipped := x + a.skipped[|s.skipped|..])
  {
  }

  /** An item that cannot be decoded, is no array or bears no known tag costs a
      report and nothing else, whatever surrounds it. */
  lemma {:induction false} DamagedItemSkipped(h: Hash, check: SigCheck, p: seq<byte>, x: seq<byte>, m: seq<byte>)
    requires WholeItems(p) && ReadItem(x) == Item(|x|) && !AnyTagged(ItemsOf(p), "end")
    requires Meaningless(Decode(x)) && (IsArray(Decode(x)) ==> AnyArray(ItemsOf(p)))
    ensures var with, without := Import(h, check, Stream(p + x + m)), Import(h, check, Stream(p + m));
      with.Some? && without.Some?
      && with.value.records == without.value.records && with.value.blobs == without.value.blobs
      && with.value.truncated == without.value.truncated && OneMore(with.value.skipped, without.value.skipped)
  {
    hide Loop, Flush, Step, ItemsOf, AnyTagged, AnyArray, Meaningless, Decode, ReadItem, OneMore;
    ImportOf(h, check, p + x + m);
    ImportOf(h, check, p + m);
    assert p + x + m == p + (x + m);
    LoopSplits(h, check, p, x + m, START);
    LoopSplits(h, check, p, m, START);
    var st := Loop(h, check, p, START);
    LoopFlags(h, check, p, START);
    OneItem(h, check, x, m, st);
    MeaninglessStep(h, check, st, Decode(x));
    var r :| Step(h, check, st, Decode(x)) == Report1(st, r);
    OneReportMore(h, check, st, r, m);
  }

  lemma {:induction false} OneItem(h: Hash, check: SigCheck, x: seq<byte>, m: seq<byte>, st: ImportState)
    requires ReadItem(x) == Item(|x|)
    ensures Loop(h, check, x + m, st) == Loop(h, check, m, Step(h, check, st, Decode(x)))
  {
    hide Step, Decode, ReadItem;
    ItemBefore(x, m);
    assert x[..|x|] == x && x[|x|..] + m == m;
  }

  /** What belongs to records and flags. */
  ghost predicate SameRecords(a: ImportState, b: ImportState)
  {
    && a.records == b.records && a.seenRecords == b.seenRecords && a.nRecords == b.nRecords
    && a.first == b.first && a.ended == b.ended
  }

  lemma FlushSameRecords(h: Hash, st: ImportState)
    ensures SameRecords(st, Flush(h, st))
  {
  }

  lemma {:induction false} RecordSameRecords(h: Hash, check: SigCheck, a: ImportState, b: ImportState, arr: seq<Value>)
    requires SameRecords(a, b)
    ensures SameRecords(StepRecord(h, check, a, arr), StepRecord(h, check, b, arr))
  {
    hide FromCbor, Verifies, Id, BytesAt;
  }

  lemma {:induction false} OthersSameRecords(h: Hash, st: ImportState, arr: seq<Value>)
    ensures SameRecords(st, StepBlob(h, st, arr)) && SameRecords(st, StepPart(h, st, arr))
    ensures SameRecords(st.(ended := true), StepEnd(st, arr))
  {
    hide BytesAt, UintAt, Flush;
    forall x { FlushSameRecords(h, x); }
  }

  lemma {:induction false} TaggedSameRecords(h: Hash, check: SigCheck, a: ImportState, b: ImportState, arr: seq<Value>)
    requires SameRecords(a, b)
    ensures SameRecords(StepTagged(h, check, a, arr), StepTagged(h, check, b, arr))
  {
    hide StepRecord, StepBlob, StepPart, StepEnd, Tag, Flush;
    FlushSameRecords(h, a);
    FlushSameRecords(h, b);
    RecordSameRecords(h, check, Flush(h, a), Flush(h, b), arr);
    OthersSameRecords(h, a, arr);
    OthersSameRecords(h, b, arr);
    OthersSameRecords(h, Flush(h, a), arr);
    OthersSameRecords(h, Flush(h, b), arr);
  }

  lemma {:induction false} LoopSameRecords(h: Hash, check: SigCheck, s: seq<byte>, a: ImportState, b: ImportState)
    requires SameRecords(a, b)
    ensures SameRecords(Loop(h, check, s, a), Loop(h, check, s, b))
    decreases |s|
  {
    hide ReadItem, Decode, StepTagged, Tag;
    match ReadItem(s)
    case Item(n) =>
      var v := Decode(s[..n]);
      if v.Some? && v.value.Array? {
        TaggedSameRecords(h, check, a, b, v.value.items);
        TaggedSameRecords(h, check, Report1(a.(first := false), NotHdrFirst), Report1(b.(first := false), NotHdrFirst), v.value.items);
      }
      LoopSameRecords(h, check, s[n..], Step(h, check, a, v), Step(h, check, b, v));
    case _ =>
  }

  /** Parts may still be collected after these items: one came since the last
      item that ends the collecting. */
  predicate PartsOpen(open: bool, items: seq<Option<Value>>)
    decreases |items|
  {
    if items == [] then open
    else
      var v := items[0];
      PartsOpen(Tagged(v, "bp") || (open && !Tagged(v, "r") && !Tagged(v, "b") && !Tagged(v, "end")), items[1..])
  }

  lemma {:induction false} StepParts(h: Hash, check: SigCheck, st: ImportState, v: Option<Value>)
    requires Step(h, check, st, v).pending.Some?
    ensures Tagged(v, "bp") || (st.pending.Some? && (st.ended || (!Tagged(v, "r") && !Tagged(v, "b") && !Tagged(v, "end"))))
  {
    hide StepRecord, StepBlob, StepPart, StepEnd, Flush;
    if v.Some? && v.value.Array? {
      var arr := v.value.items;
      TagIs(v.value);
      NothingPending(h, check, st, arr);
      NothingPending(h, check, Report1(st.(first := false), NotHdrFirst), arr);
    }
  }

  lemma NothingPending(h: Hash, check: SigCheck, st: ImportState, arr: seq<Value>)
    ensures StepRecord(h, check, Flush(h, st), arr).pending.None?
    ensures StepBlob(h, Flush(h, st), arr).pending.None?
    ensures StepEnd(Flush(h, st), arr).pending.None?
  {
    hide FromCbor, Verifies, Id, BytesAt, UintAt;
  }

  lemma {:induction false} LoopParts(h: Hash, check: SigCheck, p: seq<byte>, st: ImportState, open: bool)
    requires !st.ended && (st.pending.Some? ==> open) && !AnyTagged(ItemsOf(p), "end")
    ensures Loop(h, check, p, st).pending.Some? ==> PartsOpen(open, ItemsOf(p))
    decreases |p|
  {
    hide Step, ReadItem, Decode, Tagged;
    match ReadItem(p)
    case Item(n) =>
      var v, rest := Decode(p[..n]), ItemsOf(p[n..]);
      assert ItemsOf(p)[0] == v && ItemsOf(p)[1..] == rest;
      assert forall i :: 0 <= i < |rest| ==> ItemsOf(p)[i + 1] == rest[i];
      var next := Step(h, check, st, v);
      StepFlags(h, check, st, v);
      if next.pending.Some? { StepParts(h, check, st, v); }
      LoopParts(h, check, p[n..], next, Tagged(v, "bp") || (open && !Tagged(v, "r") && !Tagged(v, "b") && !Tagged(v, "end")));
    case _ =>
  }

  /** A record or blob item that fails its checks costs a report, and ends the
      collecting of parts as any such item does; the records, and whether the
      bundle counts as truncated, are what they are without it, and where no
      parts are being collected so is everything else. */
  lemma {:induction false} FailedItemSkipped(h: Hash, check: SigCheck, p: seq<byte>, x: seq<byte>, m: seq<byte>)
    requires WholeItems(p) && ReadItem(x) == Item(|x|) && !AnyTagged(ItemsOf(p), "end") && AnyArray(ItemsOf(p))
    requires BadRecord(h, check, Decode(x)) || BadBlob(h, Decode(x))
    ensures var with, without := Import(h, check, Stream(p + x + m)), Import(h, check, Stream(p + m));
      with.Some? && without.Some?
      && with.value.records == without.value.records && with.value.truncated == without.value.truncated
      && (var flushed := Result(Flush(h, Loop(h, check, m, Flush(h, Loop(h, check, p, START)))));
          with.value.blobs == flushed.blobs && OneMore(with.value.skipped, flushed.skipped))
      && (!PartsOpen(false, ItemsOf(p)) ==>
            with.value.blobs == without.value.blobs && OneMore(with.value.skipped, without.value.skipped))
  {
    hide Loop, Flush, Step, ItemsOf, AnyTagged, AnyArray, BadRecord, BadBlob, Decode, ReadItem, OneMore, PartsOpen;
    ImportOf(h, check, p + x + m);
    ImportOf(h, check, p + m);
    assert p + x + m == p + (x + m);
    LoopSplits(h, check, p, x + m, START);
    LoopSplits(h, check, p, m, START);
    var st := Loop(h, check, p, START);
    LoopFlags(h, check, p, START);
    LoopParts(h, check, p, START, false);
    OneItem(h, check, x, m, st);
    BadStep(h, check, st, Decode(x));
    var r :| Step(h, check, st, Decode(x)) == Report1(Flush(h, st), r);
    var f := Flush(h, st);
    OneReportMore(h, check, f, r, m);
    FlushSameRecords(h, st);
    LoopSameRecords(h, check, m, f, st);
    FlushSameRecords(h, Loop(h, check, m, f));
    FlushSameRecords(h, Loop(h, check, m, st));
    if !PartsOpen(false, ItemsOf(p)) { NothingToFlush(h, st); }
  }

  lemma NothingToFlush(h: Hash, st: ImportState)
    requires st.pending.None?
    ensures Flush(h, st) == st
  {
  }

  // ------------------------------------------------------------------
  // When no array came before
  // ------------------------------------------------------------------

  /** How many reports more a stream costs when it is not at its beginning: its
      header, if it has one, is then a second one, and an array in its place is
      no longer in the wrong place. */
  function Balance(items: seq<Option<Value>>): int
    decreases |items|
  {
    if items == [] then 0
    else if !IsArray(items[0]) then Balance(items[1..])
    else if Tagged(items[0], "hdr") then 1
    else -1
  }

  /** The same but for the reports, of which `a` has `n` more, and the mark of the
      beginning. */
  ghost predicate Owes(a: ImportState, b: ImportState, n: int)
  {
    a == b.(skipped := a.skipped, first := a.first) && |a.skipped| == |b.skipped| + n
  }

  lemma {:induction false} LoopOwes(h: Hash, check: SigCheck, s: seq<byte>, a: ImportState, b: ImportState, n: int)
    requires Owes(a, b, n) && a.first == b.first
    ensures Owes(Loop(h, check, s, a), Loop(h, check, s, b), n)
  {
    hide Loop;
    LoopAlike(h, check, s, b, a.skipped);
    assert a == Having(b, a.skipped);
  }

  lemma {:induction false} TaggedOwes(h: Hash, check: SigCheck, a: ImportState, b: ImportState, n: int, arr: seq<Value>)
    requires Owes(a, b, n) && a.first == b.first
    ensures Owes(StepTagged(h, check, a, arr), StepTagged(h, check, b, arr), n)
    ensures StepTagged(h, check, a, arr).first == StepTagged(h, check, b, arr).first
  {
    hide StepTagged;
    TaggedAlike(h, check, b, a.skipped, arr);
    assert a == Having(b, a.skipped);
  }

  /** The first array, at the beginning and not. */
  lemma {:induction false} ArrayOwes(h: Hash, check: SigCheck, b: ImportState, v: Value)
    requires v.Array? && b.first && !b.ended
    ensures var x, y := Step(h, check, b.(first := false), Some(v)), Step(h, check, b, Some(v));
      Owes(x, y, if Tagged(Some(v), "hdr") then 1 else -1) && x.first == y.first
  {
    hide StepRecord, StepBlob, StepPart, StepEnd, Flush;
    TagIs(v);
    var a := b.(first := false);
    if Tag(v.items) != "hdr" {
      TaggedOwes(h, check, a, Report1(a, NotHdrFirst), -1, v.items);
    }
  }

  lemma {:induction false} NoArrayStep(h: Hash, check: SigCheck, st: ImportState, v: Option<Value>)
    requires !IsArray(v) && !st.ended
    ensures exists r :: Step(h, check, st, v) == Report1(st, r)
    ensures Step(h, check, st.(first := false), v) == Step(h, check, st, v).(first := false)
  {
    hide StepTagged;
    if v.None? {
      assert Step(h, check, st, v) == Report1(st, Undecodable);
    } else {
      assert Step(h, check, st, v) == Report1(st, NotAnArray);
    }
  }

  lemma {:induction false} LoopFromFirst(h: Hash, check: SigCheck, s: seq<byte>, b: ImportState)
    requires b.first && !b.ended
    ensures Owes(Loop(h, check, s, b.(first := false)), Loop(h, check, s, b), Balance(ItemsOf(s)))
    decreases |s|
  {
    hide Step, ReadItem, Decode, Tagged;
    var a := b.(first := false);
    match ReadItem(s)
    case Item(n) =>
      var v, rest := Decode(s[..n]), ItemsOf(s[n..]);
      assert ItemsOf(s)[0] == v && ItemsOf(s)[1..] == rest;
      if IsArray(v) {
        ArrayOwes(h, check, b, v.value);
        LoopOwes(h, check, s[n..], Step(h, check, a, v), Step(h, check, b, v), if Tagged(v, "hdr") then 1 else -1);
      } else {
        NoArrayStep(h, check, b, v);
        LoopFromFirst(h, check, s[n..], Step(h, check, b, v));
      }
    case _ =>
  }

  /** Before the first array nothing is collected. */
  lemma {:induction false} NothingYet(h: Hash, check: SigCheck, p: seq<byte>, st: ImportState)
    requires !AnyArray(ItemsOf(p)) && !st.ended
    ensures var t := Loop(h, check, p, st); t == st.(skipped := t.skipped)
    decreases |p|
  {
    hide Step, ReadItem, Decode, Tagged;
    match ReadItem(p)
    case Item(n) =>
      var v, rest := Decode(p[..n]), ItemsOf(p[n..]);
      var items := ItemsOf(p);
      assert items[0] == v && forall i :: 0 <= i < |rest| ==> items[i + 1] == rest[i];
      assert !IsArray(v);
      NoArrayStep(h, check, st, v);
      NothingYet(h, check, p[n..], Step(h, check, st, v));
    case _ =>
  }

  lemma {:induction false} DamagedFirstStep(h: Hash, check: SigCheck, st: ImportState, v: Option<Value>)
    requires st.first && !st.ended && st.pending.None? && IsArray(v)
    requires Meaningless(v) || BadRecord(h, check, v) || BadBlob(h, v)
    ensures Owes(Step(h, check, st, v), st.(first := false), 2) && !Step(h, check, st, v).first
  {
    NoHeader(h, check, v);
    var st1 := Report1(st.(first := false), NotHdrFirst);
    TagIs(v.value);
    if Meaningless(v) { MeaninglessStep(h, check, st1, v); } else { BadStep(h, check, st1, v); }
    assert Step(h, check, st, v) == Step(h, check, st1, v) by {
      hide StepTagged, Meaningless, BadRecord, BadBlob;
    }
    hide Step;
    NothingToFlush(h, st1);
  }

  lemma NoHeader(h: Hash, check: SigCheck, v: Option<Value>)
    requires Meaningless(v) || BadRecord(h, check, v) || BadBlob(h, v)
    ensures !Tagged(v, "hdr")
  {
  }

  lemma FlushOwes(h: Hash, a: ImportState, b: ImportState, n: int)
    requires Owes(a, b, n)
    ensures Owes(Flush(h, a), Flush(h, b), n)
  {
  }

  /** A damaged array before any other array costs two reports, for its place and
      for itself; one less if an array that is no header follows first, since
      that one is no longer in the wrong place, and one more if a header does.
      Records, blobs and the truncated flag are what they are without it. */
  lemma {:induction false} FirstArrayDamaged(h: Hash, check: SigCheck, p: seq<byte>, x: seq<byte>, m: seq<byte>)
    requires WholeItems(p) && ReadItem(x) == Item(|x|) && !AnyArray(ItemsOf(p)) && IsArray(Decode(x))
    requires Meaningless(Decode(x)) || BadRecord(h, check, Decode(x)) || BadBlob(h, Decode(x))
    ensures var with, without := Import(h, check, Stream(p + x + m)), Import(h, check, Stream(p + m));
      with.Some? && without.Some?
      && with.value.records == without.value.records && with.value.blobs == without.value.blobs
      && with.value.truncated == without.value.truncated
      && |with.value.skipped| == |without.value.skipped| + 2 + Balance(ItemsOf(m))
  {
    hide Loop, Flush, Step, ItemsOf, AnyArray, Balance, Meaningless, BadRecord, BadBlob, Decode, ReadItem;
    ImportOf(h, check, p + x + m);
    ImportOf(h, check, p + m);
    assert p + x + m == p + (x + m);
    LoopSplits(h, check, p, x + m, START);
    LoopSplits(h, check, p, m, START);
    NothingYet(h, check, p, START);
    var st := Loop(h, check, p, START);
    OneItem(h, check, x, m, st);
    DamagedFirstStep(h, check, st, Decode(x));
    var next, mid := Step(h, check, st, Decode(x)), st.(first := false);
    LoopOwes(h, check, m, next, mid, 2);
    LoopFromFirst(h, check, m, st);
    var n := 2 + Balance(ItemsOf(m));
    assert Owes(Loop(h, check, m, next), Loop(h, check, m, st), n);
    FlushOwes(h, Loop(h, check, m, next), Loop(h, check, m, st), n);
  }

  // ------------------------------------------------------------------
  // What comes out of any stream
  // ------------------------------------------------------------------

  /** The records of a list of items: those that decode and verify, before the
      first end item, in order. */
  function ValidRecords(h: Hash, check: SigCheck, items: seq<Option<Value>>): seq<Record>
    decreases |items|
  {
    if items == [] || Tagged(items[0], "end") then []
    else
      var r := RecordIn(items[0]);
      (if r.Some? && Verifies(h, check, r.value) then [r.value] else []) + ValidRecords(h, check, items[1..])
  }

  /** The first record of each id. */
  function FirstOfEach(h: Hash, records: seq<Record>, seen: set<Digest>): seq<Record>
    decreases |records|
  {
    if records == [] then []
    else if Id(h, records[0]) in seen then FirstOfEach(h, records[1..], seen)
    else [records[0]] + FirstOfEach(h, records[1..], seen + {Id(h, records[0])})
  }

  /** What one step collects. */
  lemma {:induction false} StepRecords(h: Hash, check: SigCheck, st: ImportState, v: Option<Value>)
    requires !st.ended
    ensures var next, r := Step(h, check, st, v), RecordIn(v);
      if r.Some? && Verifies(h, check, r.value) && Id(h, r.value) !in st.seenRecords
      then next.records == st.records + [r.value] && next.seenRecords == st.seenRecords + {Id(h, r.value)}
      else next.records == st.records && next.seenRecords == st.seenRecords
  {
    hide FromCbor, Verifies, Id, StepRecord, StepBlob, StepPart, StepEnd, Flush;
    if v.Some? && v.value.Array? {
      var arr := v.value.items;
      TagIs(v.value);
      FlushSameRecords(h, st);
      var st1 := Report1(st.(first := false), NotHdrFirst);
      FlushSameRecords(h, st1);
      OneRecord(h, check, Flush(h, st), v);
      OneRecord(h, check, Flush(h, st1), v);
      OthersSameRecords(h, st, arr);
      OthersSameRecords(h, st1, arr);
      OthersSameRecords(h, Flush(h, st), arr);
      OthersSameRecords(h, Flush(h, st1), arr);
    }
  }

  lemma {:induction false} OneRecord(h: Hash, check: SigCheck, st: ImportState, v: Option<Value>)
    requires v.Some? && v.value.Array?
    ensures Tagged(v, "r") ==>
      var next, r := StepRecord(h, check, st, v.value.items), RecordIn(v);
      if r.Some? && Verifies(h, check, r.value) && Id(h, r.value) !in st.seenRecords
      then next.records == st.records + [r.value] && next.seenRecords == st.seenRecords + {Id(h, r.value)}
      else next.records == st.records && next.seenRecords == st.seenRecords
  {
    hide FromCbor, Verifies, Id;
    var arr := v.value.items;
    assert BytesAt(arr, 1) == if |arr| > 1 then arr[1].AsBytes() else None;
  }

  lemma {:induction false} LoopRecords(h: Hash, check: SigCheck, s: seq<byte>, st: ImportState)
    requires !st.ended
    ensures Loop(h, check, s, st).records == st.records + FirstOfEach(h, ValidRecords(h, check, ItemsOf(s)), st.seenRecords)
    decreases |s|
  {
    hide Step, ReadItem, Decode, Tagged, RecordIn, Verifies, Id;
    match ReadItem(s)
    case Item(n) =>
      var v, rest := Decode(s[..n]), ItemsOf(s[n..]);
      assert ItemsOf(s)[0] == v && ItemsOf(s)[1..] == rest;
      var next := Step(h, check, st, v);
      StepRecords(h, check, st, v);
      StepFlags(h, check, st, v);
      if next.ended {
        EndedStays(h, check, s[n..], next);
        EndIsNoRecord(v);
      } else {
        LoopRecords(h, check, s[n..], next);
        FirstCons(h, RecordIn(v), ValidRecords(h, check, rest), st.seenRecords);
      }
    case _ =>
  }

  lemma EndIsNoRecord(v: Option<Value>)
    ensures Tagged(v, "end") ==> RecordIn(v) == None
  {
  }

  lemma FirstCons(h: Hash, r: Option<Record>, rest: seq<Record>, seen: set<Digest>)
    ensures [] + rest == rest
    ensures r.Some? ==>
      FirstOfEach(h, [r.value] + rest, seen)
      == if Id(h, r.value) in seen then FirstOfEach(h, rest, seen)
         else [r.value] + FirstOfEach(h, rest, seen + {Id(h, r.value)})
  {
    hide Id;
    if r.Some? { assert ([r.value] + rest)[1..] == rest; }
  }

  /** From any stream come the records of its items that decode and verify, up to
      the first end item, each id once and in order; the bundle counts as
      truncated if and only if no end item was read. */
  lemma {:induction false} ImportedRecords(h: Hash, check: SigCheck, s: seq<byte>)
    ensures var r := Import(h, check, Stream(s));
      r.Some? && r.value.records == FirstOfEach(h, ValidRecords(h, check, ItemsOf(s)), {})
      && (r.value.truncated <==> !AnyTagged(ItemsOf(s), "end"))
  {
    hide Loop, Flush, ItemsOf, ValidRecords, FirstOfEach, AnyTagged;
    ImportOf(h, check, s);
    LoopRecords(h, check, s, START);
    LoopFlags(h, check, s, START);
    FlushSameRecords(h, Loop(h, check, s, START));
    assert [] + FirstOfEach(h, ValidRecords(h, check, ItemsOf(s)), {}) == FirstOfEach(h, ValidRecords(h, check, ItemsOf(s)), {});
  }

  ghost predicate HasBlob(blobs: seq<BlobItem>, id: Digest) { exists k :: 0 <= k < |blobs| && blobs[k].id == id }

  /** A blob id that was seen belongs to a blob that was handed out. */
  ghost predicate Covered(st: ImportState) { forall id :: id in st.seenBlobs ==> HasBlob(st.blobs, id) }

  lemma {:induction false} EmitCovered(st: ImportState, id: Digest, content: seq<byte>)
    requires Covered(st)
    ensures Covered(EmitBlob(st, id, content)) && HasBlob(EmitBlob(st, id, content).blobs, id)
  {
    var next := EmitBlob(st, id, content);
    if id !in st.seenBlobs { assert next.blobs[|st.blobs|].id == id; }
    forall d | d in next.seenBlobs
      ensures HasBlob(next.blobs, d)
    {
      if d in st.seenBlobs {
        var k :| 0 <= k < |st.blobs| && st.blobs[k].id == d;
        assert next.blobs[k].id == d;
      }
    }
  }

  /** Nothing but handing out a blob touches them. */
  lemma BlobsUntouched(a: ImportState, b: ImportState)
    requires Covered(a) && b.blobs == a.blobs && b.seenBlobs == a.seenBlobs
    ensures Covered(b)
  {
  }

  lemma {:induction false} FlushCovered(h: Hash, st: ImportState)
    requires Covered(st)
    ensures Covered(Flush(h, st))
  {
    hide EmitBlob, Covered;
    if st.pending.Some? {
      var p := st.pending.value;
      BlobsUntouched(st, st.(pending := None));
      EmitCovered(st.(pending := None), p.id, p.content);
      BlobsUntouched(st, Report1(st.(pending := None), PartedHashMismatch));
    }
  }

  lemma {:induction false} RecordCovered(h: Hash, check: SigCheck, st: ImportState, arr: seq<Value>)
    requires Covered(st)
    ensures Covered(StepRecord(h, check, st, arr)) && Covered(StepEnd(st, arr))
  {
    hide FromCbor, Verifies, Id, BytesAt, UintAt, Covered;
    BlobsUntouched(st, StepRecord(h, check, st, arr));
    BlobsUntouched(st, StepEnd(st, arr));
  }

  lemma {:induction false} BlobCovered(h: Hash, st: ImportState, arr: seq<Value>)
    requires Covered(st)
    ensures Covered(StepBlob(h, st, arr))
  {
    hide BytesAt, EmitBlob, Covered;
    var id, content := BytesAt(arr, 1), BytesAt(arr, 2);
    if id.Some? && content.Some? && |id.value| == 32 { EmitCovered(st, id.value, content.value); }
    BlobsUntouched(st, Report1(st, BadBlobItem));
    BlobsUntouched(st, Report1(st, BlobHashMismatch));
  }

  lemma {:induction false} PartCovered(h: Hash, st: ImportState, arr: seq<Value>)
    requires Covered(st)
    ensures Covered(StepPart(h, st, arr))
  {
    hide BytesAt, UintAt, Flush, Covered;
    forall next: ImportState | next.blobs == st.blobs && next.seenBlobs == st.seenBlobs
      ensures Covered(next) && Covered(Flush(h, next))
    {
      BlobsUntouched(st, next);
      FlushCovered(h, next);
    }
  }

  lemma {:induction false} TaggedCovered(h: Hash, check: SigCheck, st: ImportState, arr: seq<Value>)
    requires Covered(st)
    ensures Covered(StepTagged(h, check, st, arr))
  {
    hide Tag, Flush, StepRecord, StepBlob, StepPart, StepEnd, Covered;
    BlobsUntouched(st, Report1(st, DuplicateHdr));
    BlobsUntouched(st, Report1(st, UnknownTag));
    FlushCovered(h, st);
    RecordCovered(h, check, Flush(h, st), arr);
    BlobCovered(h, Flush(h, st), arr);
    PartCovered(h, st, arr);
  }

  lemma {:induction false} StepCovered(h: Hash, check: SigCheck, st: ImportState, v: Option<Value>)
    requires Covered(st)
    ensures Covered(Step(h, check, st, v))
  {
    hide Tag, StepTagged, Covered;
    BlobsUntouched(st, Report1(st, AfterEnd));
    BlobsUntouched(st, Report1(st, Undecodable));
    BlobsUntouched(st, Report1(st, NotAnArray));
    BlobsUntouched(st, st.(first := false));
    BlobsUntouched(st, Report1(st.(first := false), NotHdrFirst));
    if v.Some? && v.value.Array? {
      TaggedCovered(h, check, st, v.value.items);
      TaggedCovered(h, check, Report1(st.(first := false), NotHdrFirst), v.value.items);
    }
  }

  lemma {:induction false} LoopBlob(h: Hash, check: SigCheck, s: seq<byte>, st: ImportState, i: nat)
    requires Sane(h, check, st) && Covered(st) && !st.ended
    requires i < |ItemsOf(s)| && Tagged(ItemsOf(s)[i], "b") && !BadBlob(h, ItemsOf(s)[i])
    requires forall j :: 0 <= j < i ==> !Tagged(ItemsOf(s)[j], "end")
    ensures HasBlob(Loop(h, check, s, st).blobs, ItemsOf(s)[i].value.items[1].b)
    decreases |s|
  {
    hide Step, ReadItem, Decode, Tagged, BadBlob, Sane, Covered, HasBlob;
    var n := ReadItem(s).n;
    var v, rest := Decode(s[..n]), ItemsOf(s[n..]);
    assert ItemsOf(s) == [v] + rest;
    var next := Step(h, check, st, v);
    StepSane(h, check, st, v);
    StepCovered(h, check, st, v);
    StepFlags(h, check, st, v);
    LoopSane(h, check, s[n..], next);
    GoodBlob(h, ItemsOf(s)[i]);
    if i == 0 {
      StepGoodBlob(h, check, st, v);
      StillThere(next.blobs, Loop(h, check, s[n..], next).blobs, v.value.items[1].b);
    } else {
      assert forall j :: 0 <= j < |rest| ==> ItemsOf(s)[j + 1] == rest[j];
      assert !Tagged(ItemsOf(s)[0], "end");
      LoopBlob(h, check, s[n..], next, i - 1);
    }
  }

  lemma StillThere(a: seq<BlobItem>, b: seq<BlobItem>, id: Digest)
    requires a <= b && HasBlob(a, id)
    ensures HasBlob(b, id)
  {
    var k :| 0 <= k < |a| && a[k].id == id;
    assert b[k] == a[k];
  }

  lemma GoodBlob(h: Hash, v: Option<Value>)
    requires Tagged(v, "b") && !BadBlob(h, v)
    ensures v.Some? && v.value.Array? && |v.value.items| > 2
    ensures v.value.items[1].Bytes? && v.value.items[2].Bytes? && |v.value.items[1].b| == 32
  {
  }

  lemma {:induction false} StepGoodBlob(h: Hash, check: SigCheck, st: ImportState, v: Option<Value>)
    requires Tagged(v, "b") && !BadBlob(h, v) && Covered(st) && !st.ended
    ensures v.Some? && v.value.Array? && |v.value.items| > 2 && v.value.items[1].Bytes? && |v.value.items[1].b| == 32
    ensures HasBlob(Step(h, check, st, v).blobs, v.value.items[1].b)
  {
    GoodBlob(h, v);
    var arr := v.value.items;
    TagIs(v.value);
    assert BytesAt(arr, 1) == Some(arr[1].b) && BytesAt(arr, 2) == Some(arr[2].b);
    hide BytesAt, StepRecord, StepPart, StepEnd, Flush, EmitBlob, Covered, HasBlob;
    var st1 := Report1(st.(first := false), NotHdrFirst);
    BlobsUntouched(st, st1);
    FlushCovered(h, st);
    FlushCovered(h, st1);
    EmitCovered(Flush(h, st), arr[1].b, arr[2].b);
    EmitCovered(Flush(h, st1), arr[1].b, arr[2].b);
  }

  /** Every whole-blob item before the first end item whose content hashes to its
      id is among the blobs that come out. */
  lemma {:induction false} ImportedBlob(h: Hash, check: SigCheck, s: seq<byte>, i: nat)
    requires i < |ItemsOf(s)| && Tagged(ItemsOf(s)[i], "b") && !BadBlob(h, ItemsOf(s)[i])
    requires forall j :: 0 <= j < i ==> !Tagged(ItemsOf(s)[j], "end")
    ensures var items, r := ItemsOf(s)[i].value.items, Import(h, check, Stream(s));
      |items| > 2 && items[1].Bytes? && |items[1].b| == 32 && r.Some? && HasBlob(r.value.blobs, items[1].b)
  {
    ImportOf(h, check, s);
    GoodBlob(h, ItemsOf(s)[i]);
    LoopBlob(h, check, s, START, i);
    var t := Loop(h, check, s, START);
    hide Loop, ItemsOf, Tagged, BadBlob;
    LoopSane(h, check, s, START);
    FlushSane(h, check, t);
    StillThere(t.blobs, Flush(h, t).blobs, ItemsOf(s)[i].value.items[1].b);
  }

  // ------------------------------------------------------------------
  // Which items can be read
  // ------------------------------------------------------------------

  /** The number that some octets spell, the most significant first. */
  function Number(s: seq<byte>): nat
  {
    if s == [] then 0 else Number(s[..|s| - 1]) * 0x100 + s[|s| - 1]
  }

  /** How many octets follow the first one of a head; values from 28 upwards are
      not defined. */
  function Extra(low: nat): Option<nat>
  {
    if low < 24 then Some(0)
    else if low == 24 then Some(1)
    else if low == 25 then Some(2)
    else if low == 26 then Some(4)
    else if low == 27 then Some(8)
    else None
  }

  /** The octets that one data item takes (section 3 of RFC 8949, lengths in any
      width), with `room` levels of containers left: integers and simple values
      take their head, strings of at most 64 MiB their content as well, arrays
      and maps their members; tags are refused. */
  function ItemLength(s: seq<byte>, room: nat): (r: Option<nat>)
    ensures r.Some? ==> 1 <= r.value <= |s|
    decreases |s|, 0
  {
    if s == [] then None
    else
      var major, low := s[0] / 32, s[0] % 32;
      var extra :- Extra(low);
      if |s| < 1 + extra then None
      else
        var head := 1 + extra;
        var n := if extra == 0 then low else Number(s[1..head]);
        if major == 0 || major == 1 || major == 7 then Some(head)
        else if major == 2 || major == 3 then
          if n > 0x400_0000 || head + n > |s| then None else Some(head + n)
        else if major == 6 || room == 0 || (major == 5 && n >= 0x8000_0000_0000_0000) then None
        else
          var rest :- ItemLengths(s[head..], if major == 4 then n else 2 * n, room - 1);
          Some(head + rest)
  }

  function ItemLengths(s: seq<byte>, count: nat, room: nat): (r: Option<nat>)
    ensures r.Some? ==> r.value <= |s|
    decreases |s|, 1
  {
    if count == 0 then Some(0)
    else
      var first :- ItemLength(s, room);
      var rest :- ItemLengths(s[first..], count - 1, room);
      Some(first + rest)
  }

  lemma {:induction false} NumberIs(s: seq<byte>)
    ensures FromBigEndian(s) == Number(s)
  {
    if s != [] { NumberIs(s[..|s| - 1]); }
  }

  /** The head, as the scanner reads it. */
  lemma {:induction false} HeadReadAs(s: seq<byte>)
    ensures ReadHead(s).Some? <==> s != [] && Extra(s[0] % 32).Some? && |s| >= 1 + Extra(s[0] % 32).value
    ensures ReadHead(s).Some? ==>
      var head, low, extra := ReadHead(s).value, s[0] % 32, Extra(s[0] % 32).value;
      head.major == s[0] / 32 && head.used == 1 + extra
      && head.arg == if extra == 0 then low else Number(s[1..1 + extra])
  {
    hide FromBigEndian, Number;
    if s != [] && Extra(s[0] % 32).Some? {
      var extra := Extra(s[0] % 32).value;
      if |s| >= 1 + extra {
        NumberIs(s[1..1 + extra]);
      }
    }
  }

  /** Skip what was measured, and go on. */
  ghost function Past(s: seq<byte>, n: Option<nat>, stack: seq<nat>): Option<nat>
    requires n.Some? ==> n.value <= |s|
  {
    if n.None? then None else Plus(n.value, Scan(s[n.value..], stack))
  }

  lemma {:induction false} ScanMeasures(s: seq<byte>, base: seq<nat>, k: nat)
    requires |base| <= 63
    ensures Scan(s, base + [k + 1]) == Past(s, ItemLength(s, 63 - |base|), base + [k])
    decreases |s|, 0
  {
    hide Scan, ReadHead, Number, ItemLengths;
    HeadReadAs(s);
    if ReadHead(s).None? {
      NoHead(s, base, k);
    } else {
      var head := ReadHead(s).value;
      ScanStep(s, base, k, head);
      if (head.major == 4 || head.major == 5) && |base| < 63 {
        var count := if head.major == 4 then head.arg else 2 * head.arg;
        var t := s[head.used..];
        ScanMeasuresAll(t, base + [k], count);
        var n := ItemLengths(t, count, 62 - |base|);
        if n.Some? { assert t[n.value..] == s[head.used + n.value..]; }
      }
    }
  }

  lemma NoHead(s: seq<byte>, base: seq<nat>, k: nat)
    requires ReadHead(s).None?
    ensures Scan(s, base + [k + 1]) == None
  {
    var stack := base + [k + 1];
    assert stack[|stack| - 1] == k + 1;
  }

  lemma {:induction false} ScanMeasuresAll(s: seq<byte>, base: seq<nat>, count: nat)
    requires |base| <= 63
    ensures Scan(s, base + [count]) == Past(s, ItemLengths(s, count, 63 - |base|), base)
    decreases |s|, 1, count
  {
    hide Scan, ItemLength;
    if count == 0 {
      ScanPop(s, base);
      assert s[0..] == s;
    } else {
      ScanMeasures(s, base, count - 1);
      var first := ItemLength(s, 63 - |base|);
      if first.Some? {
        var t := s[first.value..];
        ScanMeasuresAll(t, base, count - 1);
        var rest := ItemLengths(t, count - 1, 63 - |base|);
        if rest.Some? { assert t[rest.value..] == s[first.value + rest.value..]; }
      }
    }
  }

  /** The item reader returns exactly the data item at the front of the stream, up
      to 63 containers deep, and stops for good where there is none. */
  lemma {:induction false} ItemsRead(s: seq<byte>)
    ensures ReadItem(s) == if s == [] then Eof
                           else if ItemLength(s, 63).None? then Unreadable
                           else Item(ItemLength(s, 63).value)
  {
    hide Scan, ItemLength;
    assert [] + [1] == [1] && [] + [0] == [0];
    ScanMeasures(s, [], 0);
    if ItemLength(s, 63).Some? {
      var t := s[ItemLength(s, 63).value..];
      ScanPop(t, []);
      ScanNothing(t);
    }
  }
}
