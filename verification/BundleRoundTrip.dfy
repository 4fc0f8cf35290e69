/** Importing an export: exactly when it gives back what was put in. The items
    of an export are followed one by one through the importer's state: records
    first, then each blob whole or in parts, where a parted blob with a full
    last part swallows the parted blob after it. */
module BundleRoundTrip {
  import opened Wrappers
  import opened Bytes
  import opened Codec
  import opened CodecProofs
  import opened Record
  import opened Blob
  import opened Bundle
  import opened BundleProofs
  import Utf8

  // ------------------------------------------------------------------
  // Exported items
  // ------------------------------------------------------------------

  ghost predicate Scalar(v: Value) { !v.Array? && !v.Map? }

  /** A string the scanner lets through, or no string. */
  ghost predicate Short(v: Value)
  {
    (v.Bytes? ==> |v.b| <= ITEM_STRING_LIMIT) && (v.Text? ==> |Utf8.Encode(v.s)| <= ITEM_STRING_LIMIT)
  }

  lemma {:induction false} ScalarArray(items: seq<Value>, level: nat)
    requires forall i :: 0 <= i < |items| ==> Scalar(items[i])
    ensures AllCanonical(items)
    ensures ScansAll(items, level) <==> forall i :: 0 <= i < |items| ==> Short(items[i])
  {
    hide Utf8.Encode;
    if items != [] {
      ScalarArray(items[1..], level);
      assert ScansAll(items[1..], level) <==> forall i :: 1 <= i < |items| ==> Short(items[i]) by {
        if ScansAll(items[1..], level) {
          forall i | 1 <= i < |items| ensures Short(items[i]) { assert Short(items[1..][i - 1]); }
        }
      }
    }
  }

  ghost predicate ScalarItem(v: Value)
  {
    v.Array? && forall i :: 0 <= i < |v.items| ==> Scalar(v.items[i])
  }

  lemma {:induction false} ScalarItemScans(v: Value)
    requires ScalarItem(v)
    ensures IsCanonical(v)
    ensures Scans(v, 1) <==> forall i :: 0 <= i < |v.items| ==> Short(v.items[i])
  {
    ScalarArray(v.items, 2);
  }

  ghost predicate Fine(v: Value) { IsCanonical(v) && Scans(v, 1) }

  lemma {:induction false} HdrFine()
    ensures Fine(HdrItem())
  {
    TagSize("hdr");
    var a, b := TagText("hdr"), Map([]);
    PairOf(a, b);
    assert [a, b][1..] == [b] && [b][1..] == [];
    assert Scans(a, 2) && Scans(b, 2);
    assert ScansAll([b], 2);
  }

  lemma {:induction false} RecordItemFine(bytes: Vec<byte>)
    ensures IsCanonical(RecordItem(bytes))
    ensures Scans(RecordItem(bytes), 1) <==> |bytes| <= ITEM_STRING_LIMIT
  {
    TagSize("r");
    var v := RecordItem(bytes);
    ScalarItemScans(v);
    assert Short(v.items[0]);
    assert Short(v.items[1]) <==> |bytes| <= ITEM_STRING_LIMIT;
  }

  lemma {:induction false} WholeBlobFine(b: Input)
    requires !Parted(b)
    ensures Fine(WholeBlobItem(b.id, b.content))
  {
    TagSize("b");
    ScalarItemScans(WholeBlobItem(b.id, b.content));
  }

  lemma {:induction false} PartFine(id: Digest, index: u64, part: Vec<byte>)
    requires |part| <= CHUNK_SIZE
    ensures Fine(PartItem(id, index, part))
  {
    TagSize("bp");
    ScalarItemScans(PartItem(id, index, part));
  }

  lemma {:induction false} EndFine(r: u64, b: u64)
    ensures Fine(EndItem(r, b))
  {
    TagSize("end");
    ScalarItemScans(EndItem(r, b));
  }

  ghost predicate AllFine(items: seq<Value>) { forall i :: 0 <= i < |items| ==> Fine(items[i]) }

  lemma {:induction false} FoldAppend(h: Hash, check: SigCheck, a: seq<Value>, b: seq<Value>, st: ImportState)
    requires AllFine(a)
    ensures Fold(h, check, a + b, st) == Fold(h, check, b, Fold(h, check, a, st))
    decreases |a|
  {
    hide Step, Scans, IsCanonical;
    if a == [] {
      assert a + b == b;
    } else {
      assert Fine(a[0]);
      assert (a + b)[1..] == a[1..] + b;
      FoldAppend(h, check, a[1..], b, Step(h, check, st, Some(a[0])));
    }
  }

  lemma {:induction false} FoldOne(h: Hash, check: SigCheck, v: Value, rest: seq<Value>, st: ImportState)
    ensures Fold(h, check, [v] + rest, st)
         == if Scans(v, 1) then Fold(h, check, rest, Step(h, check, st, Some(v))) else Report1(st, UnreadableItem)
  {
    hide Step, Scans;
    assert ([v] + rest)[1..] == rest;
  }

  /** Importing only ever adds reports, and records only from record items. */
  lemma {:induction false} FoldExtends(h: Hash, check: SigCheck, items: seq<Value>, st: ImportState)
    ensures st.skipped <= Fold(h, check, items, st).skipped
    ensures (forall i :: 0 <= i < |items| ==> items[i].Array? && Tag(items[i].items) != "r") ==>
      Fold(h, check, items, st).records == st.records
    decreases |items|
  {
    hide Step, Scans, Tag;
    if items != [] {
      StepKeeps(h, check, st, items[0]);
      FoldExtends(h, check, items[1..], Step(h, check, st, Some(items[0])));
    }
  }

  /** No report is lost; records stay unless the item is a record item. */
  ghost predicate Keeps(a: ImportState, b: ImportState)
  {
    a.skipped <= b.skipped && b.records == a.records
  }

  lemma {:induction false} FlushKeeps(h: Hash, st: ImportState)
    ensures Keeps(st, Flush(h, st))
  {
  }

  lemma {:induction false} StepRecordKeeps(h: Hash, check: SigCheck, st: ImportState, arr: seq<Value>)
    ensures st.skipped <= StepRecord(h, check, st, arr).skipped
    ensures st.records <= StepRecord(h, check, st, arr).records
    ensures |StepRecord(h, check, st, arr).records| <= |st.records| + 1
  {
    hide FromCbor, Verifies, Id, BytesAt;
  }

  lemma {:induction false} OthersKeep(h: Hash, st: ImportState, arr: seq<Value>)
    ensures Keeps(st, StepBlob(h, st, arr)) && Keeps(st, StepPart(h, st, arr)) && Keeps(st, StepEnd(st, arr))
  {
    hide BytesAt, UintAt, Flush;
    forall x { FlushKeeps(h, x); }
  }

  lemma {:induction false} TaggedKeeps(h: Hash, check: SigCheck, st: ImportState, arr: seq<Value>)
    ensures var next := StepTagged(h, check, st, arr);
      st.skipped <= next.skipped && st.records <= next.records && |next.records| <= |st.records| + 1
      && (Tag(arr) != "r" ==> next.records == st.records)
  {
    hide Tag, Flush, StepRecord, StepBlob, StepPart, StepEnd;
    FlushKeeps(h, st);
    StepRecordKeeps(h, check, Flush(h, st), arr);
    OthersKeep(h, Flush(h, st), arr);
    OthersKeep(h, st, arr);
  }

  lemma {:induction false} StepKeeps(h: Hash, check: SigCheck, st: ImportState, v: Value)
    ensures var next := Step(h, check, st, Some(v));
      st.skipped <= next.skipped && st.records <= next.records && |next.records| <= |st.records| + 1
      && (v.Array? && Tag(v.items) != "r" ==> next.records == st.records)
  {
    hide Tag, StepTagged;
    if v.Array? {
      TaggedKeeps(h, check, st, v.items);
      TaggedKeeps(h, check, Report1(st.(first := false), NotHdrFirst), v.items);
    }
  }

  // ------------------------------------------------------------------
  // Records
  // ------------------------------------------------------------------

  /** A record the bundle format can carry. */
  ghost predicate Carried(h: Hash, check: SigCheck, r: Record)
  {
    Verifies(h, check, r) && |Encoding(ToValue(r, true)).bytes| <= ITEM_STRING_LIMIT
    && WireFit(r)
  }

  ghost function Ids(h: Hash, records: seq<Record>): set<Digest>
  {
    set i | 0 <= i < |records| :: Id(h, records[i])
  }

  ghost predicate AfterRecords(h: Hash, st: ImportState, done: seq<Record>)
  {
    st == ImportState(done, [], [], Ids(h, done), {}, |done|, 0, None, false, false)
  }

  /** One record item, from a state that has kept up so far. */
  lemma {:induction false} RecordStep(h: Hash, check: SigCheck, st: ImportState, done: seq<Record>, r: Record)
    requires AfterRecords(h, st, done) && Exportable(r) && |ToCbor(r).value| <= ITEM_STRING_LIMIT
    ensures var next := Step(h, check, st, Some(RecordItem(ToCbor(r).value)));
      if Carried(h, check, r) && Id(h, r) !in Ids(h, done) then AfterRecords(h, next, done + [r])
      else Derailed(next, done + [r])
  {
    hide Verifies, Id, FromCbor, Ids;
    var bytes := ToCbor(r).value;
    ToCborThenFromCbor(r);
    RecordItemStep(h, check, st, bytes);
    IdsSnoc(h, done, r);
    var back := FromCbor(bytes);
    if back.Some? {
      assert (done + [back.value])[|done|] == back.value;
      assert (done + [r])[|done|] == r;
    }
  }

  lemma {:induction false} IdsSnoc(h: Hash, done: seq<Record>, r: Record)
    ensures Ids(h, done + [r]) == Ids(h, done) + {Id(h, r)}
  {
    hide Id;
    var all := done + [r];
    assert all[|done|] == r;
    forall d
      ensures d in Ids(h, all) <==> d in Ids(h, done) + {Id(h, r)}
    {
      if d in Ids(h, done) {
        var i :| 0 <= i < |done| && d == Id(h, done[i]);
        assert all[i] == done[i];
      }
    }
  }

  /** What a record item does where nothing is pending. */
  lemma {:induction false} RecordItemStep(h: Hash, check: SigCheck, st: ImportState, bytes: Vec<byte>)
    requires st.pending.None? && !st.first && !st.ended
    ensures var next := Step(h, check, st, Some(RecordItem(bytes))); var r := FromCbor(bytes);
      if r.None? || !Verifies(h, check, r.value) then next == Report1(st, InvalidRecord)
      else if Id(h, r.value) in st.seenRecords then next == st
      else next == st.(seenRecords := st.seenRecords + {Id(h, r.value)}, nRecords := st.nRecords + 1,
                       records := st.records + [r.value])
  {
    hide FromCbor, Verifies, Id;
    var arr := RecordItem(bytes).items;
    assert Tag(arr) == "r" && BytesAt(arr, 1) == Some(bytes);
  }

  /** An import that has already lost something of `done`. */
  ghost predicate Derailed(st: ImportState, done: seq<Record>)
  {
    st.skipped != [] || (|st.records| <= |done| && st.records != done)
  }

  lemma {:induction false} DerailedStep(h: Hash, check: SigCheck, st: ImportState, done: seq<Record>, r: Record)
    requires Exportable(r) && Derailed(st, done)
    ensures Derailed(Step(h, check, st, Some(RecordItem(ToCbor(r).value))), done + [r])
  {
    var v := RecordItem(ToCbor(r).value);
    StepKeeps(h, check, st, v);
    var next := Step(h, check, st, Some(v));
    if next.skipped == [] && |st.records| == |done| {
      assert next.records[..|done|] == st.records;
      assert (done + [r])[..|done|] == done;
    }
  }

  ghost predicate NoRecordItems(items: seq<Value>)
  {
    forall i :: 0 <= i < |items| ==> items[i].Array? && Tag(items[i].items) != "r"
  }

  lemma {:induction false} DerailedFold(h: Hash, check: SigCheck, st: ImportState, done: seq<Record>, rs: seq<Record>,
                                        tail: seq<Value>)
    requires forall i :: 0 <= i < |rs| ==> Exportable(rs[i])
    requires Derailed(st, done) && NoRecordItems(tail)
    ensures Derailed(Fold(h, check, RecordItems(rs) + tail, st), done + rs)
    decreases |rs|
  {
    hide Step, Scans, ToCbor, NoRecordItems, RecordItem, Derailed, Fold;
    if rs == [] {
      assert RecordItems(rs) + tail == tail && done + rs == done;
      TailDerailed(h, check, st, done, tail);
    } else {
      var v, t := RecordItem(ToCbor(rs[0]).value), RecordItems(rs[1..]) + tail;
      RecordItemsCons(rs, tail);
      FoldOne(h, check, v, t, st);
      assert Exportable(rs[0]);
      UnreadableDerails(st, done + rs);
      DerailedStep(h, check, st, done, rs[0]);
      DerailedFold(h, check, Step(h, check, st, Some(v)), done + [rs[0]], rs[1..], tail);
      assert done + rs == done + [rs[0]] + rs[1..];
    }
  }

  lemma NoItems()
    ensures RecordItems([]) == []
  {
  }

  lemma RecordItemsCons(rs: seq<Record>, tail: seq<Value>)
    requires rs != [] && forall i :: 0 <= i < |rs| ==> Exportable(rs[i])
    ensures ToCbor(rs[0]).Some? && |ToCbor(rs[0]).value| < U64_SIZE
    ensures RecordItems(rs) + tail == [RecordItem(ToCbor(rs[0]).value)] + (RecordItems(rs[1..]) + tail)
  {
    hide ToCbor, RecordItem;
    assert Exportable(rs[0]);
  }

  lemma {:induction false} TailDerailed(h: Hash, check: SigCheck, st: ImportState, done: seq<Record>, tail: seq<Value>)
    requires Derailed(st, done) && NoRecordItems(tail)
    ensures Derailed(Fold(h, check, tail, st), done)
  {
    hide Fold, Tag;
    FoldExtends(h, check, tail, st);
  }

  ghost predicate FreshIds(h: Hash, seen: set<Digest>, rs: seq<Record>)
    decreases |rs|
  {
    rs == [] || (Id(h, rs[0]) !in seen && FreshIds(h, seen + {Id(h, rs[0])}, rs[1..]))
  }

  lemma {:induction false} FreshIsDistinct(h: Hash, seen: set<Digest>, rs: seq<Record>)
    ensures FreshIds(h, seen, rs)
      <==> DistinctRecords(h, rs) && forall i :: 0 <= i < |rs| ==> Id(h, rs[i]) !in seen
    decreases |rs|
  {
    hide Id;
    if rs != [] {
      var t, more := rs[1..], seen + {Id(h, rs[0])};
      FreshIsDistinct(h, more, t);
      if FreshIds(h, seen, rs) {
        forall i, j | 0 <= i < j < |rs|
          ensures Id(h, rs[i]) != Id(h, rs[j])
        {
          assert rs[j] == t[j - 1] && Id(h, t[j - 1]) !in more;
          if i > 0 { assert rs[i] == t[i - 1]; }
        }
        forall i | 0 <= i < |rs|
          ensures Id(h, rs[i]) !in seen
        {
          if i > 0 { assert rs[i] == t[i - 1] && Id(h, t[i - 1]) !in more; }
        }
      } else if Id(h, rs[0]) !in seen && DistinctRecords(h, t) {
        var i :| 0 <= i < |t| && Id(h, t[i]) in more;
        assert rs[i + 1] == t[i];
      } else if Id(h, rs[0]) !in seen {
        var i, j :| 0 <= i < j < |t| && Id(h, t[i]) == Id(h, t[j]);
        assert rs[i + 1] == t[i] && rs[j + 1] == t[j];
      }
    }
  }

  ghost predicate AllCarried(h: Hash, check: SigCheck, rs: seq<Record>)
    decreases |rs|
  {
    rs == [] || (Carried(h, check, rs[0]) && AllCarried(h, check, rs[1..]))
  }

  /** All records, from a state that has kept up so far, with more items to come. */
  lemma {:induction false} RecordsFold(h: Hash, check: SigCheck, st: ImportState, done: seq<Record>, rs: seq<Record>,
                                       tail: seq<Value>)
    requires forall i :: 0 <= i < |rs| ==> Exportable(rs[i])
    requires AfterRecords(h, st, done) && NoRecordItems(tail)
    ensures var all := Fold(h, check, RecordItems(rs) + tail, st);
      if AllCarried(h, check, rs) && FreshIds(h, Ids(h, done), rs)
      then all == Fold(h, check, tail, ImportState(done + rs, [], [], Ids(h, done + rs), {}, |done + rs|, 0, None, false, false))
      else Derailed(all, done + rs)
    decreases |rs|
  {
    hide Step, Scans, Carried, NoRecordItems, Id, Ids, Derailed, Fold, RecordItem, ToCbor, RecordItems;
    if rs == [] {
      assert RecordItems([]) == [] by { NoItems(); }
      assert RecordItems(rs) + tail == tail && done + rs == done;
    } else {
      var r := rs[0];
      assert Exportable(r);
      var bytes := ToCbor(r).value;
      var v, t := RecordItem(bytes), RecordItems(rs[1..]) + tail;
      RecordItemsCons(rs, tail);
      assert done + rs == done + [r] + rs[1..];
      FoldOne(h, check, v, t, st);
      RecordItemFine(bytes);
      if |bytes| > ITEM_STRING_LIMIT {
        NotCarried(h, check, r);
        UnreadableDerails(st, done + rs);
      } else {
        RecordStep(h, check, st, done, r);
        IdsSnoc(h, done, r);
        var next := Step(h, check, st, Some(v));
        if Carried(h, check, r) && Id(h, r) !in Ids(h, done) {
          RecordsFold(h, check, next, done + [r], rs[1..], tail);
        } else {
          DerailedFold(h, check, next, done + [r], rs[1..], tail);
        }
      }
    }
  }

  lemma NotCarried(h: Hash, check: SigCheck, r: Record)
    requires Exportable(r) && |ToCbor(r).value| > ITEM_STRING_LIMIT
    ensures !Carried(h, check, r)
  {
  }

  lemma UnreadableDerails(st: ImportState, done: seq<Record>)
    ensures Derailed(Report1(st, UnreadableItem), done)
  {
  }

  // ------------------------------------------------------------------
  // Blobs
  // ------------------------------------------------------------------

  function Outputs(blobs: seq<Input>): (r: seq<BlobItem>)
    ensures |r| == |blobs|
  {
    if blobs == [] then [] else [BlobItem(blobs[0].id, blobs[0].content)] + Outputs(blobs[1..])
  }

  ghost function BlobIds(blobs: seq<Input>): set<Digest>
  {
    if blobs == [] then {} else {blobs[0].id} + BlobIds(blobs[1..])
  }

  lemma {:induction false} OutputsSnoc(done: seq<Input>, b: Input)
    ensures Outputs(done + [b]) == Outputs(done) + [BlobItem(b.id, b.content)]
    ensures BlobIds(done + [b]) == BlobIds(done) + {b.id}
  {
    if done == [] {
      assert done + [b] == [b];
    } else {
      OutputsSnoc(done[1..], b);
      assert (done + [b])[1..] == done[1..] + [b];
    }
  }

  /** A parted blob whose last part is a full chunk: only the next item tells the
      importer that it is complete. */
  ghost predicate Hanging(b: Input) { Parted(b) && |b.content| % CHUNK_SIZE == 0 }

  /** The state between two blobs: `done` is emitted, or will be by the next
      flush, and `clean` tells whether nothing has been reported. */
  ghost predicate BetweenBlobs(h: Hash, st: ImportState, records: seq<Record>, done: seq<Input>, clean: bool)
  {
    st.records == records && st.nRecords == |records| && !st.first && !st.ended
    && (var f := Flush(h, st);
        f.blobs == Outputs(done) && f.seenBlobs == BlobIds(done) && f.nBlobs == |done| && (f.skipped == [] <==> clean))
    && (st.pending.Some? ==> st.pending.value.next > 0)
  }

  /** One step of the importer on an item whose tag needs no flush first. */
  lemma {:induction false} PartStep(h: Hash, check: SigCheck, st: ImportState, id: Digest, k: nat, part: Vec<byte>)
    requires !st.first && !st.ended && k < U64_SIZE
    ensures var next := Step(h, check, st, Some(PartItem(id, k, part)));
      if st.pending.Some? && !(st.pending.value.id == id && st.pending.value.next == k) then
        next == Flush(h, Report1(st, PartNotContiguous))
      else if st.pending.Some? || k == 0 then
        var so := if st.pending.Some? then st.pending.value.content else [];
        var more := st.(pending := Some(Pending(id, k + 1, so + part)));
        next == if |part| < CHUNK_SIZE then Flush(h, more) else more
      else next == Report1(st, PartNotFirst)
  {
    hide Flush;
    var arr := PartItem(id, k, part).items;
    assert Tag(arr) == "bp" && BytesAt(arr, 1) == Some(id) && UintAt(arr, 2) == Some(k) && BytesAt(arr, 3) == Some(part);
    if st.pending.None? && k == 0 { assert [] + part == part; }
  }

  lemma {:induction false} BlobStep(h: Hash, check: SigCheck, st: ImportState, b: Input)
    requires !st.first && !st.ended && h(b.content) == b.id
    ensures Step(h, check, st, Some(WholeBlobItem(b.id, b.content))) == EmitBlob(Flush(h, st), b.id, b.content)
  {
    hide Flush, EmitBlob;
    var arr := WholeBlobItem(b.id, b.content).items;
    assert Tag(arr) == "b" && BytesAt(arr, 1) == Some(b.id) && BytesAt(arr, 2) == Some(b.content);
  }

  ghost predicate Shaped(parts: seq<seq<byte>>)
  {
    parts != [] && (forall i :: 0 <= i < |parts| ==> |parts[i]| <= CHUNK_SIZE)
    && forall i :: 0 <= i < |parts| - 1 ==> |parts[i]| == CHUNK_SIZE
  }

  /** The remaining parts of the blob in progress. */
  lemma {:induction false} PartsFold(h: Hash, check: SigCheck, st: ImportState, id: Digest, k: nat, so: seq<byte>,
                                     parts: seq<seq<byte>>)
    requires Shaped(parts) && k + |parts| < U64_SIZE && !st.first && !st.ended
    requires st.pending == (if k == 0 then None else Some(Pending(id, k, so))) && (k == 0 ==> so == [])
    ensures var items := PartItems(id, k, parts);
      var whole := st.(pending := Some(Pending(id, k + |parts|, so + Concat(parts))));
      AllFine(items)
      && Fold(h, check, items, st) == if |parts[|parts| - 1]| < CHUNK_SIZE then Flush(h, whole) else whole
    decreases |parts|
  {
    hide Step, Flush, Fine, Scans;
    var v, t := PartItem(id, k, parts[0]), parts[1..];
    var items := PartItems(id, k, parts);
    PartFine(id, k, parts[0]);
    PartStep(h, check, st, id, k, parts[0]);
    FoldOne(h, check, v, PartItems(id, k + 1, t), st);
    var more := st.(pending := Some(Pending(id, k + 1, so + parts[0])));
    assert items == [v] + PartItems(id, k + 1, t);
    FineScans(v);
    if t == [] {
      assert parts == [parts[0]];
      assert Concat(parts) == parts[0];
    } else {
      assert |parts[0]| == CHUNK_SIZE;
      ShapedTail(parts);
      PartsFold(h, check, more, id, k + 1, so + parts[0], t);
      assert so + Concat(parts) == so + parts[0] + Concat(t);
      assert more.(pending := Some(Pending(id, k + |parts|, so + Concat(parts))))
          == st.(pending := Some(Pending(id, k + |parts|, so + Concat(parts))));
    }
  }

  lemma FineScans(v: Value)
    requires Fine(v)
    ensures Scans(v, 1) && IsCanonical(v)
  {
  }

  lemma ShapedTail(parts: seq<seq<byte>>)
    requires Shaped(parts) && |parts| > 1
    ensures Shaped(parts[1..])
  {
  }

  ghost predicate FreshBlobs(h: Hash, seen: set<Digest>, blobs: seq<Input>)
    decreases |blobs|
  {
    blobs == []
    || (blobs[0].id !in seen && h(blobs[0].content) == blobs[0].id && FreshBlobs(h, seen + {blobs[0].id}, blobs[1..]))
  }

  lemma {:induction false} FreshWithFewer(h: Hash, seen: set<Digest>, fewer: set<Digest>, blobs: seq<Input>)
    requires FreshBlobs(h, seen, blobs) && fewer <= seen
    ensures FreshBlobs(h, fewer, blobs)
    decreases |blobs|
  {
    if blobs != [] { FreshWithFewer(h, seen + {blobs[0].id}, fewer + {blobs[0].id}, blobs[1..]); }
  }

  /** Is some parted blob directly preceded by a hanging one? `hanging` tells
      about the blob before the list. */
  ghost predicate CleanFrom(hanging: bool, blobs: seq<Input>)
    decreases |blobs|
  {
    blobs == [] || (!(hanging && Parted(blobs[0])) && CleanFrom(Hanging(blobs[0]), blobs[1..]))
  }

  /** The blobs that get through: a parted blob directly after a hanging one that
      got through is lost, and nothing hangs after it. */
  ghost function SurvivorsFrom(hanging: bool, blobs: seq<Input>): (r: seq<Input>)
    ensures |r| <= |blobs|
    decreases |blobs|
  {
    if blobs == [] then []
    else if hanging && Parted(blobs[0]) then SurvivorsFrom(false, blobs[1..])
    else [blobs[0]] + SurvivorsFrom(Hanging(blobs[0]), blobs[1..])
  }

  ghost function Survivors(blobs: seq<Input>): seq<Input> { SurvivorsFrom(false, blobs) }

  lemma {:induction false} CleanSurvive(hanging: bool, blobs: seq<Input>)
    ensures SurvivorsFrom(hanging, blobs) == blobs <==> CleanFrom(hanging, blobs)
    ensures |SurvivorsFrom(hanging, blobs)| == |blobs| <==> CleanFrom(hanging, blobs)
    decreases |blobs|
  {
    hide Hanging, Parted;
    if blobs != [] { CleanSurvive(Hanging(blobs[0]), blobs[1..]); }
  }

  lemma {:induction false} EmitNext(h: Hash, st: ImportState, f: ImportState, next: ImportState, records: seq<Record>,
                                    done: seq<Input>, clean: bool, b: Input)
    requires BetweenBlobs(h, st, records, done, clean) && f == Flush(h, st) && b.id !in BlobIds(done)
    requires next == EmitBlob(f, b.id, b.content)
    ensures next.records == records && next.nRecords == |records| && !next.first && !next.ended && next.pending.None?
    ensures next.blobs == Outputs(done + [b]) && next.seenBlobs == BlobIds(done + [b]) && next.nBlobs == |done + [b]|
    ensures next.skipped == [] <==> clean
  {
    OutputsSnoc(done, b);
    hide Outputs, BlobIds;
  }

  /** A small blob always gets through. */
  lemma {:induction false} WholeNext(h: Hash, check: SigCheck, st: ImportState, records: seq<Record>, done: seq<Input>,
                                     clean: bool, b: Input)
    requires BetweenBlobs(h, st, records, done, clean) && b.id !in BlobIds(done) && h(b.content) == b.id && !Parted(b)
    ensures var next := Fold(h, check, BlobItems(b), st);
      AllFine(BlobItems(b)) && BetweenBlobs(h, next, records, done + [b], clean) && next.pending.None?
  {
    var v := WholeBlobItem(b.id, b.content);
    WholeBlobFine(b);
    FineScans(v);
    BlobStep(h, check, st, b);
    var next := Step(h, check, st, Some(v));
    EmitNext(h, st, Flush(h, st), next, records, done, clean, b);
    hide Step, Fine, Scans, Outputs, BlobIds;
    FoldOne(h, check, v, [], st);
    assert [v] + [] == [v];
  }

  /** A parted blob gets through when nothing is pending. */
  lemma {:induction false} PartedNext(h: Hash, check: SigCheck, st: ImportState, records: seq<Record>, done: seq<Input>,
                                      clean: bool, b: Input)
    requires BetweenBlobs(h, st, records, done, clean) && b.id !in BlobIds(done) && h(b.content) == b.id
    requires Parted(b) && st.pending.None?
    ensures var next := Fold(h, check, BlobItems(b), st);
      AllFine(BlobItems(b)) && BetweenBlobs(h, next, records, done + [b], clean) && (next.pending.Some? <==> Hanging(b))
  {
    var parts := Chunks(b.content);
    ChunkSizes(b.content);
    ChunksShape(b.content);
    hide Chunks;
    assert Shaped(parts);
    PartsFold(h, check, st, b.id, 0, [], parts);
    assert [] + Concat(parts) == b.content;
    var whole := st.(pending := Some(Pending(b.id, |parts|, b.content)));
    assert Flush(h, st) == st;
    assert Flush(h, whole) == EmitBlob(st, b.id, b.content);
    EmitNext(h, st, st, EmitBlob(st, b.id, b.content), records, done, clean, b);
    hide Step, Fine, Scans, Outputs, BlobIds, EmitBlob, Fold;
  }

  /** The same state but for its reports, of which some are new. */
  ghost predicate OnlyReports(a: ImportState, b: ImportState)
  {
    b == a.(skipped := b.skipped) && a.skipped <= b.skipped
  }

  lemma FlushAfterReport(h: Hash, st: ImportState, r: Report)
    ensures Flush(h, Report1(st, r)) == Flush(h, st).(skipped := Flush(h, Report1(st, r)).skipped)
    ensures Flush(h, Report1(st, r)).skipped != []
  {
  }

  /** Parts that nothing pending waits for are reported, one by one. */
  lemma {:induction false} StrayParts(h: Hash, check: SigCheck, st: ImportState, id: Digest, k: nat, parts: seq<seq<byte>>)
    requires k > 0 && k + |parts| < U64_SIZE && forall i :: 0 <= i < |parts| ==> |parts[i]| <= CHUNK_SIZE
    requires !st.first && !st.ended && st.pending.None?
    ensures AllFine(PartItems(id, k, parts)) && OnlyReports(st, Fold(h, check, PartItems(id, k, parts), st))
    decreases |parts|
  {
    hide Step, Fine, Scans;
    if parts != [] {
      var v, t := PartItem(id, k, parts[0]), parts[1..];
      PartFine(id, k, parts[0]);
      FineScans(v);
      PartStep(h, check, st, id, k, parts[0]);
      FoldOne(h, check, v, PartItems(id, k + 1, t), st);
      StrayParts(h, check, Report1(st, PartNotFirst), id, k + 1, t);
      assert PartItems(id, k, parts) == [v] + PartItems(id, k + 1, t);
    }
  }

  /** A parted blob directly after a hanging one is lost: its parts only finish
      the blob before it and cause reports. */
  lemma {:induction false} PartedLost(h: Hash, check: SigCheck, st: ImportState, b: Input)
    requires !st.first && !st.ended && Parted(b) && st.pending.Some? && st.pending.value.next > 0
    ensures var next := Fold(h, check, BlobItems(b), st);
      AllFine(BlobItems(b)) && next == Flush(h, st).(skipped := next.skipped) && next.skipped != []
  {
    var parts := Chunks(b.content);
    ChunkSizes(b.content);
    ChunksShape(b.content);
    hide Chunks;
    var v, t := PartItem(b.id, 0, parts[0]), PartItems(b.id, 1, parts[1..]);
    assert BlobItems(b) == [v] + t;
    PartFine(b.id, 0, parts[0]);
    FineScans(v);
    PartStep(h, check, st, b.id, 0, parts[0]);
    FlushAfterReport(h, st, PartNotContiguous);
    var flushed := Flush(h, Report1(st, PartNotContiguous));
    FlushFlags(h, Report1(st, PartNotContiguous));
    hide Step, Scans, Fine, Flush;
    FoldOne(h, check, v, t, st);
    StrayParts(h, check, flushed, b.id, 1, parts[1..]);
  }

  lemma FlushFlags(h: Hash, st: ImportState)
    ensures Flush(h, st).pending.None? && Flush(h, st).first == st.first && Flush(h, st).ended == st.ended
    ensures Flush(h, st).records == st.records && Flush(h, st).nRecords == st.nRecords
  {
  }

  lemma LostNext(h: Hash, st: ImportState, next: ImportState, records: seq<Record>, done: seq<Input>, clean: bool)
    requires BetweenBlobs(h, st, records, done, clean)
    requires next == Flush(h, st).(skipped := next.skipped) && next.skipped != []
    ensures BetweenBlobs(h, next, records, done, false) && next.pending.None?
  {
    hide Outputs, BlobIds;
    FlushFlags(h, st);
  }

  /** All blobs, from any state between two of them, with more items to come: the
      survivors get through, and something is reported unless all survive. */
  lemma {:induction false} BlobsFold(h: Hash, check: SigCheck, st: ImportState, records: seq<Record>, done: seq<Input>,
                                     clean: bool, rest: seq<Input>, tail: seq<Value>)
    requires BetweenBlobs(h, st, records, done, clean) && FreshBlobs(h, BlobIds(done), rest)
    ensures var hanging, mid := st.pending.Some?, Fold(h, check, AllBlobItems(rest), st);
      Fold(h, check, AllBlobItems(rest) + tail, st) == Fold(h, check, tail, mid)
      && BetweenBlobs(h, mid, records, done + SurvivorsFrom(hanging, rest), clean && CleanFrom(hanging, rest))
    decreases |rest|
  {
    hide BlobItems, Step, Scans, Flush, Hanging, Parted, BlobIds, BetweenBlobs, AllFine;
    if rest == [] {
      assert AllBlobItems(rest) + tail == tail && done + [] == done;
      NothingFolds(h, check, st);
    } else {
      var b, items, others := rest[0], BlobItems(rest[0]), AllBlobItems(rest[1..]);
      assert AllBlobItems(rest) + tail == items + (others + tail);
      var next := Fold(h, check, items, st);
      OutputsSnoc(done, b);
      if st.pending.Some? && Parted(b) {
        MayContinue(h, st, records, done, clean);
        PartedLost(h, check, st, b);
        LostNext(h, st, next, records, done, clean);
        FreshWithFewer(h, BlobIds(done) + {b.id}, BlobIds(done), rest[1..]);
        BlobsFold(h, check, next, records, done, false, rest[1..], tail);
      } else {
        if Parted(b) {
          PartedNext(h, check, st, records, done, clean, b);
        } else {
          WholeNext(h, check, st, records, done, clean, b);
          WholeHangsNot(b);
        }
        BlobsFold(h, check, next, records, done + [b], clean, rest[1..], tail);
        assert done + ([b] + SurvivorsFrom(Hanging(b), rest[1..])) == done + [b] + SurvivorsFrom(Hanging(b), rest[1..]);
      }
      FoldAppend(h, check, items, others + tail, st);
      FoldAppend(h, check, items, others, st);
    }
  }

  lemma WholeHangsNot(b: Input)
    requires !Parted(b)
    ensures !Hanging(b)
  {
  }

  lemma MayContinue(h: Hash, st: ImportState, records: seq<Record>, done: seq<Input>, clean: bool)
    requires BetweenBlobs(h, st, records, done, clean)
    ensures !st.first && !st.ended && (st.pending.Some? ==> st.pending.value.next > 0)
  {
    hide Flush, Outputs, BlobIds;
  }

  lemma NothingFolds(h: Hash, check: SigCheck, st: ImportState)
    ensures Fold(h, check, [], st) == st
  {
  }

  lemma {:induction false} DistinctIsFresh(h: Hash, blobs: seq<Input>, seen: set<Digest>)
    requires forall i :: 0 <= i < |blobs| ==> h(blobs[i].content) == blobs[i].id
    ensures FreshBlobs(h, seen, Distinct(blobs, seen))
    decreases |blobs|
  {
    if blobs != [] {
      DistinctIsFresh(h, blobs[1..], seen);
      DistinctIsFresh(h, blobs[1..], seen + {blobs[0].id});
    }
  }

  /** No parted blob whose size is an exact multiple of the chunk size is directly
      followed by another parted blob. */
  ghost predicate Clean(blobs: seq<Input>)
  {
    forall i :: 0 <= i < |blobs| - 1 ==> !(Hanging(blobs[i]) && Parted(blobs[i + 1]))
  }

  lemma {:induction false} CleanIsCleanFrom(hanging: bool, blobs: seq<Input>)
    ensures CleanFrom(hanging, blobs) <==> Clean(blobs) && !(hanging && blobs != [] && Parted(blobs[0]))
    decreases |blobs|
  {
    hide Hanging, Parted;
    if blobs != [] {
      var t := blobs[1..];
      CleanIsCleanFrom(Hanging(blobs[0]), t);
      if Clean(blobs) {
        forall i | 0 <= i < |t| - 1
          ensures !(Hanging(t[i]) && Parted(t[i + 1]))
        {
          assert blobs[i + 1] == t[i] && blobs[i + 2] == t[i + 1];
        }
        if t != [] { assert blobs[1] == t[0]; }
      } else if Clean(t) {
        assert forall i :: 1 <= i < |blobs| ==> blobs[i] == t[i - 1];
      }
    }
  }

  lemma {:induction false} AllCarriedEach(h: Hash, check: SigCheck, rs: seq<Record>)
    ensures AllCarried(h, check, rs) <==> forall i :: 0 <= i < |rs| ==> Carried(h, check, rs[i])
    decreases |rs|
  {
    hide Carried;
    if rs != [] {
      AllCarriedEach(h, check, rs[1..]);
      if AllCarried(h, check, rs) {
        forall i | 0 <= i < |rs| ensures Carried(h, check, rs[i]) {
          if i > 0 { assert rs[i] == rs[1..][i - 1]; }
        }
      } else if Carried(h, check, rs[0]) {
        var i :| 0 <= i < |rs[1..]| && !Carried(h, check, rs[1..][i]);
        assert rs[i + 1] == rs[1..][i];
      }
    }
  }

  // ------------------------------------------------------------------
  // The whole bundle
  // ------------------------------------------------------------------

  lemma {:induction false} HdrStep(h: Hash, check: SigCheck)
    ensures Step(h, check, START, Some(HdrItem())) == START.(first := false)
  {
    var arr := HdrItem().items;
    assert Tag(arr) == "hdr";
  }

  lemma {:induction false} EndStep(h: Hash, check: SigCheck, st: ImportState, rc: u64, bc: u64)
    requires !st.first && !st.ended
    ensures var f := Flush(h, st).(ended := true);
      Step(h, check, st, Some(EndItem(rc, bc)))
      == if rc == f.nRecords && bc == f.nBlobs then f else Report1(f, EndCountMismatch)
  {
    hide Flush;
    var arr := EndItem(rc, bc).items;
    assert Tag(arr) == "end" && UintAt(arr, 1) == Some(rc) && UintAt(arr, 2) == Some(bc);
  }

  /** Blob and end items are not record items, and every exported item is in
      canonical form. */
  lemma {:induction false} BlobItemTags(b: Input)
    ensures NoRecordItems(BlobItems(b)) && AllItems(BlobItems(b))
  {
    ChunkSizes(b.content);
    if Parted(b) {
      PartTags(b.id, 0, Chunks(b.content));
    } else {
      WholeBlobFine(b);
      assert Tag(WholeBlobItem(b.id, b.content).items) == "b";
    }
  }

  lemma {:induction false} PartTags(id: Digest, k: nat, parts: seq<seq<byte>>)
    requires k + |parts| < U64_SIZE && forall i :: 0 <= i < |parts| ==> |parts[i]| <= CHUNK_SIZE
    ensures NoRecordItems(PartItems(id, k, parts)) && AllItems(PartItems(id, k, parts))
    decreases |parts|
  {
    hide IsCanonical, Fine;
    if parts != [] {
      PartTags(id, k + 1, parts[1..]);
      PartFine(id, k, parts[0]);
      FineScans(PartItem(id, k, parts[0]));
      assert Tag(PartItem(id, k, parts[0]).items) == "bp";
    }
  }

  lemma {:induction false} AllBlobItemTags(blobs: seq<Input>)
    ensures NoRecordItems(AllBlobItems(blobs)) && AllItems(AllBlobItems(blobs))
  {
    hide IsCanonical, BlobItems, Tag;
    if blobs != [] {
      AllBlobItemTags(blobs[1..]);
      BlobItemTags(blobs[0]);
    }
  }

  lemma {:induction false} RecordItemsCanonical(records: seq<Record>)
    requires forall i :: 0 <= i < |records| ==> Exportable(records[i])
    ensures AllItems(RecordItems(records))
  {
    hide IsCanonical, ToCbor;
    if records != [] {
      assert Exportable(records[0]);
      RecordItemFine(ToCbor(records[0]).value);
      RecordItemsCanonical(records[1..]);
    }
  }

  /** The import of an export is the fold over what follows the header. */
  lemma {:induction false} ImportOfItems(h: Hash, check: SigCheck, records: Vec<Record>, blobs: Vec<Input>)
    returns (tail: seq<Value>)
    requires forall i :: 0 <= i < |records| ==> Exportable(records[i])
    ensures var d := Distinct(blobs, {});
      tail == AllBlobItems(d) + [EndItem(|records|, |d|)] && NoRecordItems(tail)
      && Import(h, check, MAGIC + ItemBytes(ExportItems(records, blobs)))
         == Some(Result(Flush(h, Fold(h, check, RecordItems(records) + tail, START.(first := false)))))
  {
    var d := Distinct(blobs, {});
    tail := AllBlobItems(d) + [EndItem(|records|, |d|)];
    var items := [HdrItem()] + (RecordItems(records) + tail);
    ItemsInOrder(records, blobs);
    ExportedItems(records, d);
    hide *;
    StripMagic(ItemBytes(items));
    LoopIsFold(h, check, items, START);
    FoldOne(h, check, HdrItem(), RecordItems(records) + tail, START);
    HdrStep(h, check);
    ImportOf(h, check, MAGIC + ItemBytes(items));
  }

  lemma ItemsInOrder(records: Vec<Record>, blobs: Vec<Input>)
    requires forall i :: 0 <= i < |records| ==> Exportable(records[i])
    ensures var d := Distinct(blobs, {});
      ExportItems(records, blobs) == [HdrItem()] + (RecordItems(records) + (AllBlobItems(d) + [EndItem(|records|, |d|)]))
  {
    hide HdrItem, RecordItems, AllBlobItems, EndItem, Distinct, Exportable;
  }

  lemma StripMagic(b: seq<byte>)
    ensures |MAGIC + b| >= 5 && (MAGIC + b)[..5] == MAGIC && (MAGIC + b)[5..] == b
  {
  }

  lemma ImportOf(h: Hash, check: SigCheck, s: seq<byte>)
    requires |s| >= 5 && s[..5] == MAGIC
    ensures Import(h, check, s) == Some(Result(Flush(h, Loop(h, check, s[5..], START))))
  {
  }

  lemma {:induction false} ExportedItems(records: Vec<Record>, d: Vec<Input>)
    requires forall i :: 0 <= i < |records| ==> Exportable(records[i])
    ensures var tail := AllBlobItems(d) + [EndItem(|records|, |d|)];
      NoRecordItems(tail) && AllItems([HdrItem()] + (RecordItems(records) + tail)) && Scans(HdrItem(), 1)
  {
    hide IsCanonical, Scans, Fine, Tag, ToCbor, HdrItem, EndItem, AllBlobItems, RecordItems;
    HdrFine();
    FineScans(HdrItem());
    EndFine(|records|, |d|);
    FineScans(EndItem(|records|, |d|));
    RecordItemsCanonical(records);
    AllBlobItemTags(d);
    EndTag(|records|, |d|);
  }

  lemma EndTag(rc: u64, bc: u64)
    ensures EndItem(rc, bc).Array? && Tag(EndItem(rc, bc).items) != "r"
  {
    assert Tag(EndItem(rc, bc).items) == "end";
  }

  /** The blobs and the end marker, after the records. */
  lemma {:induction false} AfterAllRecords(h: Hash, check: SigCheck, st: ImportState, count: u64, d: Vec<Input>)
    requires NoBlobsYet(st) && FreshBlobs(h, {}, d)
    ensures var r := Result(Flush(h, Fold(h, check, AllBlobItems(d) + [EndItem(count, |d|)], st)));
      r.records == st.records && r.blobs == Outputs(Survivors(d)) && !r.truncated
      && (r.skipped == [] <==> st.skipped == [] && Clean(d) && count == |st.records|)
  {
    NothingHandedOver(h, st);
    CleanIsCleanFrom(false, d);
    CleanSurvive(false, d);
    hide *;
    assert [] + SurvivorsFrom(false, d) == Survivors(d) by { SurvivorsAre(d); }
    BlobsFold(h, check, st, st.records, [], st.skipped == [], d, [EndItem(count, |d|)]);
    var mid := Fold(h, check, AllBlobItems(d), st);
    LastItem(h, check, mid, st.records, Survivors(d), st.skipped == [] && Clean(d), count, |d|);
  }

  lemma SurvivorsAre(d: seq<Input>)
    ensures [] + SurvivorsFrom(false, d) == Survivors(d)
  {
  }

  /** The importer before the first blob. */
  ghost predicate NoBlobsYet(st: ImportState)
  {
    && !st.first && !st.ended && st.pending.None? && st.nRecords == |st.records|
    && st.blobs == [] && st.seenBlobs == {} && st.nBlobs == 0
  }

  lemma NothingHandedOver(h: Hash, st: ImportState)
    requires NoBlobsYet(st)
    ensures BetweenBlobs(h, st, st.records, [], st.skipped == []) && BlobIds([]) == {} && st.pending.None?
  {
  }

  lemma {:induction false} LastItem(h: Hash, check: SigCheck, mid: ImportState, records: seq<Record>, done: seq<Input>,
                                    clean: bool, rc: u64, bc: u64)
    requires BetweenBlobs(h, mid, records, done, clean)
    ensures var r := Result(Flush(h, Fold(h, check, [EndItem(rc, bc)], mid)));
      r.records == records && r.blobs == Outputs(done) && !r.truncated
      && (r.skipped == [] <==> clean && rc == |records| && bc == |done|)
  {
    hide Step, Scans, Fine, Outputs, BlobIds, Fold, EndItem;
    var end := EndItem(rc, bc);
    EndFine(rc, bc);
    FineScans(end);
    assert [end] + [] == [end];
    FoldOne(h, check, end, [], mid);
    NothingFolds(h, check, Step(h, check, mid, Some(end)));
    EndStep(h, check, mid, rc, bc);
  }

  // ------------------------------------------------------------------
  // Main results
  // ------------------------------------------------------------------

  /** Importing an export gives back all records in order and the blobs by first
      occurrence, with no report and not truncated, exactly when every record can
      be carried, no two have the same id, and the blob list is clean. */
  lemma {:induction false} ExportThenImport(h: Hash, check: SigCheck, records: Vec<Record>, blobs: Vec<Input>)
    requires forall i :: 0 <= i < |records| ==> Exportable(records[i])
    requires Export(h, records, blobs).Some?
    ensures var d := Distinct(blobs, {});
      Import(h, check, Export(h, records, blobs).value) == Some(ImportResult(records, Outputs(d), [], false))
      <==> (forall i :: 0 <= i < |records| ==> Carried(h, check, records[i]))
           && DistinctRecords(h, records) && Clean(d)
  {
    hide Carried, Clean, Fold, Outputs, DistinctRecords, Import, Step, ToCbor, ItemBytes, ExportItems, Flush;
    var d := Distinct(blobs, {});
    assert forall i :: 0 <= i < |blobs| ==> blobs[i] in blobs;
    DistinctIsFresh(h, blobs, {});
    var tail := ImportOfItems(h, check, records, blobs);
    var st := START.(first := false);
    NoIds(h);
    assert [] + records == records;
    RecordsFold(h, check, st, [], records, tail);
    FreshIsDistinct(h, {}, records);
    AllCarriedEach(h, check, records);
    var all := Fold(h, check, RecordItems(records) + tail, st);
    FlushKeeps(h, all);
    if AllCarried(h, check, records) && FreshIds(h, {}, records) {
      var kept := ImportState(records, [], [], Ids(h, records), {}, |records|, 0, None, false, false);
      AfterAllRecords(h, check, kept, |records|, d);
      CleanIsCleanFrom(false, d);
      CleanSurvive(false, d);
    }
  }

  /** Every record small enough to be read. */
  ghost predicate AllShort(records: seq<Record>)
    requires forall i :: 0 <= i < |records| ==> Exportable(records[i])
  {
    forall i :: 0 <= i < |records| ==> Exportable(records[i]) && |ToCbor(records[i]).value| <= ITEM_STRING_LIMIT
  }

  /** Record items, valid or not, leave the importer ready for blobs, unless one
      is too long to be read: then nothing after it is. */
  lemma {:induction false} RecordsPass(h: Hash, check: SigCheck, st: ImportState, rs: seq<Record>, tail: seq<Value>)
    returns (mid: ImportState)
    requires (forall i :: 0 <= i < |rs| ==> Exportable(rs[i])) && NoBlobsYet(st)
    ensures NoBlobsYet(mid)
    ensures Fold(h, check, RecordItems(rs) + tail, st) == if AllShort(rs) then Fold(h, check, tail, mid) else mid
    decreases |rs|
  {
    hide Step, Scans, Fold, RecordItem, ToCbor, RecordItems;
    mid := st;
    if rs == [] {
      assert RecordItems([]) == [] by { NoItems(); }
      assert RecordItems(rs) + tail == tail;
    } else {
      assert Exportable(rs[0]);
      var bytes := ToCbor(rs[0]).value;
      var v, t := RecordItem(bytes), RecordItems(rs[1..]) + tail;
      RecordItemsCons(rs, tail);
      FoldOne(h, check, v, t, st);
      RecordItemFine(bytes);
      if |bytes| > ITEM_STRING_LIMIT {
        mid := Report1(st, UnreadableItem);
      } else {
        RecordItemLeaves(h, check, st, bytes);
        mid := RecordsPass(h, check, Step(h, check, st, Some(v)), rs[1..], tail);
        assert AllShort(rs) <==> AllShort(rs[1..]);
      }
    }
  }

  lemma RecordItemLeaves(h: Hash, check: SigCheck, st: ImportState, bytes: Vec<byte>)
    requires NoBlobsYet(st)
    ensures NoBlobsYet(Step(h, check, st, Some(RecordItem(bytes))))
  {
    hide Step, FromCbor, Verifies, Id;
    RecordItemStep(h, check, st, bytes);
  }

  /** Which blobs survive an export and import, whatever the records: by first
      occurrence, all but a parted blob directly after a surviving one of exact
      chunk-multiple size; none if some record is too long to be read, since the
      import ends there. */
  lemma {:induction false} ImportedBlobs(h: Hash, check: SigCheck, records: Vec<Record>, blobs: Vec<Input>)
    requires forall i :: 0 <= i < |records| ==> Exportable(records[i])
    requires Export(h, records, blobs).Some?
    ensures var r := Import(h, check, Export(h, records, blobs).value);
      r.Some? && r.value.truncated == !AllShort(records)
      && r.value.blobs == if AllShort(records) then Outputs(Survivors(Distinct(blobs, {}))) else []
  {
    hide Clean, Fold, Outputs, Survivors, Import, Step, ToCbor, ItemBytes, ExportItems, AllShort;
    var d := Distinct(blobs, {});
    assert forall i :: 0 <= i < |blobs| ==> blobs[i] in blobs;
    DistinctIsFresh(h, blobs, {});
    var tail := ImportOfItems(h, check, records, blobs);
    var mid := RecordsPass(h, check, START.(first := false), records, tail);
    if AllShort(records) { AfterAllRecords(h, check, mid, |records|, d); }
  }

  lemma NoIds(h: Hash)
    ensures Ids(h, []) == {}
  {
  }
}
