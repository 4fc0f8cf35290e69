/** The store over its two SQL tables (`store.rs`): statements are lists of
    conditions built up step by step, rows are changed in place. */
module StoreImpl {
  import opened Wrappers
  import opened Bytes
  import opened Filters
  import opened Store
  import opened StoreProofs

  /** A row of `records`: kinds are signed. */
  datatype Row = Row(seqno: nat, id: Digest, kind: i64, author: Digest, receivedAt: i64, bytes: seq<byte>)

  /** A row of `refs`. */
  datatype RefRow = RefRow(recordId: Digest, hash: Digest)

  /** One conjunct of a WHERE clause, with its bound parameters. */
  datatype Condition =
    | KindIn(kinds: seq<i64>)
    | KindNotIn(kinds: seq<i64>)
    | AuthorIn(digests: seq<Digest>)
    | IdIn(digests: seq<Digest>)
    | RefIn(digests: seq<Digest>)
    | SeqAfter(n: i64)
    | ReceivedBefore(time: int)

  predicate Holds(c: Condition, row: Row, refs: seq<RefRow>)
  {
    match c
    case KindIn(ks) => row.kind in ks
    case KindNotIn(ks) => row.kind !in ks
    case AuthorIn(ds) => row.author in ds
    case IdIn(ds) => row.id in ds
    case RefIn(ds) => exists i :: 0 <= i < |refs| && refs[i].recordId == row.id && refs[i].hash in ds
    case SeqAfter(n) => row.seqno > n
    case ReceivedBefore(t) => row.receivedAt < t
  }

  predicate HoldAll(cs: seq<Condition>, row: Row, refs: seq<RefRow>)
  {
    forall i :: 0 <= i < |cs| ==> Holds(cs[i], row, refs)
  }

  /** SELECT ... WHERE cs ORDER BY seq DESC LIMIT limit. */
  function SelectRows(rows: seq<Row>, refs: seq<RefRow>, cs: seq<Condition>, limit: nat): seq<Row>
    decreases |rows|
  {
    if rows == [] || limit == 0 then []
    else
      var last, rest := rows[|rows| - 1], rows[..|rows| - 1];
      if HoldAll(cs, last, refs) then [last] + SelectRows(rest, refs, cs, limit - 1)
      else SelectRows(rest, refs, cs, limit)
  }

  /** DELETE ... WHERE cs. */
  function DeleteRows(rows: seq<Row>, cs: seq<Condition>): seq<Row>
    decreases |rows|
  {
    if rows == [] then []
    else if HoldAll(cs, rows[0], []) then DeleteRows(rows[1..], cs)
    else [rows[0]] + DeleteRows(rows[1..], cs)
  }

  // ------------------------------------------------------------------
  // Tables against stored records
  // ------------------------------------------------------------------

  function AsRow(o: Stored): Row
  {
    Row(o.seqno, o.id, Clamp(o.kind), o.author, o.receivedAt, o.bytes)
  }

  function AsRows(rows: seq<Stored>): (r: seq<Row>)
    ensures |r| == |rows|
    ensures forall i :: 0 <= i < |rows| ==> r[i] == AsRow(rows[i])
  {
    if rows == [] then [] else [AsRow(rows[0])] + AsRows(rows[1..])
  }

  ghost predicate RefsAgree(refs: seq<RefRow>, rows: seq<Stored>)
  {
    && (forall i, h :: 0 <= i < |rows| ==> (RefRow(rows[i].id, h) in refs <==> h in rows[i].refs))
    && (forall j :: 0 <= j < |refs| ==> HasId(rows, refs[j].recordId))
  }

  lemma {:induction false} SelectStep(rows: seq<Row>, last: Row, refs: seq<RefRow>, cs: seq<Condition>, limit: nat)
    requires limit > 0
    ensures SelectRows(rows + [last], refs, cs, limit)
         == if HoldAll(cs, last, refs) then [last] + SelectRows(rows, refs, cs, limit - 1)
            else SelectRows(rows, refs, cs, limit)
  {
    hide HoldAll;
    assert (rows + [last])[..|rows|] == rows;
  }

  lemma {:induction false} SelectNone(rows: seq<Stored>, refs: seq<RefRow>, cs: seq<Condition>, pass: Stored -> bool, limit: nat)
    requires rows == [] || limit == 0
    ensures SelectRows(AsRows(rows), refs, cs, limit) == AsRows(Newest(rows, pass, limit)) == []
  {
  }

  lemma {:induction false} SplitLast<T>(xs: seq<T>)
    requires xs != []
    ensures xs == xs[..|xs| - 1] + [xs[|xs| - 1]]
  {
  }

  lemma {:induction false} AppendRow(rows: seq<Stored>, o: Stored)
    ensures AsRows(rows + [o]) == AsRows(rows) + [AsRow(o)]
    ensures AsRows([o] + rows) == [AsRow(o)] + AsRows(rows)
  {
  }

  lemma {:induction false} SelectedRows(rows: seq<Stored>, refs: seq<RefRow>, cs: seq<Condition>, pass: Stored -> bool, limit: nat)
    requires forall o :: o in rows ==> (HoldAll(cs, AsRow(o), refs) <==> pass(o))
    ensures SelectRows(AsRows(rows), refs, cs, limit) == AsRows(Newest(rows, pass, limit))
    decreases |rows|
  {
    hide *;
    if rows == [] || limit == 0 {
      SelectNone(rows, refs, cs, pass, limit);
    } else {
      SplitLast(rows);
      var last, rest := rows[|rows| - 1], rows[..|rows| - 1];
      AppendRow(rest, last);
      SelectStep(AsRows(rest), AsRow(last), refs, cs, limit);
      NewestStep(rest, last, pass, limit);
      SelectedRows(rest, refs, cs, pass, limit - 1);
      SelectedRows(rest, refs, cs, pass, limit);
      AppendRow(Newest(rest, pass, limit - 1), last);
    }
  }

  lemma {:induction false} DeletedRows(rows: seq<Stored>, cs: seq<Condition>, drop: Stored -> bool)
    requires forall o :: o in rows ==> (HoldAll(cs, AsRow(o), []) <==> drop(o))
    ensures DeleteRows(AsRows(rows), cs) == AsRows(Without(rows, drop))
    decreases |rows|
  {
    hide HoldAll;
    if rows != [] {
      DeletedRows(rows[1..], cs, drop);
      assert AsRows(rows)[1..] == AsRows(rows[1..]);
      var t := Without(rows[1..], drop);
      assert ([rows[0]] + t)[1..] == t;
    }
  }

  lemma {:induction false} WithoutTwice(rows: seq<Stored>, p: Stored -> bool, q: Stored -> bool, both: Stored -> bool)
    requires forall o :: o in rows ==> (both(o) <==> p(o) || q(o))
    ensures Without(Without(rows, p), q) == Without(rows, both)
    decreases |rows|
  {
    if rows != [] {
      WithoutTwice(rows[1..], p, q, both);
      var t := Without(rows[1..], p);
      assert ([rows[0]] + t)[1..] == t;
    }
  }

  lemma {:induction false} WithoutNothing(rows: seq<Stored>, p: Stored -> bool)
    requires forall o :: o in rows ==> !p(o)
    ensures Without(rows, p) == rows
    decreases |rows|
  {
    if rows != [] { WithoutNothing(rows[1..], p); }
  }

  // ------------------------------------------------------------------
  // The WHERE clause of a filter
  // ------------------------------------------------------------------

  function ClampAll(ks: seq<u64>): (r: seq<i64>)
    ensures |r| == |ks| && forall i :: 0 <= i < |ks| ==> r[i] == Clamp(ks[i])
  {
    if ks == [] then [] else [Clamp(ks[0])] + ClampAll(ks[1..])
  }

  function KindsClause(f: Filter): seq<Condition> { if f.kinds.Some? then [KindIn(ClampAll(f.kinds.value))] else [] }

  function AuthorsClause(f: Filter): seq<Condition> { if f.authors.Some? then [AuthorIn(f.authors.value)] else [] }

  function IdsClause(f: Filter): seq<Condition> { if f.ids.Some? then [IdIn(f.ids.value)] else [] }

  function RefsClause(f: Filter): seq<Condition> { if f.refs.Some? then [RefIn(f.refs.value)] else [] }

  function SinceClause(f: Filter): seq<Condition> { if f.since.Some? then [SeqAfter(Clamp(f.since.value))] else [] }

  function Clauses(f: Filter): seq<Condition>
  {
    KindsClause(f) + AuthorsClause(f) + IdsClause(f) + RefsClause(f) + SinceClause(f)
  }

  lemma {:induction false} HoldBoth(a: seq<Condition>, b: seq<Condition>, row: Row, refs: seq<RefRow>)
    ensures HoldAll(a + b, row, refs) <==> HoldAll(a, row, refs) && HoldAll(b, row, refs)
  {
    hide Holds;
    if HoldAll(a + b, row, refs) {
      forall i | 0 <= i < |a| ensures Holds(a[i], row, refs) { assert (a + b)[i] == a[i]; }
      forall i | 0 <= i < |b| ensures Holds(b[i], row, refs) { assert (a + b)[|a| + i] == b[i]; }
    }
  }

  lemma {:induction false} HoldOne(c: Condition, row: Row, refs: seq<RefRow>)
    ensures HoldAll([c], row, refs) <==> Holds(c, row, refs)
    ensures HoldAll([], row, refs)
  {
    hide Holds;
    assert [c][0] == c;
  }

  lemma {:induction false} KindsClauseHolds(f: Filter, o: Stored, refs: seq<RefRow>)
    ensures HoldAll(KindsClause(f), AsRow(o), refs)
       <==> (f.kinds.Some? ==> exists k :: k in f.kinds.value && Clamp(k) == Clamp(o.kind))
  {
    hide HoldAll;
    if f.kinds.Some? {
      var ks := f.kinds.value;
      HoldOne(KindIn(ClampAll(ks)), AsRow(o), refs);
      if Clamp(o.kind) in ClampAll(ks) {
        var i :| 0 <= i < |ks| && ClampAll(ks)[i] == Clamp(o.kind);
        assert ks[i] in ks && Clamp(ks[i]) == Clamp(o.kind);
      }
      if k :| k in ks && Clamp(k) == Clamp(o.kind) {
        var i :| 0 <= i < |ks| && ks[i] == k;
        assert ClampAll(ks)[i] == Clamp(o.kind);
      }
    } else {
      HoldOne(SeqAfter(0), AsRow(o), refs);
    }
  }

  /** The refs of a stored record are found through the second table. */
  lemma {:induction false} RefsClauseHolds(f: Filter, o: Stored, refs: seq<RefRow>, rows: seq<Stored>)
    requires RefsAgree(refs, rows) && o in rows
    ensures HoldAll(RefsClause(f), AsRow(o), refs)
       <==> (f.refs.Some? ==> exists r :: r in f.refs.value && r in o.refs)
  {
    hide HoldAll;
    HoldOne(SeqAfter(0), AsRow(o), refs);
    if f.refs.Some? {
      var ds := f.refs.value;
      HoldOne(RefIn(ds), AsRow(o), refs);
      var i :| 0 <= i < |rows| && rows[i] == o;
      if r :| r in ds && r in o.refs {
        assert RefRow(rows[i].id, r) in refs;
        var j :| 0 <= j < |refs| && refs[j] == RefRow(rows[i].id, r);
        assert refs[j].recordId == o.id && refs[j].hash in ds;
      }
      if j :| 0 <= j < |refs| && refs[j].recordId == o.id && refs[j].hash in ds {
        assert refs[j] == RefRow(rows[i].id, refs[j].hash);
      }
    }
  }

  lemma {:induction false} OtherClausesHold(f: Filter, o: Stored, refs: seq<RefRow>)
    requires o.seqno <= I64_MAX
    ensures HoldAll(AuthorsClause(f), AsRow(o), refs) <==> (f.authors.Some? ==> o.author in f.authors.value)
    ensures HoldAll(IdsClause(f), AsRow(o), refs) <==> (f.ids.Some? ==> o.id in f.ids.value)
    ensures HoldAll(SinceClause(f), AsRow(o), refs) <==> (f.since.Some? ==> o.seqno > f.since.value)
  {
    hide HoldAll;
    var row := AsRow(o);
    HoldOne(SeqAfter(0), row, refs);
    if f.authors.Some? { HoldOne(AuthorIn(f.authors.value), row, refs); }
    if f.ids.Some? { HoldOne(IdIn(f.ids.value), row, refs); }
    if f.since.Some? { HoldOne(SeqAfter(Clamp(f.since.value)), row, refs); }
  }

  /** The WHERE clause of a filter selects what `Selects` says. */
  lemma {:induction false} ClausesHold(f: Filter, o: Stored, refs: seq<RefRow>, rows: seq<Stored>)
    requires RefsAgree(refs, rows) && o in rows && o.seqno <= I64_MAX
    ensures HoldAll(Clauses(f), AsRow(o), refs) <==> Selects(f, o)
  {
    hide HoldAll, RefsAgree, KindsClause, AuthorsClause, IdsClause, RefsClause, SinceClause;
    var a, b, c, d, e := KindsClause(f), AuthorsClause(f), IdsClause(f), RefsClause(f), SinceClause(f);
    var row := AsRow(o);
    HoldBoth(a, b, row, refs);
    HoldBoth(a + b, c, row, refs);
    HoldBoth(a + b + c, d, row, refs);
    HoldBoth(a + b + c + d, e, row, refs);
    KindsClauseHolds(f, o, refs);
    OtherClausesHold(f, o, refs);
    RefsClauseHolds(f, o, refs, rows);
  }

  predicate EmptyList(f: Filter)
  {
    f.kinds == Some([]) || f.authors == Some([]) || f.ids == Some([]) || f.refs == Some([])
  }

  lemma {:induction false} EmptyListSelectsNothing(f: Filter, rows: seq<Stored>, limit: nat)
    requires EmptyList(f)
    ensures Newest(rows, Selecting(f), limit) == []
    decreases |rows|
  {
    if rows != [] && limit > 0 { EmptyListSelectsNothing(f, rows[..|rows| - 1], limit); }
  }

  // ------------------------------------------------------------------
  // The delete statements
  // ------------------------------------------------------------------

  function PruningBy(overrides: seq<Override>, now: int): Stored -> bool
  {
    (o: Stored) => OverrideExpired(overrides, now, o)
  }

  function PruningKind(v: Override, now: int): Stored -> bool
  {
    (o: Stored) => Clamp(v.kind) == Clamp(o.kind) && o.receivedAt < Cutoff(now, v.days)
  }

  function PruningDefault(c: Retention, now: int): Stored -> bool
  {
    (o: Stored) => !Overridden(c.byKind, o) && o.receivedAt < Cutoff(now, c.defaultDays)
  }

  function KindStatement(v: Override, now: int): seq<Condition>
  {
    [KindIn([Clamp(v.kind)]), ReceivedBefore(Cutoff(now, v.days))]
  }

  function OverrideKinds(overrides: seq<Override>): (r: seq<i64>)
    ensures |r| == |overrides| && forall i :: 0 <= i < |r| ==> r[i] == Clamp(overrides[i].kind)
  {
    if overrides == [] then [] else [Clamp(overrides[0].kind)] + OverrideKinds(overrides[1..])
  }

  function DefaultStatement(c: Retention, now: int): seq<Condition>
  {
    var old' := ReceivedBefore(Cutoff(now, c.defaultDays));
    if c.byKind == [] then [old'] else [old', KindNotIn(OverrideKinds(c.byKind))]
  }

  lemma {:induction false} HoldTwo(a: Condition, b: Condition, row: Row, refs: seq<RefRow>)
    ensures HoldAll([a, b], row, refs) <==> Holds(a, row, refs) && Holds(b, row, refs)
  {
    hide Holds;
    assert [a, b][0] == a && [a, b][1] == b;
  }

  lemma {:induction false} KindStatementHolds(v: Override, now: int, o: Stored)
    ensures HoldAll(KindStatement(v, now), AsRow(o), []) <==> PruningKind(v, now)(o)
  {
    hide HoldAll;
    HoldTwo(KindIn([Clamp(v.kind)]), ReceivedBefore(Cutoff(now, v.days)), AsRow(o), []);
  }

  lemma {:induction false} DefaultStatementHolds(c: Retention, now: int, o: Stored)
    ensures HoldAll(DefaultStatement(c, now), AsRow(o), []) <==> PruningDefault(c, now)(o)
  {
    hide HoldAll;
    var before, others := ReceivedBefore(Cutoff(now, c.defaultDays)), KindNotIn(OverrideKinds(c.byKind));
    HoldOne(before, AsRow(o), []);
    HoldTwo(before, others, AsRow(o), []);
    var ks := OverrideKinds(c.byKind);
    if Clamp(o.kind) in ks {
      var i :| 0 <= i < |ks| && ks[i] == Clamp(o.kind);
      assert Clamp(c.byKind[i].kind) == Clamp(o.kind);
    }
    if Overridden(c.byKind, o) {
      var i :| 0 <= i < |c.byKind| && Clamp(c.byKind[i].kind) == Clamp(o.kind);
      assert ks[i] == Clamp(o.kind);
    }
  }

  lemma {:induction false} OneMoreOverride(overrides: seq<Override>, i: nat, now: int, o: Stored)
    requires i < |overrides|
    ensures PruningBy(overrides[..i + 1], now)(o) <==> PruningBy(overrides[..i], now)(o) || PruningKind(overrides[i], now)(o)
  {
    var a, b := overrides[..i + 1], overrides[..i];
    if PruningBy(a, now)(o) {
      var j :| 0 <= j < |a| && Clamp(a[j].kind) == Clamp(o.kind) && o.receivedAt < Cutoff(now, a[j].days);
      if j < i { assert b[j] == a[j]; }
    }
    if PruningBy(b, now)(o) {
      var j :| 0 <= j < |b| && Clamp(b[j].kind) == Clamp(o.kind) && o.receivedAt < Cutoff(now, b[j].days);
      assert a[j] == b[j];
    }
    if PruningKind(overrides[i], now)(o) { assert a[i] == overrides[i]; }
  }

  /** The statements together remove what `Prunes` says. */
  lemma {:induction false} StatementsTogether(rows: seq<Stored>, c: Retention, now: int)
    ensures Without(Without(rows, PruningBy(c.byKind, now)), PruningDefault(c, now)) == Without(rows, Pruning(c, now))
  {
    forall o | o in rows
      ensures Pruning(c, now)(o) <==> PruningBy(c.byKind, now)(o) || PruningDefault(c, now)(o)
    {
      if PruningBy(c.byKind, now)(o) {
        var j :| 0 <= j < |c.byKind| && Clamp(c.byKind[j].kind) == Clamp(o.kind)
          && o.receivedAt < Cutoff(now, c.byKind[j].days);
        assert Overridden(c.byKind, o);
      }
    }
    WithoutTwice(rows, PruningBy(c.byKind, now), PruningDefault(c, now), Pruning(c, now));
  }

  /** DELETE FROM refs WHERE record_id NOT IN (SELECT id FROM records). */
  function DropOrphans(refs: seq<RefRow>, rows: seq<Row>): seq<RefRow>
  {
    if refs == [] then []
    else
      var t := DropOrphans(refs[1..], rows);
      if exists i :: 0 <= i < |rows| && rows[i].id == refs[0].recordId then [refs[0]] + t else t
  }

  lemma {:induction false} OrphansDropped(refs: seq<RefRow>, rows: seq<Row>)
    ensures forall r :: r in DropOrphans(refs, rows) <==>
      r in refs && exists i :: 0 <= i < |rows| && rows[i].id == r.recordId
  {
    if refs != [] {
      OrphansDropped(refs[1..], rows);
      assert refs == [refs[0]] + refs[1..];
    }
  }

  lemma {:induction false} RefsStillAgree(refs: seq<RefRow>, before: seq<Stored>, after: seq<Stored>)
    requires RefsAgree(refs, before) && forall o :: o in after ==> o in before
    ensures RefsAgree(DropOrphans(refs, AsRows(after)), after)
  {
    var kept := DropOrphans(refs, AsRows(after));
    OrphansDropped(refs, AsRows(after));
    forall i, h | 0 <= i < |after|
      ensures RefRow(after[i].id, h) in kept <==> h in after[i].refs
    {
      assert after[i] in before;
      var j :| 0 <= j < |before| && before[j] == after[i];
      assert RefRow(before[j].id, h) in refs <==> h in before[j].refs;
      assert AsRows(after)[i].id == after[i].id;
    }
    forall j | 0 <= j < |kept|
      ensures HasId(after, kept[j].recordId)
    {
      assert kept[j] in kept;
      var i :| 0 <= i < |AsRows(after)| && AsRows(after)[i].id == kept[j].recordId;
      assert after[i].id == kept[j].recordId;
    }
  }

  // ------------------------------------------------------------------
  // The store
  // ------------------------------------------------------------------

  datatype StoredRecord = StoredRecord(seqno: nat, bytes: seq<byte>)

  function Views(rows: seq<Row>): (r: seq<StoredRecord>)
    ensures |r| == |rows|
    ensures forall i :: 0 <= i < |rows| ==> r[i] == StoredRecord(rows[i].seqno, rows[i].bytes)
  {
    if rows == [] then [] else [StoredRecord(rows[0].seqno, rows[0].bytes)] + Views(rows[1..])
  }

  /** The two tables and the sequence counter hold the store `t`. */
  ghost predicate Holding(records: seq<Row>, refs: seq<RefRow>, lastSeq: nat, t: Table)
  {
    && Valid(t)
    && t.lastSeq == lastSeq
    && records == AsRows(t.rows)
    && RefsAgree(refs, t.rows)
  }

  /** One row more in the first table and its references in the second. */
  lemma {:induction false} HoldingInserted(records: seq<Row>, refs: seq<RefRow>, lastSeq: nat, t: Table, o: Stored)
    requires Holding(records, refs, lastSeq, t) && !HasId(t.rows, o.id) && lastSeq < I64_MAX
    ensures InsertOutcome(t, o) == Some(Inserted(lastSeq + 1))
    ensures Holding(records + [AsRow(o.(seqno := lastSeq + 1))], refs + RefRows(o.id, o.refs), lastSeq + 1, InsertRow(t, o))
  {
    hide Valid, RefsAgree, HasId;
    StoreProofs.InsertKeeps(t, o);
    RefsGrow(refs, t.rows, o.(seqno := lastSeq + 1));
    AppendRow(t.rows, o.(seqno := lastSeq + 1));
  }

  lemma HoldingMeans(records: seq<Row>, refs: seq<RefRow>, lastSeq: nat, t: Table, o: Stored)
    requires Holding(records, refs, lastSeq, t)
    ensures records == AsRows(t.rows) && t.lastSeq == lastSeq
    ensures HasId(t.rows, o.id) ==> InsertOutcome(t, o) == Some(Duplicate) && InsertRow(t, o) == t
    ensures !HasId(t.rows, o.id) && lastSeq >= I64_MAX ==> InsertOutcome(t, o) == None && InsertRow(t, o) == t
  {
  }

  class RecordStore {
    var records: seq<Row>
    var refs: seq<RefRow>
    var lastSeq: nat

    /** What the tables stand for. */
    ghost var table: Table

    ghost predicate Consistent()
      reads this
    {
      Holding(records, refs, lastSeq, table)
    }

    constructor ()
      ensures Consistent() && table == Table([], 0)
    {
      records, refs, lastSeq := [], [], 0;
      table := Table([], 0);
    }

    method InsertRecord(id: Digest, kind: u64, author: Digest, receivedAt: i64, hashes: seq<Digest>, bytes: seq<byte>)
      returns (r: Option<Outcome>)
      requires Consistent()
      modifies this
      ensures Consistent()
      ensures var o := Stored(0, id, kind, author, receivedAt, hashes, bytes);
        r == InsertOutcome(old(table), o) && table == InsertRow(old(table), o)
    {
      hide Holding, HasId, RefRows, AsRows, InsertOutcome, InsertRow;
      ghost var o := Stored(0, id, kind, author, receivedAt, hashes, bytes);
      HoldingMeans(records, refs, lastSeq, table, o);
      var known := exists i :: 0 <= i < |records| && records[i].id == id;
      KnownId(table.rows, id);
      if known { return Some(Duplicate); }
      if lastSeq >= I64_MAX { return None; }
      HoldingInserted(records, refs, lastSeq, table, o);
      var seqno := lastSeq + 1;
      records := records + [Row(seqno, id, Clamp(kind), author, receivedAt, bytes)];
      lastSeq := seqno;
      InsertRefs(id, hashes);
      table := InsertRow(table, o);
      r := Some(Inserted(seqno));
    }

    method InsertRefs(id: Digest, hashes: seq<Digest>)
      modifies this`refs
      ensures refs == old(refs) + RefRows(id, hashes)
    {
      for i := 0 to |hashes|
        invariant refs == old(refs) + RefRows(id, hashes[..i])
      {
        assert hashes[..i + 1] == hashes[..i] + [hashes[i]];
        RefRowsAppend(id, hashes[..i], hashes[i]);
        refs := refs + [RefRow(id, hashes[i])];
      }
      assert hashes[..|hashes|] == hashes;
    }

    method QueryRecords(f: Filter, default: u64) returns (out: seq<StoredRecord>)
      requires Consistent()
      ensures out == Views(AsRows(Query(table, f, default)))
    {
      if EmptyList(f) {
        EmptyListSelectsNothing(f, table.rows, RowLimit(f, default));
        return [];
      }
      var where: seq<Condition> := [];
      if f.kinds.Some? { where := where + [KindIn(ClampAll(f.kinds.value))]; }
      assert where == KindsClause(f);
      if f.authors.Some? { where := where + [AuthorIn(f.authors.value)]; }
      assert where == KindsClause(f) + AuthorsClause(f);
      if f.ids.Some? { where := where + [IdIn(f.ids.value)]; }
      assert where == KindsClause(f) + AuthorsClause(f) + IdsClause(f);
      if f.refs.Some? { where := where + [RefIn(f.refs.value)]; }
      assert where == KindsClause(f) + AuthorsClause(f) + IdsClause(f) + RefsClause(f);
      if f.since.Some? { where := where + [SeqAfter(Clamp(f.since.value))]; }
      assert where == Clauses(f);
      var limit := if f.limit.Some? then f.limit.value else default;
      out := RunQuery(f, where, limit);
    }

    /** The prepared statement, run. */
    method RunQuery(f: Filter, where: seq<Condition>, limit: u64) returns (out: seq<StoredRecord>)
      requires Consistent() && where == Clauses(f)
      ensures out == Views(AsRows(Newest(table.rows, Selecting(f), limit)))
    {
      hide HoldAll, Selects, Clauses, RefsAgree, SelectRows, Newest;
      forall o | o in table.rows
        ensures HoldAll(where, AsRow(o), refs) <==> Selecting(f)(o)
      {
        ClausesHold(f, o, refs, table.rows);
      }
      SelectedRows(table.rows, refs, where, Selecting(f), Clamp(limit));
      LimitClampHarmless(table, Selecting(f), limit);
      out := Views(SelectRows(records, refs, where, Clamp(limit)));
    }

    /** The highest stored sequence, or 0 for an empty store. */
    method MaxSeq() returns (n: nat)
      requires Consistent()
      ensures table.rows == [] ==> n == 0
      ensures table.rows != [] ==> exists i :: 0 <= i < |table.rows| && table.rows[i].seqno == n
      ensures forall i :: 0 <= i < |table.rows| ==> table.rows[i].seqno <= n
    {
      if records == [] { return 0; }
      n := records[|records| - 1].seqno;
      assert table.rows[|records| - 1].seqno == n;
    }

    method PruneExpired(c: Retention, now: int) returns (deleted: nat)
      requires Consistent()
      modifies this
      ensures Consistent()
      ensures table == Prune(old(table), c, now)
      ensures deleted == |old(table).rows| - |table.rows|
    {
      hide Valid, RefsAgree, HoldAll, OverrideExpired, Overridden, Prunes, DropOrphans;
      ghost var rows := table.rows;
      deleted := 0;
      assert c.byKind[..0] == [];
      NoOverrides(rows, now);
      for i := 0 to |c.byKind|
        invariant table == old(table) && refs == old(refs) && lastSeq == old(lastSeq)
        invariant records == AsRows(Without(rows, PruningBy(c.byKind[..i], now)))
        invariant deleted == |rows| - |records|
      {
        DeleteForKind(rows, c, i, now);
        var kept := DeleteRows(records, KindStatement(c.byKind[i], now));
        deleted := deleted + (|records| - |kept|);
        records := kept;
      }
      assert c.byKind[..|c.byKind|] == c.byKind;
      var more := DeleteDefaultExpired(c, now);
      deleted := deleted + more;
      WithoutValid(table, Pruning(c, now));
      WithoutMembers(rows, Pruning(c, now));
      RefsStillAgree(refs, rows, Without(rows, Pruning(c, now)));
      refs := DropOrphans(refs, records);
      table := Prune(table, c, now);
    }

    method DeleteDefaultExpired(c: Retention, now: int) returns (deleted: nat)
      requires records == AsRows(Without(table.rows, PruningBy(c.byKind, now)))
      modifies this`records
      ensures records == AsRows(Without(table.rows, Pruning(c, now)))
      ensures deleted == |old(records)| - |records|
    {
      hide HoldAll, Overridden, Prunes, OverrideExpired;
      ghost var rows := Without(table.rows, PruningBy(c.byKind, now));
      forall o | o in rows
        ensures HoldAll(DefaultStatement(c, now), AsRow(o), []) <==> PruningDefault(c, now)(o)
      {
        DefaultStatementHolds(c, now, o);
      }
      DeletedRows(rows, DefaultStatement(c, now), PruningDefault(c, now));
      StatementsTogether(table.rows, c, now);
      var kept := DeleteRows(records, DefaultStatement(c, now));
      deleted := |records| - |kept|;
      records := kept;
    }
  }

  lemma {:induction false} NoOverrides(rows: seq<Stored>, now: int)
    ensures Without(rows, PruningBy([], now)) == rows
  {
    WithoutNothing(rows, PruningBy([], now));
  }

  lemma {:induction false} DeleteForKind(rows: seq<Stored>, c: Retention, i: nat, now: int)
    requires i < |c.byKind|
    ensures var r := AsRows(Without(rows, PruningBy(c.byKind[..i], now)));
      DeleteRows(r, KindStatement(c.byKind[i], now)) == AsRows(Without(rows, PruningBy(c.byKind[..i + 1], now)))
      && |DeleteRows(r, KindStatement(c.byKind[i], now))| <= |r|
  {
    hide HoldAll, OverrideExpired;
    var p, q, both := PruningBy(c.byKind[..i], now), PruningKind(c.byKind[i], now), PruningBy(c.byKind[..i + 1], now);
    var kept := Without(rows, p);
    forall o | o in kept
      ensures HoldAll(KindStatement(c.byKind[i], now), AsRow(o), []) <==> q(o)
    {
      KindStatementHolds(c.byKind[i], now, o);
    }
    DeletedRows(kept, KindStatement(c.byKind[i], now), q);
    forall o | o in rows
      ensures both(o) <==> p(o) || q(o)
    {
      OneMoreOverride(c.byKind, i, now, o);
    }
    WithoutTwice(rows, p, q, both);
  }

  // ------------------------------------------------------------------
  // Rows of a new record
  // ------------------------------------------------------------------

  lemma {:induction false} KnownId(rows: seq<Stored>, id: Digest)
    ensures (exists i :: 0 <= i < |AsRows(rows)| && AsRows(rows)[i].id == id) <==> HasId(rows, id)
  {
    if i :| 0 <= i < |AsRows(rows)| && AsRows(rows)[i].id == id { assert rows[i].id == id; }
    if i :| 0 <= i < |rows| && rows[i].id == id { assert AsRows(rows)[i].id == id; }
  }

  function RefRows(id: Digest, hashes: seq<Digest>): (r: seq<RefRow>)
    ensures |r| == |hashes|
    ensures forall i :: 0 <= i < |hashes| ==> r[i] == RefRow(id, hashes[i])
  {
    if hashes == [] then [] else [RefRow(id, hashes[0])] + RefRows(id, hashes[1..])
  }

  lemma {:induction false} RefRowsAppend(id: Digest, hashes: seq<Digest>, h: Digest)
    ensures RefRows(id, hashes + [h]) == RefRows(id, hashes) + [RefRow(id, h)]
  {
  }

  lemma {:induction false} RefsGrow(refs: seq<RefRow>, rows: seq<Stored>, o: Stored)
    requires RefsAgree(refs, rows) && !HasId(rows, o.id)
    ensures RefsAgree(refs + RefRows(o.id, o.refs), rows + [o])
  {
    var added := RefRows(o.id, o.refs);
    var refs', rows' := refs + added, rows + [o];
    forall i, h | 0 <= i < |rows'|
      ensures RefRow(rows'[i].id, h) in refs' <==> h in rows'[i].refs
    {
      if i < |rows| {
        assert rows[i].id != o.id;
        assert RefRow(rows[i].id, h) in refs <==> h in rows[i].refs;
      } else {
        NotOrphan(refs, rows, o, h);
        if h in o.refs {
          var j :| 0 <= j < |o.refs| && o.refs[j] == h;
          assert added[j] == RefRow(o.id, h);
        }
      }
    }
    forall j | 0 <= j < |refs'|
      ensures HasId(rows', refs'[j].recordId)
    {
      if j < |refs| {
        assert HasId(rows, refs[j].recordId);
        var i :| 0 <= i < |rows| && rows[i].id == refs[j].recordId;
        assert rows'[i].id == refs'[j].recordId;
      } else {
        assert rows'[|rows|].id == refs'[j].recordId;
      }
    }
  }

  lemma {:induction false} NotOrphan(refs: seq<RefRow>, rows: seq<Stored>, o: Stored, h: Digest)
    requires RefsAgree(refs, rows) && !HasId(rows, o.id)
    ensures RefRow(o.id, h) !in refs
  {
  }
}
