/** The store refines the plain predicate and never reuses a sequence. */
module StoreProofs {
  import opened Wrappers
  import opened Bytes
  import opened Filters
  import opened Store

  // ------------------------------------------------------------------
  // Validity over every run
  // ------------------------------------------------------------------

  lemma {:induction false} WithoutMembers(rows: seq<Stored>, drop: Stored -> bool)
    ensures forall o :: o in Without(rows, drop) <==> o in rows && !drop(o)
    decreases |rows|
  {
    if rows != [] {
      WithoutMembers(rows[1..], drop);
      assert rows == [rows[0]] + rows[1..];
    }
  }

  ghost predicate Before(x: Stored, rows: seq<Stored>)
  {
    forall o :: o in rows ==> x.seqno < o.seqno && x.id != o.id
  }

  lemma {:induction false} ValidTail(x: Stored, rows: seq<Stored>, last: nat)
    requires Valid(Table([x] + rows, last))
    ensures Valid(Table(rows, last)) && 1 <= x.seqno <= last && Before(x, rows)
  {
    var all := [x] + rows;
    forall i, j | 0 <= i < j < |rows|
      ensures rows[i].seqno < rows[j].seqno && rows[i].id != rows[j].id
    {
      assert all[i + 1] == rows[i] && all[j + 1] == rows[j];
    }
    forall i | 0 <= i < |rows|
      ensures 1 <= rows[i].seqno <= last && x.seqno < rows[i].seqno && x.id != rows[i].id
    {
      assert all[i + 1] == rows[i] && all[0] == x;
    }
  }

  lemma {:induction false} ValidCons(x: Stored, rows: seq<Stored>, last: nat)
    requires Valid(Table(rows, last)) && 1 <= x.seqno <= last && Before(x, rows)
    ensures Valid(Table([x] + rows, last))
  {
    var all := [x] + rows;
    forall i, j | 0 <= i < j < |all|
      ensures all[i].seqno < all[j].seqno && all[i].id != all[j].id
    {
      assert all[j] == rows[j - 1] && rows[j - 1] in rows;
      if i > 0 { assert all[i] == rows[i - 1]; }
    }
  }

  lemma {:induction false} BeforeFewer(x: Stored, rows: seq<Stored>, fewer: seq<Stored>)
    requires Before(x, rows) && forall o :: o in fewer ==> o in rows
    ensures Before(x, fewer)
  {
  }

  lemma {:induction false} WithoutValid(t: Table, drop: Stored -> bool)
    requires Valid(t)
    ensures Valid(t.(rows := Without(t.rows, drop)))
    decreases |t.rows|
  {
    hide Valid, Before;
    if t.rows != [] {
      var x, rest := t.rows[0], t.rows[1..];
      assert t == Table([x] + rest, t.lastSeq);
      ValidTail(x, rest, t.lastSeq);
      WithoutValid(Table(rest, t.lastSeq), drop);
      WithoutMembers(rest, drop);
      if !drop(x) {
        BeforeFewer(x, rest, Without(rest, drop));
        ValidCons(x, Without(rest, drop), t.lastSeq);
      }
    }
  }

  /** Inserting keeps the table valid, adds at most one row at the end and is
      idempotent by id. */
  lemma {:induction false} InsertKeeps(t: Table, r: Stored)
    requires Valid(t)
    ensures Valid(InsertRow(t, r)) && t.rows <= InsertRow(t, r).rows && |InsertRow(t, r).rows| <= |t.rows| + 1
    ensures InsertOutcome(t, r).Some? ==> HasId(InsertRow(t, r).rows, r.id) && InsertRow(InsertRow(t, r), r) == InsertRow(t, r)
    ensures t.lastSeq <= InsertRow(t, r).lastSeq
  {
    var t' := InsertRow(t, r);
    if InsertOutcome(t, r).Some? && InsertOutcome(t, r).value.Inserted? {
      assert t'.rows[|t.rows|].id == r.id;
    }
  }

  lemma {:induction false} ApplyKeeps(t: Table, op: Op)
    requires Valid(t)
    ensures Valid(Apply(t, op)) && Apply(t, op).lastSeq == t.lastSeq + |Assigned(t, op)|
    ensures forall o :: o in Apply(t, op).rows ==> o in t.rows || o.seqno in Assigned(t, op)
  {
    match op
    case OpInsert(r) => InsertKeeps(t, r);
    case OpPrune(c, now) =>
      WithoutValid(t, Pruning(c, now));
      WithoutMembers(t.rows, Pruning(c, now));
  }

  /** Over every run of insertions and prunings: the sequences assigned are the
      consecutive numbers after the last one ever assigned, so they increase
      and none is used twice, whatever was pruned in between; and the rows left
      carry an old sequence or one of these. */
  lemma {:induction false} SequencesNeverReused(t: Table, ops: seq<Op>)
    requires Valid(t)
    ensures Valid(RunOps(t, ops)) && RunOps(t, ops).lastSeq == t.lastSeq + |AllAssigned(t, ops)|
    ensures forall i :: 0 <= i < |AllAssigned(t, ops)| ==> AllAssigned(t, ops)[i] == t.lastSeq + 1 + i
    ensures forall o :: o in RunOps(t, ops).rows ==> o in t.rows || o.seqno in AllAssigned(t, ops)
    decreases |ops|
  {
    hide Apply, Assigned, Valid;
    if ops != [] {
      ApplyKeeps(t, ops[0]);
      AssignedNext(t, ops[0]);
      SequencesNeverReused(Apply(t, ops[0]), ops[1..]);
      var first, later := Assigned(t, ops[0]), AllAssigned(Apply(t, ops[0]), ops[1..]);
      assert AllAssigned(t, ops) == first + later;
    }
  }

  lemma AssignedNext(t: Table, op: Op)
    ensures |Assigned(t, op)| <= 1
    ensures forall i :: 0 <= i < |Assigned(t, op)| ==> Assigned(t, op)[i] == t.lastSeq + 1 + i
  {
  }

  // ------------------------------------------------------------------
  // The query against the filter
  // ------------------------------------------------------------------

  /** A kind that is not listed but clamps to the same number as one that is. */
  predicate KindClash(f: Filter, kind: u64)
  {
    f.kinds.Some? && kind !in f.kinds.value && kind >= I64_MAX
    && exists k :: k in f.kinds.value && k >= I64_MAX
  }

  /** The SQL and the filter differ on a record exactly when its kind clashes
      with a listed one at the top of the signed range and nothing else in the
      filter rejects it; the SQL then selects it. */
  lemma {:induction false} SelectsExactly(f: Filter, o: Stored)
    requires o.seqno < U64_SIZE
    ensures MatchesRow(f, o) ==> Selects(f, o)
    ensures Selects(f, o) && !MatchesRow(f, o) <==> KindClash(f, o.kind) && MatchesRow(f.(kinds := None), o)
  {
    if f.kinds.Some? && o.kind in f.kinds.value {
      assert Clamp(o.kind) == Clamp(o.kind);
    }
  }

  /** A record of an unlisted kind, inserted into an empty store, comes back from
      a query by kind. */
  lemma {:induction false} ClashExample(o: Stored, default: u64)
    requires o.kind == 0x8000_0000_0000_0001 && default > 0
    ensures var f := DEFAULT.(kinds := Some([0x8000_0000_0000_0000]));
      var t := InsertRow(Table([], 0), o);
      Query(t, f, default) == [o.(seqno := 1)] && !MatchesRow(f, o.(seqno := 1))
  {
    var f := DEFAULT.(kinds := Some([0x8000_0000_0000_0000]));
    var stored := o.(seqno := 1);
    assert f.kinds.value[0] in f.kinds.value;
    assert MatchesRow(f.(kinds := None), stored);
    SelectsExactly(f, stored);
    assert InsertRow(Table([], 0), o).rows == [stored];
    NewestStep([], stored, Selecting(f), default);
    NoneLeft([], Selecting(f), default - 1);
    assert [] + [stored] == [stored];
  }

  lemma {:induction false} NewestSame(rows: seq<Stored>, p: Stored -> bool, q: Stored -> bool, limit: nat)
    requires forall o :: o in rows ==> p(o) == q(o)
    ensures Newest(rows, p, limit) == Newest(rows, q, limit)
    decreases |rows|
  {
    if rows != [] && limit > 0 {
      var last, rest := rows[|rows| - 1], rows[..|rows| - 1];
      NewestSame(rest, p, q, limit - 1);
      NewestSame(rest, p, q, limit);
    }
  }

  lemma {:induction false} NewestPass(rows: seq<Stored>, p: Stored -> bool, limit: nat)
    ensures forall i :: 0 <= i < |Newest(rows, p, limit)| ==> p(Newest(rows, p, limit)[i]) && Newest(rows, p, limit)[i] in rows
    decreases |rows|
  {
    if rows != [] && limit > 0 {
      var last, rest := rows[|rows| - 1], rows[..|rows| - 1];
      NewestPass(rest, p, limit - 1);
      NewestPass(rest, p, limit);
      assert rows == rest + [last];
    }
  }

  /** A wider test selects the same rows if and only if the narrower one accepts
      all that it selects. */
  lemma {:induction false} NewestNarrowed(rows: seq<Stored>, wide: Stored -> bool, narrow: Stored -> bool, limit: nat)
    requires forall o :: o in rows && narrow(o) ==> wide(o)
    ensures Newest(rows, wide, limit) == Newest(rows, narrow, limit)
       <==> forall i :: 0 <= i < |Newest(rows, wide, limit)| ==> narrow(Newest(rows, wide, limit)[i])
    decreases |rows|
  {
    var r := Newest(rows, wide, limit);
    if r == Newest(rows, narrow, limit) {
      NewestPass(rows, narrow, limit);
    } else {
      var last, rest := rows[|rows| - 1], rows[..|rows| - 1];
      assert rows == rest + [last];
      if wide(last) {
        NewestNarrowed(rest, wide, narrow, limit - 1);
        if narrow(last) {
          var i :| 0 <= i < |Newest(rest, wide, limit - 1)| && !narrow(Newest(rest, wide, limit - 1)[i]);
          assert r[i + 1] == Newest(rest, wide, limit - 1)[i];
        } else {
          assert r[0] == last;
        }
      } else {
        NewestNarrowed(rest, wide, narrow, limit);
      }
    }
  }

  /** A row that the query's SQL selects and the filter does not match. */
  predicate Stray(f: Filter, o: Stored)
    requires o.seqno < U64_SIZE
  {
    KindClash(f, o.kind) && MatchesRow(f.(kinds := None), o)
  }

  /** The query returns the first `limit` records the filter matches, newest
      first, if and only if no stray row is among those it returns; and whatever
      the limit, if and only if the store holds none. */
  lemma {:induction false} QueryMatches(t: Table, f: Filter, default: u64)
    requires Valid(t)
    ensures Query(t, f, default) == Newest(t.rows, Matching(f), RowLimit(f, default))
       <==> forall i :: 0 <= i < |Query(t, f, default)| ==> !KindClash(f, Query(t, f, default)[i].kind)
    ensures (forall limit: nat :: Newest(t.rows, Selecting(f), limit) == Newest(t.rows, Matching(f), limit))
       <==> forall o :: o in t.rows ==> !Stray(f, o)
  {
    hide Matches, MatchesRow, Selects, KindClash, Newest, Stray;
    forall o | o in t.rows
      ensures Matching(f)(o) ==> Selecting(f)(o)
      ensures Selecting(f)(o) && !Matching(f)(o) <==> Stray(f, o)
      ensures Selecting(f)(o) ==> (!Matching(f)(o) <==> KindClash(f, o.kind))
    {
      SelectsExactly(f, o);
      StrayIs(f, o);
    }
    var limit := RowLimit(f, default);
    NewestPass(t.rows, Selecting(f), limit);
    NewestNarrowed(t.rows, Selecting(f), Matching(f), limit);
    if forall o :: o in t.rows ==> !Stray(f, o) {
      forall n: nat
        ensures Newest(t.rows, Selecting(f), n) == Newest(t.rows, Matching(f), n)
      {
        NewestSame(t.rows, Selecting(f), Matching(f), n);
      }
    } else {
      var o :| o in t.rows && Stray(f, o);
      AllSelected(t.rows, Selecting(f), o);
      NewestPass(t.rows, Matching(f), |t.rows|);
      assert Newest(t.rows, Selecting(f), |t.rows|) != Newest(t.rows, Matching(f), |t.rows|);
    }
  }

  lemma StrayIs(f: Filter, o: Stored)
    requires o.seqno < U64_SIZE
    ensures Stray(f, o) <==> KindClash(f, o.kind) && MatchesRow(f.(kinds := None), o)
    ensures Stray(f, o) ==> KindClash(f, o.kind)
  {
    hide KindClash, MatchesRow;
  }

  /** Without a limit to speak of every row that passes is returned. */
  lemma {:induction false} AllSelected(rows: seq<Stored>, pass: Stored -> bool, o: Stored)
    requires o in rows && pass(o)
    ensures o in Newest(rows, pass, |rows|)
    decreases |rows|
  {
    var last, rest := rows[|rows| - 1], rows[..|rows| - 1];
    assert rows == rest + [last];
    if o != last {
      AllSelected(rest, pass, o);
      NewestEnough(rest, pass, |rest|, |rows|);
    }
  }

  /** `r` is the first `limit` rows that pass, newest first: rows that pass, in
      descending sequence; one is left out only when the list is full of newer
      ones. */
  ghost predicate TopRows(r: seq<Stored>, rows: seq<Stored>, pass: Stored -> bool, limit: nat)
  {
    && |r| <= limit
    && (forall i :: 0 <= i < |r| ==> r[i] in rows && pass(r[i]))
    && (forall i, j :: 0 <= i < j < |r| ==> r[i].seqno > r[j].seqno)
    && (forall o :: o in rows && pass(o) && o !in r ==>
          |r| == limit && forall i :: 0 <= i < |r| ==> r[i].seqno > o.seqno)
  }

  lemma {:induction false} TopTaken(r: seq<Stored>, rest: seq<Stored>, last: Stored, pass: Stored -> bool, limit: nat)
    requires limit > 0 && TopRows(r, rest, pass, limit - 1) && pass(last)
    requires forall o :: o in rest ==> o.seqno < last.seqno
    ensures TopRows([last] + r, rest + [last], pass, limit)
  {
  }

  lemma {:induction false} TopSkipped(r: seq<Stored>, rest: seq<Stored>, last: Stored, pass: Stored -> bool, limit: nat)
    requires TopRows(r, rest, pass, limit) && !pass(last)
    ensures TopRows(r, rest + [last], pass, limit)
  {
  }

  lemma {:induction false} TopTrivial(rows: seq<Stored>, pass: Stored -> bool, limit: nat)
    requires rows == [] || limit == 0
    ensures TopRows([], rows, pass, limit)
  {
  }

  lemma {:induction false} LastIsNewest(t: Table)
    requires Valid(t) && t.rows != []
    ensures var n := |t.rows| - 1;
      Valid(t.(rows := t.rows[..n])) && t.rows == t.rows[..n] + [t.rows[n]]
      && forall o :: o in t.rows[..n] ==> o.seqno < t.rows[n].seqno
  {
    var n := |t.rows| - 1;
    var rest := t.rows[..n];
    forall o | o in rest
      ensures o.seqno < t.rows[n].seqno
    {
      var j :| 0 <= j < |rest| && rest[j] == o;
      assert t.rows[j].seqno < t.rows[n].seqno;
    }
  }

  lemma {:induction false} NewestStep(rows: seq<Stored>, last: Stored, pass: Stored -> bool, limit: nat)
    requires limit > 0
    ensures Newest(rows + [last], pass, limit)
         == if pass(last) then [last] + Newest(rows, pass, limit - 1) else Newest(rows, pass, limit)
  {
    assert (rows + [last])[..|rows|] == rows;
  }

  lemma {:induction false} NewestExactly(t: Table, pass: Stored -> bool, limit: nat)
    requires Valid(t)
    ensures TopRows(Newest(t.rows, pass, limit), t.rows, pass, limit)
    decreases |t.rows|
  {
    hide *;
    if t.rows == [] || limit == 0 {
      TopTrivial(t.rows, pass, limit);
      NoneLeft(t.rows, pass, limit);
    } else {
      LastIsNewest(t);
      var n := |t.rows| - 1;
      var last, rest := t.rows[n], t.(rows := t.rows[..n]);
      NewestStep(rest.rows, last, pass, limit);
      if pass(last) {
        NewestExactly(rest, pass, limit - 1);
        TopTaken(Newest(rest.rows, pass, limit - 1), rest.rows, last, pass, limit);
      } else {
        NewestExactly(rest, pass, limit);
        TopSkipped(Newest(rest.rows, pass, limit), rest.rows, last, pass, limit);
      }
    }
  }

  lemma NoneLeft(rows: seq<Stored>, pass: Stored -> bool, limit: nat)
    requires rows == [] || limit == 0
    ensures Newest(rows, pass, limit) == []
  {
  }

  /** The clamped `LIMIT` never cuts anything off. */
  lemma {:induction false} LimitClampHarmless(t: Table, pass: Stored -> bool, limit: u64)
    requires Valid(t)
    ensures Newest(t.rows, pass, Clamp(limit)) == Newest(t.rows, pass, limit)
  {
    RowsFit(t);
    if limit > I64_MAX { NewestEnough(t.rows, pass, I64_MAX, limit); }
  }

  lemma {:induction false} RowsFit(t: Table)
    requires Valid(t)
    ensures |t.rows| <= t.lastSeq
    decreases |t.rows|
  {
    if t.rows != [] {
      var n := |t.rows| - 1;
      var rest := Table(t.rows[..n], t.rows[n].seqno - 1);
      forall i | 0 <= i < n
        ensures rest.rows[i].seqno <= rest.lastSeq
      {
        assert t.rows[i].seqno < t.rows[n].seqno;
      }
      RowsFit(rest);
    }
  }

  lemma {:induction false} NewestEnough(rows: seq<Stored>, pass: Stored -> bool, m: nat, n: nat)
    requires |rows| <= m && |rows| <= n
    ensures Newest(rows, pass, m) == Newest(rows, pass, n)
    decreases |rows|
  {
    if rows != [] {
      var last, rest := rows[|rows| - 1], rows[..|rows| - 1];
      if pass(last) { NewestEnough(rest, pass, m - 1, n - 1); } else { NewestEnough(rest, pass, m, n); }
    }
  }

  // ------------------------------------------------------------------
  // Pruning against the retention rule
  // ------------------------------------------------------------------

  /** The least retention among the overrides that clamp to the same number as
      `kind`, if there are any. */
  function LeastDays(overrides: seq<Override>, kind: u64): Option<nat>
  {
    if overrides == [] then None
    else
      var rest := LeastDays(overrides[1..], kind);
      if Clamp(overrides[0].kind) != Clamp(kind) || (rest.Some? && rest.value <= overrides[0].days) then rest
      else Some(overrides[0].days)
  }

  /** The retention the delete statements apply. */
  function AppliedDays(c: Retention, kind: u64): nat
  {
    var d := LeastDays(c.byKind, kind);
    if d.Some? then d.value else c.defaultDays
  }

  lemma {:induction false} LeastDaysDecides(overrides: seq<Override>, now: int, o: Stored)
    ensures LeastDays(overrides, o.kind).Some? <==> Overridden(overrides, o)
    ensures LeastDays(overrides, o.kind).Some? ==>
      (OverrideExpired(overrides, now, o) <==> o.receivedAt < Cutoff(now, LeastDays(overrides, o.kind).value))
  {
    hide Clamp;
    if overrides != [] {
      var rest := overrides[1..];
      LeastDaysDecides(rest, now, o);
      assert forall i :: 0 <= i < |rest| ==> rest[i] == overrides[i + 1];
      assert forall i :: 0 < i < |overrides| ==> overrides[i] == rest[i - 1];
    }
  }

  /** What the delete statements do to any record: they hold it against the least
      of the windows that clamp to its kind. */
  lemma {:induction false} PrunesByLeast(c: Retention, now: int, o: Stored)
    ensures Prunes(c, now, o) <==> o.receivedAt < Cutoff(now, AppliedDays(c, o.kind))
  {
    hide Overridden, OverrideExpired, Cutoff, LeastDays;
    LeastDaysDecides(c.byKind, now, o);
  }

  lemma {:induction false} DaysFound(overrides: seq<Override>, kind: u64, default: nat)
    ensures (exists i :: 0 <= i < |overrides| && overrides[i].kind == kind && DaysAmong(overrides, kind, default) == overrides[i].days)
         || ((forall i :: 0 <= i < |overrides| ==> overrides[i].kind != kind) && DaysAmong(overrides, kind, default) == default)
  {
    if overrides != [] {
      var rest := overrides[1..];
      DaysFound(rest, kind, default);
      if overrides[0].kind == kind {
        assert DaysAmong(overrides, kind, default) == overrides[0].days;
      } else if exists i :: 0 <= i < |rest| && rest[i].kind == kind && DaysAmong(rest, kind, default) == rest[i].days {
        var i :| 0 <= i < |rest| && rest[i].kind == kind && DaysAmong(rest, kind, default) == rest[i].days;
        assert overrides[i + 1] == rest[i];
      } else {
        forall i | 0 <= i < |overrides| ensures overrides[i].kind != kind {
          if i > 0 { assert overrides[i] == rest[i - 1]; }
        }
      }
    }
  }

  /** No override clamps to `kind`, or the least of those that do is the kind's
      own retention. */
  predicate FollowsRule(c: Retention, kind: u64)
  {
    var d := LeastDays(c.byKind, kind);
    d.Some? ==> d.value == DaysFor(c, kind)
  }

  lemma {:induction false} FollowsMeansApplied(c: Retention, kind: u64)
    ensures FollowsRule(c, kind) <==> AppliedDays(c, kind) == DaysFor(c, kind)
  {
    var o := Sample(kind);
    LeastDaysDecides(c.byKind, 0, o);
    DaysFound(c.byKind, kind, c.defaultDays);
    hide LeastDays, DaysAmong;
    if LeastDays(c.byKind, kind).None? {
      forall i | 0 <= i < |c.byKind|
        ensures c.byKind[i].kind != kind
      {
        assert !(Clamp(c.byKind[i].kind) == Clamp(o.kind));
      }
    }
  }

  /** A record of the given kind received at time 0. */
  function Sample(kind: u64): Stored { Stored(1, ZERO_ID, kind, ZERO_ID, 0, [], []) }

  /** The delete statements follow the retention rule for a kind, at every time
      and for every record, if and only if the configuration passes that test. */
  lemma {:induction false} PrunesExactly(c: Retention, kind: u64)
    ensures (forall now, o: Stored :: o.kind == kind ==> (Prunes(c, now, o) <==> Expired(c, now, o)))
       <==> FollowsRule(c, kind)
  {
    hide Prunes, AppliedDays, FollowsRule, DaysFor;
    FollowsMeansApplied(c, kind);
    var applied, own := AppliedDays(c, kind), DaysFor(c, kind);
    if applied == own {
      forall now, o: Stored | o.kind == kind
        ensures Prunes(c, now, o) <==> Expired(c, now, o)
      {
        PrunesByLeast(c, now, o);
      }
    } else {
      var o := Sample(kind);
      var now := (if applied > own then applied else own) * 86_400;
      PrunesByLeast(c, now, o);
      assert Prunes(c, now, o) != Expired(c, now, o);
    }
  }

  /** Kinds that are not at the top of the signed range always pass it. */
  lemma {:induction false} LowKindsFollow(c: Retention, kind: u64)
    requires ValidRetention(c) && kind < I64_MAX
    ensures FollowsRule(c, kind)
  {
    OwnDaysOnly(c.byKind, kind, c.defaultDays);
  }

  lemma {:induction false} OwnDaysOnly(overrides: seq<Override>, kind: u64, default: nat)
    requires kind < I64_MAX && forall i, j :: 0 <= i < j < |overrides| ==> overrides[i].kind < overrides[j].kind
    ensures var d := LeastDays(overrides, kind); d.Some? ==> d.value == DaysAmong(overrides, kind, default)
    ensures (forall i :: 0 <= i < |overrides| ==> overrides[i].kind != kind) ==> LeastDays(overrides, kind).None?
  {
    if overrides != [] {
      var rest := overrides[1..];
      assert forall i :: 0 <= i < |rest| ==> rest[i] == overrides[i + 1];
      OwnDaysOnly(rest, kind, default);
    }
  }

  /** Pruning keeps exactly the records still within the window of their kind,
      in their order, and never lowers the last sequence. */
  lemma {:induction false} PruneKeepsWindow(t: Table, c: Retention, now: int)
    requires Valid(t)
    requires forall o :: o in t.rows ==> FollowsRule(c, o.kind)
    ensures Valid(Prune(t, c, now)) && Prune(t, c, now).lastSeq == t.lastSeq
    ensures forall o :: o in Prune(t, c, now).rows <==> o in t.rows && !Expired(c, now, o)
  {
    hide Prunes, Expired, FollowsRule;
    WithoutValid(t, Pruning(c, now));
    WithoutMembers(t.rows, Pruning(c, now));
    forall o | o in t.rows
      ensures Prunes(c, now, o) <==> Expired(c, now, o)
    {
      PrunesExactly(c, o.kind);
    }
  }

  /** A record pruned before its time: the shorter of two clashing overrides is
      applied to both kinds. */
  lemma {:induction false} PrunedTooEarly()
    ensures var c := Retention([Override(0x8000_0000_0000_0000, 30), Override(0x8000_0000_0000_0001, 1)], 365);
      var o := Sample(0x8000_0000_0000_0000);
      ValidRetention(c) && Prunes(c, 86_401, o) && !Expired(c, 86_401, o)
  {
    var c := Retention([Override(0x8000_0000_0000_0000, 30), Override(0x8000_0000_0000_0001, 1)], 365);
    var o := Sample(0x8000_0000_0000_0000);
    assert c.byKind[1].days == 1 && Clamp(c.byKind[1].kind) == Clamp(o.kind);
    assert DaysFor(c, o.kind) == 30;
  }

  /** A record kept beyond its time: an override reaches a kind that should fall
      under the shorter default. */
  lemma {:induction false} KeptTooLong()
    ensures var c := Retention([Override(0x8000_0000_0000_0000, 365)], 1);
      var o := Sample(0x8000_0000_0000_0001);
      ValidRetention(c) && !Prunes(c, 86_401, o) && Expired(c, 86_401, o)
  {
    var c := Retention([Override(0x8000_0000_0000_0000, 365)], 1);
    var o := Sample(0x8000_0000_0000_0001);
    assert Clamp(c.byKind[0].kind) == Clamp(o.kind);
    assert c.byKind[1..] == [];
    assert DaysFor(c, o.kind) == 1;
  }
}
