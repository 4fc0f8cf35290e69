/** What a query finds and what pruning keeps, condition by condition. */
module Retrieval {
  import opened Wrappers
  import opened Bytes
  import opened Filters
  import opened Store
  import opened StoreProofs

  // ------------------------------------------------------------------
  // Filters
  // ------------------------------------------------------------------

  /** What a filter asks of a record besides its kind: every list that is present
      holds one of the record's own, and the record came after `since`. */
  ghost predicate WantsRest(f: Filter, o: Stored)
  {
    && (f.authors.Some? ==> exists i :: 0 <= i < |f.authors.value| && f.authors.value[i] == o.author)
    && (f.ids.Some? ==> exists i :: 0 <= i < |f.ids.value| && f.ids.value[i] == o.id)
    && (f.refs.Some? ==> exists i, j :: 0 <= i < |f.refs.value| && 0 <= j < |o.refs| && f.refs.value[i] == o.refs[j])
    && (f.since.Some? ==> f.since.value < o.seqno)
  }

  /** Live delivery: kinds are compared as they are. */
  ghost predicate Wants(f: Filter, o: Stored)
  {
    && (f.kinds.Some? ==> exists i :: 0 <= i < |f.kinds.value| && f.kinds.value[i] == o.kind)
    && WantsRest(f, o)
  }

  /** Kinds as the tables hold them: the numbers from 2^63 - 1 on are one kind. */
  predicate SameColumn(a: u64, b: u64)
  {
    a == b || (a >= 0x7fff_ffff_ffff_ffff && b >= 0x7fff_ffff_ffff_ffff)
  }

  /** The query: kinds are compared as the tables hold them. */
  ghost predicate Finds(f: Filter, o: Stored)
  {
    && (f.kinds.Some? ==> exists i :: 0 <= i < |f.kinds.value| && SameColumn(f.kinds.value[i], o.kind))
    && WantsRest(f, o)
  }

  lemma {:induction false} AnyReference(wanted: seq<Digest>, refs: seq<Digest>)
    ensures (exists r :: r in wanted && r in refs)
       <==> exists i, j :: 0 <= i < |wanted| && 0 <= j < |refs| && wanted[i] == refs[j]
  {
    if r :| r in wanted && r in refs {
      var i :| 0 <= i < |wanted| && wanted[i] == r;
      var j :| 0 <= j < |refs| && refs[j] == r;
      assert wanted[i] == refs[j];
    }
    if i, j :| 0 <= i < |wanted| && 0 <= j < |refs| && wanted[i] == refs[j] {
      assert wanted[i] in wanted && wanted[i] in refs;
    }
  }

  lemma {:induction false} RestWanted(f: Filter, o: Stored)
    requires o.seqno < U64_SIZE
    ensures MatchesRow(f.(kinds := None), o) <==> WantsRest(f, o)
  {
    if f.refs.Some? { AnyReference(f.refs.value, o.refs); }
  }

  /** A filter matches a record if and only if it wants it. */
  lemma {:induction false} MatchesExactly(f: Filter, o: Stored)
    requires o.seqno < U64_SIZE
    ensures Matching(f)(o) <==> Wants(f, o)
  {
    hide WantsRest;
    RestWanted(f, o);
  }

  lemma SameClamp(a: u64, b: u64)
    ensures Clamp(a) == Clamp(b) <==> SameColumn(a, b)
  {
  }

  lemma {:induction false} FindsExactly(f: Filter, o: Stored)
    requires o.seqno < U64_SIZE
    ensures Selecting(f)(o) <==> Finds(f, o)
  {
    hide WantsRest, MatchesRow, Clamp, SameColumn;
    RestWanted(f, o);
    if f.kinds.Some? {
      var kinds := f.kinds.value;
      if k :| k in kinds && Clamp(k) == Clamp(o.kind) {
        var i :| 0 <= i < |kinds| && kinds[i] == k;
        SameClamp(kinds[i], o.kind);
      }
      if i :| 0 <= i < |kinds| && SameColumn(kinds[i], o.kind) {
        SameClamp(kinds[i], o.kind);
        assert kinds[i] in kinds;
      }
    }
  }

  // ------------------------------------------------------------------
  // The answer to a query
  // ------------------------------------------------------------------

  /** The newest of the rows that a filter finds, at most `limit` of them. */
  ghost predicate NewestFound(r: seq<Stored>, rows: seq<Stored>, f: Filter, limit: nat)
  {
    && |r| <= limit
    && (forall i :: 0 <= i < |r| ==> r[i] in rows && Finds(f, r[i]))
    && (forall i, j :: 0 <= i < j < |r| ==> r[i].seqno > r[j].seqno)
    && (forall o :: o in rows && Finds(f, o) && o !in r ==>
          |r| == limit && forall i :: 0 <= i < |r| ==> r[i].seqno > o.seqno)
  }

  /** A query answers with the newest of the rows its filter finds, newest first,
      up to the filter's limit or the default, and with no others. */
  lemma {:induction false} QueryExactly(t: Table, f: Filter, default: u64)
    requires Valid(t)
    ensures NewestFound(Query(t, f, default), t.rows, f, if f.limit.Some? then f.limit.value else default)
  {
    hide Selects, Finds, Newest;
    var limit := RowLimit(f, default);
    NewestExactly(t, Selecting(f), limit);
    forall o | o in t.rows
      ensures Selecting(f)(o) <==> Finds(f, o)
    {
      FindsExactly(f, o);
    }
  }

  // ------------------------------------------------------------------
  // Pruning
  // ------------------------------------------------------------------

  /** Received more than `days` days before `now`. */
  predicate OlderThan(o: Stored, days: nat, now: int)
  {
    o.receivedAt + days * 86_400 < now
  }

  /** Some retention for the record's column has run out, or there is none and the
      default has. */
  ghost predicate RunOut(c: Retention, now: int, o: Stored)
  {
    || (exists i :: 0 <= i < |c.byKind| && SameColumn(c.byKind[i].kind, o.kind) && OlderThan(o, c.byKind[i].days, now))
    || (OlderThan(o, c.defaultDays, now) && forall i :: 0 <= i < |c.byKind| ==> !SameColumn(c.byKind[i].kind, o.kind))
  }

  lemma {:induction false} PrunesWhenRunOut(c: Retention, now: int, o: Stored)
    ensures Prunes(c, now, o) <==> RunOut(c, now, o)
  {
    hide Clamp, SameColumn;
    forall i | 0 <= i < |c.byKind|
      ensures Clamp(c.byKind[i].kind) == Clamp(o.kind) <==> SameColumn(c.byKind[i].kind, o.kind)
    {
      SameClamp(c.byKind[i].kind, o.kind);
    }
    if i :| 0 <= i < |c.byKind| && Clamp(c.byKind[i].kind) == Clamp(o.kind) && o.receivedAt < Cutoff(now, c.byKind[i].days) {
      assert SameColumn(c.byKind[i].kind, o.kind) && OlderThan(o, c.byKind[i].days, now);
    }
    if i :| 0 <= i < |c.byKind| && SameColumn(c.byKind[i].kind, o.kind) && OlderThan(o, c.byKind[i].days, now) {
      assert Clamp(c.byKind[i].kind) == Clamp(o.kind) && o.receivedAt < Cutoff(now, c.byKind[i].days);
    }
  }

  /** Pruning removes the rows whose retention has run out and no others; those
      that stay keep their order, and no sequence is freed. */
  lemma {:induction false} PruneExactly(t: Table, c: Retention, now: int)
    requires Valid(t)
    ensures var t' := Prune(t, c, now);
      && t'.lastSeq == t.lastSeq
      && (forall o :: o in t'.rows <==> o in t.rows && !RunOut(c, now, o))
      && (forall i, j :: 0 <= i < j < |t'.rows| ==> t'.rows[i].seqno < t'.rows[j].seqno)
  {
    hide Prunes, RunOut;
    WithoutValid(t, Pruning(c, now));
    WithoutMembers(t.rows, Pruning(c, now));
    forall o | o in t.rows
      ensures Prunes(c, now, o) <==> RunOut(c, now, o)
    {
      PrunesWhenRunOut(c, now, o);
    }
  }

  // ------------------------------------------------------------------
  // Counting what a filter finds
  // ------------------------------------------------------------------

  ghost function Found(rows: seq<Stored>, f: Filter): set<Stored>
  {
    set o | o in rows && Finds(f, o)
  }

  lemma {:induction false} FoundLast(rows: seq<Stored>, last: Stored, f: Filter)
    requires last !in rows
    ensures |Found(rows + [last], f)| == |Found(rows, f)| + if Finds(f, last) then 1 else 0
  {
    hide Finds;
    assert Found(rows + [last], f) == if Finds(f, last) then Found(rows, f) + {last} else Found(rows, f);
  }
}
