/** Subscriptions have no gap, in every interleaving. */
module SyncProofs {
  import opened Filters
  import opened Store
  import opened Sync
  import StoreProofs

  // ------------------------------------------------------------------
  // Bookkeeping that every step keeps
  // ------------------------------------------------------------------

  /** Stored and queued records were committed; marks lie within what was sent;
      a connection that waits for a query waits for one of its own. */
  ghost predicate ConnInv(s: State, k: Conn)
  {
    && (forall i :: 0 <= i < |k.queue| ==> k.queue[i] in s.committed && k.queue[i] !in s.pending)
    && (forall i, j :: 0 <= i < j < |k.queue| ==> k.queue[i] != k.queue[j])
    && (forall id :: id in k.subs ==> k.subs[id].mark <= |k.sent|)
    && (k.phase.Querying? ==> k.phase.subId in k.subs)
  }

  ghost predicate Inv(s: State)
  {
    && Valid(s.table)
    && s.pending <= s.committed
    && (forall o :: o in s.committed ==> 1 <= o.seqno <= s.table.lastSeq)
    && (forall o :: o in s.table.rows ==> o in s.committed)
    && (forall c :: c in s.conns ==> ConnInv(s, s.conns[c]))
  }

  function NewRow(s: State, r: Stored): Stored { r.(seqno := s.table.lastSeq + 1) }

  ghost predicate Grew(s: State, t: State, o: Stored)
  {
    && o.seqno == s.table.lastSeq + 1 == t.table.lastSeq
    && t.pending == s.pending + {o} && t.committed == s.committed + {o} && t.table.rows == s.table.rows + [o]
  }

  lemma {:induction false} CommitKeepsTable(s: State, r: Stored)
    requires Inv(s)
    ensures var t := CommitRecord(s, r);
      Valid(t.table) && t.conns == s.conns && t.pending <= t.committed
      && s.pending <= t.pending && s.committed <= t.committed
      && (t == s || Grew(s, t, NewRow(s, r)))
  {
    StoreProofs.InsertKeeps(s.table, r);
    var t := CommitRecord(s, r);
    if t != s {
      assert t.table.rows == s.table.rows + [NewRow(s, r)];
    }
  }

  lemma {:induction false} CommitKeepsInv(s: State, r: Stored)
    requires Inv(s)
    ensures Inv(CommitRecord(s, r))
  {
    hide CommitRecord, Valid;
    CommitKeepsTable(s, r);
    var t := CommitRecord(s, r);
    if t != s {
      forall c | c in t.conns
        ensures ConnInv(t, t.conns[c])
      {
        assert ConnInv(s, s.conns[c]);
      }
    }
  }

  lemma {:induction false} BroadcastKeepsInv(s: State, o: Stored)
    requires Inv(s) && o in s.pending
    ensures Inv(Step(s, Broadcast(o)))
  {
    hide Valid;
    var t := Step(s, Broadcast(o));
    forall c | c in t.conns
      ensures ConnInv(t, t.conns[c])
    {
      var k := s.conns[c];
      assert ConnInv(s, k);
      var q := k.queue + [o];
      forall i, j | 0 <= i < j < |q| ensures q[i] != q[j] { }
    }
  }

  /** A step that changes one connection only. */
  lemma {:induction false} ConnKeepsInv(s: State, c: nat, k: Conn)
    requires Inv(s) && ConnInv(s, k)
    ensures Inv(s.(conns := s.conns[c := k]))
  {
    hide Valid;
    var t := s.(conns := s.conns[c := k]);
    forall d | d in t.conns
      ensures ConnInv(t, t.conns[d])
    {
      if d != c { assert ConnInv(s, s.conns[d]); }
    }
  }

  lemma {:induction false} PruneKeepsInv(s: State, c: Retention, now: int)
    requires Inv(s)
    ensures Inv(s.(table := Prune(s.table, c, now)))
  {
    hide Prunes, Without;
    StoreProofs.WithoutValid(s.table, Pruning(c, now));
    StoreProofs.WithoutMembers(s.table.rows, Pruning(c, now));
    var t := s.(table := Prune(s.table, c, now));
    forall d | d in t.conns
      ensures ConnInv(t, t.conns[d])
    {
      assert ConnInv(s, s.conns[d]);
    }
  }

  lemma {:induction false} StepKeepsInv(s: State, e: Event)
    requires Inv(s) && Enabled(s, e)
    ensures Inv(Step(s, e))
  {
    hide Inv, CommitRecord, Prune;
    InvConns(s);
    match e
    case Connect(c) => ConnKeepsInv(s, c, NewConn());
    case Disconnect(c) => DisconnectKeepsInv(s, c);
    case Commit(r) => CommitKeepsInv(s, r);
    case Broadcast(o) => BroadcastKeepsInv(s, o);
    case StartReq(c, id, f) => ConnKeepsInv(s, c, OpenSub(s.conns[c], id, f));
    case FinishReq(c, ok) => ConnKeepsInv(s, c, AnswerReq(s.conns[c], s.table, ok));
    case CloseSub(c, id) => ConnKeepsInv(s, c, s.conns[c].(subs := s.conns[c].subs - {id}));
    case Receive(c, order) => ConnKeepsInv(s, c, ReceiveNext(s.conns[c], order));
    case Lag(c, n) => ConnKeepsInv(s, c, s.conns[c].(queue := s.conns[c].queue[n..], lagged := true));
    case PruneStore(retention, now) => PruneKeepsInv(s, retention, now);
  }

  lemma {:induction false} InvConns(s: State)
    requires Inv(s)
    ensures forall c :: c in s.conns ==> ConnInv(s, s.conns[c])
    ensures Valid(s.table) && s.pending <= s.committed
    ensures forall o :: o in s.table.rows ==> o in s.committed
    ensures forall o :: o in s.committed ==> 1 <= o.seqno <= s.table.lastSeq
  {
  }

  lemma {:induction false} DisconnectKeepsInv(s: State, c: nat)
    requires Inv(s)
    ensures Inv(s.(conns := s.conns - {c}))
  {
    hide Valid;
    var t := s.(conns := s.conns - {c});
    forall d | d in t.conns
      ensures ConnInv(t, t.conns[d])
    {
      assert ConnInv(s, s.conns[d]);
    }
  }

  // ------------------------------------------------------------------
  // No gap
  // ------------------------------------------------------------------

  /** A subscription whose backfill was whole is owed nothing it will not get. */
  ghost predicate ConnGapFree(s: State, k: Conn)
  {
    forall id :: id in k.subs && k.subs[id].whole && !k.lagged ==> NoGap(s, k, id)
  }

  lemma {:induction false} GapFreeConns(s: State)
    ensures GapFree(s) <==> forall c :: c in s.conns ==> ConnGapFree(s, s.conns[c])
  {
    hide NoGap;
  }

  lemma {:induction false} NewestHasAll(rows: seq<Stored>, pass: Stored -> bool, limit: nat)
    requires Count(rows, pass) <= limit
    ensures forall o :: o in rows && pass(o) ==> o in Newest(rows, pass, limit)
    decreases |rows|
  {
    if rows != [] {
      var n := |rows| - 1;
      var last, rest := rows[n], rows[..n];
      assert rows == rest + [last];
      if pass(last) {
        NewestHasAll(rest, pass, limit - 1);
      } else if limit > 0 {
        NewestHasAll(rest, pass, limit);
      } else {
        CountZero(rest, pass);
      }
    }
  }

  lemma {:induction false} CountZero(rows: seq<Stored>, pass: Stored -> bool)
    requires Count(rows, pass) == 0
    ensures forall o :: o in rows ==> !pass(o)
    decreases |rows|
  {
    if rows != [] {
      var n := |rows| - 1;
      CountZero(rows[..n], pass);
      assert rows == rows[..n] + [rows[n]];
    }
  }

  /** The answer to a REQ that was not cut holds every stored match. */
  lemma {:induction false} AnswerIsWhole(t: Table, f: Filter)
    requires WithinLimit(t, f)
    ensures forall o :: o in t.rows && Matching(f)(o) ==> o in AnswerRows(t, f, true)
  {
    hide Newest, Count, Selects, MatchesRow;
    NewestHasAll(t.rows, Selecting(f), RowLimit(f, DEFAULT_BACKFILL_LIMIT));
    forall o | o in t.rows && Matching(f)(o)
      ensures Selecting(f)(o)
    {
      StoreProofs.SelectsExactly(f, o);
    }
  }

  /** Frames sent later do not undo a delivery. */
  lemma {:induction false} StaysDelivered(k: Conn, k': Conn, id: SubId, o: Stored)
    requires id in k.subs && id in k'.subs && k'.subs[id].mark == k.subs[id].mark
    requires k.sent <= k'.sent && Delivered(k, id, o)
    ensures Delivered(k', id, o)
  {
    var i :| k.subs[id].mark <= i < |k.sent| && !k.sent[i].Eose? && k.sent[i].subId == id && k.sent[i].row == o;
    assert k'.sent[i] == k.sent[i];
  }

  /** Nothing owed is lost: what a subscription was owed before it is still
      owed, queued, or has been sent. */
  ghost predicate KeepsOwed(s: State, k: Conn, s': State, k': Conn, id: SubId)
    requires id in k.subs
  {
    && id in k'.subs && k'.subs[id].mark == k.subs[id].mark && k'.subs[id].filter == k.subs[id].filter
    && k.sent <= k'.sent
    && (forall o :: o in s'.table.rows ==> o in s.table.rows || o in s'.pending)
    && (forall o :: Matching(k.subs[id].filter)(o) && (o in k.queue || o in s.pending) ==>
          o in k'.queue || o in s'.pending || Delivered(k', id, o))
  }

  lemma {:induction false} OwedCarries(s: State, k: Conn, s': State, k': Conn, id: SubId)
    requires id in k.subs && KeepsOwed(s, k, s', k', id) && NoGap(s, k, id)
    ensures NoGap(s', k', id)
  {
    hide Delivered, MatchesRow;
    forall o | o in s'.table.rows && Matching(k'.subs[id].filter)(o)
      ensures Delivered(k', id, o) || o in k'.queue || o in s'.pending
    {
      if Delivered(k, id, o) { StaysDelivered(k, k', id, o); }
    }
  }

  lemma {:induction false} DeliveriesHold(subs: map<SubId, Sub>, order: seq<SubId>, o: Stored, id: SubId)
    requires forall i :: 0 <= i < |order| ==> order[i] in subs
    ensures id in order && Matching(subs[id].filter)(o) ==> Live(id, o, subs[id].filter) in Deliveries(subs, order, o)
    ensures forall m :: m in Deliveries(subs, order, o) ==>
      m.Live? && m.row == o && m.subId in order && m.filter == subs[m.subId].filter && Matching(m.filter)(o)
  {
    hide MatchesRow;
    if order != [] {
      DeliveriesHold(subs, order[1..], o, id);
      assert order == [order[0]] + order[1..];
    }
  }

  lemma {:induction false} ReceiveKeepsOwed(s: State, c: nat, order: seq<SubId>, id: SubId)
    requires Inv(s) && Enabled(s, Receive(c, order)) && id in s.conns[c].subs
    ensures KeepsOwed(s, s.conns[c], s, ReceiveNext(s.conns[c], order), id)
  {
    hide Deliveries, MatchesRow;
    var k := s.conns[c];
    var k' := ReceiveNext(k, order);
    var o := k.queue[0];
    assert ConnInv(s, k);
    assert k.queue == [o] + k'.queue;
    DeliveriesHold(k.subs, order, o, id);
    if Matching(k.subs[id].filter)(o) {
      var d := Deliveries(k.subs, order, o);
      var i :| 0 <= i < |d| && d[i] == Live(id, o, k.subs[id].filter);
      assert k'.sent[|k.sent| + i] == d[i];
      assert Delivered(k', id, o);
    }
  }

  lemma {:induction false} ReceiveGapFree(s: State, c: nat, order: seq<SubId>)
    requires Inv(s) && Enabled(s, Receive(c, order)) && ConnGapFree(s, s.conns[c])
    ensures ConnGapFree(s, ReceiveNext(s.conns[c], order))
  {
    hide NoGap, KeepsOwed, Deliveries, Inv;
    var k := s.conns[c];
    var k' := ReceiveNext(k, order);
    forall id | id in k'.subs && k'.subs[id].whole && !k'.lagged
      ensures NoGap(s, k', id)
    {
      ReceiveKeepsOwed(s, c, order, id);
      OwedCarries(s, k, s, k', id);
    }
  }

  lemma {:induction false} AnswerDelivers(s: State, k: Conn, o: Stored)
    requires ConnInv(s, k) && k.phase.Querying? && WithinLimit(s.table, k.subs[k.phase.subId].filter)
    requires o in s.table.rows && Matching(k.subs[k.phase.subId].filter)(o)
    ensures Delivered(AnswerReq(k, s.table, true), k.phase.subId, o)
  {
    hide WithinLimit, AnswerRows, MatchesRow;
    var id := k.phase.subId;
    var f := k.subs[id].filter;
    var k' := AnswerReq(k, s.table, true);
    AnswerIsWhole(s.table, f);
    var rows := AnswerRows(s.table, f, true);
    var i :| 0 <= i < |rows| && rows[i] == o;
    assert k'.sent[|k.sent| + i] == Backfill(id, o, f);
  }

  lemma {:induction false} AnswerGapFree(s: State, k: Conn, ok: bool)
    requires ConnInv(s, k) && k.phase.Querying? && ConnGapFree(s, k)
    ensures ConnGapFree(s, AnswerReq(k, s.table, ok))
  {
    hide Delivered, WithinLimit, AnswerRows, MatchesRow;
    var k' := AnswerReq(k, s.table, ok);
    forall id | id in k'.subs && k'.subs[id].whole && !k'.lagged
      ensures NoGap(s, k', id)
    {
      if id == k.phase.subId {
        forall o | o in s.table.rows && Matching(k'.subs[id].filter)(o)
          ensures Delivered(k', id, o)
        {
          AnswerDelivers(s, k, o);
        }
      } else {
        assert KeepsOwed(s, k, s, k', id);
        OwedCarries(s, k, s, k', id);
      }
    }
  }

  /** Steps that touch no queue, or only add to it. */
  lemma {:induction false} OthersGapFree(s: State, k: Conn, s': State, k': Conn)
    requires ConnGapFree(s, k)
    requires forall id :: id in k'.subs && k'.subs[id].whole && !k'.lagged ==>
      id in k.subs && k.subs[id] == k'.subs[id] && !k.lagged
    requires k.sent == k'.sent
    requires forall o :: o in s'.table.rows ==> o in s.table.rows || o in s'.pending
    requires forall o :: o in k.queue || o in s.pending ==> o in k'.queue || o in s'.pending
    ensures ConnGapFree(s', k')
  {
    hide NoGap, Delivered;
    forall id | id in k'.subs && k'.subs[id].whole && !k'.lagged
      ensures NoGap(s', k', id)
    {
      assert KeepsOwed(s, k, s', k', id);
      OwedCarries(s, k, s', k', id);
    }
  }

  lemma {:induction false} BroadcastGapFree(s: State, o: Stored)
    requires GapFree(s) && o in s.pending
    ensures GapFree(Step(s, Broadcast(o)))
  {
    hide GapFree, ConnGapFree;
    var t := Step(s, Broadcast(o));
    GapFreeConns(s);
    GapFreeConns(t);
    forall c | c in t.conns
      ensures ConnGapFree(t, t.conns[c])
    {
      OthersGapFree(s, s.conns[c], t, t.conns[c]);
    }
  }

  lemma {:induction false} CommitGapFree(s: State, r: Stored)
    requires Inv(s) && GapFree(s)
    ensures GapFree(CommitRecord(s, r))
  {
    hide GapFree, ConnGapFree, CommitRecord, Inv;
    var t := CommitRecord(s, r);
    CommitKeepsTable(s, r);
    GapFreeConns(s);
    GapFreeConns(t);
    forall c | c in t.conns
      ensures ConnGapFree(t, t.conns[c])
    {
      OthersGapFree(s, s.conns[c], t, t.conns[c]);
    }
  }

  lemma {:induction false} PruneGapFree(s: State, c: Retention, now: int)
    requires GapFree(s)
    ensures GapFree(s.(table := Prune(s.table, c, now)))
  {
    hide GapFree, ConnGapFree, Prunes;
    var t := s.(table := Prune(s.table, c, now));
    StoreProofs.WithoutMembers(s.table.rows, Pruning(c, now));
    GapFreeConns(s);
    GapFreeConns(t);
    forall d | d in t.conns
      ensures ConnGapFree(t, t.conns[d])
    {
      OthersGapFree(s, s.conns[d], t, t.conns[d]);
    }
  }

  lemma {:induction false} ConnChangeGapFree(s: State, c: nat, k: Conn)
    requires GapFree(s) && ConnGapFree(s, k)
    ensures GapFree(s.(conns := s.conns[c := k]))
  {
    hide GapFree, NoGap;
    var t := s.(conns := s.conns[c := k]);
    GapFreeConns(s);
    GapFreeConns(t);
    forall d | d in t.conns
      ensures ConnGapFree(t, t.conns[d])
    {
      forall id | id in t.conns[d].subs && t.conns[d].subs[id].whole && !t.conns[d].lagged
        ensures NoGap(t, t.conns[d], id)
      {
        SameStoreSameGap(s, t, t.conns[d], id);
      }
    }
  }

  lemma SameStoreSameGap(s: State, t: State, k: Conn, id: SubId)
    requires s.table == t.table && s.pending == t.pending && id in k.subs
    ensures NoGap(s, k, id) <==> NoGap(t, k, id)
  {
    hide Delivered, MatchesRow;
  }

  lemma {:induction false} StepGapFree(s: State, e: Event)
    requires Inv(s) && Enabled(s, e) && GapFree(s)
    ensures GapFree(Step(s, e))
  {
    hide GapFree, ConnGapFree, Inv, CommitRecord, Prune, AnswerReq, ReceiveNext, ConnInv;
    InvConns(s);
    GapFreeConns(s);
    match e
    case Connect(c) =>
      NewConnGapFree(s);
      ConnChangeGapFree(s, c, NewConn());
    case Disconnect(c) => DisconnectGapFree(s, c);
    case Commit(r) => CommitGapFree(s, r);
    case Broadcast(o) => BroadcastGapFree(s, o);
    case StartReq(c, id, f) =>
      OthersGapFree(s, s.conns[c], s, OpenSub(s.conns[c], id, f));
      ConnChangeGapFree(s, c, OpenSub(s.conns[c], id, f));
    case FinishReq(c, ok) =>
      AnswerGapFree(s, s.conns[c], ok);
      ConnChangeGapFree(s, c, AnswerReq(s.conns[c], s.table, ok));
    case CloseSub(c, id) =>
      var k := s.conns[c].(subs := s.conns[c].subs - {id});
      OthersGapFree(s, s.conns[c], s, k);
      ConnChangeGapFree(s, c, k);
    case Receive(c, order) =>
      ReceiveGapFree(s, c, order);
      ConnChangeGapFree(s, c, ReceiveNext(s.conns[c], order));
    case Lag(c, n) =>
      var k := s.conns[c].(queue := s.conns[c].queue[n..], lagged := true);
      LaggedGapFree(s, k);
      ConnChangeGapFree(s, c, k);
    case PruneStore(retention, now) => PruneGapFree(s, retention, now);
  }

  lemma NewConnGapFree(s: State)
    ensures ConnGapFree(s, NewConn())
  {
  }

  lemma LaggedGapFree(s: State, k: Conn)
    requires k.lagged
    ensures ConnGapFree(s, k)
  {
  }

  lemma {:induction false} DisconnectGapFree(s: State, c: nat)
    requires GapFree(s)
    ensures GapFree(s.(conns := s.conns - {c}))
  {
    hide NoGap;
    var t := s.(conns := s.conns - {c});
    forall d, id | d in t.conns && id in t.conns[d].subs && t.conns[d].subs[id].whole && !t.conns[d].lagged
      ensures NoGap(t, t.conns[d], id)
    {
      SameStoreSameGap(s, t, t.conns[d], id);
    }
  }

  // ------------------------------------------------------------------
  // Only what was committed and asked for
  // ------------------------------------------------------------------

  lemma {:induction false} NewestFrom(rows: seq<Stored>, pass: Stored -> bool, limit: nat)
    ensures forall o :: o in Newest(rows, pass, limit) ==> o in rows && pass(o)
    decreases |rows|
  {
    if rows != [] && limit > 0 {
      var n := |rows| - 1;
      NewestFrom(rows[..n], pass, if pass(rows[n]) then limit - 1 else limit);
      assert rows == rows[..n] + [rows[n]];
    }
  }

  lemma {:induction false} AnswerHonest(s: State, k: Conn, ok: bool)
    requires Inv(s) && k.phase.Querying? && k.phase.subId in k.subs && ConnHonest(s, k)
    ensures ConnHonest(s, AnswerReq(k, s.table, ok))
  {
    hide Newest, Selects, MatchesRow, WithinLimit;
    var id := k.phase.subId;
    var f := k.subs[id].filter;
    var k' := AnswerReq(k, s.table, ok);
    var rows := AnswerRows(s.table, f, ok);
    NewestFrom(s.table.rows, Selecting(f), RowLimit(f, DEFAULT_BACKFILL_LIMIT));
    forall i | 0 <= i < |k'.sent|
      ensures Honest(s, k'.sent[i])
    {
      if i < |k.sent| {
      } else if i < |k.sent| + |rows| {
        assert rows[i - |k.sent|] in rows;
        assert k'.sent[i] == Backfill(id, rows[i - |k.sent|], f);
      } else {
        assert k'.sent[i] == Eose(id);
      }
    }
  }

  lemma {:induction false} ReceiveHonest(s: State, k: Conn, order: seq<SubId>)
    requires ConnInv(s, k) && k.queue != [] && ConnHonest(s, k)
    requires forall i :: 0 <= i < |order| ==> order[i] in k.subs
    ensures ConnHonest(s, ReceiveNext(k, order))
  {
    hide Deliveries, MatchesRow;
    var k' := ReceiveNext(k, order);
    var d := Deliveries(k.subs, order, k.queue[0]);
    DeliveriesHold(k.subs, order, k.queue[0], "");
    forall i | 0 <= i < |k'.sent|
      ensures Honest(s, k'.sent[i])
    {
      if i >= |k.sent| { assert d[i - |k.sent|] in d; }
    }
  }

  lemma {:induction false} AnswerLiveOnce(s: State, k: Conn, ok: bool)
    requires k.phase.Querying? && k.phase.subId in k.subs && LiveOnce(s, k)
    ensures LiveOnce(s, AnswerReq(k, s.table, ok))
  {
    hide AnswerRows, WithinLimit;
    var id := k.phase.subId;
    var f := k.subs[id].filter;
    var k' := AnswerReq(k, s.table, ok);
    var rows := AnswerRows(s.table, f, ok);
    forall i | |k.sent| <= i < |k'.sent|
      ensures !k'.sent[i].Live?
    {
      if i < |k.sent| + |rows| {
        assert k'.sent[i] == Backfill(id, rows[i - |k.sent|], f);
      } else {
        assert k'.sent[i] == Eose(id);
      }
    }
    assert forall i :: 0 <= i < |k.sent| ==> k'.sent[i] == k.sent[i];
  }

  ghost predicate DistinctSubs(d: seq<Sent>)
  {
    forall i, j :: 0 <= i < j < |d| ==> d[i].subId != d[j].subId
  }

  lemma {:induction false} DistinctCons(m: Sent, d: seq<Sent>)
    requires DistinctSubs(d) && forall x :: x in d ==> x.subId != m.subId
    ensures DistinctSubs([m] + d)
  {
    var all := [m] + d;
    forall i, j | 0 <= i < j < |all|
      ensures all[i].subId != all[j].subId
    {
      assert all[j] == d[j - 1];
      if i > 0 { assert all[i] == d[i - 1]; }
    }
  }

  lemma {:induction false} DeliveriesDistinct(subs: map<SubId, Sub>, order: seq<SubId>, o: Stored)
    requires forall i :: 0 <= i < |order| ==> order[i] in subs
    requires forall i, j :: 0 <= i < j < |order| ==> order[i] != order[j]
    ensures DistinctSubs(Deliveries(subs, order, o))
  {
    hide MatchesRow;
    if order != [] {
      var rest := order[1..];
      DeliveriesDistinct(subs, rest, o);
      DeliveriesHold(subs, rest, o, order[0]);
      var d := Deliveries(subs, rest, o);
      forall x | x in d
        ensures x.subId != order[0]
      {
        var j :| 0 <= j < |rest| && rest[j] == x.subId;
        assert order[j + 1] == x.subId;
      }
      DistinctCons(Live(order[0], o, subs[order[0]].filter), d);
      assert [] + d == d;
    }
  }

  lemma {:induction false} ReceiveLiveOnce(s: State, k: Conn, order: seq<SubId>)
    requires ConnInv(s, k) && k.queue != [] && LiveOnce(s, k) && Enumerates(order, k.subs)
    ensures LiveOnce(s, ReceiveNext(k, order))
  {
    hide Deliveries, MatchesRow;
    var k', o := ReceiveNext(k, order), k.queue[0];
    var d := Deliveries(k.subs, order, o);
    DeliveriesHold(k.subs, order, o, "");
    DeliveriesDistinct(k.subs, order, o);
    var n := |k.sent|;
    assert o in k.queue;
    forall r | r in k'.queue
      ensures r in k.queue && r != o
    {
      var j :| 0 <= j < |k'.queue| && k'.queue[j] == r;
      assert k.queue[0] != k.queue[j + 1];
    }
    forall i | 0 <= i < |k'.sent| && k'.sent[i].Live?
      ensures k'.sent[i].row in s.committed && k'.sent[i].row !in s.pending && k'.sent[i].row !in k'.queue
      ensures if i < n then k'.sent[i] == k.sent[i] && k'.sent[i].row != o else k'.sent[i] == d[i - n] && k'.sent[i].row == o
    {
      if i >= n { assert d[i - n] in d; }
    }
    forall i, j | 0 <= i < j < |k'.sent| && k'.sent[i].Live? && k'.sent[j].Live?
      ensures k'.sent[i].subId != k'.sent[j].subId || k'.sent[i].row != k'.sent[j].row
    {
      if j < n {
        assert k.sent[i].subId != k.sent[j].subId || k.sent[i].row != k.sent[j].row;
      } else if i >= n {
        assert d[i - n].subId != d[j - n].subId;
      }
    }
  }

  lemma {:induction false} CarriesOver(s: State, t: State, k: Conn, k': Conn)
    requires ConnTruthful(s, k) && k.sent == k'.sent && s.committed <= t.committed
    requires forall o :: o in t.pending ==> o in s.pending || o !in s.committed
    requires forall o :: o in k'.queue ==> o in k.queue || o in s.pending
    ensures ConnTruthful(t, k')
  {
    forall i | 0 <= i < |k.sent|
      ensures Honest(t, k.sent[i])
    {
      assert Honest(s, k.sent[i]);
    }
  }

  lemma {:induction false} OneConnTruthful(s: State, c: nat, k: Conn)
    requires Truthful(s) && ConnTruthful(s, k)
    ensures Truthful(s.(conns := s.conns[c := k]))
  {
    hide ConnTruthful;
    var t := s.(conns := s.conns[c := k]);
    forall d | d in t.conns
      ensures ConnTruthful(t, t.conns[d])
    {
      CarriesOver(s, t, t.conns[d], t.conns[d]);
    }
  }

  /** Steps that send nothing. */
  lemma {:induction false} SilentTruthful(s: State, t: State)
    requires Truthful(s) && s.committed <= t.committed
    requires forall o :: o in t.pending ==> o in s.pending || o !in s.committed
    requires forall c :: c in t.conns ==> c in s.conns && Quieter(s, s.conns[c], t.conns[c])
    ensures Truthful(t)
  {
    hide ConnTruthful;
    forall c | c in t.conns
      ensures ConnTruthful(t, t.conns[c])
    {
      assert Quieter(s, s.conns[c], t.conns[c]);
      CarriesOver(s, t, s.conns[c], t.conns[c]);
    }
  }

  ghost predicate Quieter(s: State, k: Conn, k': Conn)
  {
    k.sent == k'.sent && forall o :: o in k'.queue ==> o in k.queue || o in s.pending
  }

  lemma {:induction false} CommitTruthful(s: State, r: Stored)
    requires Inv(s) && Truthful(s)
    ensures Truthful(CommitRecord(s, r))
  {
    hide Truthful, CommitRecord, ConnInv;
    CommitKeepsTable(s, r);
    SilentTruthful(s, CommitRecord(s, r));
  }

  lemma {:induction false} StepTruthful(s: State, e: Event)
    requires Inv(s) && Enabled(s, e) && Truthful(s)
    ensures Truthful(Step(s, e))
  {
    hide Truthful, ConnHonest, LiveOnce, Inv, ConnInv, AnswerReq, ReceiveNext, CommitRecord, Enumerates;
    InvConns(s);
    var t := Step(s, e);
    match e
    case Connect(c) =>
      EmptyTruthful(s);
      OneConnTruthful(s, c, NewConn());
    case FinishReq(c, ok) =>
      TruthfulConn(s, c);
      AnswerHonest(s, s.conns[c], ok);
      AnswerLiveOnce(s, s.conns[c], ok);
      OneConnTruthful(s, c, AnswerReq(s.conns[c], s.table, ok));
    case Receive(c, order) =>
      TruthfulConn(s, c);
      InOrder(s, c, order);
      ReceiveHonest(s, s.conns[c], order);
      ReceiveLiveOnce(s, s.conns[c], order);
      OneConnTruthful(s, c, ReceiveNext(s.conns[c], order));
    case Commit(r) => CommitTruthful(s, r);
    case _ => SilentTruthful(s, t);
  }

  lemma EmptyTruthful(s: State)
    ensures ConnTruthful(s, NewConn())
  {
  }

  lemma TruthfulConn(s: State, c: nat)
    requires Truthful(s) && c in s.conns
    ensures ConnHonest(s, s.conns[c]) && LiveOnce(s, s.conns[c])
  {
  }

  lemma InOrder(s: State, c: nat, order: seq<SubId>)
    requires c in s.conns && Enumerates(order, s.conns[c].subs)
    ensures forall i :: 0 <= i < |order| ==> order[i] in s.conns[c].subs
  {
  }

  // ------------------------------------------------------------------
  // Main results
  // ------------------------------------------------------------------

  lemma {:induction false} RunKeeps(s: State, es: seq<Event>)
    requires Inv(s) && GapFree(s) && Truthful(s) && Runs(s, es)
    ensures Inv(Run(s, es)) && GapFree(Run(s, es)) && Truthful(Run(s, es))
    decreases |es|
  {
    hide Inv, GapFree, Truthful, Enabled, Step;
    if es != [] {
      StepKeepsInv(s, es[0]);
      StepGapFree(s, es[0]);
      StepTruthful(s, es[0]);
      RunKeeps(Step(s, es[0]), es[1..]);
    }
  }

  /** In every run, however its steps interleave: a subscription whose backfill
      succeeded within its limit, on a connection that never lagged, has been
      sent every stored record that matches, or has it queued, or the record is
      committed and yet to be broadcast. And only committed records that the
      filter accepts are ever sent, live at most once per subscription id. */
  lemma {:induction false} SubscriptionsHaveNoGap(es: seq<Event>)
    requires Runs(INIT, es)
    ensures GapFree(Run(INIT, es)) && Truthful(Run(INIT, es))
  {
    RunKeeps(INIT, es);
  }

  /** Once everything committed is broadcast and the queue is empty, such a
      subscription has been sent exactly what it asked for: every stored match,
      and nothing that was not committed. */
  lemma {:induction false} QuietMeansComplete(es: seq<Event>, c: nat, id: SubId, o: Stored)
    requires Runs(INIT, es)
    requires var s := Run(INIT, es);
      s.pending == {} && c in s.conns && id in s.conns[c].subs
      && s.conns[c].subs[id].whole && !s.conns[c].lagged && s.conns[c].queue == []
      && o in s.table.rows && Matching(s.conns[c].subs[id].filter)(o)
    ensures Delivered(Run(INIT, es).conns[c], id, o)
  {
    hide Run, Matching, Delivered;
    SubscriptionsHaveNoGap(es);
    var s := Run(INIT, es);
    assert NoGap(s, s.conns[c], id);
  }

  // ------------------------------------------------------------------
  // Progress
  // ------------------------------------------------------------------

  lemma {:induction false} RunOne(s: State, e: Event, es: seq<Event>)
    requires Enabled(s, e) && Runs(Step(s, e), es)
    ensures Runs(s, [e] + es) && Run(s, [e] + es) == Run(Step(s, e), es)
  {
    hide Enabled, Step;
    assert ([e] + es)[1..] == es;
  }

  lemma {:induction false} RunsAppend(s: State, es: seq<Event>, more: seq<Event>)
    requires Runs(s, es) && Runs(Run(s, es), more)
    ensures Runs(s, es + more) && Run(s, es + more) == Run(Run(s, es), more)
    decreases |es|
  {
    hide Enabled, Step;
    if es == [] {
      assert es + more == more;
    } else {
      assert (es + more)[1..] == es[1..] + more;
      RunsAppend(Step(s, es[0]), es[1..], more);
    }
  }

  /** The connection is as before, except for what it was sent and its queue. */
  ghost predicate SameSubs(s: State, t: State, c: nat)
    requires c in s.conns
  {
    && c in t.conns && t.table == s.table
    && t.conns[c].subs == s.conns[c].subs && t.conns[c].phase == s.conns[c].phase && t.conns[c].lagged == s.conns[c].lagged
  }

  lemma {:induction false} BroadcastAll(s: State, c: nat) returns (es: seq<Event>)
    requires c in s.conns
    ensures Runs(s, es) && Run(s, es).pending == {} && SameSubs(s, Run(s, es), c)
    ensures forall i :: 0 <= i < |es| ==> es[i].Broadcast?
    decreases |s.pending|
  {
    if s.pending == {} {
      es := [];
    } else {
      var o :| o in s.pending;
      var e := Broadcast(o);
      var rest := BroadcastAll(Step(s, e), c);
      RunOne(s, e, rest);
      es := [e] + rest;
    }
  }

  lemma {:induction false} SomeOrder(subs: map<SubId, Sub>) returns (order: seq<SubId>)
    ensures Enumerates(order, subs)
    decreases |subs|
  {
    if subs == map[] {
      order := [];
    } else {
      var id :| id in subs;
      var rest := SomeOrder(subs - {id});
      order := [id] + rest;
    }
  }

  lemma {:induction false} ReceiveAll(s: State, c: nat) returns (es: seq<Event>)
    requires c in s.conns && s.conns[c].phase == Idle
    ensures Runs(s, es) && Run(s, es).pending == s.pending
    ensures SameSubs(s, Run(s, es), c) && Run(s, es).conns[c].queue == []
    ensures forall i :: 0 <= i < |es| ==> es[i].Receive?
    decreases |s.conns[c].queue|
  {
    hide Enumerates, Deliveries;
    if s.conns[c].queue == [] {
      es := [];
    } else {
      var order := SomeOrder(s.conns[c].subs);
      var e := Receive(c, order);
      InOrder(s, c, order);
      var rest := ReceiveAll(Step(s, e), c);
      RunOne(s, e, rest);
      es := [e] + rest;
    }
  }

  /** Nothing stands in the way of delivery: from every reachable state the
      broadcasts and receives already due lead to one in which the subscription
      has been sent every stored match. */
  lemma {:induction false} CatchesUp(es: seq<Event>, c: nat, id: SubId) returns (more: seq<Event>)
    requires Runs(INIT, es) && c in Run(INIT, es).conns
    requires var k := Run(INIT, es).conns[c]; k.phase == Idle && id in k.subs && k.subs[id].whole && !k.lagged
    ensures Runs(INIT, es + more) && SameSubs(Run(INIT, es), Run(INIT, es + more), c)
    ensures forall o :: o in Run(INIT, es).table.rows && Matching(Run(INIT, es).conns[c].subs[id].filter)(o) ==>
      Delivered(Run(INIT, es + more).conns[c], id, o)
  {
    hide Run, Runs, Delivered, Matching;
    var s := Run(INIT, es);
    var a := BroadcastAll(s, c);
    var b := ReceiveAll(Run(s, a), c);
    RunsAppend(s, a, b);
    more := a + b;
    RunsAppend(INIT, es, more);
    var t := Run(INIT, es + more);
    forall o | o in s.table.rows && Matching(s.conns[c].subs[id].filter)(o)
      ensures Delivered(t.conns[c], id, o)
    {
      QuietMeansComplete(es + more, c, id, o);
    }
  }

  /** Delivery is at least once: a record committed before a REQ is answered and
      broadcast after it is sent twice. */
  lemma {:induction false} SentTwice(r: Stored) returns (es: seq<Event>, o: Stored)
    ensures Runs(INIT, es) && 0 in Run(INIT, es).conns
    ensures Run(INIT, es).conns[0].sent == [Backfill("s", o, DEFAULT), Eose("s"), Live("s", o, DEFAULT)]
  {
    o := r.(seqno := 1);
    var s1 := Step(INIT, Connect(0));
    var s2 := Step(s1, Commit(r));
    FirstCommit(s1, r);
    var s3 := Step(s2, StartReq(0, "s", DEFAULT));
    var rest := AnswerThenLive(s3, o);
    hide Enabled, Step, CommitRecord, OpenSub;
    RunOne(s2, StartReq(0, "s", DEFAULT), rest);
    RunOne(s1, Commit(r), [StartReq(0, "s", DEFAULT)] + rest);
    RunOne(INIT, Connect(0), [Commit(r)] + ([StartReq(0, "s", DEFAULT)] + rest));
    es := [Connect(0)] + ([Commit(r)] + ([StartReq(0, "s", DEFAULT)] + rest));
  }

  lemma {:induction false} AnswerThenLive(s: State, o: Stored) returns (es: seq<Event>)
    requires s.conns.Keys == {0} && s.pending == {o} && s.table.rows == [o] && o.seqno == 1
    requires s.conns[0] == OpenSub(NewConn(), "s", DEFAULT)
    ensures Runs(s, es) && 0 in Run(s, es).conns
    ensures Run(s, es).conns[0].sent == [Backfill("s", o, DEFAULT), Eose("s"), Live("s", o, DEFAULT)]
  {
    hide Query, WithinLimit, Deliveries;
    var s4 := Step(s, FinishReq(0, true));
    FirstAnswer(s, o);
    var s5 := Step(s4, Broadcast(o));
    assert Enabled(s5, Receive(0, ["s"])) by { assert ["s"][0] == "s"; }
    FirstDelivery(s5, o);
    hide Enabled, Step;
    RunOne(s5, Receive(0, ["s"]), []);
    RunOne(s4, Broadcast(o), [Receive(0, ["s"])]);
    RunOne(s, FinishReq(0, true), [Broadcast(o)] + [Receive(0, ["s"])]);
    es := [FinishReq(0, true)] + ([Broadcast(o)] + [Receive(0, ["s"])]);
  }

  lemma FirstCommit(s: State, r: Stored)
    requires s.table == INIT.table && s.pending == {} && s.committed == {}
    ensures var o := r.(seqno := 1);
      CommitRecord(s, r) == s.(table := Table([o], 1), pending := {o}, committed := {o})
  {
  }

  lemma FirstAnswer(s: State, o: Stored)
    requires s.table.rows == [o] && o.seqno == 1
    ensures Query(s.table, DEFAULT, DEFAULT_BACKFILL_LIMIT) == [o]
  {
    assert Selecting(DEFAULT)(o);
    assert [o][..0] == [];
  }

  lemma FirstDelivery(s: State, o: Stored)
    requires 0 in s.conns && "s" in s.conns[0].subs && s.conns[0].subs["s"].filter == DEFAULT && o.seqno == 1
    ensures Deliveries(s.conns[0].subs, ["s"], o) == [Live("s", o, DEFAULT)]
  {
    assert Matching(DEFAULT)(o);
    assert ["s"][1..] == [];
  }
}
