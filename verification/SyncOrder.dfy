/** What one subscription is sent, in which order and how often, in every
    interleaving. */
module SyncOrder {
  import opened Filters
  import opened Store
  import opened Sync
  import opened SyncProofs
  import StoreProofs

  // ------------------------------------------------------------------
  // Backfill, then EOSE, then live
  // ------------------------------------------------------------------

  /** Of what was sent for `id` since it was opened: stored records, newest first,
      up to the EOSE at `e`, and live ones only after it, all under the filter
      in force. */
  ghost predicate AnsweredAt(k: Conn, id: SubId, e: nat)
    requires id in k.subs && k.subs[id].mark <= e < |k.sent|
  {
    var sub := k.subs[id];
    && k.sent[e] == Eose(id)
    && (forall i :: sub.mark <= i < e ==> k.sent[i].Backfill? && k.sent[i].subId == id && k.sent[i].filter == sub.filter)
    && (forall i, j :: sub.mark <= i < j < e ==> RowSeq(k.sent[i]) > RowSeq(k.sent[j]))
    && (forall i :: e < i < |k.sent| && k.sent[i].subId == id ==> k.sent[i].Live? && k.sent[i].filter == sub.filter)
  }

  function RowSeq(m: Sent): nat { if m.Eose? then 0 else m.row.seqno }

  /** While its query runs nothing has been sent; afterwards it is answered. */
  ghost predicate InPhase(k: Conn, id: SubId)
    requires id in k.subs
  {
    if k.phase == Querying(id) then k.subs[id].mark == |k.sent|
    else exists e :: k.subs[id].mark <= e < |k.sent| && AnsweredAt(k, id, e)
  }

  ghost predicate ConnInPhase(k: Conn) { forall id :: id in k.subs ==> InPhase(k, id) }

  ghost predicate AllInPhase(s: State) { forall c :: c in s.conns ==> ConnInPhase(s.conns[c]) }

  /** Frames for others, and live ones, keep a subscription answered. */
  lemma {:induction false} MoreInPhase(k: Conn, k': Conn, id: SubId, more: seq<Sent>)
    requires id in k.subs && id in k'.subs && k'.subs[id] == k.subs[id] && k'.sent == k.sent + more
    requires k.phase != Querying(id) && k'.phase != Querying(id) && InPhase(k, id)
    requires forall m :: m in more && m.subId == id ==> m.Live? && m.filter == k.subs[id].filter
    ensures InPhase(k', id)
  {
    var e :| k.subs[id].mark <= e < |k.sent| && AnsweredAt(k, id, e);
    forall i | 0 <= i < |k'.sent|
      ensures if i < |k.sent| then k'.sent[i] == k.sent[i] else k'.sent[i] in more
    {
      if i >= |k.sent| { assert k'.sent[i] == more[i - |k.sent|]; }
    }
    assert AnsweredAt(k', id, e);
  }

  lemma {:induction false} OpenInPhase(k: Conn, id: SubId, f: Filter)
    requires ConnInPhase(k) && k.phase == Idle
    ensures ConnInPhase(OpenSub(k, id, f))
  {
    hide AnsweredAt;
    var k' := OpenSub(k, id, f);
    forall d | d in k'.subs
      ensures InPhase(k', d)
    {
      if d != id {
        assert InPhase(k, d);
        assert k.sent + [] == k.sent;
        MoreInPhase(k, k', d, []);
      }
    }
  }

  lemma {:induction false} AnswerDescends(t: Table, f: Filter, ok: bool)
    requires Valid(t)
    ensures var rows := AnswerRows(t, f, ok); forall i, j :: 0 <= i < j < |rows| ==> rows[i].seqno > rows[j].seqno
    ensures forall o :: o in AnswerRows(t, f, ok) ==> o in t.rows
  {
    hide Newest, Valid, Selects;
    StoreProofs.NewestExactly(t, Selecting(f), RowLimit(f, DEFAULT_BACKFILL_LIMIT));
  }

  lemma {:induction false} AnswerInPhase(k: Conn, t: Table, ok: bool)
    requires ConnInPhase(k) && Valid(t) && k.phase.Querying? && k.phase.subId in k.subs
    ensures ConnInPhase(AnswerReq(k, t, ok))
  {
    hide AnswerRows, WithinLimit, Valid, InPhase, Backfills;
    var id := k.phase.subId;
    var f := k.subs[id].filter;
    var k' := AnswerReq(k, t, ok);
    var more := Backfills(id, AnswerRows(t, f, ok), f) + [Eose(id)];
    assert k'.sent == k.sent + more;
    assert InPhase(k, id);
    NowAnswered(k, t, ok);
    forall d | d in k'.subs && d != id
      ensures InPhase(k', d)
    {
      assert InPhase(k, d);
      MoreInPhase(k, k', d, more);
    }
  }

  lemma {:induction false} NowAnswered(k: Conn, t: Table, ok: bool)
    requires Valid(t) && k.phase.Querying? && k.phase.subId in k.subs && InPhase(k, k.phase.subId)
    ensures InPhase(AnswerReq(k, t, ok), k.phase.subId)
  {
    hide AnswerRows, WithinLimit, Valid;
    var id := k.phase.subId;
    var f := k.subs[id].filter;
    var rows, k' := AnswerRows(t, f, ok), AnswerReq(k, t, ok);
    AnswerDescends(t, f, ok);
    var e := |k.sent| + |rows|;
    forall i | |k.sent| <= i < e
      ensures k'.sent[i] == Backfill(id, rows[i - |k.sent|], f)
    {
    }
    assert AnsweredAt(k', id, e);
  }

  lemma {:induction false} ReceiveInPhase(k: Conn, order: seq<SubId>)
    requires ConnInPhase(k) && k.phase == Idle && k.queue != [] && forall i :: 0 <= i < |order| ==> order[i] in k.subs
    ensures ConnInPhase(ReceiveNext(k, order))
  {
    hide AnsweredAt, InPhase, Deliveries, MatchesRow;
    var k' := ReceiveNext(k, order);
    DeliveriesHold(k.subs, order, k.queue[0], "");
    forall d | d in k'.subs
      ensures InPhase(k', d)
    {
      assert InPhase(k, d);
      MoreInPhase(k, k', d, Deliveries(k.subs, order, k.queue[0]));
    }
  }

  /** Changes to the queue, and closed subscriptions, change no phase. */
  lemma {:induction false} QuietInPhase(k: Conn, k': Conn)
    requires ConnInPhase(k) && k'.sent == k.sent && k'.phase == k.phase
    requires forall d :: d in k'.subs ==> d in k.subs && k'.subs[d] == k.subs[d]
    ensures ConnInPhase(k')
  {
    forall d | d in k'.subs
      ensures InPhase(k', d)
    {
      assert InPhase(k, d);
      if k.phase != Querying(d) {
        var e :| k.subs[d].mark <= e < |k.sent| && AnsweredAt(k, d, e);
        assert AnsweredAt(k', d, e);
      }
    }
  }

  lemma {:induction false} StepInPhase(s: State, e: Event)
    requires Inv(s) && Enabled(s, e) && AllInPhase(s)
    ensures AllInPhase(Step(s, e))
  {
    hide ConnInPhase, Inv, ConnInv, CommitRecord, Prune, OpenSub, AnswerReq, ReceiveNext, Enumerates, Valid;
    InvConns(s);
    var t := Step(s, e);
    match e
    case Connect(c) => assert ConnInPhase(NewConn()) by { NobodyYet(); }
    case Commit(r) => CommitKeepsTable(s, r);
    case Broadcast(o) =>
      forall c | c in t.conns ensures ConnInPhase(t.conns[c]) { QuietInPhase(s.conns[c], t.conns[c]); }
    case StartReq(c, id, f) => OpenInPhase(s.conns[c], id, f);
    case FinishReq(c, ok) => AnswerInPhase(s.conns[c], s.table, ok);
    case CloseSub(c, id) => QuietInPhase(s.conns[c], t.conns[c]);
    case Receive(c, order) =>
      InOrder(s, c, order);
      ReceiveInPhase(s.conns[c], order);
    case Lag(c, n) => QuietInPhase(s.conns[c], t.conns[c]);
    case _ =>
  }

  lemma NobodyYet()
    ensures ConnInPhase(NewConn())
  {
  }

  lemma {:induction false} RunInPhase(s: State, es: seq<Event>)
    requires Inv(s) && AllInPhase(s) && Runs(s, es)
    ensures Inv(Run(s, es)) && AllInPhase(Run(s, es))
    decreases |es|
  {
    hide Inv, AllInPhase, Enabled, Step;
    if es != [] {
      StepKeepsInv(s, es[0]);
      StepInPhase(s, es[0]);
      RunInPhase(Step(s, es[0]), es[1..]);
    }
  }

  /** In every run each open subscription either waits for its query, and has been
      sent nothing yet, or has been sent stored records, newest first, then
      EOSE, then live records only. */
  lemma {:induction false} BackfillThenEoseThenLive(es: seq<Event>, c: nat, id: SubId)
    requires Runs(INIT, es) && c in Run(INIT, es).conns && id in Run(INIT, es).conns[c].subs
    ensures InPhase(Run(INIT, es).conns[c], id)
  {
    RunInPhase(INIT, es);
    assert ConnInPhase(Run(INIT, es).conns[c]);
  }

  // ------------------------------------------------------------------
  // Sent twice, and when
  // ------------------------------------------------------------------

  /** The connection goes on, does not lag, and keeps the subscription open. */
  predicate StaysOpen(e: Event, c: nat, id: SubId)
  {
    match e
    case Disconnect(d) => d != c
    case Lag(d, _) => d != c
    case CloseSub(d, i) => d != c || i != id
    case StartReq(d, i, _) => d != c || i != id
    case _ => true
  }

  /** Sent live for the subscription, from frame `n` on. */
  ghost predicate SentLive(k: Conn, n: nat, id: SubId, o: Stored)
  {
    exists i :: n <= i < |k.sent| && k.sent[i].Live? && k.sent[i].subId == id && k.sent[i].row == o
  }

  /** Still to be received by the connection. */
  ghost predicate Due(s: State, k: Conn, o: Stored) { o in k.queue || o in s.pending }

  /** What a record committed before is to a subscription with filter `f`, from
      frame `n` on: `due` tells whether it was due at that frame. */
  ghost predicate Tracked(s: State, k: Conn, n: nat, id: SubId, f: Filter, o: Stored, due: bool)
  {
    && id in k.subs && k.subs[id].filter == f && n <= |k.sent| && o in s.committed
    && (!due ==> !Due(s, k, o))
    && (SentLive(k, n, id, o) ==> due && Matching(f)(o))
    && (due && Matching(f)(o) ==> SentLive(k, n, id, o) || Due(s, k, o))
  }

  /** Steps that send this subscription no live record. */
  lemma {:induction false} SilentTracked(s: State, k: Conn, s': State, k': Conn, n: nat, id: SubId, f: Filter, o: Stored, due: bool)
    requires Tracked(s, k, n, id, f, o, due) && s.committed <= s'.committed
    requires id in k'.subs && k'.subs[id].filter == f && k.sent <= k'.sent
    requires forall i :: |k.sent| <= i < |k'.sent| ==> !k'.sent[i].Live?
    requires Due(s', k', o) <==> Due(s, k, o)
    ensures Tracked(s', k', n, id, f, o, due)
  {
    hide Due, MatchesRow;
    assert SentLive(k', n, id, o) <==> SentLive(k, n, id, o) by {
      if SentLive(k, n, id, o) {
        var i :| n <= i < |k.sent| && k.sent[i].Live? && k.sent[i].subId == id && k.sent[i].row == o;
        assert k'.sent[i] == k.sent[i];
      }
      if SentLive(k', n, id, o) {
        var i :| n <= i < |k'.sent| && k'.sent[i].Live? && k'.sent[i].subId == id && k'.sent[i].row == o;
        assert k.sent[i] == k'.sent[i];
      }
    }
  }

  lemma {:induction false} ReceiveTracked(s: State, k: Conn, order: seq<SubId>, n: nat, id: SubId, f: Filter, o: Stored, due: bool)
    requires ConnInv(s, k) && k.queue != [] && Enumerates(order, k.subs) && Tracked(s, k, n, id, f, o, due)
    ensures Tracked(s, ReceiveNext(k, order), n, id, f, o, due)
  {
    hide Deliveries, MatchesRow;
    var k', x := ReceiveNext(k, order), k.queue[0];
    var d := Deliveries(k.subs, order, x);
    DeliveriesHold(k.subs, order, x, id);
    assert k'.sent == k.sent + d && k.queue == [x] + k'.queue;
    if SentLive(k, n, id, o) {
      var i :| n <= i < |k.sent| && k.sent[i].Live? && k.sent[i].subId == id && k.sent[i].row == o;
      assert k'.sent[i] == k.sent[i];
    } else if x == o && Matching(f)(o) {
      var i :| 0 <= i < |d| && d[i] == Live(id, o, f);
      assert k'.sent[|k.sent| + i] == d[i];
    }
    if SentLive(k', n, id, o) && !SentLive(k, n, id, o) {
      var i :| n <= i < |k'.sent| && k'.sent[i].Live? && k'.sent[i].subId == id && k'.sent[i].row == o;
      assert i >= |k.sent|;
      assert d[i - |k.sent|] in d;
    }
  }

  /** The other connections do not matter. */
  lemma {:induction false} StepTracked(s: State, e: Event, c: nat, n: nat, id: SubId, f: Filter, o: Stored, due: bool)
    requires Inv(s) && Enabled(s, e) && StaysOpen(e, c, id) && c in s.conns
    requires Tracked(s, s.conns[c], n, id, f, o, due)
    ensures var t := Step(s, e); c in t.conns && Tracked(t, t.conns[c], n, id, f, o, due)
  {
    hide Inv, ConnInv, CommitRecord, Prune, Deliveries, Enumerates, Tracked, AnswerRows, WithinLimit;
    InvConns(s);
    KeptSub(s, s.conns[c], n, id, f, o, due);
    var t := Step(s, e);
    match e
    case Commit(r) =>
      CommitKeepsTable(s, r);
      SilentTracked(s, s.conns[c], t, t.conns[c], n, id, f, o, due);
    case Receive(d, order) =>
      if d == c {
        ReceiveTracked(s, s.conns[c], order, n, id, f, o, due);
        SameStoreTracked(s, t, t.conns[c], n, id, f, o, due);
      } else {
        SilentTracked(s, s.conns[c], t, t.conns[c], n, id, f, o, due);
      }
    case FinishReq(d, ok) =>
      AnswerSendsNoLive(s.conns[d], s.table, ok);
      SilentTracked(s, s.conns[c], t, t.conns[c], n, id, f, o, due);
    case _ => SilentTracked(s, s.conns[c], t, t.conns[c], n, id, f, o, due);
  }

  lemma KeptSub(s: State, k: Conn, n: nat, id: SubId, f: Filter, o: Stored, due: bool)
    requires Tracked(s, k, n, id, f, o, due)
    ensures id in k.subs && k.subs[id].filter == f && o in s.committed
  {
    hide SentLive, Due, MatchesRow;
  }

  lemma SameStoreTracked(s: State, t: State, k: Conn, n: nat, id: SubId, f: Filter, o: Stored, due: bool)
    requires s.pending == t.pending && s.committed == t.committed && Tracked(s, k, n, id, f, o, due)
    ensures Tracked(t, k, n, id, f, o, due)
  {
    hide SentLive, MatchesRow;
  }

  lemma {:induction false} AnswerSendsNoLive(k: Conn, t: Table, ok: bool)
    requires k.phase.Querying? && k.phase.subId in k.subs
    ensures var k' := AnswerReq(k, t, ok);
      k.sent <= k'.sent && forall i :: |k.sent| <= i < |k'.sent| ==> !k'.sent[i].Live?
  {
    hide AnswerRows, WithinLimit;
    var id := k.phase.subId;
    var rows := AnswerRows(t, k.subs[id].filter, ok);
    var k' := AnswerReq(k, t, ok);
    forall i | |k.sent| <= i < |k'.sent|
      ensures !k'.sent[i].Live?
    {
      if i < |k.sent| + |rows| { assert k'.sent[i] == Backfills(id, rows, k.subs[id].filter)[i - |k.sent|]; }
    }
  }

  lemma {:induction false} RunTracked(s: State, es: seq<Event>, c: nat, n: nat, id: SubId, f: Filter, o: Stored, due: bool)
    requires Inv(s) && Runs(s, es) && (forall i :: 0 <= i < |es| ==> StaysOpen(es[i], c, id)) && c in s.conns
    requires Tracked(s, s.conns[c], n, id, f, o, due)
    ensures var t := Run(s, es); c in t.conns && Tracked(t, t.conns[c], n, id, f, o, due)
    decreases |es|
  {
    hide Inv, Enabled, Step, Tracked, StaysOpen;
    if es != [] {
      StepKeepsInv(s, es[0]);
      StepTracked(s, es[0], c, n, id, f, o, due);
      RunTracked(Step(s, es[0]), es[1..], c, n, id, f, o, due);
    }
  }

  /** A reachable state in which connection `c` is about to answer a REQ, and a
      record in the answer. */
  ghost predicate Answers(s: State, c: nat, ok: bool, o: Stored)
  {
    Enabled(s, FinishReq(c, ok)) && o in AnswerRows(s.table, s.conns[c].subs[s.conns[c].phase.subId].filter, ok)
  }

  lemma {:induction false} AnswerTracked(s: State, c: nat, ok: bool, o: Stored)
    requires Inv(s) && Answers(s, c, ok, o)
    ensures var k, t := s.conns[c], Step(s, FinishReq(c, ok));
      c in t.conns
      && Tracked(t, t.conns[c], |t.conns[c].sent|, k.phase.subId, k.subs[k.phase.subId].filter, o, Due(s, k, o))
  {
    hide Inv, ConnInv, Valid, AnswerRows, WithinLimit, MatchesRow;
    InvConns(s);
    AnswerDescends(s.table, s.conns[c].subs[s.conns[c].phase.subId].filter, ok);
  }

  /** A stored record that answers a REQ is sent again, live, for that
      subscription only if it was queued for the connection or still to be
      broadcast when the query was answered, and the filter matches it; and in
      that case it is, as soon as nothing is pending or queued any more, if the
      subscription stays open and the connection does not lag. */
  lemma {:induction false} SentTwiceExactly(es: seq<Event>, c: nat, ok: bool, o: Stored, more: seq<Event>)
    requires Runs(INIT, es) && Answers(Run(INIT, es), c, ok, o)
    requires var s := Run(INIT, es);
      Runs(Step(s, FinishReq(c, ok)), more)
      && forall i :: 0 <= i < |more| ==> StaysOpen(more[i], c, s.conns[c].phase.subId)
    ensures var s := Run(INIT, es);
      var t := Step(s, FinishReq(c, ok));
      var u, id := Run(t, more), s.conns[c].phase.subId;
      var again := Matching(s.conns[c].subs[id].filter)(o) && Due(s, s.conns[c], o);
      c in u.conns
      && (SentLive(u.conns[c], |t.conns[c].sent|, id, o) ==> again)
      && (u.pending == {} && u.conns[c].queue == [] ==> (SentLive(u.conns[c], |t.conns[c].sent|, id, o) <==> again))
  {
    var s := Run(INIT, es);
    RunInPhase(INIT, es);
    hide Inv, Run, Runs, StaysOpen, SentLive, MatchesRow, AnswerRows, AnswerReq;
    AnswerTracked(s, c, ok, o);
    var t, k := Step(s, FinishReq(c, ok)), s.conns[c];
    StepKeepsInv(s, FinishReq(c, ok));
    RunTracked(t, more, c, |t.conns[c].sent|, k.phase.subId, k.subs[k.phase.subId].filter, o, Due(s, k, o));
  }

  /** And nothing stands in the way: the broadcasts and receives already due lead
      there from every such state. */
  lemma {:induction false} SentTwiceInTheEnd(es: seq<Event>, c: nat, ok: bool, o: Stored) returns (more: seq<Event>)
    requires Runs(INIT, es) && Answers(Run(INIT, es), c, ok, o)
    ensures var s := Run(INIT, es);
      var t := Step(s, FinishReq(c, ok));
      var id := s.conns[c].phase.subId;
      Runs(t, more) && c in Run(t, more).conns
      && (SentLive(Run(t, more).conns[c], |t.conns[c].sent|, id, o)
          <==> Matching(s.conns[c].subs[id].filter)(o) && Due(s, s.conns[c], o))
  {
    var s := Run(INIT, es);
    var t := Step(s, FinishReq(c, ok));
    hide Run, Runs, SentLive, MatchesRow, AnswerRows, WithinLimit, Due;
    var a := BroadcastAll(t, c);
    var b := ReceiveAll(Run(t, a), c);
    RunsAppend(t, a, b);
    more := a + b;
    SentTwiceExactly(es, c, ok, o, more);
  }
}
