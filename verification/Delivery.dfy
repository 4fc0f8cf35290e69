/** What a subscription is sent between its REQ and its CLOSE, event by event. */
module Delivery {
  import opened Wrappers
  import opened Bytes
  import opened Filters
  import opened Store
  import opened StoreProofs
  import opened Sync
  import opened SyncProofs
  import opened SyncOrder
  import opened Retrieval

  /** How many records a REQ is answered with at most. */
  function AnswerLimit(f: Filter): nat
  {
    if f.limit.Some? then f.limit.value else 500
  }

  lemma {:induction false} CountFound(t: Table, f: Filter)
    requires Valid(t)
    ensures Count(t.rows, Selecting(f)) == |Found(t.rows, f)|
    decreases |t.rows|
  {
    hide Valid, Selects, Finds;
    if t.rows == [] {
      assert Found([], f) == {};
    } else {
      LastIsNewest(t);
      var n := |t.rows| - 1;
      var last, rest := t.rows[n], t.rows[..n];
      CountFound(t.(rows := rest), f);
      FoundLast(rest, last, f);
      RowInRange(t, last);
      FindsExactly(f, last);
    }
  }

  lemma RowInRange(t: Table, o: Stored)
    requires Valid(t) && o in t.rows
    ensures o.seqno <= I64_MAX
  {
  }

  // ------------------------------------------------------------------
  // The answer to a REQ
  // ------------------------------------------------------------------

  /** A REQ is answered with the newest rows its filter finds, then EOSE; with EOSE
      alone when the query fails. */
  lemma {:induction false} AnswerExactly(k: Conn, t: Table, ok: bool) returns (rows: seq<Stored>)
    requires Valid(t) && k.phase.Querying? && k.phase.subId in k.subs
    ensures var id := k.phase.subId;
      var k', f, n := AnswerReq(k, t, ok), k.subs[id].filter, |k.sent|;
      && (if ok then NewestFound(rows, t.rows, f, AnswerLimit(f)) else rows == [])
      && |k'.sent| == n + |rows| + 1 && k'.sent[..n] == k.sent
      && (forall i :: 0 <= i < |rows| ==> k'.sent[n + i] == Backfill(id, rows[i], f))
      && k'.sent[n + |rows|] == Eose(id)
      && k'.phase == Idle && k'.queue == k.queue
  {
    hide NewestFound, Query, WithinLimit;
    var f := k.subs[k.phase.subId].filter;
    rows := AnswerRows(t, f, ok);
    QueryExactly(t, f, DEFAULT_BACKFILL_LIMIT);
  }

  // ------------------------------------------------------------------
  // No gap
  // ------------------------------------------------------------------

  /** Waiting for the answer to its REQ, with nothing sent since. */
  ghost predicate Waiting(s: State, c: nat, id: SubId, f: Filter, sent: seq<Sent>)
  {
    && c in s.conns && s.conns[c].phase == Querying(id) && s.conns[c].sent == sent
    && id in s.conns[c].subs && s.conns[c].subs[id].filter == f && s.conns[c].subs[id].mark == |sent|
  }

  /** The connection goes on and its query is still running; it may lag. */
  predicate StillRunning(e: Event, c: nat)
  {
    match e
    case Disconnect(d) => d != c
    case FinishReq(d, _) => d != c
    case _ => true
  }

  lemma {:induction false} StepWaits(s: State, e: Event, c: nat, id: SubId, f: Filter, sent: seq<Sent>)
    requires Enabled(s, e) && StillRunning(e, c) && Waiting(s, c, id, f, sent)
    ensures Waiting(Step(s, e), c, id, f, sent)
  {
    hide Enumerates, Deliveries, Prune, AnswerReq, InsertOutcome;
  }

  lemma {:induction false} RunWaits(s: State, es: seq<Event>, c: nat, id: SubId, f: Filter, sent: seq<Sent>)
    requires Inv(s) && Runs(s, es) && Waiting(s, c, id, f, sent)
    requires forall i :: 0 <= i < |es| ==> StillRunning(es[i], c)
    ensures Inv(Run(s, es)) && Waiting(Run(s, es), c, id, f, sent)
    decreases |es|
  {
    hide Inv, Enabled, Step, Waiting, StillRunning;
    if es != [] {
      StepKeepsInv(s, es[0]);
      StepWaits(s, es[0], c, id, f, sent);
      RunWaits(Step(s, es[0]), es[1..], c, id, f, sent);
    }
  }

  /** Open since frame `n`, under filter `f`, and owed nothing it will not get. */
  ghost predicate Served(s: State, c: nat, id: SubId, f: Filter, n: nat)
  {
    && c in s.conns && id in s.conns[c].subs && s.conns[c].subs[id].filter == f && s.conns[c].subs[id].mark == n
    && NoGap(s, s.conns[c], id)
  }

  lemma {:induction false} StepServed(s: State, e: Event, c: nat, id: SubId, f: Filter, n: nat)
    requires Inv(s) && Enabled(s, e) && StaysOpen(e, c, id) && Served(s, c, id, f, n)
    ensures Served(Step(s, e), c, id, f, n)
  {
    hide Inv, ConnInv, CommitRecord, Prunes, AnswerRows, WithinLimit, Deliveries, Enumerates, NoGap, MatchesRow, Delivered;
    InvConns(s);
    var t := Step(s, e);
    var k := s.conns[c];
    match e
    case Receive(d, order) =>
      if d == c {
        InOrder(s, c, order);
        ReceiveKeepsOwed(s, c, order, id);
        OwedCarries(s, k, s, ReceiveNext(k, order), id);
        SameStoreSameGap(s, t, ReceiveNext(k, order), id);
      } else {
        SameStoreSameGap(s, t, k, id);
      }
    case Commit(r) =>
      CommitKeepsTable(s, r);
      assert KeepsOwed(s, k, t, t.conns[c], id);
      OwedCarries(s, k, t, t.conns[c], id);
    case PruneStore(retention, now) =>
      WithoutMembers(s.table.rows, Pruning(retention, now));
      assert KeepsOwed(s, k, t, t.conns[c], id);
      OwedCarries(s, k, t, t.conns[c], id);
    case _ =>
      assert KeepsOwed(s, k, t, t.conns[c], id);
      OwedCarries(s, k, t, t.conns[c], id);
  }

  lemma {:induction false} RunServed(s: State, es: seq<Event>, c: nat, id: SubId, f: Filter, n: nat)
    requires Inv(s) && Runs(s, es) && Served(s, c, id, f, n)
    requires forall i :: 0 <= i < |es| ==> StaysOpen(es[i], c, id)
    ensures Inv(Run(s, es)) && Served(Run(s, es), c, id, f, n)
    decreases |es|
  {
    hide Inv, Enabled, Step, Served, StaysOpen;
    if es != [] {
      StepKeepsInv(s, es[0]);
      StepServed(s, es[0], c, id, f, n);
      RunServed(Step(s, es[0]), es[1..], c, id, f, n);
    }
  }

  lemma {:induction false} AnswerServes(s: State, c: nat, id: SubId, f: Filter, sent: seq<Sent>)
    requires Inv(s) && Waiting(s, c, id, f, sent) && |Found(s.table.rows, f)| <= AnswerLimit(f)
    ensures Enabled(s, FinishReq(c, true)) && Served(Step(s, FinishReq(c, true)), c, id, f, |sent|)
  {
    hide Inv, ConnInv, Valid, Delivered, MatchesRow, Found, AnswerRows;
    InvConns(s);
    CountFound(s.table, f);
    var k := s.conns[c];
    forall o | o in s.table.rows && Matching(f)(o)
      ensures Delivered(AnswerReq(k, s.table, true), id, o)
    {
      AnswerDelivers(s, k, o);
    }
  }

  lemma {:induction false} Reachable(es: seq<Event>)
    requires Runs(INIT, es)
    ensures Inv(Run(INIT, es)) && Truthful(Run(INIT, es)) && AllInPhase(Run(INIT, es))
  {
    hide Run;
    RunKeeps(INIT, es);
    RunInPhase(INIT, es);
  }

  /** The connection was sent the record for the subscription, at frame `n` or
      later. */
  ghost predicate SentSince(k: Conn, n: nat, id: SubId, o: Stored)
  {
    exists i :: n <= i < |k.sent| && (k.sent[i].Backfill? || k.sent[i].Live?) && k.sent[i].subId == id && k.sent[i].row == o
  }

  /** A subscription's life from its REQ on: what happens until the query is
      answered, and what happens then. */
  ghost predicate Life(s: State, c: nat, id: SubId, f: Filter, during: seq<Event>, after: seq<Event>)
  {
    && Enabled(s, StartReq(c, id, f))
    && var s1 := Step(s, StartReq(c, id, f));
    && Runs(s1, during) && (forall i :: 0 <= i < |during| ==> StillRunning(during[i], c))
    && Enabled(Run(s1, during), FinishReq(c, true))
    && Runs(Step(Run(s1, during), FinishReq(c, true)), after)
    && (forall i :: 0 <= i < |after| ==> StaysOpen(after[i], c, id))
  }

  ghost function Asked(s: State, c: nat, id: SubId, f: Filter, during: seq<Event>): State
    requires Enabled(s, StartReq(c, id, f)) && Runs(Step(s, StartReq(c, id, f)), during)
  {
    Run(Step(s, StartReq(c, id, f)), during)
  }

  /** In every run: a REQ whose filter finds no more rows than its limit when it is
      answered leaves no gap. Every record the relay then holds that the filter
      wants was sent for the subscription since the REQ, or is queued for the
      connection, or is still to be broadcast, as long as the subscription is
      neither closed nor replaced and the connection has not lagged since the
      answer. */
  lemma {:induction false} NoGapSinceReq(es: seq<Event>, c: nat, id: SubId, f: Filter, during: seq<Event>, after: seq<Event>)
    requires Runs(INIT, es) && Life(Run(INIT, es), c, id, f, during, after)
    requires |Found(Asked(Run(INIT, es), c, id, f, during).table.rows, f)| <= AnswerLimit(f)
    ensures var s := Run(INIT, es);
      var t := Run(Step(Asked(s, c, id, f, during), FinishReq(c, true)), after);
      c in t.conns
      && forall o :: o in t.table.rows && Wants(f, o) ==>
           SentSince(t.conns[c], |s.conns[c].sent|, id, o) || o in t.conns[c].queue || o in t.pending
  {
    hide Inv, Found, Served, StaysOpen, StillRunning, AnswerLimit, AnswerReq, Wants, GapFree, Truthful;
    var s := Run(INIT, es);
    Reachable(es);
    StepKeepsInv(s, StartReq(c, id, f));
    var s1 := Step(s, StartReq(c, id, f));
    var sent := s.conns[c].sent;
    RunWaits(s1, during, c, id, f, sent);
    var s2 := Run(s1, during);
    AnswerServes(s2, c, id, f, sent);
    StepKeepsInv(s2, FinishReq(c, true));
    var s3 := Step(s2, FinishReq(c, true));
    RunServed(s3, after, c, id, f, |sent|);
    ServedMeans(Run(s3, after), c, id, f, |sent|);
  }

  lemma {:induction false} ServedMeans(s: State, c: nat, id: SubId, f: Filter, n: nat)
    requires Inv(s) && Served(s, c, id, f, n)
    ensures c in s.conns
    ensures forall o :: o in s.table.rows && Wants(f, o) ==>
      SentSince(s.conns[c], n, id, o) || o in s.conns[c].queue || o in s.pending
  {
    hide Inv, Wants, MatchesRow, ConnInv;
    InvConns(s);
    forall o | o in s.table.rows && Wants(f, o)
      ensures SentSince(s.conns[c], n, id, o) || o in s.conns[c].queue || o in s.pending
    {
      MatchesExactly(f, o);
      assert Matching(f)(o);
    }
  }

  /** And nothing stands in the way: broadcasts and receives alone lead to a state
      in which all of them have been sent. */
  lemma {:induction false} SentInTheEnd(es: seq<Event>, c: nat, id: SubId, f: Filter, during: seq<Event>)
    returns (after: seq<Event>)
    requires Runs(INIT, es) && Life(Run(INIT, es), c, id, f, during, [])
    requires |Found(Asked(Run(INIT, es), c, id, f, during).table.rows, f)| <= AnswerLimit(f)
    ensures forall i :: 0 <= i < |after| ==> after[i].Broadcast? || after[i].Receive?
    ensures Life(Run(INIT, es), c, id, f, during, after)
    ensures var s := Run(INIT, es);
      var t := Run(Step(Asked(s, c, id, f, during), FinishReq(c, true)), after);
      && t.table == Asked(s, c, id, f, during).table && c in t.conns
      && forall o :: o in t.table.rows && Wants(f, o) ==> SentSince(t.conns[c], |s.conns[c].sent|, id, o)
  {
    hide Run, Runs, Inv, Found, Wants, AnswerLimit, AnswerRows, WithinLimit;
    var s := Run(INIT, es);
    var s2 := Asked(s, c, id, f, during);
    var s3 := Step(s2, FinishReq(c, true));
    var a := BroadcastAll(s3, c);
    var b := ReceiveAll(Run(s3, a), c);
    RunsAppend(s3, a, b);
    after := a + b;
    NoGapSinceReq(es, c, id, f, during, after);
  }

  // ------------------------------------------------------------------
  // Nothing else is sent
  // ------------------------------------------------------------------

  /** Some event committed the record. */
  ghost predicate Published(es: seq<Event>, o: Stored)
  {
    exists i :: 0 <= i < |es| && es[i].Commit? && o == es[i].r.(seqno := o.seqno)
  }

  lemma {:induction false} PublishedLater(es: seq<Event>, o: Stored)
    requires es != [] && Published(es[1..], o)
    ensures Published(es, o)
  {
    var i :| 0 <= i < |es[1..]| && es[1..][i].Commit? && o == es[1..][i].r.(seqno := o.seqno);
    assert es[i + 1] == es[1..][i];
  }

  lemma {:induction false} CommittedWasPublished(s: State, es: seq<Event>, o: Stored)
    requires Runs(s, es) && o in Run(s, es).committed
    ensures o in s.committed || Published(es, o)
    decreases |es|
  {
    hide Enabled, Published, Enumerates, Prune, Deliveries;
    if es != [] {
      CommittedWasPublished(Step(s, es[0]), es[1..], o);
      if Published(es[1..], o) {
        PublishedLater(es, o);
      } else {
        StepCommits(s, es[0], o);
        if o !in s.committed { FirstPublished(es, o); }
      }
    }
  }

  lemma StepCommits(s: State, e: Event, o: Stored)
    requires Enabled(s, e) && o in Step(s, e).committed
    ensures o in s.committed || (e.Commit? && o == e.r.(seqno := o.seqno))
  {
    hide Enumerates, Prune, Deliveries;
  }

  lemma FirstPublished(es: seq<Event>, o: Stored)
    requires es != [] && es[0].Commit? && o == es[0].r.(seqno := o.seqno)
    ensures Published(es, o)
  {
  }

  /** In every run, whatever a subscription was sent since its REQ are records that
      were committed in that run: in the answer what the filter finds, live what
      it wants, no record live twice; and exactly one EOSE, between the two. */
  lemma {:induction false} NothingElseSent(es: seq<Event>, c: nat, id: SubId, i: nat)
    requires Runs(INIT, es) && c in Run(INIT, es).conns && id in Run(INIT, es).conns[c].subs
    requires Run(INIT, es).conns[c].subs[id].mark <= i < |Run(INIT, es).conns[c].sent|
    requires Run(INIT, es).conns[c].sent[i].subId == id
    ensures var k := Run(INIT, es).conns[c];
      var f, m := k.subs[id].filter, k.sent[i];
      && (m.Backfill? ==> Published(es, m.row) && Finds(f, m.row))
      && (m.Backfill? ==> exists e :: i < e < |k.sent| && k.sent[e] == Eose(id))
      && (m.Live? ==> Published(es, m.row) && Wants(f, m.row))
      && (m.Live? ==> exists e :: k.subs[id].mark <= e < i && k.sent[e] == Eose(id))
      && (m.Live? ==> forall j :: i < j < |k.sent| && k.sent[j].Live? && k.sent[j].subId == id ==> k.sent[j].row != m.row)
      && (m.Eose? ==> forall j :: i < j < |k.sent| && k.sent[j].subId == id ==> k.sent[j].Live?)
  {
    hide Run, Inv, ConnInv, Published, Finds, Wants, MatchesRow, Selects;
    Reachable(es);
    var s := Run(INIT, es);
    var k := s.conns[c];
    var m := k.sent[i];
    assert InPhase(k, id) by { assert ConnInPhase(k); }
    var e :| k.subs[id].mark <= e < |k.sent| && AnsweredAt(k, id, e);
    assert ConnTruthful(s, k);
    assert Honest(s, m);
    if !m.Eose? {
      CommittedWasPublished(INIT, es, m.row);
      FindsExactly(m.filter, m.row);
      MatchesExactly(m.filter, m.row);
    }
  }

  // ------------------------------------------------------------------
  // After a CLOSE
  // ------------------------------------------------------------------

  /** Not subscribed under this id, and nothing sent for it since frame `n`. */
  ghost predicate Silent(s: State, c: nat, id: SubId, n: nat)
  {
    c in s.conns ==>
      && id !in s.conns[c].subs && s.conns[c].phase != Querying(id)
      && forall i :: n <= i < |s.conns[c].sent| ==> s.conns[c].sent[i].subId != id
  }

  lemma {:induction false} SendsForOthers(k: Conn, k': Conn, more: seq<Sent>, id: SubId, n: nat)
    requires k'.sent == k.sent + more && forall m :: m in more ==> m.subId != id
    requires forall i :: n <= i < |k.sent| ==> k.sent[i].subId != id
    ensures forall i :: n <= i < |k'.sent| ==> k'.sent[i].subId != id
  {
    forall i | n <= i < |k'.sent|
      ensures k'.sent[i].subId != id
    {
      if i >= |k.sent| { assert k'.sent[i] == more[i - |k.sent|]; }
    }
  }

  lemma {:induction false} StepSilent(s: State, e: Event, c: nat, id: SubId, n: nat)
    requires Enabled(s, e) && Silent(s, c, id, n) && !(e.StartReq? && e.c == c && e.subId == id)
    ensures Silent(Step(s, e), c, id, n)
  {
    hide CommitRecord, Prune, AnswerRows, WithinLimit, Deliveries, Enumerates, MatchesRow;
    match e
    case Receive(d, order) =>
      if d == c {
        InOrder(s, c, order);
        var k := s.conns[c];
        DeliveriesHold(k.subs, order, k.queue[0], id);
        SendsForOthers(k, ReceiveNext(k, order), Deliveries(k.subs, order, k.queue[0]), id, n);
      }
    case FinishReq(d, ok) =>
      if d == c {
        var k := s.conns[c];
        var f, rows := k.subs[k.phase.subId].filter, AnswerRows(s.table, k.subs[k.phase.subId].filter, ok);
        assert AnswerReq(k, s.table, ok).sent == k.sent + (Backfills(k.phase.subId, rows, f) + [Eose(k.phase.subId)]);
        SendsForOthers(k, AnswerReq(k, s.table, ok), Backfills(k.phase.subId, rows, f) + [Eose(k.phase.subId)], id, n);
      }
    case Commit(r) => CommitTouchesNobody(s, r);
    case _ =>
  }

  lemma CommitTouchesNobody(s: State, r: Stored)
    ensures CommitRecord(s, r).conns == s.conns
  {
  }

  lemma {:induction false} RunSilent(s: State, es: seq<Event>, c: nat, id: SubId, n: nat)
    requires Runs(s, es) && Silent(s, c, id, n)
    requires forall i :: 0 <= i < |es| ==> !(es[i].StartReq? && es[i].c == c && es[i].subId == id)
    ensures Silent(Run(s, es), c, id, n)
    decreases |es|
  {
    hide Enabled, Step, Silent;
    if es != [] {
      StepSilent(s, es[0], c, id, n);
      RunSilent(Step(s, es[0]), es[1..], c, id, n);
    }
  }

  /** After a CLOSE nothing is sent for the subscription until it is opened again. */
  lemma {:induction false} SilentAfterClose(s: State, c: nat, id: SubId, es: seq<Event>)
    requires Enabled(s, CloseSub(c, id)) && Runs(Step(s, CloseSub(c, id)), es)
    requires forall i :: 0 <= i < |es| ==> !(es[i].StartReq? && es[i].c == c && es[i].subId == id)
    ensures var t := Run(Step(s, CloseSub(c, id)), es);
      c in t.conns ==> forall i :: |s.conns[c].sent| <= i < |t.conns[c].sent| ==> t.conns[c].sent[i].subId != id
  {
    RunSilent(Step(s, CloseSub(c, id)), es, c, id, |s.conns[c].sent|);
  }
}
