/** The `/sync` endpoint as interleaved steps (`sync.rs`): records are committed
    and later broadcast, connections subscribe, are backfilled and receive live
    records, each step on its own. */
module Sync {
  import opened Wrappers
  import opened Bytes
  import opened Filters
  import opened Store

  type SubId = string

  const DEFAULT_BACKFILL_LIMIT: u64 := 500

  /** A frame sent for a subscription, with the filter it was sent under. */
  datatype Sent =
    | Backfill(subId: SubId, row: Stored, filter: Filter)
    | Eose(subId: SubId)
    | Live(subId: SubId, row: Stored, filter: Filter)

  /** A subscription: `mark` is how many frames had been sent when it was
      opened; `whole` says that its backfill is done, succeeded and was not cut
      by its limit. */
  datatype Sub = Sub(filter: Filter, mark: nat, whole: bool)

  /** While a REQ waits for its query the connection handles nothing else. */
  datatype Phase = Idle | Querying(subId: SubId)

  datatype Conn = Conn(
    subs: map<SubId, Sub>,
    phase: Phase,
    queue: seq<Stored>,  // accepted records not yet taken from the broadcast channel
    sent: seq<Sent>,
    lagged: bool)

  datatype State = State(
    table: Table,
    pending: set<Stored>,    // committed, not yet broadcast
    committed: set<Stored>,  // ever
    conns: map<nat, Conn>)

  const INIT := State(Table([], 0), {}, {}, map[])

  datatype Event =
    | Connect(c: nat)
    | Disconnect(c: nat)
    | Commit(r: Stored)
    | Broadcast(o: Stored)
    | StartReq(c: nat, subId: SubId, filter: Filter)
    | FinishReq(c: nat, ok: bool)
    | CloseSub(c: nat, subId: SubId)
    | Receive(c: nat, order: seq<SubId>)
    | Lag(c: nat, n: nat)
    | PruneStore(retention: Retention, now: int)

  // ------------------------------------------------------------------
  // What one connection does
  // ------------------------------------------------------------------

  function NewConn(): Conn { Conn(map[], Idle, [], [], false) }

  function OpenSub(k: Conn, subId: SubId, f: Filter): Conn
  {
    k.(subs := k.subs[subId := Sub(f, |k.sent|, false)], phase := Querying(subId))
  }

  function Backfills(subId: SubId, rows: seq<Stored>, f: Filter): (r: seq<Sent>)
    ensures |r| == |rows|
    ensures forall i :: 0 <= i < |rows| ==> r[i] == Backfill(subId, rows[i], f)
  {
    if rows == [] then [] else [Backfill(subId, rows[0], f)] + Backfills(subId, rows[1..], f)
  }

  function Count(rows: seq<Stored>, pass: Stored -> bool): nat
    decreases |rows|
  {
    if rows == [] then 0
    else (if pass(rows[|rows| - 1]) then 1 else 0) + Count(rows[..|rows| - 1], pass)
  }

  /** The backfill is not cut: no more rows are selected than it may hold. */
  predicate WithinLimit(t: Table, f: Filter)
  {
    Count(t.rows, Selecting(f)) <= RowLimit(f, DEFAULT_BACKFILL_LIMIT)
  }

  /** The rows a REQ is answered with; none when the query fails. */
  function AnswerRows(t: Table, f: Filter, ok: bool): seq<Stored>
  {
    if ok then Query(t, f, DEFAULT_BACKFILL_LIMIT) else []
  }

  function AnswerReq(k: Conn, t: Table, ok: bool): Conn
    requires k.phase.Querying? && k.phase.subId in k.subs
  {
    var id := k.phase.subId;
    var sub := k.subs[id];
    k.(subs := k.subs[id := sub.(whole := ok && WithinLimit(t, sub.filter))],
       phase := Idle,
       sent := k.sent + Backfills(id, AnswerRows(t, sub.filter, ok), sub.filter) + [Eose(id)])
  }

  /** The frames a live record causes, over subscriptions in the given order. */
  function Deliveries(subs: map<SubId, Sub>, order: seq<SubId>, o: Stored): seq<Sent>
    requires forall i :: 0 <= i < |order| ==> order[i] in subs
  {
    if order == [] then []
    else
      var f := subs[order[0]].filter;
      (if Matching(f)(o) then [Live(order[0], o, f)] else []) + Deliveries(subs, order[1..], o)
  }

  /** Each open subscription, once. */
  ghost predicate Enumerates(order: seq<SubId>, subs: map<SubId, Sub>)
  {
    && (forall i :: 0 <= i < |order| ==> order[i] in subs)
    && (forall id :: id in subs ==> id in order)
    && (forall i, j :: 0 <= i < j < |order| ==> order[i] != order[j])
  }

  function ReceiveNext(k: Conn, order: seq<SubId>): Conn
    requires k.queue != [] && forall i :: 0 <= i < |order| ==> order[i] in k.subs
  {
    k.(queue := k.queue[1..], sent := k.sent + Deliveries(k.subs, order, k.queue[0]))
  }

  // ------------------------------------------------------------------
  // Steps
  // ------------------------------------------------------------------

  /** When a step can happen. */
  ghost predicate Enabled(s: State, e: Event)
  {
    match e
    case Connect(c) => c !in s.conns
    case Disconnect(c) => c in s.conns
    case Commit(r) => true
    case Broadcast(o) => o in s.pending
    case StartReq(c, _, _) => c in s.conns && s.conns[c].phase == Idle
    case FinishReq(c, _) => c in s.conns && s.conns[c].phase.Querying? && s.conns[c].phase.subId in s.conns[c].subs
    case CloseSub(c, _) => c in s.conns && s.conns[c].phase == Idle
    case Receive(c, order) =>
      c in s.conns && s.conns[c].phase == Idle && s.conns[c].queue != [] && Enumerates(order, s.conns[c].subs)
    case Lag(c, n) => c in s.conns && n <= |s.conns[c].queue|
    case PruneStore(_, _) => true
  }

  ghost function Step(s: State, e: Event): State
    requires Enabled(s, e)
  {
    match e
    case Connect(c) => s.(conns := s.conns[c := NewConn()])
    case Disconnect(c) => s.(conns := s.conns - {c})
    case Commit(r) => CommitRecord(s, r)
    case Broadcast(o) =>
      s.(pending := s.pending - {o},
         conns := map c | c in s.conns :: s.conns[c].(queue := s.conns[c].queue + [o]))
    case StartReq(c, id, f) => s.(conns := s.conns[c := OpenSub(s.conns[c], id, f)])
    case FinishReq(c, ok) => s.(conns := s.conns[c := AnswerReq(s.conns[c], s.table, ok)])
    case CloseSub(c, id) => s.(conns := s.conns[c := s.conns[c].(subs := s.conns[c].subs - {id})])
    case Receive(c, order) => s.(conns := s.conns[c := ReceiveNext(s.conns[c], order)])
    case Lag(c, n) => s.(conns := s.conns[c := s.conns[c].(queue := s.conns[c].queue[n..], lagged := true)])
    case PruneStore(retention, now) => s.(table := Prune(s.table, retention, now))
  }

  /** An insertion; only a new record will be broadcast. */
  function CommitRecord(s: State, r: Stored): State
  {
    match InsertOutcome(s.table, r)
    case Some(Inserted(n)) =>
      var o := r.(seqno := n);
      s.(table := InsertRow(s.table, r), pending := s.pending + {o}, committed := s.committed + {o})
    case _ => s
  }

  /** A run of the relay. */
  ghost predicate Runs(s: State, es: seq<Event>)
    decreases |es|
  {
    es == [] || (Enabled(s, es[0]) && Runs(Step(s, es[0]), es[1..]))
  }

  ghost function Run(s: State, es: seq<Event>): State
    requires Runs(s, es)
    decreases |es|
  {
    if es == [] then s else Run(Step(s, es[0]), es[1..])
  }

  // ------------------------------------------------------------------
  // What is promised
  // ------------------------------------------------------------------

  /** The subscription was sent the record after it was opened. */
  ghost predicate Delivered(k: Conn, id: SubId, o: Stored)
    requires id in k.subs
  {
    exists i :: k.subs[id].mark <= i < |k.sent| && !k.sent[i].Eose? && k.sent[i].subId == id && k.sent[i].row == o
  }

  /** Every stored record that matches has been sent, is queued, or is committed
      and yet to be broadcast. */
  ghost predicate NoGap(s: State, k: Conn, id: SubId)
    requires id in k.subs
  {
    forall o :: o in s.table.rows && Matching(k.subs[id].filter)(o) ==>
      Delivered(k, id, o) || o in k.queue || o in s.pending
  }

  ghost predicate GapFree(s: State)
  {
    forall c, id :: c in s.conns && id in s.conns[c].subs && s.conns[c].subs[id].whole && !s.conns[c].lagged ==>
      NoGap(s, s.conns[c], id)
  }

  /** Only committed records are sent, and only ones the filter in force
      accepts: exactly for live frames, up to a clash of kinds for backfill. */
  ghost predicate Honest(s: State, m: Sent)
  {
    match m
    case Backfill(_, o, f) => o in s.committed && Selecting(f)(o)
    case Live(_, o, f) => o in s.committed && Matching(f)(o)
    case Eose(_) => true
  }

  ghost predicate ConnHonest(s: State, k: Conn)
  {
    forall i :: 0 <= i < |k.sent| ==> Honest(s, k.sent[i])
  }

  /** A subscription id is sent a record live at most once; and what was sent
      live is neither queued nor pending any more. */
  ghost predicate LiveOnce(s: State, k: Conn)
  {
    && (forall i :: 0 <= i < |k.sent| && k.sent[i].Live? ==>
          k.sent[i].row in s.committed && k.sent[i].row !in s.pending && k.sent[i].row !in k.queue)
    && (forall i, j :: 0 <= i < j < |k.sent| && k.sent[i].Live? && k.sent[j].Live? ==>
          k.sent[i].subId != k.sent[j].subId || k.sent[i].row != k.sent[j].row)
  }

  ghost predicate ConnTruthful(s: State, k: Conn)
  {
    ConnHonest(s, k) && LiveOnce(s, k)
  }

  ghost predicate Truthful(s: State)
  {
    forall c :: c in s.conns ==> ConnTruthful(s, s.conns[c])
  }
}
