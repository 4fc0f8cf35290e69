/** Flooding ends, is bounded and converges, on any topology. */
module GossipProofs {
  import opened Bytes
  import opened Gossip

  // ------------------------------------------------------------------
  // Each record is broadcast at most once per relay
  // ------------------------------------------------------------------

  ghost predicate Inv(s: State)
  {
    s.pending !! s.broadcast && s.stored == s.pending + s.broadcast
  }

  lemma {:induction false} StepKeeps(links: seq<Link>, s: State, e: Event)
    requires Inv(s) && Enabled(links, s, e)
    ensures Inv(Step(links, s, e)) && s.broadcast <= Step(links, s, e).broadcast
    ensures s.stored <= Step(links, s, e).stored
  {
    hide Fanout;
  }

  ghost predicate NoneOf(b: seq<At>, seen: set<At>)
  {
    forall i :: 0 <= i < |b| ==> b[i] !in seen
  }

  ghost predicate NoRepeats(b: seq<At>)
  {
    forall i, j :: 0 <= i < j < |b| ==> b[i] != b[j]
  }

  lemma {:induction false} BroadcastsOnce(links: seq<Link>, s: State, es: seq<Event>)
    requires Inv(s) && Runs(links, s, es)
    ensures NoneOf(Broadcasts(es), s.broadcast) && NoRepeats(Broadcasts(es))
    ensures Inv(Run(links, s, es))
    decreases |es|
  {
    hide Step, Inv, Enabled;
    if es != [] {
      StepKeeps(links, s, es[0]);
      var t, rest := Step(links, s, es[0]), Broadcasts(es[1..]);
      BroadcastsOnce(links, t, es[1..]);
      BroadcastStep(links, s, es[0]);
      assert Broadcasts(es) == (if es[0].Broadcast? then [es[0].at] else []) + rest;
    }
  }

  lemma BroadcastStep(links: seq<Link>, s: State, e: Event)
    requires Inv(s) && Enabled(links, s, e)
    ensures e.Broadcast? ==> e.at !in s.broadcast && e.at in Step(links, s, e).broadcast
  {
  }

  lemma {:induction false} FanoutBound(links: seq<Link>, s: State, n: nat, id: Digest)
    ensures |Fanout(links, s, n, id)| <= 2 * |links|
    decreases |links|
  {
    if links != [] { FanoutBound(links[1..], s, n, id); }
  }

  /** Messages caused by broadcasts: at most two per link for every record a
      relay stores, on any topology, cycles included. */
  ghost predicate SentBounded(links: seq<Link>, s: State)
  {
    s.sent <= |s.broadcast| * (2 * |links|)
  }

  lemma {:induction false} StepSentBounded(links: seq<Link>, s: State, e: Event)
    requires Inv(s) && Enabled(links, s, e) && SentBounded(links, s)
    ensures SentBounded(links, Step(links, s, e))
  {
    hide Fanout;
    if e.Broadcast? {
      FanoutBound(links, s, e.at.node, e.at.id);
      assert |s.broadcast + {e.at}| == |s.broadcast| + 1;
      var k := 2 * |links|;
      assert (|s.broadcast| + 1) * k == |s.broadcast| * k + k;
    }
  }

  lemma {:induction false} RunSentBounded(links: seq<Link>, s: State, es: seq<Event>)
    requires Inv(s) && Runs(links, s, es) && SentBounded(links, s)
    ensures SentBounded(links, Run(links, s, es)) && Inv(Run(links, s, es))
    decreases |es|
  {
    hide Step, Inv, Enabled, SentBounded;
    if es != [] {
      StepKeeps(links, s, es[0]);
      StepSentBounded(links, s, es[0]);
      RunSentBounded(links, Step(links, s, es[0]), es[1..]);
    }
  }

  // ------------------------------------------------------------------
  // A bound from the publications alone
  // ------------------------------------------------------------------

  function PublishedIds(es: seq<Event>): set<Digest>
  {
    if es == [] then {}
    else (if es[0].Publish? then {es[0].at.id} else {}) + PublishedIds(es[1..])
  }

  /** Where publications arrive. */
  function PublishedNodes(es: seq<Event>): set<nat>
  {
    if es == [] then {}
    else (if es[0].Publish? then {es[0].at.node} else {}) + PublishedNodes(es[1..])
  }

  ghost function LinkNodes(links: seq<Link>): set<nat>
  {
    (set l | l in links :: l.client) + (set l | l in links :: l.server)
  }

  /** Only known relays hold or are sent records, and only known records. */
  ghost predicate OnlyKnown(nodes: set<nat>, ids: set<Digest>, s: State)
  {
    && (forall at :: at in s.stored ==> at.node in nodes && at.id in ids)
    && (forall m :: m in s.msgs ==> m.to in nodes && m.id in ids)
    && (forall l :: l in s.subscribed ==> l.client in nodes)
  }

  lemma {:induction false} StepOnlyKnown(links: seq<Link>, nodes: set<nat>, ids: set<Digest>, s: State, e: Event)
    requires Inv(s) && Enabled(links, s, e) && OnlyKnown(nodes, ids, s) && LinkNodes(links) <= nodes
    requires e.Publish? ==> e.at.node in nodes && e.at.id in ids
    ensures OnlyKnown(nodes, ids, Step(links, s, e))
  {
    hide Fanout;
    match e
    case Broadcast(at) => BroadcastOnlyKnown(links, nodes, ids, s, at);
    case Deliver(m, taken) => DeliverOnlyKnown(links, nodes, ids, s, m, taken);
    case Subscribe(l) => assert l.client in LinkNodes(links);
    case _ =>
  }

  lemma {:induction false} BroadcastOnlyKnown(links: seq<Link>, nodes: set<nat>, ids: set<Digest>, s: State, at: At)
    requires Inv(s) && at in s.pending && OnlyKnown(nodes, ids, s) && LinkNodes(links) <= nodes
    ensures OnlyKnown(nodes, ids, Step(links, s, Broadcast(at)))
  {
    hide Fanout, LinkNodes;
    FanoutTargets(links, s, at.node, at.id);
    var out := Fanout(links, s, at.node, at.id);
    forall m | m in out
      ensures m.to in nodes && m.id in ids
    {
      var l :| l in links && m.id == at.id
        && ((l.server == at.node && m.to == l.client) || (l.client == at.node && m.to == l.server));
      EndsKnown(links, l);
    }
  }

  lemma EndsKnown(links: seq<Link>, l: Link)
    requires l in links
    ensures l.client in LinkNodes(links) && l.server in LinkNodes(links)
  {
  }

  lemma {:induction false} DeliverOnlyKnown(links: seq<Link>, nodes: set<nat>, ids: set<Digest>, s: State, m: Msg, taken: bool)
    requires m in s.msgs && (m.Rec? ==> taken) && OnlyKnown(nodes, ids, s)
    ensures OnlyKnown(nodes, ids, Step(links, s, Deliver(m, taken)))
  {
    hide Fanout;
    var t := Step(links, s, Deliver(m, taken));
    assert t.msgs == s.msgs - multiset{m};
    forall x | x in t.msgs ensures x in s.msgs { }
  }

  lemma {:induction false} RunOnlyKnown(links: seq<Link>, nodes: set<nat>, ids: set<Digest>, s: State, es: seq<Event>)
    requires Inv(s) && Runs(links, s, es) && OnlyKnown(nodes, ids, s)
    requires LinkNodes(links) + PublishedNodes(es) <= nodes && PublishedIds(es) <= ids
    ensures OnlyKnown(nodes, ids, Run(links, s, es))
    decreases |es|
  {
    hide Step, Inv, Enabled, OnlyKnown, LinkNodes;
    if es != [] {
      StepOnlyKnown(links, nodes, ids, s, es[0]);
      StepKeeps(links, s, es[0]);
      RunOnlyKnown(links, nodes, ids, Step(links, s, es[0]), es[1..]);
    }
  }

  ghost function Product(nodes: set<nat>, ids: set<Digest>): set<At>
  {
    set n, id | n in nodes && id in ids :: At(n, id)
  }

  lemma {:induction false} RowSize(n: nat, ids: set<Digest>)
    ensures |Product({n}, ids)| == |ids|
    decreases |ids|
  {
    if ids == {} {
      assert Product({n}, ids) == {};
    } else {
      var id :| id in ids;
      RowSize(n, ids - {id});
      assert Product({n}, ids) == Product({n}, ids - {id}) + {At(n, id)};
    }
  }

  lemma {:induction false} ProductSize(nodes: set<nat>, ids: set<Digest>)
    ensures |Product(nodes, ids)| == |nodes| * |ids|
    decreases |nodes|
  {
    if nodes == {} {
      assert Product(nodes, ids) == {};
    } else {
      var n :| n in nodes;
      var rest := nodes - {n};
      ProductSize(rest, ids);
      RowSize(n, ids);
      assert Product(nodes, ids) == Product(rest, ids) + Product({n}, ids);
      assert Product(rest, ids) !! Product({n}, ids);
      assert |nodes| == |rest| + 1;
      assert (|rest| + 1) * |ids| == |rest| * |ids| + |ids|;
    }
  }

  lemma {:induction false} SubsetSize<T>(a: set<T>, b: set<T>)
    requires a <= b
    ensures |a| <= |b|
  {
    assert b == a + (b - a);
  }

  /** A finite set of publications causes a bounded number of messages, on any
      topology: each relay broadcasts each published record at most once, over
      at most two directions of each link. */
  lemma {:induction false} MessagesBounded(links: seq<Link>, es: seq<Event>)
    requires Runs(links, INIT, es)
    ensures NoRepeats(Broadcasts(es))
    ensures Run(links, INIT, es).sent
         <= |LinkNodes(links) + PublishedNodes(es)| * |PublishedIds(es)| * (2 * |links|)
  {
    hide Run, Runs;
    var s := Run(links, INIT, es);
    var nodes, ids := LinkNodes(links) + PublishedNodes(es), PublishedIds(es);
    BroadcastsOnce(links, INIT, es);
    RunSentBounded(links, INIT, es);
    RunOnlyKnown(links, nodes, ids, INIT, es);
    forall at | at in s.broadcast
      ensures at in Product(nodes, ids)
    {
      assert at in s.stored && at == At(at.node, at.id);
    }
    SubsetSize(s.broadcast, Product(nodes, ids));
    ProductSize(nodes, ids);
    Scaled(|s.broadcast|, |nodes| * |ids|, 2 * |links|);
  }

  lemma Scaled(a: nat, b: nat, k: nat)
    requires a <= b
    ensures a * k <= b * k
  {
    assert b * k == a * k + (b - a) * k;
  }

  // ------------------------------------------------------------------
  // Termination
  // ------------------------------------------------------------------

  /** `all` holds every copy that could ever exist: what is stored and what a
      message could store. */
  ghost predicate Covers(all: set<At>, s: State)
  {
    s.stored <= all && (forall m :: m in s.msgs ==> At(m.to, m.id) in all)
  }

  /** Links lead from copies in `all` to copies in `all`. */
  ghost predicate Closed(all: set<At>, links: seq<Link>)
  {
    forall l, at :: l in links && at in all && (at.node == l.server || at.node == l.client) ==>
      At(l.client, at.id) in all && At(l.server, at.id) in all
  }

  ghost function Measure(all: set<At>, links: seq<Link>, s: State): nat
  {
    var k := 2 * |links|;
    |all - s.stored| * (k + 2) + |s.pending| * (k + 1) + |s.msgs|
  }

  lemma {:induction false} FanoutTargets(links: seq<Link>, s: State, n: nat, id: Digest)
    ensures forall m :: m in Fanout(links, s, n, id) ==>
      exists l :: l in links && m.id == id && ((l.server == n && m.to == l.client) || (l.client == n && m.to == l.server))
    decreases |links|
  {
    if links != [] {
      FanoutTargets(links[1..], s, n, id);
      assert links == [links[0]] + links[1..];
      assert links[0] in links;
    }
  }

  lemma {:induction false} BroadcastCovered(all: set<At>, links: seq<Link>, s: State, at: At)
    requires Inv(s) && Covers(all, s) && Closed(all, links) && at in s.pending
    ensures Covers(all, Step(links, s, Broadcast(at)))
  {
    hide Fanout;
    FanoutTargets(links, s, at.node, at.id);
    var t := Step(links, s, Broadcast(at));
    forall m | m in t.msgs
      ensures At(m.to, m.id) in all
    {
      if m !in s.msgs {
        var l :| l in links && m.id == at.id
          && ((l.server == at.node && m.to == l.client) || (l.client == at.node && m.to == l.server));
        assert at in all;
      }
    }
  }

  lemma {:induction false} DeliverCovered(all: set<At>, links: seq<Link>, s: State, m: Msg, taken: bool)
    requires Covers(all, s) && Enabled(links, s, Deliver(m, taken))
    ensures Covers(all, Step(links, s, Deliver(m, taken)))
  {
    var t := Step(links, s, Deliver(m, taken));
    assert t.msgs <= s.msgs;
    forall x | x in t.msgs ensures x in s.msgs { }
  }

  lemma {:induction false} BroadcastDecreases(all: set<At>, links: seq<Link>, s: State, at: At)
    requires at in s.pending
    ensures Measure(all, links, Step(links, s, Broadcast(at))) < Measure(all, links, s)
  {
    hide Fanout;
    var t := Step(links, s, Broadcast(at));
    var k := 2 * |links|;
    FanoutBound(links, s, at.node, at.id);
    assert s.pending == t.pending + {at} && |s.pending| == |t.pending| + 1;
    assert (|t.pending| + 1) * (k + 1) == |t.pending| * (k + 1) + (k + 1);
  }

  lemma {:induction false} DeliverDecreases(all: set<At>, links: seq<Link>, s: State, m: Msg, taken: bool)
    requires Inv(s) && Covers(all, s) && Enabled(links, s, Deliver(m, taken))
    ensures Measure(all, links, Step(links, s, Deliver(m, taken))) < Measure(all, links, s)
  {
    var t := Step(links, s, Deliver(m, taken));
    var k := 2 * |links|;
    var at := At(m.to, m.id);
    assert |t.msgs| == |s.msgs| - 1;
    if taken && at !in s.stored {
      assert all - s.stored == (all - t.stored) + {at};
      assert |all - s.stored| == |all - t.stored| + 1;
      assert |t.pending| == |s.pending| + 1;
      var a, p := |all - t.stored|, |s.pending|;
      assert (a + 1) * (k + 2) == a * (k + 2) + (k + 2);
      assert (p + 1) * (k + 1) == p * (k + 1) + (k + 1);
    }
  }

  ghost function Nodes(links: seq<Link>, s: State): set<nat>
  {
    (set l | l in links :: l.client) + (set l | l in links :: l.server)
    + (set at | at in s.stored :: at.node) + (set m | m in s.msgs :: m.to)
  }

  ghost function Ids(s: State): set<Digest>
  {
    (set at | at in s.stored :: at.id) + (set m | m in s.msgs :: m.id)
  }

  /** Every relay there is, times every record that is about. */
  ghost function Copies(links: seq<Link>, s: State): set<At>
  {
    set n, id | n in Nodes(links, s) && id in Ids(s) :: At(n, id)
  }

  lemma {:induction false} CopiesCover(links: seq<Link>, s: State)
    ensures Covers(Copies(links, s), s) && Closed(Copies(links, s), links)
  {
    var all := Copies(links, s);
    forall at | at in s.stored
      ensures at in all
    {
      assert at.node in Nodes(links, s) && at.id in Ids(s);
      assert at == At(at.node, at.id);
    }
    forall m | m in s.msgs
      ensures At(m.to, m.id) in all
    {
      assert m.to in Nodes(links, s) && m.id in Ids(s);
    }
    forall l, at | l in links && at in all
      ensures At(l.client, at.id) in all && At(l.server, at.id) in all
    {
      assert l.client in Nodes(links, s) && l.server in Nodes(links, s) && at.id in Ids(s);
    }
  }

  /** Left to themselves relays stop: however deliveries and broadcasts
      interleave, and whatever the topology, no run of them is longer than a
      number fixed at its start. */
  lemma {:induction false} FloodingTerminates(links: seq<Link>, s: State, es: seq<Event>)
    requires Inv(s) && Runs(links, s, es) && forall i :: 0 <= i < |es| ==> Internal(es[i])
    ensures |es| <= Measure(Copies(links, s), links, s)
  {
    CopiesCover(links, s);
    RunsAreShort(Copies(links, s), links, s, es);
  }

  lemma {:induction false} RunsAreShort(all: set<At>, links: seq<Link>, s: State, es: seq<Event>)
    requires Inv(s) && Covers(all, s) && Closed(all, links)
    requires Runs(links, s, es) && forall i :: 0 <= i < |es| ==> Internal(es[i])
    ensures |es| <= Measure(all, links, s)
    decreases |es|
  {
    hide Step, Inv, Measure, Covers, Closed, Enabled;
    if es != [] {
      var e := es[0];
      StepKeeps(links, s, e);
      assert Internal(e);
      match e {
        case Broadcast(at) =>
          EnabledBroadcast(links, s, at);
          BroadcastCovered(all, links, s, at);
          BroadcastDecreases(all, links, s, at);
        case Deliver(m, taken) =>
          DeliverCovered(all, links, s, m, taken);
          DeliverDecreases(all, links, s, m, taken);
        case _ =>
      }
      RunsAreShort(all, links, Step(links, s, e), es[1..]);
    }
  }

  lemma EnabledBroadcast(links: seq<Link>, s: State, at: At)
    requires Enabled(links, s, Broadcast(at))
    ensures at in s.pending
  {
  }

  /** And as long as they have not stopped they can go on: a state without an
      internal step is quiescent. */
  lemma {:induction false} StuckIsQuiescent(links: seq<Link>, s: State)
    ensures Quiescent(s) <==> !exists e :: Internal(e) && Enabled(links, s, e)
  {
    if s.pending != {} {
      var at :| at in s.pending;
      assert Internal(Broadcast(at)) && Enabled(links, s, Broadcast(at));
    }
    if s.msgs != multiset{} {
      var m :| m in s.msgs;
      assert Internal(Deliver(m, true)) && Enabled(links, s, Deliver(m, true));
    }
  }

  /** So every state leads to a quiescent one. */
  lemma {:induction false} ReachesQuiescence(links: seq<Link>, s: State) returns (es: seq<Event>)
    requires Inv(s)
    ensures Runs(links, s, es) && (forall i :: 0 <= i < |es| ==> Internal(es[i]))
    ensures Quiescent(Run(links, s, es))
  {
    CopiesCover(links, s);
    es := QuiescenceWithin(Copies(links, s), links, s);
  }

  lemma {:induction false} QuiescenceWithin(all: set<At>, links: seq<Link>, s: State) returns (es: seq<Event>)
    requires Inv(s) && Covers(all, s) && Closed(all, links)
    ensures Runs(links, s, es) && (forall i :: 0 <= i < |es| ==> Internal(es[i]))
    ensures Quiescent(Run(links, s, es))
    decreases Measure(all, links, s)
  {
    hide Step, Inv, Measure, Covers, Closed, Enabled, Quiescent;
    StuckIsQuiescent(links, s);
    if Quiescent(s) {
      es := [];
    } else {
      var e :| Internal(e) && Enabled(links, s, e);
      StepKeeps(links, s, e);
      match e {
        case Broadcast(at) =>
          EnabledBroadcast(links, s, at);
          BroadcastCovered(all, links, s, at);
          BroadcastDecreases(all, links, s, at);
        case Deliver(m, taken) =>
          DeliverCovered(all, links, s, m, taken);
          DeliverDecreases(all, links, s, m, taken);
        case _ =>
      }
      var rest := QuiescenceWithin(all, links, Step(links, s, e));
      es := [e] + rest;
      assert es[1..] == rest;
    }
  }

  // ------------------------------------------------------------------
  // Convergence
  // ------------------------------------------------------------------

  /** What the server stores of a record, the client has, will be sent, or is
      being sent. */
  ghost predicate Follows(s: State, l: Link, id: Digest)
  {
    At(l.server, id) in s.stored ==>
      At(l.server, id) in s.pending || Rec(l.server, l.client, id) in s.msgs || At(l.client, id) in s.stored
  }

  /** What the client stores, the server has, has turned down, or will get. */
  ghost predicate Pushed(s: State, l: Link, id: Digest)
  {
    At(l.client, id) in s.stored ==>
      At(l.client, id) in s.pending || Pub(l.client, l.server, id) in s.msgs
      || At(l.server, id) in s.stored || At(l.server, id) in s.refused
  }

  lemma FanoutHead(links: seq<Link>, s: State, n: nat, id: Digest)
    requires links != []
    ensures Fanout(links, s, n, id) == OverLink(links[0], s, n, id) + Fanout(links[1..], s, n, id)
  {
  }

  lemma {:induction false} FanoutReaches(links: seq<Link>, s: State, l: Link, id: Digest)
    requires l in links
    ensures l in s.subscribed ==> Rec(l.server, l.client, id) in Fanout(links, s, l.server, id)
    ensures l in s.forwarding ==> Pub(l.client, l.server, id) in Fanout(links, s, l.client, id)
    decreases |links|
  {
    if links[0] == l {
      hide Fanout;
      FanoutHead(links, s, l.server, id);
      FanoutHead(links, s, l.client, id);
    } else {
      hide Fanout, OverLink;
      assert links == [links[0]] + links[1..];
      FanoutReaches(links[1..], s, l, id);
      FanoutHead(links, s, l.server, id);
      FanoutHead(links, s, l.client, id);
    }
  }

  lemma {:induction false} StepFollows(links: seq<Link>, s: State, e: Event, l: Link, id: Digest)
    requires Enabled(links, s, e) && l in links
    ensures l in s.subscribed && Follows(s, l, id) ==> Follows(Step(links, s, e), l, id)
    ensures l in s.forwarding && Pushed(s, l, id) ==> Pushed(Step(links, s, e), l, id)
    ensures s.subscribed <= Step(links, s, e).subscribed && s.forwarding <= Step(links, s, e).forwarding
  {
    hide Fanout;
    FanoutReaches(links, s, l, id);
  }

  lemma {:induction false} RunFollows(links: seq<Link>, s: State, es: seq<Event>, l: Link, id: Digest)
    requires Runs(links, s, es) && l in links
    ensures l in s.subscribed && Follows(s, l, id) ==> Follows(Run(links, s, es), l, id)
    ensures l in s.forwarding && Pushed(s, l, id) ==> Pushed(Run(links, s, es), l, id)
    decreases |es|
  {
    hide Step, Follows, Pushed, Enabled;
    if es != [] {
      StepFollows(links, s, es[0], l, id);
      RunFollows(links, Step(links, s, es[0]), es[1..], l, id);
    }
  }

  /** Convergence over one link: a record accepted at the server after the
      client's subscription is up is stored at the client in every quiescent
      state that follows; one accepted at the client while it forwards is
      stored at the server, unless the server turned it down. */
  lemma {:induction false} LinkConverges(links: seq<Link>, s: State, es: seq<Event>, l: Link, id: Digest)
    requires l in links && Runs(links, s, es) && Quiescent(Run(links, s, es))
    ensures l in s.subscribed && At(l.server, id) !in s.stored && At(l.server, id) in Run(links, s, es).stored ==>
      At(l.client, id) in Run(links, s, es).stored
    ensures l in s.forwarding && At(l.client, id) !in s.stored && At(l.client, id) in Run(links, s, es).stored ==>
      At(l.server, id) in Run(links, s, es).stored + Run(links, s, es).refused
  {
    hide Run, Runs;
    RunFollows(links, s, es, l, id);
  }

  /** A backfill that was not cut brings the subscription up to date: from then
      on everything the server stores reaches the client. */
  lemma {:induction false} BackfillCatchesUp(links: seq<Link>, s: State, l: Link, ids: set<Digest>, es: seq<Event>, id: Digest)
    requires l in links && Enabled(links, s, Backfill(l, ids))
    requires forall i :: At(l.server, i) in s.stored ==> i in ids
    requires Runs(links, Step(links, s, Backfill(l, ids)), es)
    requires Quiescent(Run(links, Step(links, s, Backfill(l, ids)), es))
    ensures Follows(Step(links, s, Backfill(l, ids)), l, id)
    ensures var t := Run(links, Step(links, s, Backfill(l, ids)), es);
      At(l.server, id) in t.stored ==> At(l.client, id) in t.stored
  {
    hide Run, Runs;
    var s1 := Step(links, s, Backfill(l, ids));
    if At(l.server, id) in s.stored {
      var recs := set i | i in ids :: Rec(l.server, l.client, i);
      assert Rec(l.server, l.client, id) in recs;
    }
    RunFollows(links, s1, es, l, id);
  }

  /** `path[i + 1]` subscribes to `path[i]`. */
  ghost predicate Path(links: seq<Link>, s: State, path: seq<nat>)
  {
    forall i :: 0 <= i < |path| - 1 ==> Link(path[i + 1], path[i]) in links && Link(path[i + 1], path[i]) in s.subscribed
  }

  /** Convergence over paths of subscriptions: where each subscriber has, or is
      about to get, what its server has of a record (as when the record is new
      to the server, or when an uncut backfill carried it), the record, once
      stored at the start of the path, is stored at its end in every quiescent
      state. */
  lemma {:induction false} PathConverges(links: seq<Link>, s: State, es: seq<Event>, path: seq<nat>, id: Digest)
    requires Runs(links, s, es) && Quiescent(Run(links, s, es))
    requires path != [] && Path(links, s, path)
    requires forall i :: 0 <= i < |path| - 1 ==> Follows(s, Link(path[i + 1], path[i]), id)
    requires At(path[0], id) in Run(links, s, es).stored
    ensures At(path[|path| - 1], id) in Run(links, s, es).stored
    decreases |path|
  {
    hide Run, Runs, Quiescent, Follows;
    if |path| > 1 {
      assert Link(path[0 + 1], path[0]) in links && Follows(s, Link(path[0 + 1], path[0]), id);
      RunFollows(links, s, es, Link(path[1], path[0]), id);
      QuietFollows(Run(links, s, es), Link(path[1], path[0]), id);
      var rest := path[1..];
      forall i | 0 <= i < |rest| - 1
        ensures Link(rest[i + 1], rest[i]) in links && Link(rest[i + 1], rest[i]) in s.subscribed
      {
        assert Link(path[(i + 1) + 1], path[i + 1]) in links;
      }
      forall i | 0 <= i < |rest| - 1
        ensures Follows(s, Link(rest[i + 1], rest[i]), id)
      {
        assert Follows(s, Link(path[(i + 1) + 1], path[i + 1]), id);
      }
      PathConverges(links, s, es, rest, id);
    }
  }

  lemma QuietFollows(s: State, l: Link, id: Digest)
    requires Quiescent(s) && Follows(s, l, id)
    ensures At(l.server, id) in s.stored ==> At(l.client, id) in s.stored
  {
  }
}
