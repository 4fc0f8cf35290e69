/** Flooding between relays (`gossip.rs`): a relay subscribes to its peers with
    an empty filter, pushes to them what it accepts, and takes in what they
    send; every accepted record is broadcast to all of these connections. */
module Gossip {
  import opened Bytes

  /** `client` has `server` among its configured peers. */
  datatype Link = Link(client: nat, server: nat)

  datatype At = At(node: nat, id: Digest)

  /** A record on its way: sent by a server to a subscriber, or pushed by a
      client to its peer. Its place is anywhere between the sender's broadcast
      channel and the receiver's handler. */
  datatype Msg = Rec(from: nat, to: nat, id: Digest) | Pub(from: nat, to: nat, id: Digest)

  datatype State = State(
    stored: set<At>,
    pending: set<At>,     // inserted, not yet broadcast
    broadcast: set<At>,
    msgs: multiset<Msg>,
    subscribed: set<Link>,  // the server sends its records to the client
    forwarding: set<Link>,  // the client pushes its records to the server
    refused: set<At>,       // pushed records turned down for work or rate
    sent: nat)              // messages caused by broadcasts so far

  const INIT := State({}, {}, {}, multiset{}, {}, {}, {}, 0)

  datatype Event =
    | Publish(at: At)
    | Broadcast(at: At)
    | Deliver(m: Msg, taken: bool)
    | Subscribe(l: Link)
    | Forward(l: Link)
    | Backfill(l: Link, ids: set<Digest>)

  /** What a broadcast at `n` puts on the connection of one link. */
  function OverLink(l: Link, s: State, n: nat, id: Digest): multiset<Msg>
  {
    (if l.server == n && l in s.subscribed then multiset{Rec(n, l.client, id)} else multiset{})
    + (if l.client == n && l in s.forwarding then multiset{Pub(n, l.server, id)} else multiset{})
  }

  /** And on the connections of all links. */
  function Fanout(links: seq<Link>, s: State, n: nat, id: Digest): multiset<Msg>
    decreases |links|
  {
    if links == [] then multiset{} else OverLink(links[0], s, n, id) + Fanout(links[1..], s, n, id)
  }

  /** Ingestion by record id: a known record is not stored or broadcast again. */
  function Accept(s: State, at: At): State
  {
    if at in s.stored then s else s.(stored := s.stored + {at}, pending := s.pending + {at})
  }

  predicate Enabled(links: seq<Link>, s: State, e: Event)
  {
    match e
    case Publish(_) => true
    case Broadcast(at) => at in s.pending
    case Deliver(m, taken) => m in s.msgs && (m.Rec? ==> taken)
    case Subscribe(l) => l in links
    case Forward(l) => l in links
    case Backfill(l, ids) => l in s.subscribed && forall id :: id in ids ==> At(l.server, id) in s.stored
  }

  function Step(links: seq<Link>, s: State, e: Event): State
    requires Enabled(links, s, e)
  {
    match e
    case Publish(at) => Accept(s, at)
    case Broadcast(at) =>
      var out := Fanout(links, s, at.node, at.id);
      s.(pending := s.pending - {at}, broadcast := s.broadcast + {at}, msgs := s.msgs + out, sent := s.sent + |out|)
    case Deliver(m, taken) =>
      var rest := s.(msgs := s.msgs - multiset{m});
      if taken then Accept(rest, At(m.to, m.id)) else rest.(refused := rest.refused + {At(m.to, m.id)})
    case Subscribe(l) => s.(subscribed := s.subscribed + {l})
    case Forward(l) => s.(forwarding := s.forwarding + {l})
    case Backfill(l, ids) =>
      s.(msgs := s.msgs + multiset(set id | id in ids :: Rec(l.server, l.client, id)))
  }

  predicate Runs(links: seq<Link>, s: State, es: seq<Event>)
    decreases |es|
  {
    es == [] || (Enabled(links, s, es[0]) && Runs(links, Step(links, s, es[0]), es[1..]))
  }

  function Run(links: seq<Link>, s: State, es: seq<Event>): State
    requires Runs(links, s, es)
    decreases |es|
  {
    if es == [] then s else Run(links, Step(links, s, es[0]), es[1..])
  }

  /** The steps relays take by themselves, without publications or new
      connections. */
  predicate Internal(e: Event) { e.Broadcast? || e.Deliver? }

  /** Nothing left to do by themselves. */
  predicate Quiescent(s: State) { s.pending == {} && s.msgs == multiset{} }

  function Broadcasts(es: seq<Event>): seq<At>
  {
    if es == [] then []
    else (if es[0].Broadcast? then [es[0].at] else []) + Broadcasts(es[1..])
  }
}
