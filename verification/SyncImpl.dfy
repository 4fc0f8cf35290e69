/** The `/sync` handlers as they run: one connection's registry and outgoing
    frames (`sync.rs`), and the two doors through which records enter a relay
    (`handle_pub` and `ingest_from_peer` of `gossip.rs`). */
module SyncImpl {
  import opened Wrappers
  import opened Bytes
  import opened Filters
  import opened Store
  import opened StoreImpl
  import opened Sync
  import opened Retrieval
  import opened Delivery
  import SyncProofs
  import Records = Record
  import Blob
  import Frames
  import Rate

  // ------------------------------------------------------------------
  // One connection
  // ------------------------------------------------------------------

  /** A frame as it leaves, before encoding. */
  datatype Outgoing = RecFrame(subId: SubId, seqno: nat, bytes: seq<byte>) | EoseFrame(subId: SubId)

  function OnWire(m: Sent): Outgoing
  {
    match m
    case Backfill(id, o, _) => RecFrame(id, o.seqno, o.bytes)
    case Live(id, o, _) => RecFrame(id, o.seqno, o.bytes)
    case Eose(id) => EoseFrame(id)
  }

  function AllOnWire(ms: seq<Sent>): (r: seq<Outgoing>)
    ensures |r| == |ms|
    ensures forall i :: 0 <= i < |ms| ==> r[i] == OnWire(ms[i])
  {
    if ms == [] then [] else [OnWire(ms[0])] + AllOnWire(ms[1..])
  }

  lemma {:induction false} WireAppend(a: seq<Sent>, b: seq<Sent>)
    ensures AllOnWire(a + b) == AllOnWire(a) + AllOnWire(b)
  {
  }

  function RecFrames(id: SubId, rows: seq<StoredRecord>): (r: seq<Outgoing>)
    ensures |r| == |rows|
    ensures forall i :: 0 <= i < |rows| ==> r[i] == RecFrame(id, rows[i].seqno, rows[i].bytes)
  {
    if rows == [] then [] else [RecFrame(id, rows[0].seqno, rows[0].bytes)] + RecFrames(id, rows[1..])
  }

  /** A registry and outgoing frames that stand for a connection of the step
      model. */
  ghost predicate Mirrors(subs: map<SubId, Filter>, out: seq<Outgoing>, k: Conn)
  {
    && subs.Keys == k.subs.Keys
    && (forall id :: id in subs ==> subs[id] == k.subs[id].filter)
    && out == AllOnWire(k.sent)
  }

  lemma MirrorsMeans(subs: map<SubId, Filter>, out: seq<Outgoing>, k: Conn)
    ensures Mirrors(subs, out, k) <==>
      subs.Keys == k.subs.Keys && (forall id :: id in subs ==> subs[id] == k.subs[id].filter) && out == AllOnWire(k.sent)
  {
  }

  class Connection {
    var subs: map<SubId, Filter>
    var out: seq<Outgoing>

    /** The connection of the step model this one stands for. */
    ghost var conn: Conn

    ghost predicate Consistent()
      reads this
    {
      Mirrors(subs, out, conn)
    }

    constructor ()
      ensures Consistent() && conn == NewConn()
    {
      subs, out, conn := map[], [], NewConn();
    }

    method SendFrame(f: Outgoing)
      modifies this`out
      ensures out == old(out) + [f]
    {
      out := out + [f];
    }

    /** `handle_req` up to its query. */
    method Register(id: SubId, f: Filter)
      requires Consistent()
      modifies this
      ensures Consistent() && conn == OpenSub(old(conn), id, f)
    {
      subs := subs[id := f];
      conn := OpenSub(conn, id, f);
    }

    /** `handle_req` from the query on: stored rows, newest first, then EOSE; a
        failed query sends EOSE alone. */
    method Answer(id: SubId, f: Filter, store: RecordStore, queryFails: bool)
      returns (ghost found: seq<Stored>)
      requires Consistent() && store.Consistent()
      requires conn.phase == Querying(id) && id in conn.subs && conn.subs[id].filter == f
      modifies this
      ensures Consistent() && conn == AnswerReq(old(conn), store.table, !queryFails)
      ensures if queryFails then found == [] else NewestFound(found, store.table.rows, f, AnswerLimit(f))
      ensures |out| == |old(out)| + |found| + 1 && out[..|old(out)|] == old(out)
      ensures forall i :: 0 <= i < |found| ==> out[|old(out)| + i] == RecFrame(id, found[i].seqno, found[i].bytes)
      ensures out[|out| - 1] == EoseFrame(id)
    {
      hide WithinLimit, Newest, AnswerReq, Query, NewestFound, AnswerLimit, Valid;
      ghost var before := out;
      AnswerOnWire(conn, store.table, !queryFails);
      found := AnswerRows(store.table, f, !queryFails);
      if !queryFails { LimitIs(f); QueryExactly(store.table, f, DEFAULT_BACKFILL_LIMIT); }
      var rows: seq<StoredRecord> := [];
      if !queryFails {
        rows := store.QueryRecords(f, DEFAULT_BACKFILL_LIMIT);
      }
      assert rows == Views(AsRows(AnswerRows(store.table, f, !queryFails)));
      SendRows(id, rows);
      SendFrame(EoseFrame(id));
      conn := AnswerReq(conn, store.table, !queryFails);
      assert out == before + RecFrames(id, rows) + [EoseFrame(id)];
    }

    method SendRows(id: SubId, rows: seq<StoredRecord>)
      modifies this`out
      ensures out == old(out) + RecFrames(id, rows)
    {
      for i := 0 to |rows|
        invariant out == old(out) + RecFrames(id, rows)[..i]
      {
        SendFrame(RecFrame(id, rows[i].seqno, rows[i].bytes));
      }
    }

    method CloseSub(id: SubId)
      requires Consistent()
      modifies this
      ensures Consistent() && conn == old(conn).(subs := old(conn).subs - {id})
    {
      subs := subs - {id};
      conn := conn.(subs := conn.subs - {id});
    }

    /** `deliver_live`: subscriptions in whatever order the registry yields. */
    method DeliverLive(o: Stored) returns (ghost order: seq<SubId>)
      requires Consistent() && conn.queue != [] && conn.queue[0] == o && o.seqno < U64_SIZE
      modifies this
      ensures Consistent() && Enumerates(order, old(conn).subs) && conn == ReceiveNext(old(conn), order)
      ensures subs == old(subs) && |out| >= |old(out)| && out[..|old(out)|] == old(out)
      ensures SentToWanting(out[|old(out)|..], subs, o)
    {
      hide Deliveries, Matching, Enumerates, Partway, AllOnWire, ReceiveNext, Mirrors, DeliveryTo;
      MirrorsMeans(subs, out, conn);
      order := [];
      var left := subs.Keys;
      NoDeliveries(conn.subs, o);
      while left != {}
        invariant subs == old(subs) && conn == old(conn) && left <= subs.Keys
        invariant Partway(order, left, conn.subs)
        invariant forall i :: 0 <= i < |order| ==> order[i] in conn.subs
        invariant out == old(out) + AllOnWire(Deliveries(conn.subs, order, o))
        decreases |left|
      {
        var id :| id in left;
        OneMore(order, left, conn.subs, id);
        DeliveriesAppend(conn.subs, order, id, o);
        WireAppend(Deliveries(conn.subs, order, o), DeliveryTo(conn.subs, id, o));
        DeliverOne(id, o);
        left := left - {id};
        order := order + [id];
      }
      assert left == {};
      AllThrough(order, conn.subs);
      Received(conn, order);
      LiveFrames(subs, conn.subs, order, o);
      assert out[|old(out)|..] == AllOnWire(Deliveries(conn.subs, order, o));
      conn := ReceiveNext(conn, order);
      MirrorsMeans(subs, out, conn);
    }

    /** One turn of that loop. */
    method DeliverOne(id: SubId, o: Stored)
      requires id in subs && id in conn.subs && subs[id] == conn.subs[id].filter && o.seqno < U64_SIZE
      modifies this`out
      ensures out == old(out) + AllOnWire(DeliveryTo(conn.subs, id, o))
    {
      hide MatchesRow;
      if Matching(subs[id])(o) {
        SendFrame(RecFrame(id, o.seqno, o.bytes));
      }
    }
  }

  lemma LimitIs(f: Filter)
    ensures AnswerLimit(f) == if f.limit.Some? then f.limit.value else DEFAULT_BACKFILL_LIMIT
  {
  }

  /** One frame with the record for each subscription that wants it, and no other
      frames. */
  ghost predicate SentToWanting(news: seq<Outgoing>, subs: map<SubId, Filter>, o: Stored)
  {
    && (forall id :: id in subs && Wants(subs[id], o) ==> RecFrame(id, o.seqno, o.bytes) in news)
    && (forall i :: 0 <= i < |news| ==>
          news[i].RecFrame? && news[i].subId in subs && Wants(subs[news[i].subId], o)
          && news[i] == RecFrame(news[i].subId, o.seqno, o.bytes))
    && (forall i, j :: 0 <= i < j < |news| ==> news[i].subId != news[j].subId)
  }

  /** The registry of a connection and the subscriptions of its model. */
  ghost predicate SameFilters(subs: map<SubId, Filter>, registry: map<SubId, Sub>)
  {
    subs.Keys == registry.Keys && forall id :: id in subs ==> subs[id] == registry[id].filter
  }

  lemma {:induction false} LiveFrames(subs: map<SubId, Filter>, registry: map<SubId, Sub>, order: seq<SubId>, o: Stored)
    requires SameFilters(subs, registry)
    requires Enumerates(order, registry) && (forall i :: 0 <= i < |order| ==> order[i] in registry) && o.seqno < U64_SIZE
    ensures SentToWanting(AllOnWire(Deliveries(registry, order, o)), subs, o)
  {
    hide Deliveries, AllOnWire, MatchesRow, Wants, SameFilters;
    var d := Deliveries(registry, order, o);
    SyncProofs.DeliveriesDistinct(registry, order, o);
    forall i | 0 <= i < |d|
      ensures OnWire(d[i]) == RecFrame(d[i].subId, o.seqno, o.bytes) && d[i].subId in subs && Wants(subs[d[i].subId], o)
    {
      FrameWanted(subs, registry, order, o, i);
    }
    forall id | id in subs && Wants(subs[id], o)
      ensures RecFrame(id, o.seqno, o.bytes) in AllOnWire(d)
    {
      WantedFramed(subs, registry, order, o, id);
    }
  }

  lemma {:induction false} FrameWanted(subs: map<SubId, Filter>, registry: map<SubId, Sub>, order: seq<SubId>, o: Stored, i: nat)
    requires SameFilters(subs, registry) && (forall j :: 0 <= j < |order| ==> order[j] in registry) && o.seqno < U64_SIZE
    requires i < |Deliveries(registry, order, o)|
    ensures var m := Deliveries(registry, order, o)[i];
      OnWire(m) == RecFrame(m.subId, o.seqno, o.bytes) && m.subId in subs && Wants(subs[m.subId], o)
  {
    hide Deliveries, MatchesRow, Wants;
    var m := Deliveries(registry, order, o)[i];
    assert m in Deliveries(registry, order, o);
    SyncProofs.DeliveriesHold(registry, order, o, m.subId);
    MatchesExactly(m.filter, o);
  }

  lemma {:induction false} WantedFramed(subs: map<SubId, Filter>, registry: map<SubId, Sub>, order: seq<SubId>, o: Stored, id: SubId)
    requires SameFilters(subs, registry) && (forall j :: 0 <= j < |order| ==> order[j] in registry) && o.seqno < U64_SIZE
    requires Enumerates(order, registry) && id in subs && Wants(subs[id], o)
    ensures RecFrame(id, o.seqno, o.bytes) in AllOnWire(Deliveries(registry, order, o))
  {
    hide Deliveries, AllOnWire, MatchesRow, Wants;
    var d := Deliveries(registry, order, o);
    MatchesExactly(subs[id], o);
    SyncProofs.DeliveriesHold(registry, order, o, id);
    var i :| 0 <= i < |d| && d[i] == Live(id, o, registry[id].filter);
    assert AllOnWire(d)[i] == RecFrame(id, o.seqno, o.bytes);
  }

  /** What one subscription is sent of a live record. */
  function DeliveryTo(subs: map<SubId, Sub>, id: SubId, o: Stored): seq<Sent>
    requires id in subs
  {
    if Matching(subs[id].filter)(o) then [Live(id, o, subs[id].filter)] else []
  }

  lemma Received(k: Conn, order: seq<SubId>)
    requires k.queue != [] && forall i :: 0 <= i < |order| ==> order[i] in k.subs
    ensures var k' := ReceiveNext(k, order);
      AllOnWire(k'.sent) == AllOnWire(k.sent) + AllOnWire(Deliveries(k.subs, order, k.queue[0])) && k'.subs == k.subs
  {
    hide Deliveries, AllOnWire;
    WireAppend(k.sent, Deliveries(k.subs, order, k.queue[0]));
  }

  /** The subscriptions gone through so far and those left. */
  ghost predicate Partway(order: seq<SubId>, left: set<SubId>, subs: map<SubId, Sub>)
  {
    && (forall i :: 0 <= i < |order| ==> order[i] in subs && order[i] !in left)
    && (forall id :: id in subs ==> id in order || id in left)
    && (forall i, j :: 0 <= i < j < |order| ==> order[i] != order[j])
  }

  lemma OneMore(order: seq<SubId>, left: set<SubId>, subs: map<SubId, Sub>, id: SubId)
    requires Partway(order, left, subs) && id in left && id in subs
    ensures Partway(order + [id], left - {id}, subs)
    ensures forall i :: 0 <= i < |order + [id]| ==> (order + [id])[i] in subs
  {
  }

  lemma AllThrough(order: seq<SubId>, subs: map<SubId, Sub>)
    requires Partway(order, {}, subs)
    ensures Enumerates(order, subs)
  {
  }

  /** The frames a REQ is answered with, as they leave. */
  lemma {:induction false} AnswerOnWire(k: Conn, t: Table, ok: bool)
    requires k.phase.Querying? && k.phase.subId in k.subs
    ensures var id := k.phase.subId;
      var f, k' := k.subs[id].filter, AnswerReq(k, t, ok);
      AllOnWire(k'.sent) == AllOnWire(k.sent) + RecFrames(id, Views(AsRows(AnswerRows(t, f, ok)))) + [EoseFrame(id)]
      && k'.subs.Keys == k.subs.Keys && forall i :: i in k.subs ==> k'.subs[i].filter == k.subs[i].filter
  {
    hide WithinLimit, AnswerRows, AllOnWire, Backfills, Views, AsRows, RecFrames;
    var id := k.phase.subId;
    var f := k.subs[id].filter;
    var rows := AnswerRows(t, f, ok);
    BackfillOnWire(id, rows, f);
    WireAppend(k.sent, Backfills(id, rows, f));
    WireAppend(k.sent + Backfills(id, rows, f), [Eose(id)]);
  }

  lemma {:induction false} BackfillOnWire(id: SubId, rows: seq<Stored>, f: Filter)
    ensures AllOnWire(Backfills(id, rows, f)) == RecFrames(id, Views(AsRows(rows)))
    ensures AllOnWire([Eose(id)]) == [EoseFrame(id)]
  {
  }

  lemma NoDeliveries(subs: map<SubId, Sub>, o: Stored)
    ensures Deliveries(subs, [], o) == [] && AllOnWire([]) == []
    ensures Partway([], subs.Keys, subs)
  {
  }

  lemma {:induction false} DeliveriesAppend(subs: map<SubId, Sub>, order: seq<SubId>, id: SubId, o: Stored)
    requires id in subs && forall i :: 0 <= i < |order| ==> order[i] in subs
    ensures Deliveries(subs, order + [id], o)
         == Deliveries(subs, order, o)
            + DeliveryTo(subs, id, o)
    decreases |order|
  {
    hide MatchesRow;
    if order == [] {
      assert [] + [id] == [id];
      NoDeliveries(subs, o);
    } else {
      assert (order + [id])[1..] == order[1..] + [id];
      DeliveriesAppend(subs, order[1..], id, o);
    }
  }

  // ------------------------------------------------------------------
  // Records entering the relay
  // ------------------------------------------------------------------

  /** Whether a nonce shows enough work for an id. */
  type PowCheck = (Digest, Option<u64>) -> bool

  function RefHashes(refs: seq<Records.Ref>): seq<Digest>
  {
    if refs == [] then [] else [refs[0].hash] + RefHashes(refs[1..])
  }

  /** What is stored of a record. */
  function RowOf(h: Blob.Hash, r: Records.Record, bytes: seq<byte>, now: i64): Stored
  {
    Stored(0, Records.Id(h, r), r.kind, r.author.identityId, now, RefHashes(r.refs), bytes)
  }

  /** A stored row has the id, kind, author and reference hashes of a record. */
  ghost predicate Describes(h: Blob.Hash, o: Stored, r: Records.Record)
  {
    && o.id == Records.Id(h, r) && o.kind == r.kind && o.author == r.author.identityId
    && |o.refs| == |r.refs| && forall i :: 0 <= i < |r.refs| ==> o.refs[i] == r.refs[i].hash
  }

  lemma {:induction false} RowDescribes(h: Blob.Hash, r: Records.Record, bytes: seq<byte>, now: i64)
    ensures Describes(h, RowOf(h, r, bytes, now), r)
    ensures RowOf(h, r, bytes, now).receivedAt == now && RowOf(h, r, bytes, now).bytes == bytes
  {
    hide Records.Id;
    HashesOf(r.refs);
  }

  lemma {:induction false} HashesOf(refs: seq<Records.Ref>)
    ensures |RefHashes(refs)| == |refs| && forall i :: 0 <= i < |refs| ==> RefHashes(refs)[i] == refs[i].hash
  {
    if refs != [] {
      HashesOf(refs[1..]);
      assert forall i :: 0 < i < |refs| ==> RefHashes(refs)[i] == RefHashes(refs[1..])[i - 1];
    }
  }

  /** A stored row that its own bytes vouch for: they decode to a record that
      verifies and has this id, kind, author and references. */
  ghost predicate Genuine(h: Blob.Hash, check: Records.SigCheck, o: Stored)
  {
    && Records.FromCbor(o.bytes).Some?
    && Records.Verifies(h, check, Records.FromCbor(o.bytes).value)
    && Describes(h, o, Records.FromCbor(o.bytes).value)
  }

  ghost predicate GenuineRows(h: Blob.Hash, check: Records.SigCheck, rows: seq<Stored>)
  {
    forall i :: 0 <= i < |rows| ==> Genuine(h, check, rows[i])
  }

  lemma OneMoreGenuine(h: Blob.Hash, check: Records.SigCheck, rows: seq<Stored>, r: Records.Record, bytes: seq<byte>, now: i64, n: nat)
    requires GenuineRows(h, check, rows)
    requires Records.FromCbor(bytes) == Some(r) && Records.Verifies(h, check, r)
    ensures GenuineRows(h, check, rows + [RowOf(h, r, bytes, now).(seqno := n)])
  {
    hide Records.FromCbor, Records.Verifies, Describes, RowOf;
    RowDescribes(h, r, bytes, now);
    RowSeqOnly(h, RowOf(h, r, bytes, now), r, n);
  }

  lemma RowSeqOnly(h: Blob.Hash, o: Stored, r: Records.Record, n: nat)
    requires Describes(h, o, r)
    ensures Describes(h, o.(seqno := n), r)
  {
    hide Records.Id;
  }

  /** How a verified record enters: a known id changes nothing; otherwise it takes
      the next sequence, while there is one, and is stored and broadcast. */
  ghost predicate Enters(h: Blob.Hash, r: Records.Record, bytes: seq<byte>, now: i64,
                         before: Table, after: Table, news: seq<Stored>, stored: bool)
  {
    if (exists i :: 0 <= i < |before.rows| && before.rows[i].id == Records.Id(h, r)) then
      stored && after == before && news == []
    else if before.lastSeq >= 0x7fff_ffff_ffff_ffff then
      !stored && after == before && news == []
    else
      && stored && |news| == 1 && after.rows == before.rows + news && after.lastSeq == before.lastSeq + 1
      && news[0].seqno == before.lastSeq + 1 && news[0].bytes == bytes && news[0].receivedAt == now
      && Describes(h, news[0], r)
  }

  lemma {:induction false} InsertEnters(h: Blob.Hash, r: Records.Record, bytes: seq<byte>, now: i64, t: Table)
    ensures var o := RowOf(h, r, bytes, now);
      Enters(h, r, bytes, now, t, InsertRow(t, o), Broadcasts(InsertOutcome(t, o), o), InsertOutcome(t, o).Some?)
  {
    hide Records.Id;
    var o := RowOf(h, r, bytes, now);
    RowDescribes(h, r, bytes, now);
    if InsertOutcome(t, o).Some? && InsertOutcome(t, o).value.Inserted? {
      RowSeqOnly(h, o, r, InsertOutcome(t, o).value.seqno);
    }
  }

  datatype Reply = Reply(id: Digest, accepted: bool)

  class Relay {
    const store: RecordStore
    const limiter: Rate.RateLimiter

    /** Everything handed to the broadcast channel, oldest first. */
    var accepted: seq<Stored>

    ghost predicate Consistent()
      reads this, store
    {
      store.Consistent() && limiter.Valid()
    }

    /** Whatever is stored or broadcast verifies under its own id. */
    ghost predicate AllGenuine(h: Blob.Hash, check: Records.SigCheck)
      reads this, store
    {
      GenuineRows(h, check, store.table.rows) && GenuineRows(h, check, accepted)
    }

    constructor (recordsPerMinute: nat)
      ensures Consistent() && store.table == Table([], 0) && limiter.limit == recordsPerMinute && accepted == []
      ensures fresh(store) && fresh(limiter)
    {
      store := new RecordStore();
      limiter := new Rate.RateLimiter(recordsPerMinute);
      accepted := [];
    }

    /** Store a verified record; broadcast it if it is new. */
    method Accept(h: Blob.Hash, check: Records.SigCheck, r: Records.Record, bytes: seq<byte>, now: i64)
      returns (outcome: Option<Outcome>, ghost news: seq<Stored>)
      requires Consistent() && AllGenuine(h, check)
      requires Records.FromCbor(bytes) == Some(r) && Records.Verifies(h, check, r)
      modifies this`accepted, store
      ensures Consistent() && AllGenuine(h, check)
      ensures accepted == old(accepted) + news
      ensures Enters(h, r, bytes, now, old(store.table), store.table, news, outcome.Some?)
    {
      hide Records.FromCbor, Records.Verifies, Records.Id, GenuineRows, Describes, Enters;
      InsertEnters(h, r, bytes, now, store.table);
      var o := RowOf(h, r, bytes, now);
      news := Broadcasts(InsertOutcome(store.table, o), o);
      outcome := store.InsertRecord(o.id, o.kind, o.author, now, o.refs, bytes);
      if outcome.Some? && outcome.value.Inserted? {
        OneMoreGenuine(h, check, old(store.table.rows), r, bytes, now, outcome.value.seqno);
        OneMoreGenuine(h, check, accepted, r, bytes, now, outcome.value.seqno);
        accepted := accepted + [o.(seqno := outcome.value.seqno)];
      }
    }

    /** `handle_pub`: the record must decode, verify, carry enough work and stay
        within its author's rate; only then is it stored, and broadcast if new.
        The rate is charged only for records that pass the earlier checks; a
        publication that does not decode is answered with the id of zeros. */
    method HandlePub(h: Blob.Hash, check: Records.SigCheck, pow: PowCheck,
                     bytes: seq<byte>, nonce: Option<u64>, clock: real, now: i64)
      returns (reply: Reply, ghost news: seq<Stored>)
      requires Consistent() && AllGenuine(h, check)
      modifies this`accepted, store, limiter
      ensures Consistent() && AllGenuine(h, check)
      ensures accepted == old(accepted) + news
      ensures Records.FromCbor(bytes).None? ==> reply.id == ZERO_ID
      ensures Records.FromCbor(bytes).Some? ==> reply.id == Records.Id(h, Records.FromCbor(bytes).value)
      ensures var r := Records.FromCbor(bytes);
        var sound := r.Some? && Records.Verifies(h, check, r.value) && pow(Records.Id(h, r.value), nonce);
        if !sound then
          !reply.accepted && store.table == old(store.table) && news == [] && limiter.buckets == old(limiter.buckets)
        else
          var who := r.value.author.identityId;
          var bucket := Rate.BucketOf(old(limiter.buckets), who);
          && (limiter.limit == 0 ==> limiter.buckets == old(limiter.buckets))
          && (limiter.limit > 0 ==> limiter.buckets == old(limiter.buckets)[who := Rate.Taken(limiter.limit, bucket, clock)])
          && if limiter.limit > 0 && !Rate.Allowed(limiter.limit, bucket, clock) then
               !reply.accepted && store.table == old(store.table) && news == []
             else
               Enters(h, r.value, bytes, now, old(store.table), store.table, news, reply.accepted)
    {
      hide Records.FromCbor, Records.Verifies, Records.Id, GenuineRows, Rate.Allowed, Rate.Taken, Enters;
      news := [];
      var record := Records.FromCbor(bytes);
      if record.None? {
        return Reply(ZERO_ID, false), news;
      }
      var r := record.value;
      var id := Records.Id(h, r);
      if !Records.Verifies(h, check, r) || !pow(id, nonce) {
        return Reply(id, false), news;
      }
      var granted := limiter.Check(r.author.identityId, clock);
      if !granted {
        return Reply(id, false), news;
      }
      var outcome;
      outcome, news := Accept(h, check, r, bytes, now);
      reply := Reply(id, outcome.Some?);
    }

    /** `ingest_from_peer`: only REC frames carry a record; it is verified like a
        publication, but neither work nor rate is asked of a peer. */
    method IngestFromPeer(h: Blob.Hash, check: Records.SigCheck, frame: seq<byte>, now: i64)
      returns (ghost news: seq<Stored>)
      requires Consistent() && AllGenuine(h, check)
      modifies this`accepted, store
      ensures Consistent() && AllGenuine(h, check)
      ensures accepted == old(accepted) + news
      ensures var f := Frames.DecodeRelay(frame);
        var r := if f.Some? && f.value.Rec? then Records.FromCbor(f.value.record) else None;
        if r.None? || !Records.Verifies(h, check, r.value) then store.table == old(store.table) && news == []
        else exists stored: bool :: Enters(h, r.value, f.value.record, now, old(store.table), store.table, news, stored)
    {
      hide Records.FromCbor, Records.Verifies, Records.Id, GenuineRows, Frames.DecodeRelay, Enters;
      news := [];
      var f := Frames.DecodeRelay(frame);
      if f.None? || !f.value.Rec? { return; }
      var bytes := f.value.record;
      var record := Records.FromCbor(bytes);
      if record.None? || !Records.Verifies(h, check, record.value) { return; }
      var outcome;
      outcome, news := Accept(h, check, record.value, bytes, now);
    }
  }

  /** What a store outcome puts on the broadcast channel. */
  function Broadcasts(outcome: Option<Outcome>, o: Stored): seq<Stored>
  {
    match outcome
    case Some(Inserted(n)) => [o.(seqno := n)]
    case _ => []
  }
}
