/** The relay's record store (`store.rs`): what inserting, querying and pruning
    mean, before any SQL. */
module Store {
  import opened Wrappers
  import opened Bytes
  import opened Filters

  /** A record as it was accepted, with its receipt sequence. */
  datatype Stored = Stored(
    seqno: nat,
    id: Digest,
    kind: u64,
    author: Digest,
    receivedAt: i64,
    refs: seq<Digest>,
    bytes: seq<byte>)

  /** The stored records in receipt order and the last sequence ever assigned. */
  datatype Table = Table(rows: seq<Stored>, lastSeq: nat)

  ghost predicate Valid(t: Table)
  {
    && t.lastSeq <= I64_MAX
    && (forall i :: 0 <= i < |t.rows| ==> 1 <= t.rows[i].seqno <= t.lastSeq)
    && (forall i, j :: 0 <= i < j < |t.rows| ==> t.rows[i].seqno < t.rows[j].seqno && t.rows[i].id != t.rows[j].id)
  }

  predicate HasId(rows: seq<Stored>, id: Digest)
  {
    exists i :: 0 <= i < |rows| && rows[i].id == id
  }

  // ------------------------------------------------------------------
  // Inserting
  // ------------------------------------------------------------------

  datatype Outcome = Inserted(seqno: nat) | Duplicate

  /** `insert_record`: a known id changes nothing; a new one takes the next
      sequence, if there is one left. The record's own `seqno` is ignored. */
  function InsertOutcome(t: Table, r: Stored): Option<Outcome>
  {
    if HasId(t.rows, r.id) then Some(Duplicate)
    else if t.lastSeq >= I64_MAX then None
    else Some(Inserted(t.lastSeq + 1))
  }

  function InsertRow(t: Table, r: Stored): Table
  {
    match InsertOutcome(t, r)
    case Some(Inserted(n)) => Table(t.rows + [r.(seqno := n)], n)
    case _ => t
  }

  // ------------------------------------------------------------------
  // Querying
  // ------------------------------------------------------------------

  /** `u64_to_sql`: values that do not fit a signed integer are clamped. */
  function Clamp(v: u64): i64
  {
    if v <= I64_MAX then v else I64_MAX
  }

  predicate MatchesRow(f: Filter, o: Stored)
    requires o.seqno < U64_SIZE
  {
    Matches(f, o.kind, o.author, o.id, o.refs, o.seqno)
  }

  /** What the query's SQL selects: the filter with kinds compared after
      clamping. */
  predicate Selects(f: Filter, o: Stored)
    requires o.seqno < U64_SIZE
  {
    (f.kinds.Some? ==> exists k :: k in f.kinds.value && Clamp(k) == Clamp(o.kind))
    && MatchesRow(f.(kinds := None), o)
  }

  function Matching(f: Filter): Stored -> bool
  {
    (o: Stored) => o.seqno < U64_SIZE && MatchesRow(f, o)
  }

  function Selecting(f: Filter): Stored -> bool
  {
    (o: Stored) => o.seqno < U64_SIZE && Selects(f, o)
  }

  /** The first `limit` rows that pass, newest first. */
  function Newest(rows: seq<Stored>, pass: Stored -> bool, limit: nat): (r: seq<Stored>)
    ensures |r| <= limit && |r| <= |rows|
    decreases |rows|
  {
    if rows == [] || limit == 0 then []
    else
      var last, rest := rows[|rows| - 1], rows[..|rows| - 1];
      if pass(last) then [last] + Newest(rest, pass, limit - 1) else Newest(rest, pass, limit)
  }

  function RowLimit(f: Filter, default: u64): u64
  {
    if f.limit.Some? then f.limit.value else default
  }

  /** `query`. */
  function Query(t: Table, f: Filter, default: u64): seq<Stored>
  {
    Newest(t.rows, Selecting(f), RowLimit(f, default))
  }

  // ------------------------------------------------------------------
  // Pruning
  // ------------------------------------------------------------------

  datatype Override = Override(kind: u64, days: nat)

  /** Retention by kind, in ascending order of kinds as the map keeps it. */
  datatype Retention = Retention(byKind: seq<Override>, defaultDays: nat)

  ghost predicate ValidRetention(c: Retention)
  {
    forall i, j :: 0 <= i < j < |c.byKind| ==> c.byKind[i].kind < c.byKind[j].kind
  }

  /** `retention_days_for_kind`. */
  function DaysFor(c: Retention, kind: u64): nat
  {
    DaysAmong(c.byKind, kind, c.defaultDays)
  }

  function DaysAmong(overrides: seq<Override>, kind: u64, default: nat): nat
  {
    if overrides == [] then default
    else if overrides[0].kind == kind then overrides[0].days
    else DaysAmong(overrides[1..], kind, default)
  }

  function Cutoff(now: int, days: nat): int { now - days * 86_400 }

  /** Older than its kind's retention window. */
  predicate Expired(c: Retention, now: int, o: Stored)
  {
    o.receivedAt < Cutoff(now, DaysFor(c, o.kind))
  }

  predicate Overridden(overrides: seq<Override>, o: Stored)
  {
    exists i :: 0 <= i < |overrides| && Clamp(overrides[i].kind) == Clamp(o.kind)
  }

  predicate OverrideExpired(overrides: seq<Override>, now: int, o: Stored)
  {
    exists i :: 0 <= i < |overrides|
      && Clamp(overrides[i].kind) == Clamp(o.kind) && o.receivedAt < Cutoff(now, overrides[i].days)
  }

  /** What the delete statements remove: kinds compared after clamping. */
  predicate Prunes(c: Retention, now: int, o: Stored)
  {
    if Overridden(c.byKind, o) then OverrideExpired(c.byKind, now, o)
    else o.receivedAt < Cutoff(now, c.defaultDays)
  }

  function Pruning(c: Retention, now: int): Stored -> bool
  {
    (o: Stored) => Prunes(c, now, o)
  }

  function Without(rows: seq<Stored>, drop: Stored -> bool): (r: seq<Stored>)
    ensures |r| <= |rows|
    decreases |rows|
  {
    if rows == [] then []
    else if drop(rows[0]) then Without(rows[1..], drop)
    else [rows[0]] + Without(rows[1..], drop)
  }

  /** `prune_expired`; the last sequence is not touched. */
  function Prune(t: Table, c: Retention, now: int): Table
  {
    t.(rows := Without(t.rows, Pruning(c, now)))
  }

  // ------------------------------------------------------------------
  // Runs
  // ------------------------------------------------------------------

  datatype Op = OpInsert(r: Stored) | OpPrune(c: Retention, now: int)

  function Apply(t: Table, op: Op): Table
  {
    match op
    case OpInsert(r) => InsertRow(t, r)
    case OpPrune(c, now) => Prune(t, c, now)
  }

  /** The sequence an operation assigns, if any. */
  function Assigned(t: Table, op: Op): seq<nat>
  {
    match op
    case OpInsert(r) => (match InsertOutcome(t, r) case Some(Inserted(n)) => [n] case _ => [])
    case OpPrune(_, _) => []
  }

  function RunOps(t: Table, ops: seq<Op>): Table
    decreases |ops|
  {
    if ops == [] then t else RunOps(Apply(t, ops[0]), ops[1..])
  }

  function AllAssigned(t: Table, ops: seq<Op>): seq<nat>
    decreases |ops|
  {
    if ops == [] then [] else Assigned(t, ops[0]) + AllAssigned(Apply(t, ops[0]), ops[1..])
  }
}
