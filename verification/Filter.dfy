/** Subscription filters (`filter.rs`): the predicate on records and the form a
    filter takes inside a frame. */
module Filters {
  import opened Wrappers
  import opened Bytes
  import Utf8
  import opened FrameCodec
  import Kernel = Codec

  datatype Filter = Filter(
    kinds: Option<Vec<u64>>,
    authors: Option<Vec<Digest>>,
    refs: Option<Vec<Digest>>,
    ids: Option<Vec<Digest>>,
    since: Option<u64>,
    limit: Option<u64>)

  /** The empty filter, which matches every record. */
  const DEFAULT := Filter(None, None, None, None, None, None)

  /** Whether a record matches; `limit` is not a condition on records. */
  predicate Matches(f: Filter, kind: u64, author: Digest, id: Digest, refs: seq<Digest>, seqno: u64)
  {
    && (f.kinds.Some? ==> kind in f.kinds.value)
    && (f.authors.Some? ==> author in f.authors.value)
    && (f.ids.Some? ==> id in f.ids.value)
    && (f.refs.Some? ==> exists r :: r in f.refs.value && r in refs)
    && (f.since.Some? ==> seqno > f.since.value)
  }

  // ------------------------------------------------------------------
  // Reading a filter
  // ------------------------------------------------------------------

  function UintList(v: Value): (r: Option<Vec<u64>>)
  {
    var items :- v.AsArray();
    Uints(items)
  }

  function Uints(items: seq<Value>): (r: Option<seq<u64>>)
    ensures r.Some? ==> |r.value| == |items|
  {
    if items == [] then Some([])
    else
      var h :- items[0].AsUint();
      var t :- Uints(items[1..]);
      Some([h] + t)
  }

  function DigestList(v: Value): (r: Option<Vec<Digest>>)
  {
    var items :- v.AsArray();
    Digests(items)
  }

  function Digests(items: seq<Value>): (r: Option<seq<Digest>>)
    ensures r.Some? ==> |r.value| == |items|
  {
    if items == [] then Some([])
    else
      var h :- items[0].AsBytes32();
      var t :- Digests(items[1..]);
      Some([h] + t)
  }

  datatype Key = Kinds | Authors | Refs | Ids | Since | Limit

  function KeyName(k: Key): Kernel.Str
  {
    match k
    case Kinds => Kernel.Name("kinds")
    case Authors => Kernel.Name("authors")
    case Refs => Kernel.Name("refs")
    case Ids => Kernel.Name("ids")
    case Since => Kernel.Name("since")
    case Limit => Kernel.Name("limit")
  }

  /** The field a map key names, if any. */
  function KeyOf(v: Value): Option<Key>
  {
    var t :- v.AsText();
    if t == "kinds" then Some(Kinds)
    else if t == "authors" then Some(Authors)
    else if t == "refs" then Some(Refs)
    else if t == "ids" then Some(Ids)
    else if t == "since" then Some(Since)
    else if t == "limit" then Some(Limit)
    else None
  }

  lemma {:induction false} KeyOfName(k: Key, v: Value)
    ensures KeyOf(v) == Some(k) <==> v == Text(KeyName(k))
  {
    hide Utf8.Encode;
    if v.Text? && |v.s| > 0 {
      // The names differ in length or in their first character.
      assert |"kinds"| == 5 && |"authors"| == 7 && |"refs"| == 4 && |"ids"| == 3;
      assert "kinds"[0] == 'k' && "since"[0] == 's' && "limit"[0] == 'l';
    }
  }

  /** One pair of the filter map, assigned to the field it names; unknown keys
      change nothing. */
  function Assign(f: Filter, p: Pair): Option<Filter>
  {
    match KeyOf(p.key)
    case Some(Kinds) => var x :- UintList(p.val); Some(f.(kinds := Some(x)))
    case Some(Authors) => var x :- DigestList(p.val); Some(f.(authors := Some(x)))
    case Some(Refs) => var x :- DigestList(p.val); Some(f.(refs := Some(x)))
    case Some(Ids) => var x :- DigestList(p.val); Some(f.(ids := Some(x)))
    case Some(Since) => var x :- p.val.AsUint(); Some(f.(since := Some(x)))
    case Some(Limit) => var x :- p.val.AsUint(); Some(f.(limit := Some(x)))
    case None => Some(f)
  }

  function AssignAll(f: Filter, pairs: seq<Pair>): Option<Filter>
    decreases |pairs|
  {
    if pairs == [] then Some(f)
    else
      var g :- Assign(f, pairs[0]);
      AssignAll(g, pairs[1..])
  }

  function FromValue(v: Value): Option<Filter>
  {
    var pairs :- v.AsMap();
    AssignAll(DEFAULT, pairs)
  }

  lemma {:induction false} AssignAllStep(f: Filter, pairs: seq<Pair>, i: nat)
    requires i < |pairs|
    ensures AssignAll(f, pairs[i..])
         == (var g := Assign(f, pairs[i]); if g.None? then None else AssignAll(g.value, pairs[i + 1..]))
  {
    hide Assign;
    assert pairs[i..][1..] == pairs[i + 1..];
  }

  lemma {:induction false} AssignAllEnds(f: Filter, pairs: seq<Pair>)
    ensures pairs[0..] == pairs && AssignAll(f, pairs[|pairs|..]) == Some(f)
  {
  }

  /** The loop of `Filter::from_value`. */
  method ReadFilter(v: Value) returns (r: Option<Filter>)
    ensures r == FromValue(v)
  {
    hide AssignAll, UintList, DigestList;
    if !v.Map? { return None; }
    var f := DEFAULT;
    AssignAllEnds(f, v.pairs);
    for i := 0 to |v.pairs|
      invariant FromValue(v) == AssignAll(f, v.pairs[i..])
    {
      AssignAllStep(f, v.pairs, i);
      var next := AssignPair(f, v.pairs[i]);
      if next.None? { return None; }
      f := next.value;
    }
    AssignAllEnds(f, v.pairs);
    r := Some(f);
  }

  /** One turn of that loop. */
  method AssignPair(f: Filter, p: Pair) returns (r: Option<Filter>)
    ensures r == Assign(f, p)
  {
    hide UintList, DigestList, KeyOf;
    var g := f;
    match KeyOf(p.key) {
      case Some(Kinds) =>
        g := g.(kinds := UintList(p.val));
        if g.kinds.None? { return None; }
      case Some(Authors) =>
        g := g.(authors := DigestList(p.val));
        if g.authors.None? { return None; }
      case Some(Refs) =>
        g := g.(refs := DigestList(p.val));
        if g.refs.None? { return None; }
      case Some(Ids) =>
        g := g.(ids := DigestList(p.val));
        if g.ids.None? { return None; }
      case Some(Since) =>
        g := g.(since := p.val.AsUint());
        if g.since.None? { return None; }
      case Some(Limit) =>
        g := g.(limit := p.val.AsUint());
        if g.limit.None? { return None; }
      case None =>
    }
    r := Some(g);
  }

  // ------------------------------------------------------------------
  // Writing a filter
  // ------------------------------------------------------------------

  function UintValues(xs: seq<u64>): (r: seq<Value>)
    ensures |r| == |xs|
  {
    if xs == [] then [] else [Uint(xs[0])] + UintValues(xs[1..])
  }

  function DigestValues(xs: seq<Digest>): (r: seq<Value>)
    ensures |r| == |xs|
  {
    if xs == [] then [] else [Value.Bytes(xs[0])] + DigestValues(xs[1..])
  }

  function UintListValue(xs: Option<Vec<u64>>): Option<Value>
  {
    if xs.None? then None else Some(Array(UintValues(xs.value)))
  }

  function DigestListValue(xs: Option<Vec<Digest>>): Option<Value>
  {
    if xs.None? then None else Some(Array(DigestValues(xs.value)))
  }

  function UintValue(x: Option<u64>): Option<Value>
  {
    if x.None? then None else Some(Uint(x.value))
  }

  /** The value a filter's field takes under a key of the filter map. */
  function FieldValue(f: Filter, key: Key): Option<Value>
  {
    match key
    case Kinds => UintListValue(f.kinds)
    case Authors => DigestListValue(f.authors)
    case Refs => DigestListValue(f.refs)
    case Ids => DigestListValue(f.ids)
    case Since => UintValue(f.since)
    case Limit => UintValue(f.limit)
  }

  const KEYS: seq<Key> := [Kinds, Authors, Refs, Ids, Since, Limit]

  /** The pairs for those of `keys` whose fields are present. */
  function PresentPairs(f: Filter, keys: seq<Key>): (r: seq<Pair>)
    ensures |r| <= |keys|
  {
    if keys == [] then []
    else
      var t := PresentPairs(f, keys[1..]);
      var v := FieldValue(f, keys[0]);
      if v.None? then t else [Pair(Text(KeyName(keys[0])), v.value)] + t
  }

  function ToValue(f: Filter): Value
  {
    Map(PresentPairs(f, KEYS))
  }

  /** What remains to be pushed after the first `i` steps. */
  function Remaining(f: Filter, i: nat): seq<Pair>
    requires i <= 6
  {
    PresentPairs(f, KEYS[i..])
  }

  function Push(done: seq<Pair>, k: Key, v: Option<Value>): seq<Pair>
  {
    if v.None? then done else done + [Pair(Text(KeyName(k)), v.value)]
  }

  lemma {:induction false} PresentStep(f: Filter, k: Key, i: nat, done: seq<Pair>)
    requires i < 6 && KEYS[i] == k
    ensures done + Remaining(f, i) == Push(done, k, FieldValue(f, k)) + Remaining(f, i + 1)
  {
    hide FieldValue, KeyName;
    var v := FieldValue(f, k);
    var rest := KEYS[i..];
    assert rest[0] == k && rest[1..] == KEYS[i + 1..];
    var t := PresentPairs(f, rest[1..]);
    if v.Some? {
      var p := Pair(Text(KeyName(k)), v.value);
      assert done + ([p] + t) == done + [p] + t;
    }
  }

  lemma {:induction false} PresentEnds(f: Filter, pairs: seq<Pair>)
    ensures [] + Remaining(f, 0) == PresentPairs(f, KEYS)
    ensures pairs + Remaining(f, 6) == pairs
    ensures KEYS[0] == Kinds && KEYS[1] == Authors && KEYS[2] == Refs
    ensures KEYS[3] == Ids && KEYS[4] == Since && KEYS[5] == Limit
  {
    assert KEYS[0..] == KEYS;
  }

  lemma {:induction false} FieldValues(f: Filter)
    ensures FieldValue(f, Kinds) == UintListValue(f.kinds)
    ensures FieldValue(f, Authors) == DigestListValue(f.authors)
    ensures FieldValue(f, Refs) == DigestListValue(f.refs)
    ensures FieldValue(f, Ids) == DigestListValue(f.ids)
    ensures FieldValue(f, Since) == UintValue(f.since)
    ensures FieldValue(f, Limit) == UintValue(f.limit)
    ensures |PresentPairs(f, KEYS)| < U64_SIZE && ToValue(f) == Map(PresentPairs(f, KEYS))
  {
  }

  /** The six steps of `Filter::to_value`. */
  method WriteFilter(f: Filter) returns (v: Value)
    ensures v == ToValue(f)
  {
    hide *;
    var pairs: seq<Pair> := [];
    PresentEnds(f, pairs);
    FieldValues(f);
    PresentStep(f, Kinds, 0, pairs);
    pairs := Push(pairs, Kinds, UintListValue(f.kinds));
    PresentStep(f, Authors, 1, pairs);
    pairs := Push(pairs, Authors, DigestListValue(f.authors));
    PresentStep(f, Refs, 2, pairs);
    pairs := Push(pairs, Refs, DigestListValue(f.refs));
    PresentStep(f, Ids, 3, pairs);
    pairs := Push(pairs, Ids, DigestListValue(f.ids));
    PresentStep(f, Since, 4, pairs);
    pairs := Push(pairs, Since, UintValue(f.since));
    PresentStep(f, Limit, 5, pairs);
    pairs := Push(pairs, Limit, UintValue(f.limit));
    PresentEnds(f, pairs);
    v := Map(pairs);
  }
}
