/** The relay's own CBOR reader and writer (`frames.rs`): values without
    negative integers, a writer that does not look for repeated keys and a
    reader without a depth limit. */
module FrameCodec {
  import opened Wrappers
  import opened Bytes
  import Utf8
  import Kernel = Codec

  datatype Value =
    | Uint(n: u64)
    | Bytes(b: Vec<byte>)
    | Text(s: Kernel.Str)
    | Bool(f: bool)
    | Null
    | Array(items: Vec<Value>)
    | Map(pairs: Vec<Pair>)
  {
    function AsUint(): Option<u64> { if Uint? then Some(n) else None }

    function AsBytes(): Option<Vec<byte>> { if Bytes? then Some(b) else None }

    function AsBytes32(): Option<Digest> { if Bytes? && |b| == 32 then Some(b) else None }

    function AsText(): Option<Kernel.Str> { if Text? then Some(s) else None }

    function AsArray(): Option<Vec<Value>> { if Array? then Some(items) else None }

    function AsMap(): Option<Vec<Pair>> { if Map? then Some(pairs) else None }
  }

  datatype Pair = Pair(key: Value, val: Value)

  // ------------------------------------------------------------------
  // Encoding
  // ------------------------------------------------------------------

  function Encoding(v: Value): seq<byte>
    decreases v
  {
    match v
    case Uint(n) => Kernel.Head(0, n)
    case Bytes(b) => Kernel.Head(2, |b|) + b
    case Text(s) => Kernel.Head(3, |Utf8.Encode(s)|) + Utf8.Encode(s)
    case Bool(f) => [if f then 0xf5 else 0xf4]
    case Null => [0xf6]
    case Array(items) => Kernel.Head(4, |items|) + EncodingAll(items)
    case Map(pairs) => Kernel.Head(5, |pairs|) + Kernel.Flatten(SortByKey(EncodedPairs(pairs)))
  }

  function EncodingAll(items: seq<Value>): seq<byte>
    decreases items
  {
    if items == [] then [] else Encoding(items[0]) + EncodingAll(items[1..])
  }

  function EncodedPairs(pairs: seq<Pair>): (r: seq<Keyed<seq<byte>>>)
    ensures |r| == |pairs|
    decreases pairs
  {
    if pairs == [] then []
    else
      assert pairs[0].key < pairs[0] && pairs[0].val < pairs[0];
      [Keyed(Encoding(pairs[0].key), Encoding(pairs[0].val))] + EncodedPairs(pairs[1..])
  }

  // ------------------------------------------------------------------
  // Decoding
  // ------------------------------------------------------------------

  function Parse(s: seq<byte>): (r: Option<Kernel.Parsed<Value>>)
    ensures r.Some? ==> 1 <= r.value.used <= |s|
    decreases |s|, 0
  {
    if s == [] then None
    else
      var t, low := s[1..], s[0] % 32;
      match s[0] / 32
      case 0 =>
        var a :- Kernel.ReadArg(t, low);
        Some(Kernel.Parsed(Uint(a.value), 1 + a.used))
      case 2 =>
        var a :- Kernel.ReadLength(t, low);
        Some(Kernel.Parsed(Bytes(t[a.used..a.used + a.value]), 1 + a.used + a.value))
      case 3 =>
        var a :- Kernel.ReadLength(t, low);
        var text :- Kernel.DecodeText(t[a.used..a.used + a.value]);
        Some(Kernel.Parsed(Text(text), 1 + a.used + a.value))
      case 4 =>
        var a :- Kernel.ReadLength(t, low);
        var items :- ParseItems(t[a.used..], a.value);
        Some(Kernel.Parsed(Array(items.value), 1 + a.used + items.used))
      case 5 =>
        var a :- Kernel.ReadLength(t, low);
        var pairs :- ParsePairs(t[a.used..], a.value, None);
        Some(Kernel.Parsed(Map(pairs.value), 1 + a.used + pairs.used))
      case 7 =>
        if low == 20 then Some(Kernel.Parsed(Bool(false), 1))
        else if low == 21 then Some(Kernel.Parsed(Bool(true), 1))
        else if low == 22 then Some(Kernel.Parsed(Null, 1))
        else None
      case _ => None
  }

  function ParseItems(s: seq<byte>, count: nat): (r: Option<Kernel.Parsed<seq<Value>>>)
    ensures r.Some? ==> r.value.used <= |s| && |r.value.value| == count
    decreases |s|, 1
  {
    if count == 0 then Some(Kernel.Parsed([], 0))
    else
      var h :- Parse(s);
      var t :- ParseItems(s[h.used..], count - 1);
      Some(Kernel.Parsed([h.value] + t.value, h.used + t.used))
  }

  /** Map pairs; the order of keys is looked at only once the value is read. */
  function ParsePairs(s: seq<byte>, count: nat, prev: Option<seq<byte>>): (r: Option<Kernel.Parsed<seq<Pair>>>)
    ensures r.Some? ==> r.value.used <= |s| && |r.value.value| == count
    decreases |s|, 1
  {
    if count == 0 then Some(Kernel.Parsed([], 0))
    else
      var k :- Parse(s);
      var v :- Parse(s[k.used..]);
      var kb := s[..k.used];
      if prev.Some? && !LexLess(prev.value, kb) then None
      else
        var n := k.used + v.used;
        var t :- ParsePairs(s[n..], count - 1, Some(kb));
        Some(Kernel.Parsed([Pair(k.value, v.value)] + t.value, n + t.used))
  }

  function Decode(s: seq<byte>): Option<Value>
  {
    var p :- Parse(s);
    if p.used != |s| then None else Some(p.value)
  }

  // ------------------------------------------------------------------
  // The same value in the kernel's terms
  // ------------------------------------------------------------------

  function Lift(v: Value): Kernel.Value
    decreases v
  {
    match v
    case Uint(n) => Kernel.Uint(n)
    case Bytes(b) => Kernel.Bytes(b)
    case Text(s) => Kernel.Text(s)
    case Bool(f) => Kernel.Bool(f)
    case Null => Kernel.Null
    case Array(items) => Kernel.Array(LiftAll(items))
    case Map(pairs) => Kernel.Map(LiftPairs(pairs))
  }

  function LiftAll(items: seq<Value>): (r: seq<Kernel.Value>)
    ensures |r| == |items|
    decreases items
  {
    if items == [] then [] else [Lift(items[0])] + LiftAll(items[1..])
  }

  function LiftPairs(pairs: seq<Pair>): (r: seq<Kernel.Entry>)
    ensures |r| == |pairs|
    decreases pairs
  {
    if pairs == [] then []
    else
      assert pairs[0].key < pairs[0] && pairs[0].val < pairs[0];
      [Kernel.Entry(Lift(pairs[0].key), Lift(pairs[0].val))] + LiftPairs(pairs[1..])
  }

  /** A kernel value a frame can carry. */
  predicate NoNegatives(v: Kernel.Value)
    decreases v
  {
    match v
    case Nint(_) => false
    case Array(items) => NoNegativesAll(items)
    case Map(entries) => NoNegativesEntries(entries)
    case _ => true
  }

  predicate NoNegativesAll(items: seq<Kernel.Value>)
    decreases items
  {
    items == [] || (NoNegatives(items[0]) && NoNegativesAll(items[1..]))
  }

  predicate NoNegativesEntries(entries: seq<Kernel.Entry>)
    decreases entries
  {
    entries == []
    || (assert entries[0].key < entries[0] && entries[0].val < entries[0];
        NoNegatives(entries[0].key) && NoNegatives(entries[0].val) && NoNegativesEntries(entries[1..]))
  }

  /** Map keys unique and in order at every level. */
  ghost predicate IsCanonical(v: Value)
  {
    Kernel.IsCanonical(Lift(v))
  }
}
