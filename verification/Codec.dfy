/** The canonical CBOR codec of `codec.rs`: the value type, what the encoder
    writes, what the strict decoder accepts, and the canonical form. */
module Codec {
  import opened Wrappers
  import opened Bytes
  import Utf8

  /** Nesting limit of the decoder and of the JSON parser. */
  const MAX_DEPTH: nat := 64

  /** A `String`: its UTF-8 length fits a CBOR head. */
  type Str = s: string | |Utf8.Encode(s)| < 0x1_0000_0000_0000_0000

  /** A short name as a `String`. */
  function Name(s: string): (r: Str)
    requires |s| <= 64
    ensures r == s
  {
    Utf8.EncodeLength(s);
    s
  }

  datatype Value =
    | Uint(n: u64)
    | Nint(n: u64)  // stands for -1 - n
    | Bytes(b: Vec<byte>)
    | Text(s: Str)
    | Array(items: Vec<Value>)
    | Map(entries: Vec<Entry>)
    | Bool(f: bool)
    | Null
  {
    function AsUint(): Option<u64> { if Uint? then Some(n) else None }

    function AsBytes(): Option<Vec<byte>> { if Bytes? then Some(b) else None }

    function AsText(): Option<Str> { if Text? then Some(s) else None }

    function AsArray(): Option<Vec<Value>> { if Array? then Some(items) else None }

    /** The signed reading of an integer, when it fits. */
    function AsI64(): Option<i64>
    {
      match this
      case Uint(n) => if n <= I64_MAX then Some(n) else None
      case Nint(n) => if n <= I64_MAX then Some(-1 - n) else None
      case _ => None
    }

    /** The value of the first text key equal to `key`. */
    function MapGet(key: Str): Option<Value>
    {
      if Map? then Lookup(entries, key) else None
    }
  }

  datatype Entry = Entry(key: Value, val: Value)

  function FromI64(v: i64): (r: Value)
    ensures r.AsI64() == Some(v) && !r.Array? && !r.Map?
  {
    if v >= 0 then Uint(v) else Nint(-1 - v)
  }

  function Lookup(entries: seq<Entry>, key: Str): Option<Value>
  {
    if entries == [] then None
    else if entries[0].key.AsText() == Some(key) then Some(entries[0].val)
    else Lookup(entries[1..], key)
  }

  // ------------------------------------------------------------------
  // Encoding
  // ------------------------------------------------------------------

  /** The CBOR head: major type and argument, in shortest form. */
  function Head(major: nat, arg: u64): (h: seq<byte>)
    requires major < 8
    ensures 1 <= |h| <= 9
  {
    var top := major * 32;
    if arg < 24 then [top + arg]
    else if arg <= 0xff then [top + 24] + ToBigEndian(1, arg)
    else if arg <= 0xffff then [top + 25] + ToBigEndian(2, arg)
    else if arg <= 0xffff_ffff then [top + 26] + ToBigEndian(4, arg)
    else [top + 27] + ToBigEndian(8, arg)
  }

  /** What an encoder call appended to its buffer, and whether it succeeded.
      A failing call may leave part of its output behind. */
  datatype Written = Written(bytes: seq<byte>, ok: bool)

  function Encoding(v: Value): Written
    decreases v
  {
    match v
    case Uint(n) => Written(Head(0, n), true)
    case Nint(n) => Written(Head(1, n), true)
    case Bytes(b) => Written(Head(2, |b|) + b, true)
    case Text(s) => Written(Head(3, |Utf8.Encode(s)|) + Utf8.Encode(s), true)
    case Array(items) =>
      var w := EncodingAll(items);
      Written(Head(4, |items|) + w.bytes, w.ok)
    case Map(entries) =>
      var pairs := EncodedPairs(entries);
      if pairs.None? then Written([], false) else MapEncoding(pairs.value)
    case Bool(f) => Written([if f then 0xf5 else 0xf4], true)
    case Null => Written([0xf6], true)
  }

  function EncodingAll(items: seq<Value>): Written
    decreases items
  {
    if items == [] then Written([], true)
    else
      var h := Encoding(items[0]);
      if !h.ok then h
      else
        var t := EncodingAll(items[1..]);
        Written(h.bytes + t.bytes, t.ok)
  }

  function EncodedPairs(entries: seq<Entry>): (r: Option<seq<Keyed<seq<byte>>>>)
    ensures r.Some? ==> |r.value| == |entries|
    decreases entries
  {
    if entries == [] then Some([])
    else
      assert entries[0].key < entries[0] && entries[0].val < entries[0];
      var k := Encoding(entries[0].key);
      if !k.ok then None
      else
        var v := Encoding(entries[0].val);
        if !v.ok then None
        else
          var t :- EncodedPairs(entries[1..]);
          Some([Keyed(k.bytes, v.bytes)] + t)
  }

  function MapEncoding(pairs: Vec<Keyed<seq<byte>>>): Written
  {
    var sorted := SortByKey(pairs);
    if AdjacentDuplicate(sorted) then Written([], false)
    else Written(Head(5, |sorted|) + Flatten(sorted), true)
  }

  function Flatten(pairs: seq<Keyed<seq<byte>>>): seq<byte>
  {
    if pairs == [] then [] else pairs[0].key + pairs[0].val + Flatten(pairs[1..])
  }

  function Encode(v: Value): Option<seq<byte>>
  {
    var w := Encoding(v);
    if w.ok then Some(w.bytes) else None
  }

  // ------------------------------------------------------------------
  // Decoding
  // ------------------------------------------------------------------

  /** A value read from the front of the input, and how many bytes it took. */
  datatype Parsed<+T> = Parsed(value: T, used: nat)

  /** The argument whose head byte ended in `low`, read from what follows the
      head byte; longer than shortest forms are refused. */
  function ReadArg(s: seq<byte>, low: nat): (r: Option<Parsed<u64>>)
    ensures r.Some? ==> r.value.used <= |s|
  {
    if low < 24 then Some(Parsed(low, 0))
    else if low == 24 then ReadWide(s, 1, 24)
    else if low == 25 then ReadWide(s, 2, 0x100)
    else if low == 26 then ReadWide(s, 4, 0x1_0000)
    else if low == 27 then ReadWide(s, 8, 0x1_0000_0000)
    else None
  }

  function ReadWide(s: seq<byte>, width: nat, least: nat): (r: Option<Parsed<u64>>)
    requires width in {1, 2, 4, 8}
    ensures r.Some? ==> r.value.used <= |s|
  {
    if |s| < width then None
    else
      Pow256Values();
      var n := FromBigEndian(s[..width]);
      if n < least then None else Some(Parsed(n, width))
  }

  /** A length argument, checked against the bytes that remain. */
  function ReadLength(s: seq<byte>, low: nat): (r: Option<Parsed<u64>>)
    ensures r.Some? ==> r.value.used + r.value.value <= |s|
  {
    var a :- ReadArg(s, low);
    if a.value > |s| - a.used then None else Some(a)
  }

  /** The strict parser, at nesting depth `depth`, refusing nodes deeper than
      `limit`. */
  function Parse(s: seq<byte>, depth: nat, limit: nat): (r: Option<Parsed<Value>>)
    ensures r.Some? ==> 1 <= r.value.used <= |s|
    decreases |s|, 0
  {
    if depth > limit || s == [] then None
    else
      var t, low := s[1..], s[0] % 32;
      match s[0] / 32
      case 0 =>
        var a :- ReadArg(t, low);
        Some(Parsed(Uint(a.value), 1 + a.used))
      case 1 =>
        var a :- ReadArg(t, low);
        Some(Parsed(Nint(a.value), 1 + a.used))
      case 2 =>
        var a :- ReadLength(t, low);
        Some(Parsed(Bytes(t[a.used..a.used + a.value]), 1 + a.used + a.value))
      case 3 =>
        var a :- ReadLength(t, low);
        var text :- DecodeText(t[a.used..a.used + a.value]);
        Some(Parsed(Text(text), 1 + a.used + a.value))
      case 4 =>
        var a :- ReadLength(t, low);
        var items :- ParseItems(t[a.used..], a.value, depth + 1, limit);
        Some(Parsed(Array(items.value), 1 + a.used + items.used))
      case 5 =>
        var a :- ReadLength(t, low);
        var entries :- ParseEntries(t[a.used..], a.value, None, depth + 1, limit);
        Some(Parsed(Map(entries.value), 1 + a.used + entries.used))
      case 7 =>
        if low == 20 then Some(Parsed(Bool(false), 1))
        else if low == 21 then Some(Parsed(Bool(true), 1))
        else if low == 22 then Some(Parsed(Null, 1))
        else None
      case _ => None
  }

  function DecodeText(b: Vec<byte>): (r: Option<Str>)
    ensures r.Some? ==> Utf8.Encode(r.value) == b
    ensures r.None? ==> Utf8.Decode(b).None?
  {
    var s :- Utf8.Decode(b);
    Utf8.EncodeDecoded(b);
    Some(s)
  }

  function ParseItems(s: seq<byte>, count: nat, depth: nat, limit: nat): (r: Option<Parsed<seq<Value>>>)
    ensures r.Some? ==> r.value.used <= |s| && |r.value.value| == count
    decreases |s|, 1
  {
    if count == 0 then Some(Parsed([], 0))
    else
      var h :- Parse(s, depth, limit);
      var t :- ParseItems(s[h.used..], count - 1, depth, limit);
      Some(Parsed([h.value] + t.value, h.used + t.used))
  }

  /** Map entries, whose key bytes must come strictly after `prev`. */
  function ParseEntries(s: seq<byte>, count: nat, prev: Option<seq<byte>>, depth: nat, limit: nat)
    : (r: Option<Parsed<seq<Entry>>>)
    ensures r.Some? ==> r.value.used <= |s| && |r.value.value| == count
    decreases |s|, 1
  {
    if count == 0 then Some(Parsed([], 0))
    else
      var k :- Parse(s, depth, limit);
      var kb := s[..k.used];
      if prev.Some? && !LexLess(prev.value, kb) then None
      else
        var v :- Parse(s[k.used..], depth, limit);
        var n := k.used + v.used;
        var t :- ParseEntries(s[n..], count - 1, Some(kb), depth, limit);
        Some(Parsed([Entry(k.value, v.value)] + t.value, n + t.used))
  }

  function DecodeWithin(s: seq<byte>, limit: nat): Option<Value>
  {
    var p :- Parse(s, 0, limit);
    if p.used != |s| then None else Some(p.value)
  }

  function Decode(s: seq<byte>): Option<Value>
  {
    DecodeWithin(s, MAX_DEPTH)
  }

  // ------------------------------------------------------------------
  // Canonical form
  // ------------------------------------------------------------------

  /** `into_canonical`: every map sorted by the bytes its keys encode to. */
  function Canonical(v: Value): Value
    decreases v
  {
    match v
    case Array(items) => Array(CanonicalAll(items))
    case Map(entries) => Map(Payloads(SortByKey(CanonicalEntries(entries))))
    case _ => v
  }

  function CanonicalAll(items: seq<Value>): (r: seq<Value>)
    ensures |r| == |items|
    decreases items
  {
    if items == [] then [] else [Canonical(items[0])] + CanonicalAll(items[1..])
  }

  function CanonicalEntries(entries: seq<Entry>): (r: seq<Keyed<Entry>>)
    ensures |r| == |entries|
    decreases entries
  {
    if entries == [] then []
    else
      assert entries[0].key < entries[0] && entries[0].val < entries[0];
      var k, v := Canonical(entries[0].key), Canonical(entries[0].val);
      [Keyed(Encoding(k).bytes, Entry(k, v))] + CanonicalEntries(entries[1..])
  }

  function Payloads<T>(xs: seq<Keyed<T>>): (r: seq<T>)
    ensures |r| == |xs|
    ensures forall i :: 0 <= i < |xs| ==> r[i] == xs[i].val
  {
    if xs == [] then [] else [xs[0].val] + Payloads(xs[1..])
  }

  /** Entries tagged with the bytes of their keys. */
  function KeyedByEncoding(entries: seq<Entry>): (r: seq<Keyed<Entry>>)
    ensures |r| == |entries|
    ensures forall i :: 0 <= i < |entries| ==> r[i] == Keyed(Encoding(entries[i].key).bytes, entries[i])
  {
    if entries == [] then []
    else [Keyed(Encoding(entries[0].key).bytes, entries[0])] + KeyedByEncoding(entries[1..])
  }

  /** The shape the decoder produces: map keys unique and ascending at every
      level. */
  ghost predicate IsCanonical(v: Value)
    decreases v
  {
    match v
    case Array(items) => AllCanonical(items)
    case Map(entries) => EntriesCanonical(entries) && StrictlyAscending(KeyedByEncoding(entries))
    case _ => true
  }

  ghost predicate AllCanonical(items: seq<Value>)
    decreases items
  {
    items == [] || (IsCanonical(items[0]) && AllCanonical(items[1..]))
  }

  ghost predicate EntriesCanonical(entries: seq<Entry>)
    decreases entries
  {
    entries == []
    || (assert entries[0].key < entries[0] && entries[0].val < entries[0];
        IsCanonical(entries[0].key) && IsCanonical(entries[0].val) && EntriesCanonical(entries[1..]))
  }

  /** Depth of the deepest node; a value without children has depth 0. */
  function Depth(v: Value): nat
    decreases v
  {
    match v
    case Array(items) => DepthAll(items)
    case Map(entries) => DepthEntries(entries)
    case _ => 0
  }

  function Max(a: nat, b: nat): nat { if a >= b then a else b }

  function DepthAll(items: seq<Value>): nat
    decreases items
  {
    if items == [] then 0 else Max(1 + Depth(items[0]), DepthAll(items[1..]))
  }

  function DepthEntries(entries: seq<Entry>): nat
    decreases entries
  {
    if entries == [] then 0
    else
      assert entries[0].key < entries[0] && entries[0].val < entries[0];
      Max(Max(1 + Depth(entries[0].key), 1 + Depth(entries[0].val)), DepthEntries(entries[1..]))
  }
}
