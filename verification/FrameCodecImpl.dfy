/** The relay's codec as it runs: a buffer that is appended to and a `Reader`
    whose position advances. */
module FrameCodecImpl {
  import opened Wrappers
  import opened Bytes
  import opened FrameCodec
  import opened FrameCodecProofs
  import opened CodecImpl
  import Utf8
  import Kernel = Codec

  // ------------------------------------------------------------------
  // Writer
  // ------------------------------------------------------------------

  method AppendValue(buf: Buffer, v: Value)
    modifies buf
    ensures buf.bytes == old(buf.bytes) + Encoding(v)
    decreases v, 1
  {
    hide Kernel.Head, Utf8.Encode, SortByKey, EncodedPairs, EncodingAll, Kernel.Flatten;
    match v
    case Uint(n) => WriteHead(buf, 0, n);
    case Bytes(b) =>
      WriteHead(buf, 2, |b|);
      buf.Extend(b);
    case Text(s) =>
      WriteHead(buf, 3, |Utf8.Encode(s)|);
      buf.Extend(Utf8.Encode(s));
    case Bool(f) => buf.Push(if f then 0xf5 else 0xf4);
    case Null => buf.Push(0xf6);
    case Array(items) =>
      WriteHead(buf, 4, |items|);
      AppendItems(buf, items);
    case Map(pairs) =>
      var encoded := EncodeEach(pairs);
      var sorted := SortByKey(encoded);
      WriteHead(buf, 5, |sorted|);
      WritePairs(sorted, buf);
  }

  method AppendItems(buf: Buffer, items: seq<Value>)
    modifies buf
    ensures buf.bytes == old(buf.bytes) + EncodingAll(items)
    decreases items, 0
  {
    hide Encoding;
    ghost var done: seq<byte> := [];
    assert items[0..] == items;
    for i := 0 to |items|
      invariant buf.bytes == old(buf.bytes) + done
      invariant EncodingAll(items) == done + EncodingAll(items[i..])
    {
      ghost var rest := items[i..];
      assert rest[1..] == items[i + 1..];
      assert done + (Encoding(rest[0]) + EncodingAll(rest[1..])) == done + Encoding(rest[0]) + EncodingAll(rest[1..]);
      AppendValue(buf, items[i]);
      done := done + Encoding(items[i]);
    }
  }

  /** The keys and values of a map, each encoded on its own. */
  method EncodeEach(pairs: seq<Pair>) returns (encoded: seq<Keyed<seq<byte>>>)
    ensures encoded == EncodedPairs(pairs)
    decreases pairs, 0
  {
    hide Encoding;
    encoded := [];
    assert pairs[0..] == pairs;
    for i := 0 to |pairs|
      invariant |encoded| == i
      invariant EncodedPairs(pairs) == encoded + EncodedPairs(pairs[i..])
    {
      ghost var rest := pairs[i..];
      assert rest[1..] == pairs[i + 1..];
      assert pairs[i].key < pairs[i] && pairs[i].val < pairs[i];
      var kb := new Buffer();
      AppendValue(kb, pairs[i].key);
      var vb := new Buffer();
      AppendValue(vb, pairs[i].val);
      assert kb.bytes == Encoding(pairs[i].key);
      assert vb.bytes == Encoding(pairs[i].val);
      assert encoded + ([Keyed(kb.bytes, vb.bytes)] + EncodedPairs(rest[1..]))
          == encoded + [Keyed(kb.bytes, vb.bytes)] + EncodedPairs(rest[1..]);
      encoded := encoded + [Keyed(kb.bytes, vb.bytes)];
    }
  }

  // ------------------------------------------------------------------
  // Reader
  // ------------------------------------------------------------------

  class Reader {
    const buf: seq<byte>
    var pos: nat

    ghost predicate Valid()
      reads this
    {
      pos <= |buf|
    }

    /** The bytes not read yet. */
    ghost function Rest(): seq<byte>
      reads this
      requires Valid()
    {
      buf[pos..]
    }

    constructor (bytes: seq<byte>)
      ensures Valid() && buf == bytes && pos == 0
    {
      buf := bytes;
      pos := 0;
    }

    method PeekU8() returns (r: Option<byte>)
      requires Valid()
      ensures r == if Rest() == [] then None else Some(Rest()[0])
    {
      r := if pos < |buf| then Some(buf[pos]) else None;
    }

    method Advance(n: nat)
      requires Valid() && pos + n <= |buf|
      modifies this
      ensures Valid() && pos == old(pos) + n
    {
      pos := pos + n;
    }

    method ReadBytes(n: nat) returns (r: Option<seq<byte>>)
      requires Valid()
      modifies this
      ensures Valid()
      ensures r.Some? <==> n <= |old(Rest())|
      ensures r.Some? ==> r.value == old(Rest())[..n] && pos == old(pos) + n
      ensures r.None? ==> pos == old(pos)
    {
      var end := pos + n;
      if end > |buf| { return None; }
      r := Some(buf[pos..end]);
      pos := end;
    }

    /** A length or integer of which the head byte's low five bits are given. */
    method ReadLength(low: nat) returns (r: Option<u64>)
      requires Valid() && low < 32
      modifies this
      ensures Valid() && old(pos) <= pos
      ensures Agrees(old(pos), pos, r, Kernel.ReadArg(old(Rest()), low))
    {
      if low < 24 { return Some(low); }
      var width, least;
      if low == 24 { width, least := 1, 24; }
      else if low == 25 { width, least := 2, 0x100; }
      else if low == 26 { width, least := 4, 0x1_0000; }
      else if low == 27 { width, least := 8, 0x1_0000_0000; }
      else { return None; }
      var b := ReadBytes(width);
      if b.None? { return None; }
      var v := FromBigEndian(b.value);
      Pow256Values();
      if v < least { return None; }
      r := Some(v);
    }

    /** A claimed length, checked against the bytes that remain. */
    method CheckedLength(low: nat) returns (r: Option<u64>)
      requires Valid() && low < 32
      modifies this
      ensures Valid() && old(pos) <= pos
      ensures Agrees(old(pos), pos, r, Kernel.ReadLength(old(Rest()), low))
      ensures r.Some? ==> r.value <= |Rest()|
    {
      r := ReadLength(low);
      if r.None? { return; }
      if r.value > |buf| - pos { return None; }
    }
  }

  ghost function AfterItems(items: seq<Value>, used: nat, rest: Option<Kernel.Parsed<seq<Value>>>)
    : Option<Kernel.Parsed<seq<Value>>>
  {
    if rest.None? then None else Some(Kernel.Parsed(items + rest.value.value, used + rest.value.used))
  }

  ghost function AfterPairs(pairs: seq<Pair>, used: nat, rest: Option<Kernel.Parsed<seq<Pair>>>)
    : Option<Kernel.Parsed<seq<Pair>>>
  {
    if rest.None? then None else Some(Kernel.Parsed(pairs + rest.value.value, used + rest.value.used))
  }

  lemma NothingYet(items: Option<Kernel.Parsed<seq<Value>>>, pairs: Option<Kernel.Parsed<seq<Pair>>>)
    ensures AfterItems([], 0, items) == items && AfterPairs([], 0, pairs) == pairs
  {
    if items.Some? { assert [] + items.value.value == items.value.value; }
    if pairs.Some? { assert [] + pairs.value.value == pairs.value.value; }
  }

  lemma NothingMore(s: seq<byte>, items: seq<Value>, pairs: seq<Pair>, used: nat, prev: Option<seq<byte>>)
    ensures AfterItems(items, used, ParseItems(s, 0)) == Some(Kernel.Parsed(items, used))
    ensures AfterPairs(pairs, used, ParsePairs(s, 0, prev)) == Some(Kernel.Parsed(pairs, used))
  {
    assert items + [] == items && pairs + [] == pairs;
  }

  lemma {:induction false} ItemsTurn(buf: seq<byte>, pos: nat, used: nat, items: seq<Value>, count: nat)
    requires pos <= |buf| && count > 0
    ensures var h := Parse(buf[pos..]);
      AfterItems(items, used, ParseItems(buf[pos..], count))
      == if h.None? then None
         else AfterItems(items + [h.value.value], used + h.value.used,
                         ParseItems(buf[pos + h.value.used..], count - 1))
  {
    hide Parse;
    var h := Parse(buf[pos..]);
    if h.Some? {
      Slices(buf, pos, h.value.used);
      var t := ParseItems(buf[pos + h.value.used..], count - 1);
      if t.Some? {
        assert items + ([h.value.value] + t.value.value) == items + [h.value.value] + t.value.value;
      }
    }
  }

  lemma {:induction false} PairsTurn(buf: seq<byte>, pos: nat, used: nat, pairs: seq<Pair>, prev: Option<seq<byte>>, count: nat)
    requires pos <= |buf| && count > 0
    ensures var whole := AfterPairs(pairs, used, ParsePairs(buf[pos..], count, prev));
      var k := Parse(buf[pos..]);
      if k.None? then whole == None
      else
        var mid := pos + k.value.used;
        var v := Parse(buf[mid..]);
        if v.None? || (prev.Some? && !LexLess(prev.value, buf[pos..mid])) then whole == None
        else
          whole == AfterPairs(pairs + [Pair(k.value.value, v.value.value)], used + k.value.used + v.value.used,
                     ParsePairs(buf[mid + v.value.used..], count - 1, Some(buf[pos..mid])))
  {
    hide Parse, LexLess, ParsePairs;
    var t := buf[pos..];
    PairsBody(t, count, prev);
    var k := Parse(t);
    if k.Some? {
      var mid := pos + k.value.used;
      Slices(buf, pos, k.value.used);
      var v := Parse(buf[mid..]);
      if v.Some? {
        Slices(buf, pos, k.value.used + v.value.used);
        var rest := ParsePairs(buf[mid + v.value.used..], count - 1, Some(buf[pos..mid]));
        if rest.Some? {
          var e := Pair(k.value.value, v.value.value);
          assert pairs + ([e] + rest.value.value) == pairs + [e] + rest.value.value;
        }
      }
    }
  }

  lemma {:induction false} PairsBody(t: seq<byte>, count: nat, prev: Option<seq<byte>>)
    requires count > 0
    ensures var whole := ParsePairs(t, count, prev);
      var k := Parse(t);
      if k.None? then whole == None
      else
        var v := Parse(t[k.value.used..]);
        var kb := t[..k.value.used];
        if v.None? || (prev.Some? && !LexLess(prev.value, kb)) then whole == None
        else
          var n := k.value.used + v.value.used;
          var rest := ParsePairs(t[n..], count - 1, Some(kb));
          if rest.None? then whole == None
          else whole == Some(Kernel.Parsed([Pair(k.value.value, v.value.value)] + rest.value.value, n + rest.value.used))
  {
    hide Parse, LexLess;
  }

  method DecodeValue(r: Reader) returns (v: Option<Value>)
    requires r.Valid()
    modifies r
    ensures r.Valid() && old(r.pos) <= r.pos
    ensures Agrees(old(r.pos), r.pos, v, Parse(old(r.Rest())))
    decreases |r.buf| - r.pos, 0
  {
    hide ParseItems, ParsePairs, Kernel.ReadArg, Kernel.DecodeText, Utf8.Encode, Utf8.Decode;
    ghost var s := r.Rest();
    var head := r.PeekU8();
    if head.None? { return None; }
    var major, low := head.value / 32, head.value % 32;
    if major == 1 || major == 6 { return None; }
    r.Advance(1);
    assert r.Rest() == s[1..];
    match major
    case 0 =>
      var n := r.ReadLength(low);
      if n.None? { return None; }
      v := Some(Uint(n.value));
    case 2 =>
      var data := DecodeString(r, low);
      if data.None? { return None; }
      v := Some(Value.Bytes(data.value));
    case 3 =>
      var data := DecodeString(r, low);
      if data.None? { return None; }
      var text := Kernel.DecodeText(data.value);
      if text.None? { return None; }
      v := Some(Text(text.value));
    case 4 =>
      var len := r.CheckedLength(low);
      if len.None? { return None; }
      assert r.Rest() == s[1..][Kernel.ReadLength(s[1..], low).value.used..];
      var items := DecodeItems(r, len.value);
      if items.None? { return None; }
      v := Some(Array(items.value));
    case 5 =>
      var len := r.CheckedLength(low);
      if len.None? { return None; }
      assert r.Rest() == s[1..][Kernel.ReadLength(s[1..], low).value.used..];
      var pairs := DecodePairs(r, len.value);
      if pairs.None? { return None; }
      v := Some(Map(pairs.value));
    case 7 =>
      v := if low == 20 then Some(Bool(false))
           else if low == 21 then Some(Bool(true))
           else if low == 22 then Some(Null)
           else None;
  }

  method DecodeString(r: Reader, low: nat) returns (data: Option<Vec<byte>>)
    requires r.Valid() && low < 32
    modifies r
    ensures r.Valid() && old(r.pos) <= r.pos
    ensures Agrees(old(r.pos), r.pos, data, StringAt(old(r.Rest()), low))
  {
    ghost var t := r.Rest();
    var len := r.CheckedLength(low);
    if len.None? { return None; }
    ghost var a := Kernel.ReadLength(t, low).value;
    assert r.Rest() == t[a.used..];
    var b := r.ReadBytes(len.value);
    assert b.value == t[a.used..a.used + a.value];
    data := Some(b.value);
  }

  method DecodeItems(r: Reader, len: nat) returns (result: Option<seq<Value>>)
    requires r.Valid()
    modifies r
    ensures r.Valid() && old(r.pos) <= r.pos
    ensures Agrees(old(r.pos), r.pos, result, ParseItems(old(r.Rest()), len))
    ensures result.Some? ==> |result.value| == len
    decreases |r.buf| - r.pos, 1
  {
    hide Parse, ParseItems;
    var items: seq<Value> := [];
    ghost var start := r.pos;
    ghost var whole := ParseItems(r.Rest(), len);
    NothingYet(whole, None);
    for i := 0 to len
      invariant r.Valid() && start <= r.pos && |items| == i
      invariant whole == AfterItems(items, r.pos - start, ParseItems(r.buf[r.pos..], len - i))
    {
      ItemsTurn(r.buf, r.pos, r.pos - start, items, len - i);
      var item := DecodeValue(r);
      if item.None? { return None; }
      items := items + [item.value];
    }
    NothingMore(r.Rest(), items, [], r.pos - start, None);
    result := Some(items);
  }

  method DecodePairs(r: Reader, len: nat) returns (result: Option<seq<Pair>>)
    requires r.Valid()
    modifies r
    ensures r.Valid() && old(r.pos) <= r.pos
    ensures Agrees(old(r.pos), r.pos, result, ParsePairs(old(r.Rest()), len, None))
    ensures result.Some? ==> |result.value| == len
    decreases |r.buf| - r.pos, 1
  {
    hide Parse, ParsePairs, LexLess;
    var pairs: seq<Pair> := [];
    var prev: Option<seq<byte>> := None;
    ghost var start := r.pos;
    ghost var whole := ParsePairs(r.Rest(), len, None);
    NothingYet(None, whole);
    for i := 0 to len
      invariant r.Valid() && start <= r.pos && |pairs| == i
      invariant whole == AfterPairs(pairs, r.pos - start, ParsePairs(r.buf[r.pos..], len - i, prev))
    {
      var keyStart := r.pos;
      PairsTurn(r.buf, keyStart, keyStart - start, pairs, prev, len - i);
      var key := DecodeValue(r);
      if key.None? { return None; }
      var keyBytes := r.buf[keyStart..r.pos];
      var val := DecodeValue(r);
      if val.None? { return None; }
      if prev.Some? && !LexLess(prev.value, keyBytes) { return None; }
      prev := Some(keyBytes);
      pairs := pairs + [Pair(key.value, val.value)];
    }
    NothingMore(r.Rest(), [], pairs, r.pos - start, prev);
    result := Some(pairs);
  }

  /** `decode_value_complete`. */
  method DecodeComplete(bytes: seq<byte>) returns (r: Option<Value>)
    ensures r == Decode(bytes)
    ensures r.Some? ==> Encoding(r.value) == bytes
  {
    hide Parse;
    var reader := new Reader(bytes);
    assert reader.Rest() == bytes;
    var v := DecodeValue(reader);
    if v.None? || reader.pos != |bytes| { return None; }
    r := v;
    DecodeThenEncode(bytes);
  }
}
