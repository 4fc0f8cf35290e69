/** The encoder and decoder of `codec.rs` as they run: one pushes into a shared
    output buffer, the other advances a shared position. Each is proved against
    the functions of `Codec`. */
module CodecImpl {
  import opened Wrappers
  import opened Bytes
  import opened Codec
  import opened CodecProofs
  import Utf8

  /** A `Vec<u8>` lent to the encoder. */
  class Buffer {
    var bytes: seq<byte>

    constructor ()
      ensures bytes == []
    {
      bytes := [];
    }

    method Push(b: byte)
      modifies this
      ensures bytes == old(bytes) + [b]
    {
      bytes := bytes + [b];
    }

    method Extend(s: seq<byte>)
      modifies this
      ensures bytes == old(bytes) + s
    {
      bytes := bytes + s;
    }
  }

  /** The decoder's `pos: &mut usize`. */
  class Cursor {
    var pos: nat

    constructor ()
      ensures pos == 0
    {
      pos := 0;
    }
  }

  // ------------------------------------------------------------------
  // Encoder
  // ------------------------------------------------------------------

  method WriteHead(out: Buffer, major: nat, arg: u64)
    requires major < 8
    modifies out
    ensures out.bytes == old(out.bytes) + Head(major, arg)
  {
    hide ToBigEndian;
    var top := major * 32;
    if arg < 24 {
      out.Push(top + arg);
    } else if arg <= 0xff {
      out.Push(top + 24);
      out.Extend(ToBigEndian(1, arg));
    } else if arg <= 0xffff {
      out.Push(top + 25);
      out.Extend(ToBigEndian(2, arg));
    } else if arg <= 0xffff_ffff {
      out.Push(top + 26);
      out.Extend(ToBigEndian(4, arg));
    } else {
      out.Push(top + 27);
      out.Extend(ToBigEndian(8, arg));
    }
  }

  /** Appends what `Encoding` says, also when it fails half way. */
  method EncodeValue(v: Value, out: Buffer) returns (ok: bool)
    modifies out
    ensures ok == Encoding(v).ok
    ensures out.bytes == old(out.bytes) + Encoding(v).bytes
    decreases v, 1
  {
    ok := true;
    match v
    case Uint(n) => WriteHead(out, 0, n);
    case Nint(n) => WriteHead(out, 1, n);
    case Bytes(b) =>
      WriteHead(out, 2, |b|);
      out.Extend(b);
    case Text(s) =>
      WriteHead(out, 3, |Utf8.Encode(s)|);
      out.Extend(Utf8.Encode(s));
    case Array(items) =>
      WriteHead(out, 4, |items|);
      ok := EncodeItems(items, out);
    case Map(entries) =>
      ok := EncodeMap(entries, out);
    case Bool(f) => out.Push(if f then 0xf5 else 0xf4);
    case Null => out.Push(0xf6);
  }

  /** What remains to be written comes after what was written already. */
  ghost function After(done: seq<byte>, w: Written): Written { Written(done + w.bytes, w.ok) }

  lemma {:induction false} ItemsStep(items: seq<Value>, i: nat, done: seq<byte>)
    requires i < |items|
    ensures var w := Encoding(items[i]); var rest := EncodingAll(items[i + 1..]);
      After(done, EncodingAll(items[i..])) == if w.ok then After(done + w.bytes, rest) else After(done, w)
  {
    hide Encoding;
    var t := items[i..];
    assert t[1..] == items[i + 1..];
    var w := Encoding(items[i]);
    assert done + (w.bytes + EncodingAll(t[1..]).bytes) == done + w.bytes + EncodingAll(t[1..]).bytes;
  }

  method EncodeItems(items: seq<Value>, out: Buffer) returns (ok: bool)
    modifies out
    ensures ok == EncodingAll(items).ok
    ensures out.bytes == old(out.bytes) + EncodingAll(items).bytes
    decreases items, 0
  {
    hide Encoding, EncodingAll;
    ghost var done: seq<byte> := [];
    assert items[0..] == items && After([], EncodingAll(items)) == EncodingAll(items);
    for i := 0 to |items|
      invariant out.bytes == old(out.bytes) + done
      invariant EncodingAll(items) == After(done, EncodingAll(items[i..]))
    {
      ItemsStep(items, i, done);
      ok := EncodeValue(items[i], out);
      done := done + Encoding(items[i]).bytes;
      if !ok {
        return;
      }
    }
    assert items[|items|..] == [];
    NothingLeft();
    ok := true;
  }

  lemma NothingLeft()
    ensures EncodingAll([]) == Written([], true) && EncodedPairs([]) == Some([])
  {
  }

  ghost function Prepend(pairs: seq<Keyed<seq<byte>>>, rest: Option<seq<Keyed<seq<byte>>>>)
    : Option<seq<Keyed<seq<byte>>>>
  {
    if rest.None? then None else Some(pairs + rest.value)
  }

  lemma PrependNothing(rest: Option<seq<Keyed<seq<byte>>>>)
    ensures Prepend([], rest) == rest
  {
    if rest.Some? { assert [] + rest.value == rest.value; }
  }

  lemma {:induction false} PairsStep(entries: seq<Entry>, i: nat, pairs: seq<Keyed<seq<byte>>>)
    requires i < |entries|
    ensures var k, v := Encoding(entries[i].key), Encoding(entries[i].val);
      Prepend(pairs, EncodedPairs(entries[i..]))
      == if k.ok && v.ok then Prepend(pairs + [Keyed(k.bytes, v.bytes)], EncodedPairs(entries[i + 1..])) else None
  {
    hide Encoding;
    var t := entries[i..];
    assert t[1..] == entries[i + 1..];
    var x := Keyed(Encoding(entries[i].key).bytes, Encoding(entries[i].val).bytes);
    if EncodedPairs(t[1..]).Some? {
      assert pairs + ([x] + EncodedPairs(t[1..]).value) == pairs + [x] + EncodedPairs(t[1..]).value;
    }
  }

  /** The loop that fills `pairs` in `encode_map`. */
  method EncodePairs(entries: Vec<Entry>) returns (r: Option<seq<Keyed<seq<byte>>>>)
    ensures r == EncodedPairs(entries)
    decreases entries, 0
  {
    hide Encoding, EncodedPairs;
    var pairs: seq<Keyed<seq<byte>>> := [];
    assert entries[0..] == entries;
    PrependNothing(EncodedPairs(entries));
    for i := 0 to |entries|
      invariant EncodedPairs(entries) == Prepend(pairs, EncodedPairs(entries[i..]))
    {
      PairsStep(entries, i, pairs);
      assert entries[i].key < entries[i] && entries[i].val < entries[i];
      var kbuf := new Buffer();
      var ok := EncodeValue(entries[i].key, kbuf);
      if !ok { return None; }
      var vbuf := new Buffer();
      ok := EncodeValue(entries[i].val, vbuf);
      if !ok { return None; }
      assert kbuf.bytes == Encoding(entries[i].key).bytes;
      assert vbuf.bytes == Encoding(entries[i].val).bytes;
      pairs := pairs + [Keyed(kbuf.bytes, vbuf.bytes)];
    }
    assert entries[|entries|..] == [];
    NothingLeft();
    assert pairs + [] == pairs;
    r := Some(pairs);
  }

  /** `encode_map`: encode every entry, sort by key bytes, refuse duplicates,
      then write. */
  method EncodeMap(entries: Vec<Entry>, out: Buffer) returns (ok: bool)
    modifies out
    ensures ok == Encoding(Map(entries)).ok
    ensures out.bytes == old(out.bytes) + Encoding(Map(entries)).bytes
    decreases entries, 1
  {
    hide EncodedPairs, SortByKey, Flatten;
    var pairs := EncodePairs(entries);
    if pairs.None? {
      return false;
    }
    var sorted := SortByKey(pairs.value);
    var w := 0;
    while w + 1 < |sorted|
      invariant forall i :: 0 <= i < w && i + 1 < |sorted| ==> sorted[i].key != sorted[i + 1].key
      invariant out.bytes == old(out.bytes)
    {
      if sorted[w].key == sorted[w + 1].key {
        return false;
      }
      w := w + 1;
    }
    WriteHead(out, 5, |sorted|);
    WritePairs(sorted, out);
    ok := true;
  }

  method WritePairs(sorted: seq<Keyed<seq<byte>>>, out: Buffer)
    modifies out
    ensures out.bytes == old(out.bytes) + Flatten(sorted)
  {
    ghost var done: seq<byte> := [];
    assert sorted[0..] == sorted;
    for i := 0 to |sorted|
      invariant out.bytes == old(out.bytes) + done
      invariant Flatten(sorted) == done + Flatten(sorted[i..])
    {
      ghost var rest := sorted[i..];
      assert rest[1..] == sorted[i + 1..];
      out.Extend(sorted[i].key);
      out.Extend(sorted[i].val);
      assert done + (rest[0].key + rest[0].val + Flatten(rest[1..])) == done + rest[0].key + rest[0].val + Flatten(rest[1..]);
      done := done + sorted[i].key + sorted[i].val;
    }
  }

  method EncodeCanonical(v: Value) returns (r: Option<seq<byte>>)
    ensures r == Encode(v)
  {
    var out := new Buffer();
    var ok := EncodeValue(v, out);
    assert out.bytes == Encoding(v).bytes;
    r := if ok then Some(out.bytes) else None;
  }

  // ------------------------------------------------------------------
  // Decoder
  // ------------------------------------------------------------------

  method ReadU8(bytes: seq<byte>, cur: Cursor) returns (r: Option<byte>)
    requires cur.pos <= |bytes|
    modifies cur
    ensures r.Some? <==> old(cur.pos) < |bytes|
    ensures r.Some? ==> r.value == bytes[old(cur.pos)] && cur.pos == old(cur.pos) + 1
    ensures r.None? ==> cur.pos == old(cur.pos)
  {
    if cur.pos == |bytes| { return None; }
    r := Some(bytes[cur.pos]);
    cur.pos := cur.pos + 1;
  }

  method ReadExact(bytes: seq<byte>, cur: Cursor, n: nat) returns (r: Option<seq<byte>>)
    requires cur.pos <= |bytes|
    modifies cur
    ensures r.Some? <==> old(cur.pos) + n <= |bytes|
    ensures r.Some? ==> cur.pos == old(cur.pos) + n && r.value == bytes[old(cur.pos)..cur.pos]
    ensures r.None? ==> cur.pos == old(cur.pos)
  {
    if cur.pos + n > |bytes| { return None; }
    r := Some(bytes[cur.pos..cur.pos + n]);
    cur.pos := cur.pos + n;
  }

  /** The result of a decoder call that moved from `start` to `pos`, against the
      parse of the bytes it started at. */
  ghost predicate Agrees<T>(start: nat, pos: nat, r: Option<T>, p: Option<Parsed<T>>)
  {
    (r.Some? <==> p.Some?) && (p.Some? ==> r.value == p.value.value && pos == start + p.value.used)
  }

  method ReadArgument(bytes: seq<byte>, cur: Cursor, low: nat) returns (r: Option<u64>)
    requires cur.pos <= |bytes| && low < 32
    modifies cur
    ensures cur.pos <= |bytes|
    ensures Agrees(old(cur.pos), cur.pos, r, ReadArg(bytes[old(cur.pos)..], low))
  {
    if low < 24 {
      return Some(low);
    }
    var width, least;
    if low == 24 { width, least := 1, 24; }
    else if low == 25 { width, least := 2, 0x100; }
    else if low == 26 { width, least := 4, 0x1_0000; }
    else if low == 27 { width, least := 8, 0x1_0000_0000; }
    else { return None; }
    ghost var s := bytes[cur.pos..];
    var arg := ReadExact(bytes, cur, width);
    if arg.None? { return None; }
    assert arg.value == s[..width];
    var n := FromBigEndian(arg.value);
    Pow256Values();
    if n < least { return None; }
    r := Some(n);
  }

  method ReadLengthArgument(bytes: seq<byte>, cur: Cursor, low: nat) returns (r: Option<u64>)
    requires cur.pos <= |bytes| && low < 32
    modifies cur
    ensures cur.pos <= |bytes|
    ensures Agrees(old(cur.pos), cur.pos, r, ReadLength(bytes[old(cur.pos)..], low))
    ensures r.Some? ==> cur.pos + r.value <= |bytes|
  {
    r := ReadArgument(bytes, cur, low);
    if r.None? { return; }
    if r.value > |bytes| - cur.pos { return None; }
  }

  method ParseValue(bytes: seq<byte>, cur: Cursor, depth: nat) returns (r: Option<Value>)
    requires cur.pos <= |bytes|
    modifies cur
    ensures cur.pos <= |bytes|
    ensures Agrees(old(cur.pos), cur.pos, r, Parse(bytes[old(cur.pos)..], depth, MAX_DEPTH))
    decreases |bytes| - cur.pos, 0
  {
    hide ParseItems, ParseEntries, ReadArg, DecodeText, Utf8.Encode, Utf8.Decode;
    if depth > MAX_DEPTH { return None; }
    ghost var s := bytes[cur.pos..];
    var ib := ReadU8(bytes, cur);
    if ib.None? { return None; }
    assert s[0] == ib.value;
    var major, low := ib.value / 32, ib.value % 32;
    assert bytes[cur.pos..] == s[1..];
    match major
    case 0 =>
      var n := ReadArgument(bytes, cur, low);
      if n.None? { return None; }
      r := Some(Uint(n.value));
    case 1 =>
      var n := ReadArgument(bytes, cur, low);
      if n.None? { return None; }
      r := Some(Nint(n.value));
    case 2 =>
      var data := ParseString(bytes, cur, low);
      if data.None? { return None; }
      r := Some(Bytes(data.value));
    case 3 =>
      var data := ParseString(bytes, cur, low);
      if data.None? { return None; }
      var text := DecodeText(data.value);
      if text.None? { return None; }
      r := Some(Text(text.value));
    case 4 =>
      var len := ReadLengthArgument(bytes, cur, low);
      if len.None? { return None; }
      var a := ReadLength(s[1..], low).value;
      assert bytes[cur.pos..] == s[1..][a.used..];
      var items := ParseArrayItems(bytes, cur, len.value, depth + 1);
      if items.None? { return None; }
      r := Some(Array(items.value));
    case 5 =>
      var len := ReadLengthArgument(bytes, cur, low);
      if len.None? { return None; }
      var a := ReadLength(s[1..], low).value;
      assert bytes[cur.pos..] == s[1..][a.used..];
      var entries := ParseMapEntries(bytes, cur, len.value, depth + 1);
      if entries.None? { return None; }
      r := Some(Map(entries.value));
    case 7 =>
      r := if low == 20 then Some(Bool(false))
           else if low == 21 then Some(Bool(true))
           else if low == 22 then Some(Null)
           else None;
    case _ => r := None;
  }

  function StringAt(t: seq<byte>, low: nat): (r: Option<Parsed<Vec<byte>>>)
  {
    var a :- ReadLength(t, low);
    Some(Parsed(t[a.used..a.used + a.value], a.used + a.value))
  }

  method ParseString(bytes: seq<byte>, cur: Cursor, low: nat) returns (r: Option<Vec<byte>>)
    requires cur.pos <= |bytes| && low < 32
    modifies cur
    ensures cur.pos <= |bytes|
    ensures Agrees(old(cur.pos), cur.pos, r, StringAt(bytes[old(cur.pos)..], low))
  {
    ghost var t := bytes[cur.pos..];
    var len := ReadLengthArgument(bytes, cur, low);
    if len.None? { return None; }
    ghost var a := ReadLength(t, low).value;
    var data := ReadExact(bytes, cur, len.value);
    assert data.value == t[a.used..a.used + a.value];
    r := Some(data.value);
  }

  ghost function AfterItems(items: seq<Value>, used: nat, rest: Option<Parsed<seq<Value>>>): Option<Parsed<seq<Value>>>
  {
    if rest.None? then None else Some(Parsed(items + rest.value.value, used + rest.value.used))
  }

  lemma {:induction false} ParseItemsLoop(bytes: seq<byte>, pos: nat, used: nat, items: seq<Value>, count: nat, depth: nat)
    requires pos <= |bytes| && count > 0
    ensures var h := Parse(bytes[pos..], depth, MAX_DEPTH);
      AfterItems(items, used, ParseItems(bytes[pos..], count, depth, MAX_DEPTH))
      == if h.None? then None
         else AfterItems(items + [h.value.value], used + h.value.used,
                         ParseItems(bytes[pos + h.value.used..], count - 1, depth, MAX_DEPTH))
  {
    hide Parse;
    var h := Parse(bytes[pos..], depth, MAX_DEPTH);
    if h.Some? {
      Slices(bytes, pos, h.value.used);
      var t := ParseItems(bytes[pos + h.value.used..], count - 1, depth, MAX_DEPTH);
      if t.Some? {
        assert items + ([h.value.value] + t.value.value) == items + [h.value.value] + t.value.value;
      }
    }
  }

  method ParseArrayItems(bytes: seq<byte>, cur: Cursor, len: nat, depth: nat) returns (r: Option<seq<Value>>)
    requires cur.pos <= |bytes|
    modifies cur
    ensures cur.pos <= |bytes|
    ensures Agrees(old(cur.pos), cur.pos, r, ParseItems(bytes[old(cur.pos)..], len, depth, MAX_DEPTH))
    ensures r.Some? ==> |r.value| == len
    decreases |bytes| - cur.pos, 1
  {
    hide Parse, ParseItems;
    var items: seq<Value> := [];
    ghost var start := cur.pos;
    ghost var whole := ParseItems(bytes[start..], len, depth, MAX_DEPTH);
    NoItemsYet(whole);
    for i := 0 to len
      invariant start <= cur.pos <= |bytes| && |items| == i
      invariant whole == AfterItems(items, cur.pos - start, ParseItems(bytes[cur.pos..], len - i, depth, MAX_DEPTH))
    {
      ParseItemsLoop(bytes, cur.pos, cur.pos - start, items, len - i, depth);
      var item := ParseValue(bytes, cur, depth);
      if item.None? { return None; }
      items := items + [item.value];
    }
    EmptyTail(bytes[cur.pos..], depth);
    assert items + [] == items;
    r := Some(items);
  }

  lemma NoItemsYet(whole: Option<Parsed<seq<Value>>>)
    ensures AfterItems([], 0, whole) == whole
  {
    if whole.Some? { assert [] + whole.value.value == whole.value.value; }
  }

  lemma EmptyTail(s: seq<byte>, depth: nat)
    ensures ParseItems(s, 0, depth, MAX_DEPTH) == Some(Parsed([], 0))
    ensures forall prev :: ParseEntries(s, 0, prev, depth, MAX_DEPTH) == Some(Parsed([], 0))
  {
  }

  ghost function AfterEntries(entries: seq<Entry>, used: nat, rest: Option<Parsed<seq<Entry>>>): Option<Parsed<seq<Entry>>>
  {
    if rest.None? then None else Some(Parsed(entries + rest.value.value, used + rest.value.used))
  }

  lemma {:induction false} ParseEntriesLoop(bytes: seq<byte>, pos: nat, used: nat, entries: seq<Entry>,
                                            prev: Option<seq<byte>>, count: nat, depth: nat)
    requires pos <= |bytes| && count > 0
    ensures var whole := AfterEntries(entries, used, ParseEntries(bytes[pos..], count, prev, depth, MAX_DEPTH));
      var k := Parse(bytes[pos..], depth, MAX_DEPTH);
      if k.None? then whole == None
      else
        var mid := pos + k.value.used;
        var kb := bytes[pos..mid];
        if prev.Some? && !LexLess(prev.value, kb) then whole == None
        else
          var v := Parse(bytes[mid..], depth, MAX_DEPTH);
          if v.None? then whole == None
          else
            whole == AfterEntries(entries + [Entry(k.value.value, v.value.value)], used + k.value.used + v.value.used,
                       ParseEntries(bytes[mid + v.value.used..], count - 1, Some(kb), depth, MAX_DEPTH))
  {
    hide Parse, LexLess, ParseEntries;
    var t := bytes[pos..];
    ParseEntriesBody(t, count, prev, depth);
    var k := Parse(t, depth, MAX_DEPTH);
    if k.Some? {
      var mid := pos + k.value.used;
      Slices(bytes, pos, k.value.used);
      var v := Parse(bytes[mid..], depth, MAX_DEPTH);
      if v.Some? {
        Slices(bytes, pos, k.value.used + v.value.used);
        var rest := ParseEntries(bytes[mid + v.value.used..], count - 1, Some(bytes[pos..mid]), depth, MAX_DEPTH);
        if rest.Some? {
          var e := Entry(k.value.value, v.value.value);
          assert entries + ([e] + rest.value.value) == entries + [e] + rest.value.value;
        }
      }
    }
  }

  lemma Slices(s: seq<byte>, a: nat, b: nat)
    requires a + b <= |s|
    ensures s[a..][..b] == s[a..a + b] && s[a..][b..] == s[a + b..]
  {
  }

  lemma {:induction false} ParseEntriesBody(t: seq<byte>, count: nat, prev: Option<seq<byte>>, depth: nat)
    requires count > 0
    ensures var whole := ParseEntries(t, count, prev, depth, MAX_DEPTH);
      var k := Parse(t, depth, MAX_DEPTH);
      if k.None? then whole == None
      else
        var kb := t[..k.value.used];
        if prev.Some? && !LexLess(prev.value, kb) then whole == None
        else
          var v := Parse(t[k.value.used..], depth, MAX_DEPTH);
          if v.None? then whole == None
          else
            var n := k.value.used + v.value.used;
            var rest := ParseEntries(t[n..], count - 1, Some(kb), depth, MAX_DEPTH);
            if rest.None? then whole == None
            else whole == Some(Parsed([Entry(k.value.value, v.value.value)] + rest.value.value, n + rest.value.used))
  {
    hide Parse, LexLess;
  }

  method ParseMapEntries(bytes: seq<byte>, cur: Cursor, len: nat, depth: nat) returns (r: Option<seq<Entry>>)
    requires cur.pos <= |bytes|
    modifies cur
    ensures cur.pos <= |bytes|
    ensures Agrees(old(cur.pos), cur.pos, r, ParseEntries(bytes[old(cur.pos)..], len, None, depth, MAX_DEPTH))
    ensures r.Some? ==> |r.value| == len
    decreases |bytes| - cur.pos, 1
  {
    hide Parse, ParseEntries, LexLess;
    var entries: seq<Entry> := [];
    var prev: Option<seq<byte>> := None;
    ghost var start := cur.pos;
    ghost var whole := ParseEntries(bytes[start..], len, None, depth, MAX_DEPTH);
    NoEntriesYet(whole);
    for i := 0 to len
      invariant start <= cur.pos <= |bytes| && |entries| == i
      invariant whole == AfterEntries(entries, cur.pos - start,
                           ParseEntries(bytes[cur.pos..], len - i, prev, depth, MAX_DEPTH))
    {
      var keyStart := cur.pos;
      ParseEntriesLoop(bytes, keyStart, keyStart - start, entries, prev, len - i, depth);
      var key := ParseValue(bytes, cur, depth);
      if key.None? { return None; }
      var keyBytes := bytes[keyStart..cur.pos];
      if prev.Some? && !LexLess(prev.value, keyBytes) { return None; }
      prev := Some(keyBytes);
      var val := ParseValue(bytes, cur, depth);
      if val.None? { return None; }
      entries := entries + [Entry(key.value, val.value)];
    }
    EmptyTail(bytes[cur.pos..], depth);
    assert entries + [] == entries;
    r := Some(entries);
  }

  lemma NoEntriesYet(whole: Option<Parsed<seq<Entry>>>)
    ensures AfterEntries([], 0, whole) == whole
  {
    if whole.Some? { assert [] + whole.value.value == whole.value.value; }
  }

  method DecodeCanonical(bytes: seq<byte>) returns (r: Option<Value>)
    ensures r == Decode(bytes)
    ensures r.Some? ==> Encode(r.value) == Some(bytes)
  {
    var cur := new Cursor();
    assert bytes[0..] == bytes;
    var value := ParseValue(bytes, cur, 0);
    if value.None? || cur.pos != |bytes| { return None; }
    r := value;
    DecodeThenEncode(bytes);
  }
}
