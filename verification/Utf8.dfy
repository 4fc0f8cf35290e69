/** UTF-8 (RFC 3629), which `String::as_bytes` and `str::from_utf8` stand for.
    A Dafny `char` is a Unicode scalar value, as a Rust `char` is. */
module Utf8 {
  import opened Wrappers
  import opened Bytes

  function EncodeChar(c: char): (b: seq<byte>)
    ensures 1 <= |b| <= 4
  {
    var n := c as int;
    if n < 0x80 then [n]
    else if n < 0x800 then [0xC0 + n / 0x40, 0x80 + n % 0x40]
    else if n < 0x1_0000 then [0xE0 + n / 0x40 / 0x40, 0x80 + n / 0x40 % 0x40, 0x80 + n % 0x40]
    else [0xF0 + n / 0x40 / 0x40 / 0x40, 0x80 + n / 0x40 / 0x40 % 0x40, 0x80 + n / 0x40 % 0x40, 0x80 + n % 0x40]
  }

  function Encode(s: string): seq<byte>
  {
    if s == [] then [] else EncodeChar(s[0]) + Encode(s[1..])
  }

  predicate IsContinuation(b: byte) { 0x80 <= b < 0xC0 }

  predicate IsScalar(n: int) { 0 <= n < 0xD800 || 0xE000 <= n < 0x11_0000 }

  /** Append the six payload bits of a continuation byte. */
  function Join(high: int, b: int): int { high * 0x40 + (b - 0x80) }

  datatype Decoded = Decoded(c: char, used: nat)

  /** The first character of `b`: overlong forms, surrogates and values past
      U+10FFFF are refused. */
  function DecodeChar(b: seq<byte>): (r: Option<Decoded>)
    ensures r.Some? ==> 1 <= r.value.used <= |b|
  {
    if b == [] then None
    else if b[0] < 0x80 then Some(Decoded(b[0] as char, 1))
    else if 0xC0 <= b[0] < 0xE0 && |b| >= 2 && IsContinuation(b[1]) then
      var n := Join(b[0] - 0xC0, b[1]);
      if n < 0x80 then None else Some(Decoded(n as char, 2))
    else if 0xE0 <= b[0] < 0xF0 && |b| >= 3 && IsContinuation(b[1]) && IsContinuation(b[2]) then
      var n := Join(Join(b[0] - 0xE0, b[1]), b[2]);
      if n < 0x800 || !IsScalar(n) then None else Some(Decoded(n as char, 3))
    else if 0xF0 <= b[0] < 0xF8 && |b| >= 4
            && IsContinuation(b[1]) && IsContinuation(b[2]) && IsContinuation(b[3]) then
      var n := Join(Join(Join(b[0] - 0xF0, b[1]), b[2]), b[3]);
      if n < 0x1_0000 || !IsScalar(n) then None else Some(Decoded(n as char, 4))
    else None
  }

  function Decode(b: seq<byte>): Option<string>
  {
    if b == [] then Some([])
    else
      var h :- DecodeChar(b);
      var t :- Decode(b[h.used..]);
      Some([h.c] + t)
  }

  lemma JoinSplit(n: nat)
    ensures Join(n / 0x40, 0x80 + n % 0x40) == n
  {
  }

  lemma SplitJoin(high: int, b: byte)
    requires IsContinuation(b)
    ensures Join(high, b) / 0x40 == high && 0x80 + Join(high, b) % 0x40 == b
  {
  }

  lemma DecodeEncodedChar(c: char, rest: seq<byte>)
    ensures DecodeChar(EncodeChar(c) + rest) == Some(Decoded(c, |EncodeChar(c)|))
  {
    var n := c as int;
    var b := EncodeChar(c) + rest;
    assert n as char == c;
    JoinSplit(n);
    JoinSplit(n / 0x40);
    JoinSplit(n / 0x40 / 0x40);
  }

  lemma EncodeDecodedChar(b: seq<byte>)
    requires DecodeChar(b).Some?
    ensures EncodeChar(DecodeChar(b).value.c) == b[..DecodeChar(b).value.used]
  {
    var d := DecodeChar(b).value;
    if d.used == 2 {
      SplitJoin(b[0] - 0xC0, b[1]);
    } else if d.used == 3 {
      SplitJoin(b[0] - 0xE0, b[1]);
      SplitJoin(Join(b[0] - 0xE0, b[1]), b[2]);
    } else if d.used == 4 {
      SplitJoin(b[0] - 0xF0, b[1]);
      SplitJoin(Join(b[0] - 0xF0, b[1]), b[2]);
      SplitJoin(Join(Join(b[0] - 0xF0, b[1]), b[2]), b[3]);
    }
  }

  /** Every string is recovered from its encoding. */
  lemma {:induction false} DecodeEncoded(s: string)
    ensures Decode(Encode(s)) == Some(s)
  {
    hide DecodeChar, EncodeChar;
    if s != [] {
      DecodeEncodedChar(s[0], Encode(s[1..]));
      DecodeEncoded(s[1..]);
      assert Encode(s)[|EncodeChar(s[0])|..] == Encode(s[1..]);
      assert s == [s[0]] + s[1..];
    }
  }

  /** Accepted bytes are the encoding of what they decode to. */
  lemma {:induction false} EncodeDecoded(b: seq<byte>)
    requires Decode(b).Some?
    ensures Encode(Decode(b).value) == b
  {
    hide DecodeChar, EncodeChar;
    if b != [] {
      var h := DecodeChar(b).value;
      EncodeDecodedChar(b);
      EncodeDecoded(b[h.used..]);
      var s := Decode(b).value;
      assert s[1..] == Decode(b[h.used..]).value;
      assert b == b[..h.used] + b[h.used..];
    }
  }

  lemma {:induction false} EncodeLength(s: string)
    ensures |s| <= |Encode(s)| <= 4 * |s|
  {
    if s != [] { EncodeLength(s[1..]); }
  }
}
