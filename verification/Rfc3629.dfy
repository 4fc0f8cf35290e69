/** UTF-8 stated in the terms of section 3 of RFC 3629. */
module Rfc3629 {
  import opened Bytes
  import opened Utf8

  /** Groups of six bits, the most significant first. */
  function Spelt(groups: seq<nat>): nat
  {
    if groups == [] then 0 else Spelt(groups[..|groups| - 1]) * 0x40 + groups[|groups| - 1]
  }

  lemma SpeltTwo(a: nat, b: nat)
    ensures Spelt([a, b]) == a * 0x40 + b
  {
    assert [a][..0] == [];
    assert Spelt([a]) == a;
    assert [a, b][..1] == [a];
  }

  lemma SpeltThree(a: nat, b: nat, c: nat)
    ensures Spelt([a, b, c]) == a * 0x1000 + b * 0x40 + c
  {
    assert [a, b, c][..2] == [a, b];
    SpeltTwo(a, b);
  }

  lemma SpeltFour(a: nat, b: nat, c: nat, d: nat)
    ensures Spelt([a, b, c, d]) == a * 0x4_0000 + b * 0x1000 + c * 0x40 + d
  {
    assert [a, b, c, d][..3] == [a, b, c];
    SpeltThree(a, b, c);
  }

  /** The octets of one character: the high bits of each tell how many there are
      and which continue, the rest spell the character number. */
  lemma {:induction false} Octets(c: char)
    ensures var b, n := EncodeChar(c), c as int;
      if n <= 0x7f then b == [n]
      else if n <= 0x7ff then
        |b| == 2 && b[0] / 0x20 == 6 && b[1] / 0x40 == 2 && n == Spelt([b[0] % 0x20, b[1] % 0x40])
      else if n <= 0xffff then
        |b| == 3 && b[0] / 0x10 == 14 && b[1] / 0x40 == 2 && b[2] / 0x40 == 2
        && n == Spelt([b[0] % 0x10, b[1] % 0x40, b[2] % 0x40])
      else
        |b| == 4 && b[0] / 0x08 == 30 && b[1] / 0x40 == 2 && b[2] / 0x40 == 2 && b[3] / 0x40 == 2
        && n == Spelt([b[0] % 0x08, b[1] % 0x40, b[2] % 0x40, b[3] % 0x40])
  {
    var n := c as int;
    if n > 0x7f {
      var d0, d1, d2, d3 := n % 0x40, n / 0x40 % 0x40, n / 0x1000 % 0x40, n / 0x4_0000;
      assert n / 0x40 / 0x40 == n / 0x1000 && n / 0x1000 / 0x40 == n / 0x4_0000;
      SpeltTwo(n / 0x40, d0);
      SpeltThree(n / 0x1000, d1, d0);
      SpeltFour(d3, d2, d1, d0);
    }
  }

  /** A string is encoded character by character. */
  lemma {:induction false} OneByOne(s: string, t: string)
    ensures Encode(s + t) == Encode(s) + Encode(t)
    ensures forall c :: Encode([c]) == EncodeChar(c)
    decreases |s|
  {
    hide EncodeChar;
    if s == [] {
      assert s + t == t;
    } else {
      OneByOne(s[1..], t);
      assert (s + t)[1..] == s[1..] + t;
    }
  }
}
