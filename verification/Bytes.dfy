/** Bytes, machine words, big-endian arguments, the byte-string order of
    `Vec<u8>` and the stable sort by encoded key. */
module Bytes {

  const U64_SIZE: int := 0x1_0000_0000_0000_0000
  const I64_MAX: int := 0x7fff_ffff_ffff_ffff
  const I64_MIN: int := -0x8000_0000_0000_0000

  type byte = x: int | 0 <= x < 256

  type u64 = x: int | 0 <= x < 0x1_0000_0000_0000_0000

  type i64 = x: int | -0x8000_0000_0000_0000 <= x <= 0x7fff_ffff_ffff_ffff

  /** A vector: its length always fits the 64-bit length of a CBOR head. */
  type Vec<T> = s: seq<T> | |s| < 0x1_0000_0000_0000_0000

  /** A 32-byte digest. */
  type Digest = d: seq<byte> | |d| == 32 witness seq(32, _ => 0)

  /** Stands in for an id where there is none. */
  const ZERO_ID: Digest :=
    [0, 0, 0, 0, 0, 0, 0, 0, 0, 0, 0, 0, 0, 0, 0, 0, 0, 0, 0, 0, 0, 0, 0, 0, 0, 0, 0, 0, 0, 0, 0, 0]

  // ------------------------------------------------------------------
  // Big-endian numbers
  // ------------------------------------------------------------------

  function Pow256(k: nat): (r: nat)
    ensures r >= 1
  {
    if k == 0 then 1 else 256 * Pow256(k - 1)
  }

  function ToBigEndian(k: nat, n: nat): (s: seq<byte>)
    ensures |s| == k
  {
    if k == 0 then [] else ToBigEndian(k - 1, n / 256) + [n % 256]
  }

  function FromBigEndian(s: seq<byte>): (n: nat)
    ensures n < Pow256(|s|)
  {
    if s == [] then 0 else FromBigEndian(s[..|s| - 1]) * 256 + s[|s| - 1]
  }

  lemma {:induction false} BigEndianRead(k: nat, n: nat)
    requires n < Pow256(k)
    ensures FromBigEndian(ToBigEndian(k, n)) == n
  {
    if k > 0 {
      BigEndianRead(k - 1, n / 256);
      var s := ToBigEndian(k, n);
      assert s[..|s| - 1] == ToBigEndian(k - 1, n / 256);
    }
  }

  lemma LowByte(n: nat, b: byte)
    ensures (n * 256 + b) / 256 == n && (n * 256 + b) % 256 == b
  {
  }

  lemma {:induction false} BigEndianWrite(s: seq<byte>)
    ensures ToBigEndian(|s|, FromBigEndian(s)) == s
  {
    if s != [] {
      var front, last := s[..|s| - 1], s[|s| - 1];
      BigEndianWrite(front);
      assert FromBigEndian(s) == FromBigEndian(front) * 256 + last;
      LowByte(FromBigEndian(front), last);
      assert s == front + [last];
    }
  }

  lemma Pow256Values()
    ensures Pow256(1) == 0x100
    ensures Pow256(2) == 0x1_0000
    ensures Pow256(4) == 0x1_0000_0000
    ensures Pow256(8) == 0x1_0000_0000_0000_0000
  {
    assert Pow256(1) == 256 * Pow256(0);
    assert Pow256(2) == 256 * Pow256(1);
    assert Pow256(3) == 256 * Pow256(2);
    assert Pow256(4) == 256 * Pow256(3);
    assert Pow256(5) == 256 * Pow256(4);
    assert Pow256(6) == 256 * Pow256(5);
    assert Pow256(7) == 256 * Pow256(6);
    assert Pow256(8) == 256 * Pow256(7);
  }

  // ------------------------------------------------------------------
  // Bytewise order
  // ------------------------------------------------------------------

  /** The order of `Vec<u8>`: the first difference decides, a proper prefix
      is smaller. */
  predicate LexLess(a: seq<byte>, b: seq<byte>)
  {
    if b == [] then false
    else if a == [] then true
    else a[0] < b[0] || (a[0] == b[0] && LexLess(a[1..], b[1..]))
  }

  lemma {:induction false} LexIrreflexive(a: seq<byte>)
    ensures !LexLess(a, a)
  {
    if a != [] { LexIrreflexive(a[1..]); }
  }

  lemma {:induction false} LexTransitive(a: seq<byte>, b: seq<byte>, c: seq<byte>)
    requires LexLess(a, b) && LexLess(b, c)
    ensures LexLess(a, c)
  {
    if a != [] && a[0] == b[0] && b[0] == c[0] {
      LexTransitive(a[1..], b[1..], c[1..]);
    }
  }

  lemma {:induction false} LexTotal(a: seq<byte>, b: seq<byte>)
    ensures a == b || LexLess(a, b) || LexLess(b, a)
  {
    if a != [] && b != [] && a[0] == b[0] {
      LexTotal(a[1..], b[1..]);
      assert a == [a[0]] + a[1..] && b == [b[0]] + b[1..];
    }
  }

  lemma LexAsymmetric(a: seq<byte>, b: seq<byte>)
    requires LexLess(a, b)
    ensures !LexLess(b, a)
  {
    if LexLess(b, a) {
      LexTransitive(a, b, a);
      LexIrreflexive(a);
    }
  }

  /** `b` not below `a` and `c` not below `b`: the weak order is transitive. */
  lemma LexWeakTransitive(a: seq<byte>, b: seq<byte>, c: seq<byte>)
    requires !LexLess(b, a) && !LexLess(c, b)
    ensures !LexLess(c, a)
  {
    if LexLess(c, a) {
      LexTotal(a, b);
      if a == b {
      } else {
        LexTransitive(c, a, b);
      }
    }
  }

  // ------------------------------------------------------------------
  // Stable sort by key
  // ------------------------------------------------------------------

  datatype Keyed<+T> = Keyed(key: seq<byte>, val: T)

  function Insert<T>(x: Keyed<T>, xs: seq<Keyed<T>>): (r: seq<Keyed<T>>)
    ensures |r| == |xs| + 1
  {
    if xs == [] || !LexLess(xs[0].key, x.key) then [x] + xs
    else [xs[0]] + Insert(x, xs[1..])
  }

  /** `slice::sort_by` on the key: the stable sort, written as insertion. */
  function SortByKey<T>(xs: seq<Keyed<T>>): (r: seq<Keyed<T>>)
    ensures |r| == |xs|
  {
    if xs == [] then [] else Insert(xs[0], SortByKey(xs[1..]))
  }

  ghost predicate Ascending<T>(xs: seq<Keyed<T>>)
  {
    forall i, j :: 0 <= i < j < |xs| ==> !LexLess(xs[j].key, xs[i].key)
  }

  predicate StrictlyAscending<T>(xs: seq<Keyed<T>>)
  {
    forall i, j :: 0 <= i < j < |xs| ==> LexLess(xs[i].key, xs[j].key)
  }

  /** Two neighbours with the same key, as the encoder's window scan looks for. */
  predicate AdjacentDuplicate<T>(xs: seq<Keyed<T>>)
  {
    exists i :: 0 <= i < |xs| - 1 && xs[i].key == xs[i + 1].key
  }

  lemma {:induction false} InsertKeeps<T>(x: Keyed<T>, xs: seq<Keyed<T>>)
    requires Ascending(xs)
    ensures Ascending(Insert(x, xs))
    ensures multiset(Insert(x, xs)) == multiset([x]) + multiset(xs)
  {
    hide LexLess;
    if xs == [] {
    } else if !LexLess(xs[0].key, x.key) {
      var r := [x] + xs;
      assert multiset(r) == multiset([x]) + multiset(xs);
      forall i, j | 0 <= i < j < |r|
        ensures !LexLess(r[j].key, r[i].key)
      {
        if i == 0 {
          if j > 1 { LexWeakTransitive(x.key, xs[0].key, xs[j - 1].key); }
        }
      }
    } else {
      var t := xs[1..];
      InsertKeeps(x, t);
      var rt := Insert(x, t);
      var r := [xs[0]] + rt;
      assert xs == [xs[0]] + t;
      assert multiset(r) == multiset([xs[0]]) + multiset(rt);
      LexAsymmetric(xs[0].key, x.key);
      forall j | 0 < j < |r|
        ensures !LexLess(r[j].key, xs[0].key)
      {
        assert r[j] in multiset(rt);
        assert r[j] == x || r[j] in t;
      }
    }
  }

  lemma {:induction false} SortSorts<T>(xs: seq<Keyed<T>>)
    ensures Ascending(SortByKey(xs))
    ensures multiset(SortByKey(xs)) == multiset(xs)
  {
    if xs != [] {
      SortSorts(xs[1..]);
      InsertKeeps(xs[0], SortByKey(xs[1..]));
      assert xs == [xs[0]] + xs[1..];
    }
  }

  lemma {:induction false} SortMembers<T(!new)>(xs: seq<Keyed<T>>)
    ensures forall x :: x in SortByKey(xs) <==> x in xs
  {
    SortSorts(xs);
    forall x
      ensures x in SortByKey(xs) <==> x in xs
    {
      assert x in xs <==> x in multiset(xs);
      assert x in SortByKey(xs) <==> x in multiset(SortByKey(xs));
    }
  }

  /** Stability: an already ascending list is left as it is. */
  lemma {:induction false} SortOfAscending<T>(xs: seq<Keyed<T>>)
    requires Ascending(xs)
    ensures SortByKey(xs) == xs
  {
    if xs != [] {
      SortOfAscending(xs[1..]);
      assert xs == [xs[0]] + xs[1..];
      if |xs| > 1 { assert !LexLess(xs[1].key, xs[0].key); }
    }
  }

  lemma StrictIsAscending<T>(xs: seq<Keyed<T>>)
    requires StrictlyAscending(xs)
    ensures Ascending(xs) && !AdjacentDuplicate(xs) && SortByKey(xs) == xs
  {
    forall i, j | 0 <= i < j < |xs|
      ensures !LexLess(xs[j].key, xs[i].key)
    {
      LexAsymmetric(xs[i].key, xs[j].key);
    }
    forall i | 0 <= i < |xs| - 1
      ensures xs[i].key != xs[i + 1].key
    {
      LexIrreflexive(xs[i].key);
    }
    SortOfAscending(xs);
  }

  lemma AscendingNoDuplicateIsStrict<T>(xs: seq<Keyed<T>>)
    requires Ascending(xs) && !AdjacentDuplicate(xs)
    ensures StrictlyAscending(xs)
  {
    forall i, j | 0 <= i < j < |xs|
      ensures LexLess(xs[i].key, xs[j].key)
    {
      assert xs[i].key != xs[i + 1].key;
      LexTotal(xs[i].key, xs[i + 1].key);
      LexTotal(xs[i].key, xs[j].key);
    }
  }

  predicate DistinctKeys<T>(xs: seq<Keyed<T>>)
  {
    forall i, j :: 0 <= i < j < |xs| ==> xs[i].key != xs[j].key
  }

  lemma {:induction false} InsertDistinct<T(!new)>(x: Keyed<T>, xs: seq<Keyed<T>>)
    requires DistinctKeys(xs) && forall i :: 0 <= i < |xs| ==> xs[i].key != x.key
    ensures DistinctKeys(Insert(x, xs))
    ensures forall y :: y in Insert(x, xs) ==> y == x || y in xs
  {
    hide LexLess;
    if xs != [] && LexLess(xs[0].key, x.key) {
      InsertDistinct(x, xs[1..]);
      assert xs == [xs[0]] + xs[1..];
      var t, r := xs[1..], Insert(x, xs[1..]);
      forall j | 0 <= j < |r|
        ensures r[j].key != xs[0].key
      {
        var y := r[j];
        assert y in r;
        if y != x {
          var k :| 0 <= k < |t| && t[k] == y;
          assert xs[0].key != xs[k + 1].key;
        }
      }
    }
  }

  /** Sorting entries with different keys leaves no two neighbours with the same
      key. */
  lemma {:induction false} SortDistinct<T(!new)>(xs: seq<Keyed<T>>)
    requires DistinctKeys(xs)
    ensures StrictlyAscending(SortByKey(xs)) && !AdjacentDuplicate(SortByKey(xs))
  {
    SortKeepsDistinct(xs);
    SortSorts(xs);
    AscendingNoDuplicateIsStrict(SortByKey(xs));
  }

  lemma {:induction false} InsertMembers<T(!new)>(x: Keyed<T>, xs: seq<Keyed<T>>)
    ensures forall y :: y in Insert(x, xs) <==> y == x || y in xs
  {
    hide LexLess;
    if xs != [] && LexLess(xs[0].key, x.key) {
      InsertMembers(x, xs[1..]);
      assert xs == [xs[0]] + xs[1..];
    }
  }

  lemma {:induction false} InsertReflects<T(!new)>(x: Keyed<T>, xs: seq<Keyed<T>>)
    requires DistinctKeys(Insert(x, xs))
    ensures DistinctKeys(xs) && forall i :: 0 <= i < |xs| ==> xs[i].key != x.key
  {
    hide LexLess;
    var all := Insert(x, xs);
    if xs == [] || !LexLess(xs[0].key, x.key) {
      assert all == [x] + xs;
      forall i | 0 <= i < |xs|
        ensures xs[i].key != x.key
      {
        assert all[0].key != all[i + 1].key;
      }
      assert all[1..] == xs;
    } else {
      var t, r := xs[1..], Insert(x, xs[1..]);
      assert all == [xs[0]] + r;
      assert all[1..] == r;
      forall i, j | 0 <= i < j < |r|
        ensures r[i].key != r[j].key
      {
        assert all[i + 1] == r[i] && all[j + 1] == r[j];
      }
      InsertReflects(x, t);
      InsertMembers(x, t);
      LexIrreflexive(xs[0].key);
      forall j | 0 <= j < |t|
        ensures t[j].key != xs[0].key
      {
        assert t[j] in r;
        var k :| 0 <= k < |r| && r[k] == t[j];
        assert all[0].key != all[k + 1].key;
      }
    }
  }

  /** And sorting never hides a repeated key from the scan of neighbours. */
  lemma {:induction false} SortReflectsDistinct<T(!new)>(xs: seq<Keyed<T>>)
    requires !AdjacentDuplicate(SortByKey(xs))
    ensures DistinctKeys(xs)
  {
    SortSorts(xs);
    AscendingNoDuplicateIsStrict(SortByKey(xs));
    StrictIsDistinct(SortByKey(xs));
    DistinctBeforeSorting(xs);
  }

  lemma StrictIsDistinct<T>(xs: seq<Keyed<T>>)
    requires StrictlyAscending(xs)
    ensures DistinctKeys(xs)
  {
    forall i, j | 0 <= i < j < |xs|
      ensures xs[i].key != xs[j].key
    {
      LexIrreflexive(xs[i].key);
    }
  }

  lemma {:induction false} DistinctBeforeSorting<T(!new)>(xs: seq<Keyed<T>>)
    requires DistinctKeys(SortByKey(xs))
    ensures DistinctKeys(xs)
  {
    if xs != [] {
      var rest := xs[1..];
      var t := SortByKey(rest);
      InsertReflects(xs[0], t);
      DistinctBeforeSorting(rest);
      SortMembers(rest);
      forall j | 0 <= j < |rest|
        ensures rest[j].key != xs[0].key
      {
        assert rest[j] in t;
        var k :| 0 <= k < |t| && t[k] == rest[j];
      }
    }
  }

  lemma {:induction false} SortKeepsDistinct<T(!new)>(xs: seq<Keyed<T>>)
    requires DistinctKeys(xs)
    ensures DistinctKeys(SortByKey(xs))
  {
    if xs != [] {
      var rest := xs[1..];
      var t := SortByKey(rest);
      SortKeepsDistinct(rest);
      SortMembers(rest);
      forall i | 0 <= i < |t|
        ensures t[i].key != xs[0].key
      {
        var y := t[i];
        assert y in t;
        var k :| 0 <= k < |rest| && rest[k] == y;
        assert xs[0].key != xs[k + 1].key;
      }
      InsertDistinct(xs[0], t);
    }
  }

  /** Only one strictly ascending list has given members. */
  lemma {:induction false} AscendingUnique<T(!new)>(xs: seq<Keyed<T>>, ys: seq<Keyed<T>>)
    requires StrictlyAscending(xs) && StrictlyAscending(ys)
    requires forall x :: x in xs <==> x in ys
    ensures xs == ys
  {
    hide LexLess;
    assert ys == [] || ys[0] in ys;
    if xs != [] {
      assert xs[0] in ys && ys[0] in xs;
      var i :| 0 <= i < |ys| && ys[i] == xs[0];
      var j :| 0 <= j < |xs| && xs[j] == ys[0];
      if i > 0 && j > 0 { LexAsymmetric(xs[0].key, ys[0].key); }
      assert xs[0] == ys[0];
      SmallestIsFirst(xs);
      SmallestIsFirst(ys);
      AscendingUnique(xs[1..], ys[1..]);
      assert xs == [xs[0]] + xs[1..] && ys == [ys[0]] + ys[1..];
    }
  }

  lemma {:induction false} SmallestIsFirst<T(!new)>(xs: seq<Keyed<T>>)
    requires StrictlyAscending(xs) && xs != []
    ensures xs[0] !in xs[1..]
    ensures forall x :: x in xs[1..] <==> x in xs && x != xs[0]
  {
    assert xs == [xs[0]] + xs[1..];
    if xs[0] in xs[1..] {
      var k :| 0 <= k < |xs[1..]| && xs[1..][k] == xs[0];
      assert LexLess(xs[0].key, xs[k + 1].key);
      LexIrreflexive(xs[0].key);
    }
  }

  function MapVals<A, B>(f: A -> B, xs: seq<Keyed<A>>): (r: seq<Keyed<B>>)
    ensures |r| == |xs|
    ensures forall i :: 0 <= i < |xs| ==> r[i] == Keyed(xs[i].key, f(xs[i].val))
  {
    if xs == [] then [] else [Keyed(xs[0].key, f(xs[0].val))] + MapVals(f, xs[1..])
  }

  lemma {:induction false} InsertMap<A, B>(f: A -> B, x: Keyed<A>, xs: seq<Keyed<A>>)
    ensures MapVals(f, Insert(x, xs)) == Insert(Keyed(x.key, f(x.val)), MapVals(f, xs))
  {
    if xs != [] && LexLess(xs[0].key, x.key) {
      InsertMap(f, x, xs[1..]);
      assert MapVals(f, xs)[1..] == MapVals(f, xs[1..]);
    }
  }

  /** Sorting looks at keys only, so it commutes with changing the payloads. */
  lemma {:induction false} SortMap<A, B>(f: A -> B, xs: seq<Keyed<A>>)
    ensures MapVals(f, SortByKey(xs)) == SortByKey(MapVals(f, xs))
  {
    if xs != [] {
      SortMap(f, xs[1..]);
      InsertMap(f, xs[0], SortByKey(xs[1..]));
      assert MapVals(f, xs)[1..] == MapVals(f, xs[1..]);
    }
  }
}
