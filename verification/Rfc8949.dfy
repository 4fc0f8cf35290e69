/** The wire format stated in the terms of RFC 8949, byte by byte. */
module Rfc8949 {
  import opened Wrappers
  import opened Bytes
  import opened Codec
  import opened CodecProofs
  import Utf8

  // ------------------------------------------------------------------
  // The bytewise lexicographic order
  // ------------------------------------------------------------------

  ghost predicate FirstDifference(a: seq<byte>, b: seq<byte>, i: nat)
  {
    i < |a| && i < |b| && a[..i] == b[..i] && a[i] < b[i]
  }

  /** `a` comes before `b`: it is a proper prefix of `b`, or smaller at the first
      byte where they differ. */
  ghost predicate Before(a: seq<byte>, b: seq<byte>)
  {
    (|a| < |b| && a == b[..|a|]) || exists i: nat :: FirstDifference(a, b, i)
  }

  lemma {:induction false} BytewiseOrder(a: seq<byte>, b: seq<byte>)
    ensures LexLess(a, b) <==> Before(a, b)
  {
    if LexLess(a, b) { LessComesBefore(a, b); }
    if Before(a, b) { BeforeIsLess(a, b); }
  }

  lemma {:induction false} LessComesBefore(a: seq<byte>, b: seq<byte>)
    requires LexLess(a, b)
    ensures Before(a, b)
  {
    if a == [] {
      assert a == b[..|a|];
    } else if a[0] < b[0] {
      assert FirstDifference(a, b, 0);
    } else {
      var s, t := a[1..], b[1..];
      LessComesBefore(s, t);
      assert a == [a[0]] + s && b == [b[0]] + t;
      if i: nat :| FirstDifference(s, t, i) {
        assert a[..i + 1] == [a[0]] + s[..i] && b[..i + 1] == [b[0]] + t[..i];
        assert FirstDifference(a, b, i + 1);
      } else {
        assert b[..|a|] == [b[0]] + t[..|s|];
      }
    }
  }

  lemma {:induction false} BeforeIsLess(a: seq<byte>, b: seq<byte>)
    requires Before(a, b)
    ensures LexLess(a, b)
  {
    if a != [] && b != [] {
      var s, t := a[1..], b[1..];
      if |a| < |b| && a == b[..|a|] {
        assert a[0] == b[..|a|][0] && s == t[..|s|];
        BeforeIsLess(s, t);
      } else {
        var i: nat :| FirstDifference(a, b, i);
        if i > 0 {
          assert a[..i][0] == a[0] && b[..i][0] == b[0];
          assert s[..i - 1] == a[..i][1..] && t[..i - 1] == b[..i][1..];
          assert FirstDifference(s, t, i - 1);
          BeforeIsLess(s, t);
        }
      }
    }
  }

  // ------------------------------------------------------------------
  // Heads and values
  // ------------------------------------------------------------------

  /** Section 3 with the preferred serialization of section 4.1: the argument in
      the fewest bytes, most significant first. */
  function ShortHead(major: nat, n: u64): seq<byte>
    requires major < 8
  {
    if n < 24 then [32 * major + n]
    else if n < 0x100 then [32 * major + 24, n]
    else if n < 0x1_0000 then [32 * major + 25, n / 0x100, n % 0x100]
    else if n < 0x1_0000_0000 then
      [32 * major + 26, n / 0x100_0000, n / 0x1_0000 % 0x100, n / 0x100 % 0x100, n % 0x100]
    else
      [32 * major + 27, n / 0x100_0000_0000_0000, n / 0x1_0000_0000_0000 % 0x100, n / 0x100_0000_0000 % 0x100,
       n / 0x1_0000_0000 % 0x100, n / 0x100_0000 % 0x100, n / 0x1_0000 % 0x100, n / 0x100 % 0x100, n % 0x100]
  }

  lemma Shifts(n: nat)
    ensures n / 0x100 / 0x100 == n / 0x1_0000 && n / 0x1_0000 / 0x100 == n / 0x100_0000
    ensures n / 0x100_0000 / 0x100 == n / 0x1_0000_0000 && n / 0x1_0000_0000 / 0x100 == n / 0x100_0000_0000
    ensures n / 0x1_0000_0000 / 0x1_0000 == n / 0x1_0000_0000_0000
    ensures n / 0x1_0000_0000 / 0x100_0000 == n / 0x100_0000_0000_0000
  {
  }

  lemma Octet(k: nat, n: nat)
    ensures ToBigEndian(k + 1, n) == ToBigEndian(k, n / 0x100) + [n % 0x100]
    ensures ToBigEndian(0, n) == []
  {
  }

  lemma {:induction false} TwoOctets(n: nat)
    requires n < 0x1_0000
    ensures ToBigEndian(2, n) == [n / 0x100, n % 0x100]
  {
    hide ToBigEndian;
    Octet(1, n);
    Octet(0, n / 0x100);
  }

  lemma {:induction false} FourOctets(n: nat)
    requires n < 0x1_0000_0000
    ensures ToBigEndian(4, n) == [n / 0x100_0000, n / 0x1_0000 % 0x100, n / 0x100 % 0x100, n % 0x100]
  {
    hide ToBigEndian;
    Octet(3, n);
    Octet(2, n / 0x100);
    TwoOctets(n / 0x100 / 0x100);
    Shifts(n);
  }

  lemma {:induction false} EightOctets(n: u64)
    ensures ToBigEndian(8, n)
         == [n / 0x100_0000_0000_0000, n / 0x1_0000_0000_0000 % 0x100, n / 0x100_0000_0000 % 0x100,
             n / 0x1_0000_0000 % 0x100, n / 0x100_0000 % 0x100, n / 0x1_0000 % 0x100, n / 0x100 % 0x100, n % 0x100]
  {
    hide ToBigEndian;
    Octet(7, n);
    Octet(6, n / 0x100);
    Octet(5, n / 0x1_0000);
    Octet(4, n / 0x100_0000);
    FourOctets(n / 0x1_0000_0000);
    Shifts(n);
  }

  lemma {:induction false} HeadIs(major: nat, n: u64)
    requires major < 8
    ensures Head(major, n) == ShortHead(major, n)
  {
    hide ToBigEndian;
    Octet(0, n);
    if n < 0x1_0000 { TwoOctets(n); }
    if n < 0x1_0000_0000 { FourOctets(n); }
    EightOctets(n);
  }

  /** The encodings of the items, one after the other. */
  function InOrder(items: seq<Value>): Option<seq<byte>>
  {
    if items == [] then Some([])
    else
      var first :- Encode(items[0]);
      var rest :- InOrder(items[1..]);
      Some(first + rest)
  }

  lemma {:induction false} ItemsInOrder(items: seq<Value>)
    ensures InOrder(items) == if EncodingAll(items).ok then Some(EncodingAll(items).bytes) else None
  {
    hide Encoding;
    if items != [] { ItemsInOrder(items[1..]); }
  }

  /** What every value but a map is encoded as. */
  lemma {:induction false} EncodedAs(v: Value)
    requires !v.Map?
    ensures Encode(v) ==
      match v
      case Uint(n) => Some(ShortHead(0, n))
      case Nint(n) => Some(ShortHead(1, n))
      case Bytes(b) => Some(ShortHead(2, |b|) + b)
      case Text(s) => Some(ShortHead(3, |Utf8.Encode(s)|) + Utf8.Encode(s))
      case Array(items) =>
        if InOrder(items).None? then None else Some(ShortHead(4, |items|) + InOrder(items).value)
      case Bool(f) => Some(if f then [0xf5] else [0xf4])
      case Null => Some([0xf6])
      case Map(_) => None
  {
    hide Head, ShortHead;
    match v
    case Uint(n) => HeadIs(0, n);
    case Nint(n) => HeadIs(1, n);
    case Bytes(b) => HeadIs(2, |b|);
    case Text(s) => HeadIs(3, |Utf8.Encode(s)|);
    case Array(items) =>
      HeadIs(4, |items|);
      ItemsInOrder(items);
    case _ =>
  }

  // ------------------------------------------------------------------
  // Maps
  // ------------------------------------------------------------------

  /** Keys and values, each followed by the next, in the given order. */
  function Listing(entries: seq<Entry>): Option<seq<byte>>
  {
    if entries == [] then Some([])
    else
      var key :- Encode(entries[0].key);
      var val :- Encode(entries[0].val);
      var rest :- Listing(entries[1..]);
      Some(key + val + rest)
  }

  /** The key of `e`, encoded, comes before that of the next entry. */
  ghost predicate InTurn(e: Entry, next: Entry)
  {
    Encode(e.key).Some? && Encode(next.key).Some? && Before(Encode(e.key).value, Encode(next.key).value)
  }

  ghost predicate Ascends(entries: seq<Entry>)
  {
    forall i, j :: 0 <= i && j == i + 1 < |entries| ==> InTurn(entries[i], entries[j])
  }

  lemma {:induction false} ListingOfPairs(entries: seq<Entry>)
    ensures Listing(entries).Some? <==> EncodedPairs(entries).Some?
    ensures EncodedPairs(entries).Some? ==> Listing(entries) == Some(Flatten(EncodedPairs(entries).value))
  {
    hide Encoding;
    if entries != [] {
      ListingOfPairs(entries[1..]);
      if EncodedPairs(entries).Some? {
        assert EncodedPairs(entries).value[1..] == EncodedPairs(entries[1..]).value;
      }
    }
  }

  /** Neighbours that ascend make a strictly ascending list. */
  lemma {:induction false} AscendsIsStrict(entries: seq<Entry>)
    requires forall e :: e in entries ==> Encodes(e)
    ensures Ascends(entries) <==> StrictlyAscending(KeyedByEncoding(entries))
  {
    hide LexLess, Encoding, Before;
    var xs := KeyedByEncoding(entries);
    forall i | 0 <= i < |entries|
      ensures Encode(entries[i].key) == Some(xs[i].key)
    {
      assert Encodes(entries[i]);
    }
    forall i, j | 0 <= i && j == i + 1 < |entries|
      ensures LexLess(xs[i].key, xs[j].key) <==> InTurn(entries[i], entries[j])
    {
      BytewiseOrder(xs[i].key, xs[j].key);
    }
    if Ascends(entries) {
      forall i, j | 0 <= i < j < |xs|
        ensures LexLess(xs[i].key, xs[j].key)
      {
        NeighboursReach(xs, i, j);
      }
    }
  }

  lemma {:induction false} NeighboursReach<T>(xs: seq<Keyed<T>>, i: nat, j: nat)
    requires i < j < |xs| && forall k, l :: 0 <= k && l == k + 1 < |xs| ==> LexLess(xs[k].key, xs[l].key)
    ensures LexLess(xs[i].key, xs[j].key)
    decreases j
  {
    hide LexLess;
    if i + 1 < j {
      NeighboursReach(xs, i, j - 1);
      assert LexLess(xs[j - 1].key, xs[j].key);
      LexTransitive(xs[i].key, xs[j - 1].key, xs[j].key);
    }
  }

  lemma {:induction false} PayloadCount(xs: seq<Keyed<Entry>>, e: Entry)
    requires forall i :: 0 <= i < |xs| ==> xs[i].key == Encoding(xs[i].val.key).bytes
    ensures multiset(Payloads(xs))[e] == multiset(xs)[Keyed(Encoding(e.key).bytes, e)]
  {
    hide Encoding;
    if xs != [] {
      PayloadCount(xs[1..], e);
      assert xs == [xs[0]] + xs[1..];
      assert Payloads(xs) == [xs[0].val] + Payloads(xs[1..]);
      assert xs[0] == Keyed(xs[0].key, xs[0].val);
    }
  }

  /** The entries in the order in which the encoder writes them. */
  function Sorted(entries: seq<Entry>): seq<Entry> { Payloads(SortByKey(KeyedByEncoding(entries))) }

  lemma {:induction false} SortedTagged(entries: seq<Entry>)
    ensures KeyedByEncoding(Sorted(entries)) == SortByKey(KeyedByEncoding(entries))
    ensures multiset(Sorted(entries)) == multiset(entries)
  {
    hide Encoding, SortByKey;
    var xs := KeyedByEncoding(entries);
    var sorted := SortByKey(xs);
    SortSorts(xs);
    TagsStay(entries, sorted);
    SamePayloads(entries, sorted);
  }

  lemma {:induction false} SamePayloads(entries: seq<Entry>, sorted: seq<Keyed<Entry>>)
    requires multiset(sorted) == multiset(KeyedByEncoding(entries))
    requires forall i :: 0 <= i < |sorted| ==> sorted[i].key == Encoding(sorted[i].val.key).bytes
    ensures multiset(Payloads(sorted)) == multiset(entries)
  {
    hide Encoding;
    var xs := KeyedByEncoding(entries);
    assert Payloads(xs) == entries;
    forall e: Entry
      ensures multiset(Payloads(sorted))[e] == multiset(entries)[e]
    {
      PayloadCount(sorted, e);
      PayloadCount(xs, e);
    }
  }

  lemma {:induction false} TagsStay(entries: seq<Entry>, sorted: seq<Keyed<Entry>>)
    requires multiset(sorted) == multiset(KeyedByEncoding(entries))
    ensures forall i :: 0 <= i < |sorted| ==> sorted[i].key == Encoding(sorted[i].val.key).bytes
    ensures KeyedByEncoding(Payloads(sorted)) == sorted
  {
    hide Encoding;
    var xs := KeyedByEncoding(entries);
    forall i | 0 <= i < |sorted|
      ensures sorted[i].key == Encoding(sorted[i].val.key).bytes
    {
      assert sorted[i] in multiset(sorted) && sorted[i] in multiset(xs);
      var j :| 0 <= j < |xs| && xs[j] == sorted[i];
    }
    forall i | 0 <= i < |sorted|
      ensures KeyedByEncoding(Payloads(sorted))[i] == sorted[i]
    {
      assert sorted[i] == Keyed(sorted[i].key, sorted[i].val);
    }
  }

  /** Section 4.2.1: an encodable map is encoded as its head and its entries, none
      lost or added, listed so that the encoding of each key comes bytewise after
      the encoding of the key before it. */
  lemma {:induction false} MapListed(entries: Vec<Entry>) returns (order: seq<Entry>)
    requires Encode(Map(entries)).Some?
    ensures multiset(order) == multiset(entries) && Ascends(order) && Listing(order).Some?
    ensures Encode(Map(entries)) == Some(ShortHead(5, |entries|) + Listing(order).value)
  {
    order := Sorted(entries);
    hide Encoding, LexLess, Sorted, Ascends, ShortHead, Head, SortByKey, Flatten;
    MapWritten(entries);
    PairsOf(entries);
    SortedTagged(entries);
    forall e | e in order
      ensures Encodes(e)
    {
      assert e in multiset(order);
    }
    PairsOf(order);
    ListingOfPairs(order);
    SortMap(ValueBytes(), KeyedByEncoding(entries));
    StrictAfterSorting(entries);
    AscendsIsStrict(order);
    HeadIs(5, |entries|);
  }

  lemma MapWritten(entries: Vec<Entry>)
    requires Encode(Map(entries)).Some?
    ensures EncodedPairs(entries).Some?
    ensures var sorted := SortByKey(EncodedPairs(entries).value);
      !AdjacentDuplicate(sorted) && Encode(Map(entries)) == Some(Head(5, |entries|) + Flatten(sorted))
  {
    hide EncodedPairs, SortByKey, AdjacentDuplicate, Flatten, Head;
  }

  lemma {:induction false} StrictAfterSorting(entries: Vec<Entry>)
    requires EncodedPairs(entries).Some? && !AdjacentDuplicate(SortByKey(EncodedPairs(entries).value))
    ensures StrictlyAscending(SortByKey(KeyedByEncoding(entries)))
  {
    hide Encoding, LexLess, SortByKey;
    PairsOf(entries);
    SortMap(ValueBytes(), KeyedByEncoding(entries));
    MapValsKeys(ValueBytes(), SortByKey(KeyedByEncoding(entries)));
    SortSorts(KeyedByEncoding(entries));
    AscendingNoDuplicateIsStrict(SortByKey(KeyedByEncoding(entries)));
  }

  // ------------------------------------------------------------------
  // No other order is accepted
  // ------------------------------------------------------------------

  lemma {:induction false} SameFront(v: Value, w: Value, s: seq<byte>, t: seq<byte>)
    requires IsCanonical(v) && IsCanonical(w) && Encoding(v).bytes + s == Encoding(w).bytes + t
    ensures v == w && s == t
  {
    hide Encoding, IsCanonical, Parse;
    var limit := Max(Depth(v), Depth(w));
    ParseEncoded(v, s, 0, limit);
    ParseEncoded(w, t, 0, limit);
    var a, b := Encoding(v).bytes, Encoding(w).bytes;
    assert s == (a + s)[|a|..] && t == (b + t)[|b|..];
  }

  lemma {:induction false} SameListing(es: seq<Entry>, fs: seq<Entry>)
    requires |es| == |fs| && EntriesCanonical(es) && EntriesCanonical(fs)
    requires Listing(es).Some? && Listing(es) == Listing(fs)
    ensures es == fs
  {
    hide Encoding, IsCanonical;
    if es != [] {
      var a, b := es[0], fs[0];
      var s, t := Listing(es[1..]).value, Listing(fs[1..]).value;
      var ak, av, bk, bv := Encoding(a.key).bytes, Encoding(a.val).bytes, Encoding(b.key).bytes, Encoding(b.val).bytes;
      assert Listing(es).value == ak + (av + s) && Listing(fs).value == bk + (bv + t);
      SameFront(a.key, b.key, av + s, bv + t);
      SameFront(a.val, b.val, s, t);
      SameListing(es[1..], fs[1..]);
      assert a == Entry(a.key, a.val) && b == Entry(b.key, b.val);
      assert es == [a] + es[1..] && fs == [b] + fs[1..];
    }
  }

  lemma {:induction false} HeadsDiffer(m: nat, n: u64, s: seq<byte>, k: nat, j: u64, t: seq<byte>)
    requires m < 8 && k < 8 && ShortHead(m, n) + s == ShortHead(k, j) + t
    ensures m == k && n == j && s == t
  {
    HeadIs(m, n);
    HeadIs(k, j);
    hide Head, ShortHead, ReadArg;
    HeadRead(m, n, s);
    HeadRead(k, j, t);
    var a, b := Head(m, n), Head(k, j);
    assert (a + s)[0] == a[0] && (b + t)[0] == b[0];
    assert s == (a + s)[|a|..] && t == (b + t)[|b|..];
  }

  lemma {:induction false} MajorOf(v: Value)
    requires IsCanonical(v)
    ensures Encode(v).Some? && |Encode(v).value| > 0 && (Encode(v).value[0] / 32 == 5 <==> v.Map?)
  {
    hide IsCanonical, Head, EncodingAll, EncodedPairs, Utf8.Encode;
    CanonicalEncodes(v);
    match v
    case Uint(n) => HeadRead(0, n, []);
    case Nint(n) => HeadRead(1, n, []);
    case Bytes(b) => HeadRead(2, |b|, []);
    case Text(s) => HeadRead(3, |Utf8.Encode(s)|, []);
    case Array(items) => HeadRead(4, |items|, []);
    case Map(entries) =>
      MapWritten(entries);
      HeadRead(5, |entries|, []);
    case _ =>
  }

  lemma {:induction false} CanonicalMapListing(entries: Vec<Entry>)
    requires IsCanonical(Map(entries))
    ensures EntriesCanonical(entries) && Ascends(entries) && Listing(entries).Some?
    ensures Encode(Map(entries)) == Some(ShortHead(5, |entries|) + Listing(entries).value)
  {
    hide Encoding, ShortHead, Head, Ascends, Flatten;
    CanonicalEntriesEncode(entries);
    CanonicalEncodes(Map(entries));
    PairsOf(entries);
    ListingOfPairs(entries);
    AscendsIsStrict(entries);
    SortedMap(entries);
    HeadIs(5, |entries|);
  }

  /** The decoder accepts a map listed in a given order if and only if the
      encodings of its keys ascend bytewise: no other order is accepted, nor a
      repeated key. */
  lemma {:induction false} OnlyAscendingAccepted(entries: Vec<Entry>)
    requires EntriesCanonical(entries) && Depth(Map(entries)) <= MAX_DEPTH
    ensures Listing(entries).Some?
    ensures var b := ShortHead(5, |entries|) + Listing(entries).value;
      Decode(b) == if Ascends(entries) then Some(Map(entries)) else None
  {
    hide Encoding, ShortHead, IsCanonical, Decode, Listing, Ascends, Depth;
    ListingDefined(entries);
    var b := ShortHead(5, |entries|) + Listing(entries).value;
    if Ascends(entries) {
      CanonicalEntriesEncode(entries);
      PairsOf(entries);
      AscendsIsStrict(entries);
      assert IsCanonical(Map(entries)) by { MapCanonical(entries); }
      CanonicalMapListing(entries);
      CanonicalOfCanonical(Map(entries));
      EncodeThenDecode(Map(entries));
    } else if Decode(b).Some? {
      DecodeThenEncode(b);
      var w := Decode(b).value;
      MajorOf(w);
      MajorFive(entries, b);
      CanonicalMapListing(w.entries);
      HeadsDiffer(5, |w.entries|, Listing(w.entries).value, 5, |entries|, Listing(entries).value);
      SameListing(w.entries, entries);
    }
  }

  lemma {:induction false} ListingDefined(entries: seq<Entry>)
    requires EntriesCanonical(entries)
    ensures Listing(entries).Some?
  {
    hide Encoding, IsCanonical, Flatten;
    CanonicalEntriesEncode(entries);
    ListingOfPairs(entries);
  }

  lemma MapCanonical(entries: Vec<Entry>)
    requires EntriesCanonical(entries) && StrictlyAscending(KeyedByEncoding(entries))
    ensures IsCanonical(Map(entries))
  {
  }

  lemma {:induction false} MajorFive(entries: Vec<Entry>, b: seq<byte>)
    requires Listing(entries).Some? && b == ShortHead(5, |entries|) + Listing(entries).value
    ensures |b| > 0 && b[0] / 32 == 5
  {
    hide Listing;
  }

  // ------------------------------------------------------------------
  // Reading layouts off
  // ------------------------------------------------------------------

  /** Characters of the ASCII range as octets. */
  function Ascii(s: string): seq<byte>
    requires forall i :: 0 <= i < |s| ==> s[i] as int < 0x80
  {
    if s == [] then [] else [s[0] as int] + Ascii(s[1..])
  }

  lemma {:induction false} AsciiIsUtf8(s: string)
    requires forall i :: 0 <= i < |s| ==> s[i] as int < 0x80
    ensures Utf8.Encode(s) == Ascii(s) && |Ascii(s)| == |s|
  {
    if s != [] { AsciiIsUtf8(s[1..]); }
  }

  lemma {:induction false} AsciiOctets(s: string, octets: seq<byte>)
    requires |s| == |octets| && forall i :: 0 <= i < |s| ==> s[i] as int == octets[i] < 0x80
    ensures Ascii(s) == octets
  {
    if s != [] { AsciiOctets(s[1..], octets[1..]); }
  }

  lemma {:induction false} ListingCons(e: Entry, rest: seq<Entry>)
    ensures Listing([e] + rest)
         == if Encode(e.key).None? || Encode(e.val).None? || Listing(rest).None? then None
            else Some(Encode(e.key).value + Encode(e.val).value + Listing(rest).value)
  {
    hide Encode;
    assert ([e] + rest)[1..] == rest;
  }

  lemma {:induction false} InOrderCons(v: Value, rest: seq<Value>)
    ensures InOrder([v] + rest)
         == if Encode(v).None? || InOrder(rest).None? then None else Some(Encode(v).value + InOrder(rest).value)
  {
    hide Encode;
    assert ([v] + rest)[1..] == rest;
  }

  /** Entries that ascend are the map's listing, however they were ordered in the
      map. */
  lemma {:induction false} ListedAs(entries: Vec<Entry>, order: seq<Entry>)
    requires multiset(order) == multiset(entries) && Ascends(order) && Listing(order).Some?
    ensures Encode(Map(entries)) == Some(ShortHead(5, |entries|) + Listing(order).value)
  {
    hide Encoding, Ascends, ShortHead, Flatten, LexLess, StrictlyAscending;
    assert |order| == |multiset(order)| && |entries| == |multiset(entries)|;
    ListingOfPairs(order);
    PairsOf(order);
    AscendsIsStrict(order);
    forall e | e in entries
      ensures Encodes(e)
    {
      assert e in multiset(entries);
      assert e in multiset(order);
    }
    PairsOf(entries);
    MapSucceeds(entries, order);
    var sorted := MapListed(entries);
    assert forall e :: e in sorted ==> Encodes(e) by {
      forall e | e in sorted ensures Encodes(e) {
        assert e in multiset(sorted);
        assert e in multiset(entries);
      }
    }
    AscendsIsStrict(sorted);
    OneAscendingOrder(sorted, order);
  }

  lemma {:induction false} OneAscendingOrder(a: seq<Entry>, b: seq<Entry>)
    requires multiset(a) == multiset(b)
    requires StrictlyAscending(KeyedByEncoding(a)) && StrictlyAscending(KeyedByEncoding(b))
    ensures a == b
  {
    hide Encoding, LexLess, StrictlyAscending;
    var xs, ys := KeyedByEncoding(a), KeyedByEncoding(b);
    TaggedMembers(a, b);
    TaggedMembers(b, a);
    AscendingUnique(xs, ys);
    forall i | 0 <= i < |a|
      ensures a[i] == b[i]
    {
      assert xs[i].val == a[i] && ys[i].val == b[i];
    }
    assert |a| == |xs| && |b| == |ys|;
  }

  lemma {:induction false} TaggedMembers(a: seq<Entry>, b: seq<Entry>)
    requires multiset(a) == multiset(b)
    ensures forall x :: x in KeyedByEncoding(a) ==> x in KeyedByEncoding(b)
  {
    hide Encoding;
    var xs, ys := KeyedByEncoding(a), KeyedByEncoding(b);
    forall x | x in xs
      ensures x in ys
    {
      var i :| 0 <= i < |xs| && xs[i] == x;
      assert a[i] in multiset(a);
      assert a[i] in multiset(b);
      var j :| 0 <= j < |b| && b[j] == a[i];
      assert ys[j] == x;
    }
  }

  lemma {:induction false} MapSucceeds(entries: Vec<Entry>, order: seq<Entry>)
    requires multiset(order) == multiset(entries) && (forall e :: e in entries ==> Encodes(e))
    requires StrictlyAscending(KeyedByEncoding(order))
    ensures Encode(Map(entries)).Some?
  {
    hide Encoding, LexLess, SortByKey, Flatten;
    PairsOf(entries);
    SortedTagged(entries);
    assert multiset(Sorted(entries)) == multiset(order);
    var pairs := EncodedPairs(entries).value;
    SortMap(ValueBytes(), KeyedByEncoding(entries));
    SortOfPermutation(entries, order);
    MapValsKeys(ValueBytes(), SortByKey(KeyedByEncoding(entries)));
    StrictIsAscending(SortByKey(KeyedByEncoding(entries)));
    MapEncodes(entries);
  }

  lemma {:induction false} TaggedCount(a: seq<Entry>, x: Keyed<Entry>)
    ensures multiset(KeyedByEncoding(a))[x] == if x.key == Encoding(x.val.key).bytes then multiset(a)[x.val] else 0
  {
    hide Encoding;
    if a != [] {
      TaggedCount(a[1..], x);
      assert a == [a[0]] + a[1..];
      assert KeyedByEncoding(a) == [Keyed(Encoding(a[0].key).bytes, a[0])] + KeyedByEncoding(a[1..]);
      assert x == Keyed(x.key, x.val);
    }
  }

  lemma SameTags(a: seq<Entry>, b: seq<Entry>)
    requires multiset(a) == multiset(b)
    ensures multiset(KeyedByEncoding(a)) == multiset(KeyedByEncoding(b))
  {
    hide Encoding;
    forall x: Keyed<Entry>
      ensures multiset(KeyedByEncoding(a))[x] == multiset(KeyedByEncoding(b))[x]
    {
      TaggedCount(a, x);
      TaggedCount(b, x);
    }
  }

  /** Sorting any permutation of a strictly ascending list gives that list. */
  lemma {:induction false} SortOfPermutation(entries: seq<Entry>, order: seq<Entry>)
    requires multiset(order) == multiset(entries) && StrictlyAscending(KeyedByEncoding(order))
    ensures SortByKey(KeyedByEncoding(entries)) == KeyedByEncoding(order)
  {
    hide Encoding, SortByKey;
    SameTags(entries, order);
    SortSorts(KeyedByEncoding(entries));
    SameAscending(SortByKey(KeyedByEncoding(entries)), KeyedByEncoding(order));
  }

  lemma {:induction false} SameAscending<T(!new)>(zs: seq<Keyed<T>>, ys: seq<Keyed<T>>)
    requires Ascending(zs) && StrictlyAscending(ys) && multiset(zs) == multiset(ys)
    ensures zs == ys
  {
    hide LexLess, Ascending, StrictlyAscending;
    assert |zs| == |multiset(zs)| && |ys| == |multiset(ys)|;
    if zs != [] {
      SameFirst(zs, ys);
      ShorterAscends(zs, ys);
      SplitFirst(zs);
      SplitFirst(ys);
      SameAscending(zs[1..], ys[1..]);
    }
  }

  lemma {:induction false} SameFirst<T>(zs: seq<Keyed<T>>, ys: seq<Keyed<T>>)
    requires Ascending(zs) && StrictlyAscending(ys) && multiset(zs) == multiset(ys) && zs != [] && ys != []
    ensures zs[0] == ys[0]
  {
    hide LexLess;
    assert zs[0] in multiset(zs) && ys[0] in multiset(ys);
    assert zs[0] in multiset(ys) && ys[0] in multiset(zs);
    var i :| 0 <= i < |ys| && ys[i] == zs[0];
    var j :| 0 <= j < |zs| && zs[j] == ys[0];
    assert i == 0 || LexLess(ys[0].key, ys[i].key);
    LexIrreflexive(ys[0].key);
    assert j == 0 || !LexLess(zs[j].key, zs[0].key);
  }

  lemma ShorterAscends<T>(zs: seq<Keyed<T>>, ys: seq<Keyed<T>>)
    requires Ascending(zs) && StrictlyAscending(ys) && zs != [] && ys != []
    ensures Ascending(zs[1..]) && StrictlyAscending(ys[1..])
  {
    hide LexLess;
    assert forall i :: 0 <= i < |zs| - 1 ==> zs[1..][i] == zs[i + 1];
    assert forall i :: 0 <= i < |ys| - 1 ==> ys[1..][i] == ys[i + 1];
  }

  lemma SplitFirst<T>(xs: seq<T>)
    requires xs != []
    ensures xs == [xs[0]] + xs[1..] && multiset(xs[1..]) == multiset(xs) - multiset{xs[0]}
  {
    assert xs == [xs[0]] + xs[1..];
  }
}
