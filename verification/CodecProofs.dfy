/** The canonical codec is an exact bijection (section 4.2.1 of RFC 8949). */
module CodecProofs {
  import opened Wrappers
  import opened Bytes
  import opened Codec
  import Utf8

  // ------------------------------------------------------------------
  // Heads
  // ------------------------------------------------------------------

  lemma {:induction false} HeadRead(major: nat, arg: u64, rest: seq<byte>)
    requires major < 8
    ensures var h := Head(major, arg);
      h[0] / 32 == major
      && (h + rest)[1..] == h[1..] + rest
      && ReadArg(h[1..] + rest, h[0] % 32) == Some(Parsed(arg, |h| - 1))
  {
    hide FromBigEndian, ToBigEndian;
    Pow256Values();
    if 24 <= arg {
      if arg <= 0xff {
        WideRead(1, arg, rest, 24);
      } else if arg <= 0xffff {
        WideRead(2, arg, rest, 0x100);
      } else if arg <= 0xffff_ffff {
        WideRead(4, arg, rest, 0x1_0000);
      } else {
        WideRead(8, arg, rest, 0x1_0000_0000);
      }
    }
  }

  lemma {:induction false} WideRead(width: nat, arg: u64, rest: seq<byte>, least: nat)
    requires width in {1, 2, 4, 8} && least <= arg < Pow256(width)
    ensures ReadWide(ToBigEndian(width, arg) + rest, width, least) == Some(Parsed(arg, width))
  {
    hide FromBigEndian, ToBigEndian;
    var b := ToBigEndian(width, arg);
    assert (b + rest)[..width] == b;
    BigEndianRead(width, arg);
  }

  lemma {:induction false} HeadWrite(major: nat, low: nat, s: seq<byte>)
    requires major < 8 && low < 32 && ReadArg(s, low).Some?
    ensures var a := ReadArg(s, low).value;
      Head(major, a.value) == [major * 32 + low] + s[..a.used]
  {
    var a := ReadArg(s, low).value;
    if low >= 24 {
      Pow256Values();
      var arg := s[..a.used];
      assert a.value == FromBigEndian(arg);
      BigEndianWrite(arg);
      assert ToBigEndian(a.used, a.value) == arg;
    }
  }

  // ------------------------------------------------------------------
  // Encoded entries
  // ------------------------------------------------------------------

  function ValueBytes(): Entry -> seq<byte> { (e: Entry) => Encoding(e.val).bytes }

  ghost predicate Encodes(e: Entry) { Encoding(e.key).ok && Encoding(e.val).ok }

  /** The encoder fails on a map's contents exactly when some key or value
      does; otherwise it works on the tagged entries in the given order. */
  lemma {:induction false} PairsOf(entries: seq<Entry>)
    ensures EncodedPairs(entries).Some? <==> forall e :: e in entries ==> Encodes(e)
    ensures EncodedPairs(entries).Some? ==>
      EncodedPairs(entries).value == MapVals(ValueBytes(), KeyedByEncoding(entries))
  {
    if entries != [] {
      PairsOf(entries[1..]);
      assert KeyedByEncoding(entries)[1..] == KeyedByEncoding(entries[1..]);
      if !Encodes(entries[0]) {
        assert entries[0] in entries;
      } else if EncodedPairs(entries[1..]).None? {
        var e :| e in entries[1..] && !Encodes(e);
        assert e in entries;
      } else {
        assert forall e :: e in entries ==> e == entries[0] || e in entries[1..];
      }
    }
  }

  lemma {:induction false} MapValsKeys<A, B>(f: A -> B, xs: seq<Keyed<A>>)
    ensures StrictlyAscending(MapVals(f, xs)) <==> StrictlyAscending(xs)
    ensures AdjacentDuplicate(MapVals(f, xs)) <==> AdjacentDuplicate(xs)
  {
    var ys := MapVals(f, xs);
    if StrictlyAscending(ys) {
      forall i, j | 0 <= i < j < |xs| ensures LexLess(xs[i].key, xs[j].key) {
        assert LexLess(ys[i].key, ys[j].key);
      }
    }
    if AdjacentDuplicate(xs) {
      var i :| 0 <= i < |xs| - 1 && xs[i].key == xs[i + 1].key;
      assert ys[i].key == ys[i + 1].key;
    }
  }

  lemma {:induction false} EntriesCanonicalEach(entries: seq<Entry>)
    ensures EntriesCanonical(entries) <==> forall e :: e in entries ==> IsCanonical(e.key) && IsCanonical(e.val)
  {
    if entries != [] {
      EntriesCanonicalEach(entries[1..]);
      assert entries == [entries[0]] + entries[1..];
    }
  }

  /** A value in canonical form always encodes. */
  lemma {:induction false} CanonicalEncodes(v: Value)
    requires IsCanonical(v)
    ensures Encoding(v).ok
    decreases v
  {
    match v
    case Array(items) => CanonicalAllEncodes(items);
    case Map(entries) => CanonicalEntriesEncode(entries); SortedMap(entries);
    case _ =>
  }

  lemma {:induction false} CanonicalAllEncodes(items: seq<Value>)
    requires AllCanonical(items)
    ensures EncodingAll(items).ok
    decreases items
  {
    if items != [] {
      CanonicalEncodes(items[0]);
      CanonicalAllEncodes(items[1..]);
    }
  }

  lemma {:induction false} CanonicalEntriesEncode(entries: seq<Entry>)
    requires EntriesCanonical(entries)
    ensures EncodedPairs(entries).Some?
    decreases entries
  {
    if entries != [] {
      assert entries[0].key < entries[0] && entries[0].val < entries[0];
      CanonicalEncodes(entries[0].key);
      CanonicalEncodes(entries[0].val);
      CanonicalEntriesEncode(entries[1..]);
    }
  }

  /** The encoder does not reorder entries that already ascend. */
  lemma {:induction false} SortedMap(entries: Vec<Entry>)
    requires EncodedPairs(entries).Some? && StrictlyAscending(KeyedByEncoding(entries))
    ensures Encoding(Map(entries)) == Written(Head(5, |entries|) + Flatten(EncodedPairs(entries).value), true)
  {
    PairsOf(entries);
    MapValsKeys(ValueBytes(), KeyedByEncoding(entries));
    StrictIsAscending(EncodedPairs(entries).value);
  }

  // ------------------------------------------------------------------
  // Every item takes at least one byte
  // ------------------------------------------------------------------

  lemma {:induction false} EncodingNonEmpty(v: Value)
    requires Encoding(v).ok
    ensures |Encoding(v).bytes| >= 1
  {
  }

  lemma {:induction false} EncodingAllLength(items: seq<Value>)
    requires EncodingAll(items).ok
    ensures |EncodingAll(items).bytes| >= |items|
  {
    if items != [] {
      EncodingNonEmpty(items[0]);
      EncodingAllLength(items[1..]);
    }
  }

  lemma {:induction false} FlattenLength(entries: seq<Entry>)
    requires EncodedPairs(entries).Some?
    ensures |Flatten(EncodedPairs(entries).value)| >= |entries|
  {
    if entries != [] {
      EncodingNonEmpty(entries[0].key);
      FlattenLength(entries[1..]);
      assert EncodedPairs(entries).value[1..] == EncodedPairs(entries[1..]).value;
    }
  }

  // ------------------------------------------------------------------
  // Decoding what was encoded
  // ------------------------------------------------------------------

  /** Reading the encoding of a canonical value gives the value back and stops
      where the encoding stops. */
  lemma {:induction false} ParseEncoded(v: Value, rest: seq<byte>, depth: nat, limit: nat)
    requires IsCanonical(v) && depth + Depth(v) <= limit
    ensures Encoding(v).ok
    ensures Parse(Encoding(v).bytes + rest, depth, limit) == Some(Parsed(v, |Encoding(v).bytes|))
    decreases v, 1
  {
    match v
    case Array(items) => ParseEncodedArray(items, rest, depth, limit);
    case Map(entries) => ParseEncodedMap(entries, rest, depth, limit);
    case _ => ParseEncodedScalar(v, rest, depth, limit);
  }

  lemma {:induction false} ParseEncodedScalar(v: Value, rest: seq<byte>, depth: nat, limit: nat)
    requires !v.Array? && !v.Map? && depth <= limit
    ensures Encoding(v).ok
    ensures Parse(Encoding(v).bytes + rest, depth, limit) == Some(Parsed(v, |Encoding(v).bytes|))
  {
    match v
    case Uint(n) => ParseEncodedInt(0, n, rest, depth, limit);
    case Nint(n) => ParseEncodedInt(1, n, rest, depth, limit);
    case Bytes(b) => ParseEncodedBytes(b, rest, depth, limit);
    case Text(s) => ParseEncodedText(s, rest, depth, limit);
    case Bool(f) =>
    case Null =>
  }

  lemma {:induction false} ParseEncodedInt(major: nat, n: u64, rest: seq<byte>, depth: nat, limit: nat)
    requires major < 2 && depth <= limit
    ensures Parse(Head(major, n) + rest, depth, limit)
         == Some(Parsed(if major == 0 then Uint(n) else Nint(n), |Head(major, n)|))
  {
    HeadRead(major, n, rest);
  }

  lemma {:induction false} ParseEncodedBytes(b: Vec<byte>, rest: seq<byte>, depth: nat, limit: nat)
    requires depth <= limit
    ensures Parse(Head(2, |b|) + b + rest, depth, limit) == Some(Parsed(Bytes(b), |Head(2, |b|) + b|))
  {
    ParseEncodedString(2, b, rest);
  }

  lemma {:induction false} ParseEncodedText(s: Str, rest: seq<byte>, depth: nat, limit: nat)
    requires depth <= limit
    ensures var b := Utf8.Encode(s);
      Parse(Head(3, |b|) + b + rest, depth, limit) == Some(Parsed(Text(s), |Head(3, |b|) + b|))
  {
    hide Utf8.Encode, Utf8.Decode, Head, ReadArg, ParseItems, ParseEntries;
    ParseEncodedString(3, Utf8.Encode(s), rest);
    Utf8.DecodeEncoded(s);
  }

  lemma {:induction false} ParseEncodedString(major: nat, b: Vec<byte>, rest: seq<byte>)
    requires major < 8
    ensures var h := Head(major, |b|); var t := (h + b + rest)[1..];
      h[0] / 32 == major
      && ReadLength(t, h[0] % 32) == Some(Parsed(|b|, |h| - 1))
      && t[|h| - 1..|h| - 1 + |b|] == b
  {
    hide Head, ReadArg;
    var h := Head(major, |b|);
    HeadRead(major, |b|, b + rest);
    assert h + b + rest == h + (b + rest);
    assert (h[1..] + (b + rest))[|h| - 1..|h| - 1 + |b|] == b;
  }

  /** The head of a container of `n` children whose bytes follow. */
  lemma {:induction false} ParseContainerHead(major: nat, n: u64, body: seq<byte>, rest: seq<byte>)
    requires major < 8 && |body| >= n
    ensures var h := Head(major, n); var s := h + body + rest;
      s[0] / 32 == major
      && ReadLength(s[1..], s[0] % 32) == Some(Parsed(n, |h| - 1))
      && s[1..][|h| - 1..] == body + rest
  {
    hide Head, ReadArg;
    var h := Head(major, n);
    HeadRead(major, n, body + rest);
    assert h + body + rest == h + (body + rest);
    assert (h[1..] + (body + rest))[|h| - 1..] == body + rest;
  }

  lemma {:induction false} ParseEncodedArray(items: Vec<Value>, rest: seq<byte>, depth: nat, limit: nat)
    requires AllCanonical(items) && depth + DepthAll(items) <= limit
    ensures var w := Encoding(Array(items));
      w.ok && Parse(w.bytes + rest, depth, limit) == Some(Parsed(Array(items), |w.bytes|))
    decreases items, 2
  {
    hide Parse, ParseItems, Head, EncodingAll, AllCanonical, DepthAll;
    CanonicalAllEncodes(items);
    EncodingAllLength(items);
    ParseEncodedAll(items, rest, depth + 1, limit);
    ParseArrayAt(items, EncodingAll(items).bytes, rest, depth, limit);
  }

  lemma {:induction false} ParseArrayAt(items: Vec<Value>, body: seq<byte>, rest: seq<byte>, depth: nat, limit: nat)
    requires |body| >= |items| && depth <= limit
    requires ParseItems(body + rest, |items|, depth + 1, limit) == Some(Parsed(items, |body|))
    ensures Parse(Head(4, |items|) + body + rest, depth, limit)
         == Some(Parsed(Array(items), |Head(4, |items|) + body|))
  {
    hide ParseItems;
    ParseContainerHead(4, |items|, body, rest);
  }

  lemma {:induction false} ParseEncodedMap(entries: Vec<Entry>, rest: seq<byte>, depth: nat, limit: nat)
    requires IsCanonical(Map(entries)) && depth + DepthEntries(entries) <= limit
    ensures var w := Encoding(Map(entries));
      w.ok && Parse(w.bytes + rest, depth, limit) == Some(Parsed(Map(entries), |w.bytes|))
    decreases entries, 2
  {
    hide Parse, ParseEntries, Head, Flatten, EncodedPairs, KeyedByEncoding, StrictlyAscending, MapEncoding;
    CanonicalEntriesEncode(entries);
    SortedMap(entries);
    FlattenLength(entries);
    var body := Flatten(EncodedPairs(entries).value);
    ParseEncodedEntries(entries, None, rest, depth + 1, limit);
    ParseMapAt(entries, body, rest, depth, limit);
  }

  lemma {:induction false} ParseMapAt(entries: Vec<Entry>, body: seq<byte>, rest: seq<byte>, depth: nat, limit: nat)
    requires |body| >= |entries| && depth <= limit
    requires ParseEntries(body + rest, |entries|, None, depth + 1, limit) == Some(Parsed(entries, |body|))
    ensures Parse(Head(5, |entries|) + body + rest, depth, limit)
         == Some(Parsed(Map(entries), |Head(5, |entries|) + body|))
  {
    hide ParseEntries;
    ParseContainerHead(5, |entries|, body, rest);
  }

  lemma {:induction false} ParseEncodedAll(items: seq<Value>, rest: seq<byte>, depth: nat, limit: nat)
    requires AllCanonical(items) && depth + DepthAll(items) <= limit + 1
    ensures EncodingAll(items).ok
    ensures ParseItems(EncodingAll(items).bytes + rest, |items|, depth, limit)
         == Some(Parsed(items, |EncodingAll(items).bytes|))
    decreases items, 1
  {
    if items != [] {
      var h, t := Encoding(items[0]).bytes, EncodingAll(items[1..]).bytes;
      ParseEncoded(items[0], t + rest, depth, limit);
      ParseEncodedAll(items[1..], rest, depth, limit);
      ParseItemsStep(items[0], items[1..], h, t, rest, depth, limit);
      assert items == [items[0]] + items[1..];
    }
  }

  lemma {:induction false} ParseItemsStep(x: Value, xs: seq<Value>, h: seq<byte>, t: seq<byte>, rest: seq<byte>,
                                          depth: nat, limit: nat)
    requires Parse(h + (t + rest), depth, limit) == Some(Parsed(x, |h|))
    requires ParseItems(t + rest, |xs|, depth, limit) == Some(Parsed(xs, |t|))
    ensures ParseItems(h + t + rest, |[x] + xs|, depth, limit) == Some(Parsed([x] + xs, |h + t|))
  {
    hide *;
    assert h + t + rest == h + (t + rest);
    assert (h + (t + rest))[|h|..] == t + rest;
    ParseItemsUnfold(h + t + rest, x, xs, |h|, |t|, depth, limit);
  }

  /** One iteration of the decoder's array loop. */
  lemma {:induction false} ParseItemsUnfold(s: seq<byte>, x: Value, xs: seq<Value>, h: nat, t: nat, depth: nat, limit: nat)
    requires h + t <= |s|
    requires Parse(s, depth, limit) == Some(Parsed(x, h))
    requires ParseItems(s[h..], |xs|, depth, limit) == Some(Parsed(xs, t))
    ensures ParseItems(s, |xs| + 1, depth, limit) == Some(Parsed([x] + xs, h + t))
  {
    hide Parse;
  }

  lemma {:induction false} ParseEncodedEntries(entries: seq<Entry>, prev: Option<seq<byte>>, rest: seq<byte>,
                                               depth: nat, limit: nat)
    requires EntriesCanonical(entries) && depth + DepthEntries(entries) <= limit + 1
    requires StrictlyAscending(KeyedByEncoding(entries))
    requires prev.Some? && entries != [] ==> LexLess(prev.value, Encoding(entries[0].key).bytes)
    ensures EncodedPairs(entries).Some?
    ensures var body := Flatten(EncodedPairs(entries).value);
      ParseEntries(body + rest, |entries|, prev, depth, limit) == Some(Parsed(entries, |body|))
    decreases entries, 1
  {
    if entries == [] {
      hide Parse, LexLess, Encoding;
    } else {
      hide *;
      SplitEntries(entries);
      TailAscends(entries);
      var x, xs := entries[0], entries[1..];
      assert x.key < x && x.val < x;
      var k, v := Encoding(x.key).bytes, Encoding(x.val).bytes;
      var t := Flatten(EncodedPairs(xs).value);
      ParseEncoded(x.key, v + (t + rest), depth, limit);
      ParseEncoded(x.val, t + rest, depth, limit);
      ParseEncodedEntries(xs, Some(k), rest, depth, limit);
      ParseEntriesStep(x, xs, prev, k, v, t, rest, depth, limit);
    }
  }

  lemma {:induction false} SplitEntries(entries: seq<Entry>)
    requires entries != [] && EntriesCanonical(entries)
    ensures var x, xs := entries[0], entries[1..];
      IsCanonical(x.key) && IsCanonical(x.val) && EntriesCanonical(xs)
      && entries == [x] + xs
      && EncodedPairs(entries).Some? && EncodedPairs(xs).Some?
      && Flatten(EncodedPairs(entries).value)
         == Encoding(x.key).bytes + Encoding(x.val).bytes + Flatten(EncodedPairs(xs).value)
      && 1 + Depth(x.key) <= DepthEntries(entries) && 1 + Depth(x.val) <= DepthEntries(entries)
      && DepthEntries(xs) <= DepthEntries(entries)
  {
    CanonicalEntriesEncode(entries);
    hide Encoding, IsCanonical, Depth;
    assert EncodedPairs(entries).value[1..] == EncodedPairs(entries[1..]).value;
  }

  lemma {:induction false} ParseEntriesStep(x: Entry, xs: seq<Entry>, prev: Option<seq<byte>>, k: seq<byte>, v: seq<byte>,
                                            t: seq<byte>, rest: seq<byte>, depth: nat, limit: nat)
    requires Parse(k + (v + (t + rest)), depth, limit) == Some(Parsed(x.key, |k|))
    requires prev.Some? ==> LexLess(prev.value, k)
    requires Parse(v + (t + rest), depth, limit) == Some(Parsed(x.val, |v|))
    requires ParseEntries(t + rest, |xs|, Some(k), depth, limit) == Some(Parsed(xs, |t|))
    ensures ParseEntries(k + v + t + rest, |[x] + xs|, prev, depth, limit) == Some(Parsed([x] + xs, |k + v + t|))
  {
    hide *;
    var s := k + v + t + rest;
    SplitThree(k, v, t + rest);
    assert s == k + (v + (t + rest));
    ParseEntriesUnfold(s, prev, x, xs, |k|, |v|, |t|, depth, limit);
  }

  /** One iteration of the decoder's map loop. */
  lemma {:induction false} ParseEntriesUnfold(s: seq<byte>, prev: Option<seq<byte>>, x: Entry, xs: seq<Entry>,
                                              k: nat, v: nat, t: nat, depth: nat, limit: nat)
    requires k + v + t <= |s|
    requires Parse(s, depth, limit) == Some(Parsed(x.key, k))
    requires prev.Some? ==> LexLess(prev.value, s[..k])
    requires Parse(s[k..], depth, limit) == Some(Parsed(x.val, v))
    requires ParseEntries(s[k + v..], |xs|, Some(s[..k]), depth, limit) == Some(Parsed(xs, t))
    ensures ParseEntries(s, |xs| + 1, prev, depth, limit) == Some(Parsed([x] + xs, k + v + t))
  {
    hide Parse;
    hide LexLess;
    assert x == Entry(x.key, x.val);
  }

  lemma {:induction false} SplitThree(a: seq<byte>, b: seq<byte>, c: seq<byte>)
    ensures var s := a + (b + c);
      s[..|a|] == a && s[|a|..] == b + c && s[|a| + |b|..] == c
  {
  }

  lemma {:induction false} TailAscends(entries: seq<Entry>)
    requires entries != [] && StrictlyAscending(KeyedByEncoding(entries))
    ensures StrictlyAscending(KeyedByEncoding(entries[1..]))
    ensures |entries| > 1 ==> LexLess(Encoding(entries[0].key).bytes, Encoding(entries[1].key).bytes)
  {
    var xs := KeyedByEncoding(entries);
    assert KeyedByEncoding(entries[1..]) == xs[1..];
    if |entries| > 1 {
      assert LexLess(xs[0].key, xs[1].key);
    }
  }

  // ------------------------------------------------------------------
  // Encoding what was decoded
  // ------------------------------------------------------------------

  ghost predicate Certified(v: Value, bytes: seq<byte>, depth: nat, limit: nat)
  {
    IsCanonical(v) && Encoding(v) == Written(bytes, true) && depth + Depth(v) <= limit
  }

  /** Whatever the parser accepts is in canonical form, within the depth limit,
      and encodes to exactly the bytes that were read. */
  lemma {:induction false} EncodeParsed(s: seq<byte>, depth: nat, limit: nat)
    requires Parse(s, depth, limit).Some?
    ensures var p := Parse(s, depth, limit).value;
      Certified(p.value, s[..p.used], depth, limit)
    decreases |s|, 1
  {
    var major := s[0] / 32;
    if major == 4 {
      EncodeParsedArray(s, depth, limit);
    } else if major == 5 {
      EncodeParsedMap(s, depth, limit);
    } else {
      EncodeParsedScalar(s, depth, limit);
    }
  }

  lemma {:induction false} EncodeParsedScalar(s: seq<byte>, depth: nat, limit: nat)
    requires Parse(s, depth, limit).Some? && s[0] / 32 != 4 && s[0] / 32 != 5
    ensures var p := Parse(s, depth, limit).value;
      Certified(p.value, s[..p.used], depth, limit)
  {
    hide Head, ReadArg, Utf8.Encode, Utf8.Decode, DecodeText, ParseItems, ParseEntries;
    var p := Parse(s, depth, limit).value;
    var major, low, t := s[0] / 32, s[0] % 32, s[1..];
    assert s[0] == major * 32 + low;
    if major == 7 {
      assert s[..1] == [s[0]];
    } else {
      HeadWrite(major, low, t);
      var a := ReadArg(t, low).value;
      if major < 2 {
        assert s[..p.used] == [s[0]] + t[..a.used];
      } else {
        assert s[..p.used] == [s[0]] + t[..a.used] + t[a.used..a.used + a.value];
      }
    }
  }

  lemma {:induction false} EncodeParsedArray(s: seq<byte>, depth: nat, limit: nat)
    requires Parse(s, depth, limit).Some? && s[0] / 32 == 4
    ensures var p := Parse(s, depth, limit).value;
      Certified(p.value, s[..p.used], depth, limit)
    decreases |s|, 0
  {
    hide Head, ReadArg, ParseItems, ParseEntries, Utf8.Encode;
    var p := Parse(s, depth, limit).value;
    var low, t := s[0] % 32, s[1..];
    var a := ReadLength(t, low).value;
    var body := t[a.used..];
    HeadWrite(4, low, t);
    EncodeParsedItems(body, a.value, depth + 1, limit);
    var items := ParseItems(body, a.value, depth + 1, limit).value;
    assert s[..p.used] == [s[0]] + t[..a.used] + body[..items.used];
  }

  ghost predicate CertifiedItems(items: seq<Value>, bytes: seq<byte>, depth: nat, limit: nat)
  {
    AllCanonical(items) && EncodingAll(items) == Written(bytes, true) && depth + DepthAll(items) <= limit + 1
  }

  lemma {:induction false} EncodeParsedItems(s: seq<byte>, count: nat, depth: nat, limit: nat)
    requires ParseItems(s, count, depth, limit).Some? && depth <= limit + 1
    ensures var p := ParseItems(s, count, depth, limit).value;
      CertifiedItems(p.value, s[..p.used], depth, limit)
    decreases |s|, 2
  {
    hide Parse, Encoding, IsCanonical, Depth;
    if count > 0 {
      hide Certified, CertifiedItems;
      var h := Parse(s, depth, limit).value;
      var t := ParseItems(s[h.used..], count - 1, depth, limit).value;
      EncodeParsed(s, depth, limit);
      EncodeParsedItems(s[h.used..], count - 1, depth, limit);
      var hb, tb := s[..h.used], s[h.used..][..t.used];
      ConsItemsCertified(h.value, t.value, hb, tb, depth, limit);
      assert s[..h.used + t.used] == hb + tb;
    }
  }

  lemma {:induction false} ConsItemsCertified(x: Value, xs: seq<Value>, h: seq<byte>, t: seq<byte>, depth: nat, limit: nat)
    requires Certified(x, h, depth, limit) && CertifiedItems(xs, t, depth, limit)
    ensures CertifiedItems([x] + xs, h + t, depth, limit)
  {
    hide Encoding, IsCanonical, Depth;
    assert ([x] + xs)[1..] == xs;
  }

  lemma {:induction false} EncodeParsedMap(s: seq<byte>, depth: nat, limit: nat)
    requires Parse(s, depth, limit).Some? && s[0] / 32 == 5
    ensures var p := Parse(s, depth, limit).value;
      Certified(p.value, s[..p.used], depth, limit)
    decreases |s|, 0
  {
    hide Head, ReadArg, ParseItems, ParseEntries, Utf8.Encode, EncodedPairs, Flatten, KeyedByEncoding, MapEncoding;
    var p := Parse(s, depth, limit).value;
    var low, t := s[0] % 32, s[1..];
    var a := ReadLength(t, low).value;
    var body := t[a.used..];
    HeadWrite(5, low, t);
    EncodeParsedEntries(body, a.value, None, depth + 1, limit);
    var entries := ParseEntries(body, a.value, None, depth + 1, limit).value;
    SortedMap(entries.value);
    assert s[..p.used] == [s[0]] + t[..a.used] + body[..entries.used];
  }

  ghost predicate CertifiedEntries(es: seq<Entry>, bytes: seq<byte>, prev: Option<seq<byte>>, depth: nat, limit: nat)
  {
    EntriesCanonical(es)
    && StrictlyAscending(KeyedByEncoding(es))
    && (prev.Some? ==> forall x :: x in KeyedByEncoding(es) ==> LexLess(prev.value, x.key))
    && EncodedPairs(es).Some? && Flatten(EncodedPairs(es).value) == bytes
    && depth + DepthEntries(es) <= limit + 1
  }

  lemma {:induction false} EncodeParsedEntries(s: seq<byte>, count: nat, prev: Option<seq<byte>>, depth: nat, limit: nat)
    requires ParseEntries(s, count, prev, depth, limit).Some? && depth <= limit + 1
    ensures var p := ParseEntries(s, count, prev, depth, limit).value;
      CertifiedEntries(p.value, s[..p.used], prev, depth, limit)
    decreases |s|, 2
  {
    hide *;
    if count == 0 {
      NoEntriesCertified(s, prev, depth, limit);
    } else {
      var k, v, t := ParseEntriesFold(s, count, prev, depth, limit);
      var kb, s', s'' := s[..k.used], s[k.used..], s[k.used + v.used..];
      var vb, tb := s'[..v.used], s''[..t.used];
      EncodeParsed(s, depth, limit);
      EncodeParsed(s', depth, limit);
      EncodeParsedEntries(s'', count - 1, Some(kb), depth, limit);
      var all := [Entry(k.value, v.value)] + t.value;
      assert CertifiedEntries(all, kb + vb + tb, prev, depth, limit) by {
        ConsCertified(Entry(k.value, v.value), t.value, prev, kb, vb, tb, depth, limit);
      }
      assert s[..k.used + v.used + t.used] == kb + vb + tb by {
        PrefixThree(s, k.used, v.used, t.used);
      }
    }
  }

  lemma {:induction false} NoEntriesCertified(s: seq<byte>, prev: Option<seq<byte>>, depth: nat, limit: nat)
    requires depth <= limit + 1
    ensures ParseEntries(s, 0, prev, depth, limit) == Some(Parsed([], 0))
    ensures CertifiedEntries([], s[..0], prev, depth, limit)
  {
  }

  lemma {:induction false} PrefixThree(s: seq<byte>, a: nat, b: nat, c: nat)
    requires a + b + c <= |s|
    ensures s[..a + b + c] == s[..a] + s[a..][..b] + s[a + b..][..c]
  {
  }

  /** One iteration of the decoder's map loop, taken apart. */
  lemma {:induction false} ParseEntriesFold(s: seq<byte>, count: nat, prev: Option<seq<byte>>, depth: nat, limit: nat)
    returns (k: Parsed<Value>, v: Parsed<Value>, t: Parsed<seq<Entry>>)
    requires count > 0 && ParseEntries(s, count, prev, depth, limit).Some?
    ensures k.used + v.used + t.used <= |s|
    ensures Parse(s, depth, limit) == Some(k) && (prev.Some? ==> LexLess(prev.value, s[..k.used]))
    ensures Parse(s[k.used..], depth, limit) == Some(v)
    ensures ParseEntries(s[k.used + v.used..], count - 1, Some(s[..k.used]), depth, limit) == Some(t)
    ensures ParseEntries(s, count, prev, depth, limit)
         == Some(Parsed([Entry(k.value, v.value)] + t.value, k.used + v.used + t.used))
  {
    hide Parse, LexLess;
    k := Parse(s, depth, limit).value;
    v := Parse(s[k.used..], depth, limit).value;
    t := ParseEntries(s[k.used + v.used..], count - 1, Some(s[..k.used]), depth, limit).value;
  }

  lemma {:induction false} ConsCertified(e: Entry, es: seq<Entry>, prev: Option<seq<byte>>,
                                         k: seq<byte>, v: seq<byte>, t: seq<byte>, depth: nat, limit: nat)
    requires Certified(e.key, k, depth, limit) && Certified(e.val, v, depth, limit)
    requires prev.Some? ==> LexLess(prev.value, k)
    requires CertifiedEntries(es, t, Some(k), depth, limit)
    ensures CertifiedEntries([e] + es, k + v + t, prev, depth, limit)
  {
    hide Encoding, IsCanonical, Depth, LexLess;
    var all := [e] + es;
    assert all[1..] == es;
    assert EncodedPairs(all).value[1..] == EncodedPairs(es).value;
    ConsAscends(e, es, prev);
  }

  lemma {:induction false} ConsAscends(e: Entry, es: seq<Entry>, prev: Option<seq<byte>>)
    requires StrictlyAscending(KeyedByEncoding(es))
    requires prev.Some? ==> LexLess(prev.value, Encoding(e.key).bytes)
    requires forall x :: x in KeyedByEncoding(es) ==> LexLess(Encoding(e.key).bytes, x.key)
    ensures StrictlyAscending(KeyedByEncoding([e] + es))
    ensures prev.Some? ==> forall x :: x in KeyedByEncoding([e] + es) ==> LexLess(prev.value, x.key)
  {
    hide Encoding, IsCanonical, Depth, LexLess;
    var all := [e] + es;
    assert all[1..] == es;
    var xs, ys := KeyedByEncoding(all), KeyedByEncoding(es);
    assert xs == [Keyed(Encoding(e.key).bytes, e)] + ys;
    forall i, j | 0 <= i < j < |xs|
      ensures LexLess(xs[i].key, xs[j].key)
    {
      assert xs[j] == ys[j - 1];
      if i > 0 { assert xs[i] == ys[i - 1]; }
    }
    if prev.Some? {
      forall x | x in xs
        ensures LexLess(prev.value, x.key)
      {
        if x in ys { LexTransitive(prev.value, Encoding(e.key).bytes, x.key); }
      }
    }
  }

  // ------------------------------------------------------------------
  // The canonical form of any value
  // ------------------------------------------------------------------

  /** `c` stands where `e` stood: same encodings, member by member. */
  ghost predicate SameEncoding(c: Keyed<Entry>, e: Entry)
  {
    c.key == Encoding(c.val.key).bytes
    && Encode(c.val.key) == Encode(e.key) && Encode(c.val.val) == Encode(e.val)
  }

  /** Reordering maps never changes what a value encodes to, nor whether it
      encodes. */
  lemma {:induction false} CanonicalKeepsEncoding(v: Value)
    ensures Encode(Canonical(v)) == Encode(v)
    decreases v
  {
    match v
    case Array(items) => CanonicalAllKeepsEncoding(items);
    case Map(entries) =>
      CanonicalEntriesKeepEncoding(entries);
      CanonicalMapKeepsEncoding(entries);
    case _ =>
  }

  lemma {:induction false} CanonicalAllKeepsEncoding(items: seq<Value>)
    ensures EncodingAll(CanonicalAll(items)).ok == EncodingAll(items).ok
    ensures EncodingAll(items).ok ==> EncodingAll(CanonicalAll(items)) == EncodingAll(items)
    decreases items
  {
    if items != [] {
      CanonicalKeepsEncoding(items[0]);
      CanonicalAllKeepsEncoding(items[1..]);
      assert CanonicalAll(items)[1..] == CanonicalAll(items[1..]);
    }
  }

  lemma {:induction false} CanonicalEntriesKeepEncoding(entries: seq<Entry>)
    ensures forall i :: 0 <= i < |entries| ==> SameEncoding(CanonicalEntries(entries)[i], entries[i])
    decreases entries
  {
    if entries != [] {
      assert entries[0].key < entries[0] && entries[0].val < entries[0];
      CanonicalKeepsEncoding(entries[0].key);
      CanonicalKeepsEncoding(entries[0].val);
      CanonicalEntriesKeepEncoding(entries[1..]);
      var c := CanonicalEntries(entries);
      assert c[1..] == CanonicalEntries(entries[1..]);
      forall i | 0 <= i < |entries|
        ensures SameEncoding(c[i], entries[i])
      {
        if i > 0 {
          assert SameEncoding(CanonicalEntries(entries[1..])[i - 1], entries[1..][i - 1]);
        }
      }
    }
  }

  /** The entries of a canonical map, tagged: already sorted and tagged by
      their own key bytes. */
  lemma {:induction false} SortedEntries(entries: seq<Entry>) returns (sorted: seq<Keyed<Entry>>)
    requires forall i :: 0 <= i < |entries| ==> SameEncoding(CanonicalEntries(entries)[i], entries[i])
    ensures sorted == SortByKey(CanonicalEntries(entries))
    ensures KeyedByEncoding(Payloads(sorted)) == sorted && Ascending(sorted)
    ensures forall x :: x in sorted <==> x in CanonicalEntries(entries)
  {
    hide Encoding, Canonical, CanonicalEntries, SortByKey;
    var c := CanonicalEntries(entries);
    sorted := SortByKey(c);
    SortSorts(c);
    SortMembers(c);
    var e := Payloads(sorted);
    forall i | 0 <= i < |sorted|
      ensures KeyedByEncoding(e)[i] == sorted[i]
    {
      assert sorted[i] in c;
      assert sorted[i] == Keyed(sorted[i].key, sorted[i].val);
    }
  }

  lemma {:induction false} CanonicalMapKeepsEncoding(entries: Vec<Entry>)
    requires forall i :: 0 <= i < |entries| ==> SameEncoding(CanonicalEntries(entries)[i], entries[i])
    ensures Encode(Canonical(Map(entries))) == Encode(Map(entries))
  {
    hide SortByKey, EncodedPairs, CanonicalEntries, Flatten, Head;
    var sorted := SortedEntries(entries);
    CanonicalMapPairs(entries, sorted);
    if EncodedPairs(entries).Some? {
      var pairs := EncodedPairs(entries).value;
      SortSorts(pairs);
      SortOfAscending(SortByKey(pairs));
    }
  }

  /** The encoder sees the canonical map's entries in sorted order. */
  lemma {:induction false} CanonicalMapPairs(entries: seq<Entry>, sorted: seq<Keyed<Entry>>)
    requires forall i :: 0 <= i < |entries| ==> SameEncoding(CanonicalEntries(entries)[i], entries[i])
    requires sorted == SortByKey(CanonicalEntries(entries))
    requires KeyedByEncoding(Payloads(sorted)) == sorted
    requires forall x :: x in sorted <==> x in CanonicalEntries(entries)
    ensures EncodedPairs(Payloads(sorted)).Some? <==> EncodedPairs(entries).Some?
    ensures EncodedPairs(entries).Some? ==>
      EncodedPairs(Payloads(sorted)).value == SortByKey(EncodedPairs(entries).value)
      && EncodedPairs(entries).value == MapVals(ValueBytes(), CanonicalEntries(entries))
  {
    hide *;
    PairsOf(entries);
    PairsOf(Payloads(sorted));
    if EncodedPairs(entries).Some? {
      AllEncode(entries, sorted);
      SamePairs(entries);
      SortMap(ValueBytes(), CanonicalEntries(entries));
    } else {
      SomeFails(entries, sorted);
    }
  }

  lemma {:induction false} AllEncode(entries: seq<Entry>, sorted: seq<Keyed<Entry>>)
    requires forall i :: 0 <= i < |entries| ==> SameEncoding(CanonicalEntries(entries)[i], entries[i])
    requires forall x :: x in sorted ==> x in CanonicalEntries(entries)
    requires forall x :: x in entries ==> Encodes(x)
    ensures forall x :: x in Payloads(sorted) ==> Encodes(x)
  {
    hide Encoding, CanonicalEntries;
    var e := Payloads(sorted);
    forall x | x in e
      ensures Encodes(x)
    {
      var i :| 0 <= i < |e| && e[i] == x;
      assert sorted[i] in CanonicalEntries(entries);
      var j :| 0 <= j < |entries| && CanonicalEntries(entries)[j] == sorted[i];
      assert Encodes(entries[j]);
    }
  }

  lemma {:induction false} SamePairs(entries: seq<Entry>)
    requires forall i :: 0 <= i < |entries| ==> SameEncoding(CanonicalEntries(entries)[i], entries[i])
    requires forall x :: x in entries ==> Encodes(x)
    ensures MapVals(ValueBytes(), KeyedByEncoding(entries)) == MapVals(ValueBytes(), CanonicalEntries(entries))
  {
    hide Encoding, CanonicalEntries, KeyedByEncoding;
    var f, c := ValueBytes(), CanonicalEntries(entries);
    forall i | 0 <= i < |entries|
      ensures MapVals(f, KeyedByEncoding(entries))[i] == MapVals(f, c)[i]
    {
      assert Encodes(entries[i]);
      assert SameEncoding(c[i], entries[i]);
    }
  }

  lemma {:induction false} SomeFails(entries: seq<Entry>, sorted: seq<Keyed<Entry>>)
    requires forall i :: 0 <= i < |entries| ==> SameEncoding(CanonicalEntries(entries)[i], entries[i])
    requires forall x :: x in CanonicalEntries(entries) ==> x in sorted
    requires exists x :: x in entries && !Encodes(x)
    ensures exists x :: x in Payloads(sorted) && !Encodes(x)
  {
    hide Encoding, CanonicalEntries;
    var i :| 0 <= i < |entries| && !Encodes(entries[i]);
    var c := CanonicalEntries(entries)[i];
    assert SameEncoding(c, entries[i]);
    assert c in CanonicalEntries(entries);
    var j :| 0 <= j < |sorted| && sorted[j] == c;
    assert Payloads(sorted)[j] in Payloads(sorted) && !Encodes(Payloads(sorted)[j]);
  }

  /** What encodes has a canonical form in the decoder's sense. */
  lemma {:induction false} CanonicalIsCanonical(v: Value)
    requires Encoding(v).ok
    ensures IsCanonical(Canonical(v))
    decreases v, 1
  {
    match v
    case Array(items) => CanonicalAllIsCanonical(items);
    case Map(entries) => CanonicalMapIsCanonical(entries);
    case _ =>
  }

  lemma {:induction false} CanonicalAllIsCanonical(items: seq<Value>)
    requires EncodingAll(items).ok
    ensures AllCanonical(CanonicalAll(items))
    decreases items
  {
    if items != [] {
      CanonicalIsCanonical(items[0]);
      CanonicalAllIsCanonical(items[1..]);
      assert CanonicalAll(items)[1..] == CanonicalAll(items[1..]);
    }
  }

  lemma {:induction false} CanonicalEntriesAreCanonical(entries: seq<Entry>)
    requires EncodedPairs(entries).Some?
    ensures forall c :: c in CanonicalEntries(entries) ==> IsCanonical(c.val.key) && IsCanonical(c.val.val)
    decreases entries, 0
  {
    if entries != [] {
      assert entries[0].key < entries[0] && entries[0].val < entries[0];
      CanonicalIsCanonical(entries[0].key);
      CanonicalIsCanonical(entries[0].val);
      CanonicalEntriesAreCanonical(entries[1..]);
    }
  }

  lemma {:induction false} CanonicalMapIsCanonical(entries: Vec<Entry>)
    requires Encoding(Map(entries)).ok
    ensures IsCanonical(Canonical(Map(entries)))
    decreases entries, 1
  {
    hide SortByKey, CanonicalEntries, KeyedByEncoding, EncodedPairs, MapEncoding, EntriesCanonical;
    CanonicalEntriesAreCanonical(entries);
    CanonicalEntriesKeepEncoding(entries);
    var sorted := SortedEntries(entries);
    CanonicalMapPairs(entries, sorted);
    CanonicalMapStrict(entries, sorted);
    var e := Payloads(sorted);
    forall x | x in e
      ensures IsCanonical(x.key) && IsCanonical(x.val)
    {
      var i :| 0 <= i < |e| && e[i] == x;
      assert sorted[i] in CanonicalEntries(entries);
    }
    EntriesCanonicalEach(e);
  }

  lemma {:induction false} CanonicalMapStrict(entries: Vec<Entry>, sorted: seq<Keyed<Entry>>)
    requires Encoding(Map(entries)).ok
    requires sorted == SortByKey(CanonicalEntries(entries)) && Ascending(sorted)
    requires EncodedPairs(entries).value == MapVals(ValueBytes(), CanonicalEntries(entries))
    ensures StrictlyAscending(sorted)
  {
    hide CanonicalEntries, EncodedPairs, SortByKey, MapVals, Flatten, Head;
    SortMap(ValueBytes(), CanonicalEntries(entries));
    MapValsKeys(ValueBytes(), sorted);
    AscendingNoDuplicateIsStrict(sorted);
  }

  /** Canonicalising twice is canonicalising once, for every value, encodable
      or not. */
  lemma {:induction false} CanonicalIdempotent(v: Value)
    ensures Canonical(Canonical(v)) == Canonical(v)
    decreases v
  {
    match v
    case Array(items) => CanonicalAllIdempotent(items);
    case Map(entries) =>
      CanonicalEntriesIdempotent(entries);
      CanonicalEntriesKeepEncoding(entries);
      var sorted := SortedEntries(entries);
      Retagged(sorted);
      SortOfAscending(sorted);
    case _ =>
  }

  lemma {:induction false} CanonicalAllIdempotent(items: seq<Value>)
    ensures CanonicalAll(CanonicalAll(items)) == CanonicalAll(items)
    decreases items
  {
    if items != [] {
      CanonicalIdempotent(items[0]);
      CanonicalAllIdempotent(items[1..]);
      assert CanonicalAll(items)[1..] == CanonicalAll(items[1..]);
    }
  }

  ghost predicate Settled(e: Entry) { Canonical(e.key) == e.key && Canonical(e.val) == e.val }

  lemma {:induction false} CanonicalEntriesIdempotent(entries: seq<Entry>)
    ensures forall c :: c in CanonicalEntries(entries) ==> Settled(c.val)
    decreases entries
  {
    if entries != [] {
      assert entries[0].key < entries[0] && entries[0].val < entries[0];
      CanonicalIdempotent(entries[0].key);
      CanonicalIdempotent(entries[0].val);
      CanonicalEntriesIdempotent(entries[1..]);
    }
  }

  lemma {:induction false} Retagged(xs: seq<Keyed<Entry>>)
    requires forall x :: x in xs ==> Settled(x.val) && x.key == Encoding(x.val.key).bytes
    ensures CanonicalEntries(Payloads(xs)) == xs
  {
    hide Encoding, Canonical;
    if xs != [] {
      Retagged(xs[1..]);
      var e := Payloads(xs);
      assert e[1..] == Payloads(xs[1..]);
      assert Settled(xs[0].val);
      assert xs[0] == Keyed(xs[0].key, Entry(xs[0].val.key, xs[0].val.val));
    }
  }

  /** Canonicalising moves entries around but not up or down. */
  lemma {:induction false} CanonicalKeepsDepth(v: Value)
    ensures Depth(Canonical(v)) == Depth(v)
    decreases v
  {
    match v
    case Array(items) => CanonicalAllKeepsDepth(items);
    case Map(entries) =>
      CanonicalEntriesKeepDepth(entries);
      var c := CanonicalEntries(entries);
      SortMembers(c);
      DepthOfPayloads(c, SortByKey(c));
      DepthOfPayloads(SortByKey(c), c);
    case _ =>
  }

  lemma {:induction false} CanonicalAllKeepsDepth(items: seq<Value>)
    ensures DepthAll(CanonicalAll(items)) == DepthAll(items)
    decreases items
  {
    if items != [] {
      CanonicalKeepsDepth(items[0]);
      CanonicalAllKeepsDepth(items[1..]);
      assert CanonicalAll(items)[1..] == CanonicalAll(items[1..]);
    }
  }

  lemma {:induction false} CanonicalEntriesKeepDepth(entries: seq<Entry>)
    ensures DepthEntries(Payloads(CanonicalEntries(entries))) == DepthEntries(entries)
    decreases entries
  {
    if entries != [] {
      assert entries[0].key < entries[0] && entries[0].val < entries[0];
      CanonicalKeepsDepth(entries[0].key);
      CanonicalKeepsDepth(entries[0].val);
      CanonicalEntriesKeepDepth(entries[1..]);
      var c := CanonicalEntries(entries);
      assert c[1..] == CanonicalEntries(entries[1..]);
      assert Payloads(c)[1..] == Payloads(c[1..]);
    }
  }

  lemma {:induction false} DepthOfPayloads(xs: seq<Keyed<Entry>>, ys: seq<Keyed<Entry>>)
    requires forall x :: x in xs ==> x in ys
    ensures DepthEntries(Payloads(xs)) <= DepthEntries(Payloads(ys))
  {
    hide Depth;
    if xs != [] {
      DepthOfPayloads(xs[1..], ys);
      assert Payloads(xs)[1..] == Payloads(xs[1..]);
      DepthOfMember(xs[0], ys);
    }
  }

  lemma {:induction false} DepthOfMember(x: Keyed<Entry>, ys: seq<Keyed<Entry>>)
    requires x in ys
    ensures Max(1 + Depth(x.val.key), 1 + Depth(x.val.val)) <= DepthEntries(Payloads(ys))
  {
    hide Depth;
    assert Payloads(ys)[1..] == Payloads(ys[1..]);
    if x != ys[0] {
      DepthOfMember(x, ys[1..]);
    }
  }

  /** The depth of a map is bounded by what bounds each entry. */
  lemma {:induction false} DepthEntriesEach(entries: seq<Entry>, m: nat)
    ensures DepthEntries(entries) <= m <==> forall e :: e in entries ==> Depth(e.key) < m && Depth(e.val) < m
  {
    hide Depth;
    if entries != [] {
      DepthEntriesEach(entries[1..], m);
      assert forall e :: e in entries <==> e == entries[0] || e in entries[1..];
    }
  }

  lemma {:induction false} PairOf(a: Value, b: Value)
    ensures AllCanonical([a, b]) <==> IsCanonical(a) && IsCanonical(b)
    ensures DepthAll([a, b]) == Max(1 + Depth(a), 1 + Depth(b))
    ensures EncodingAll([a, b]).ok <==> Encoding(a).ok && Encoding(b).ok
  {
    hide IsCanonical, Depth, Encoding;
    assert [a, b][1..] == [b];
    assert [b][1..] == [];
    assert AllCanonical([b]) <==> IsCanonical(b);
    assert DepthAll([b]) == 1 + Depth(b);
    assert EncodingAll([b]).ok <==> Encoding(b).ok;
  }

  // ------------------------------------------------------------------
  // The bijection
  // ------------------------------------------------------------------

  /** A value in canonical form is read back from its encoding, under any limit
      that admits it. */
  lemma {:induction false} DecodeOfCanonical(v: Value, limit: nat)
    requires IsCanonical(v) && Depth(v) <= limit
    ensures Encode(v).Some? && DecodeWithin(Encode(v).value, limit) == Some(v)
  {
    ParseEncoded(v, [], 0, limit);
    assert Encoding(v).bytes + [] == Encoding(v).bytes;
  }

  /** No two canonical values share an encoding, however deep they are. */
  lemma {:induction false} CanonicalEncodingInjective(v: Value, w: Value)
    requires IsCanonical(v) && IsCanonical(w) && Encode(v) == Encode(w)
    ensures v == w
  {
    var limit := Max(Depth(v), Depth(w));
    DecodeOfCanonical(v, limit);
    DecodeOfCanonical(w, limit);
  }

  /** Strictness: accepted bytes are the one encoding of the value they decode
      to, and that value is in canonical form, at most 64 levels deep. */
  lemma {:induction false} DecodeThenEncode(b: seq<byte>)
    requires Decode(b).Some?
    ensures Encode(Decode(b).value) == Some(b)
    ensures IsCanonical(Decode(b).value) && Depth(Decode(b).value) <= MAX_DEPTH
  {
    EncodeParsed(b, 0, MAX_DEPTH);
    assert b[..|b|] == b;
  }

  /** Completeness: whatever encodes decodes to its canonical form, exactly when
      no node lies deeper than 64. */
  lemma {:induction false} EncodeThenDecode(v: Value)
    requires Encode(v).Some?
    ensures Decode(Encode(v).value) == if Depth(v) <= MAX_DEPTH then Some(Canonical(v)) else None
  {
    var b, c := Encode(v).value, Canonical(v);
    CanonicalIsCanonical(v);
    CanonicalKeepsEncoding(v);
    CanonicalKeepsDepth(v);
    if Depth(v) <= MAX_DEPTH {
      DecodeOfCanonical(c, MAX_DEPTH);
    } else if Decode(b).Some? {
      DecodeThenEncode(b);
      CanonicalEncodingInjective(Decode(b).value, c);
    }
  }

  /** Two accepted encodings of one value are the same bytes; and two values
      with one encoding differ at most in the order of their map entries. */
  lemma {:induction false} OneEncodingPerValue(a: seq<byte>, b: seq<byte>, v: Value, w: Value)
    ensures Decode(a).Some? && Decode(a) == Decode(b) ==> a == b
    ensures Encode(v).Some? && Encode(w).Some? ==> (Encode(v) == Encode(w) <==> Canonical(v) == Canonical(w))
  {
    if Decode(a).Some? && Decode(a) == Decode(b) {
      DecodeThenEncode(a);
      DecodeThenEncode(b);
    }
    if Encode(v).Some? && Encode(w).Some? {
      CanonicalKeepsEncoding(v);
      CanonicalKeepsEncoding(w);
      CanonicalIsCanonical(v);
      CanonicalIsCanonical(w);
      if Encode(v) == Encode(w) {
        CanonicalEncodingInjective(Canonical(v), Canonical(w));
      }
    }
  }

  /** The decoder's own output needs no reordering. */
  lemma {:induction false} CanonicalOfCanonical(v: Value)
    requires IsCanonical(v)
    ensures Canonical(v) == v
  {
    CanonicalEncodes(v);
    CanonicalIsCanonical(v);
    CanonicalKeepsEncoding(v);
    CanonicalEncodingInjective(Canonical(v), v);
  }

  /** A map encodes if and only if its keys and values do and no two keys are the
      same up to the order of entries in maps within them. */
  lemma {:induction false} MapEncodesExactly(entries: Vec<Entry>)
    ensures Encode(Map(entries)).Some?
       <==> (forall e :: e in entries ==> Encode(e.key).Some? && Encode(e.val).Some?)
            && forall i, j :: 0 <= i < j < |entries| ==> Canonical(entries[i].key) != Canonical(entries[j].key)
  {
    hide Encoding, SortByKey, EncodedPairs, LexLess, Flatten, Canonical;
    PairsOf(entries);
    MapEncodes(entries);
    if EncodedPairs(entries).Some? {
      var pairs := EncodedPairs(entries).value;
      if !AdjacentDuplicate(SortByKey(pairs)) {
        SortReflectsDistinct(pairs);
      }
      if DistinctKeys(pairs) {
        SortDistinct(pairs);
      }
      KeysDiffer(entries, pairs);
    }
  }

  lemma {:induction false} KeysDiffer(entries: Vec<Entry>, pairs: seq<Keyed<seq<byte>>>)
    requires forall e :: e in entries ==> Encodes(e)
    requires pairs == MapVals(ValueBytes(), KeyedByEncoding(entries))
    ensures DistinctKeys(pairs)
       <==> forall i, j :: 0 <= i < j < |entries| ==> Canonical(entries[i].key) != Canonical(entries[j].key)
  {
    hide Encoding, Canonical;
    forall i, j | 0 <= i < j < |entries|
      ensures pairs[i].key != pairs[j].key <==> Canonical(entries[i].key) != Canonical(entries[j].key)
    {
      assert Encodes(entries[i]) && Encodes(entries[j]);
      OneEncodingPerValue([], [], entries[i].key, entries[j].key);
    }
  }

  lemma MapEncodes(entries: Vec<Entry>)
    ensures Encode(Map(entries)).Some?
       <==> EncodedPairs(entries).Some? && !AdjacentDuplicate(SortByKey(EncodedPairs(entries).value))
  {
    hide EncodedPairs, SortByKey, AdjacentDuplicate, Flatten;
  }
}
