/** Frames survive the wire: what a client or a relay writes is read back as
    the same frame, exactly when its subscription id is short enough, and an
    accepted frame, written again, gives its bytes back, unless a filter in it
    had keys that the reader drops. */
module FramesProofs {
  import opened Wrappers
  import opened Bytes
  import opened FrameCodec
  import opened FrameCodecProofs
  import opened Filters
  import opened FilterProofs
  import opened Frames
  import Kernel = Codec
  import CodecProofs

  // ------------------------------------------------------------------
  // Arrays and maps of canonical values
  // ------------------------------------------------------------------

  predicate Scalar(v: Value) { !v.Array? && !v.Map? }

  lemma {:induction false} ArrayCanonical(items: seq<Value>)
    ensures Kernel.AllCanonical(LiftAll(items)) <==> forall i :: 0 <= i < |items| ==> IsCanonical(items[i])
  {
    hide Lift, Kernel.IsCanonical;
    if items != [] {
      ArrayCanonical(items[1..]);
      assert LiftAll(items)[1..] == LiftAll(items[1..]);
      assert items == [items[0]] + items[1..];
    }
  }

  /** A flat array is read back as it was written. */
  lemma {:induction false} FlatReadBack(items: Vec<Value>)
    requires forall i :: 0 <= i < |items| ==> Scalar(items[i])
    ensures Decode(Encoding(Array(items))) == Some(Array(items))
  {
    hide Decode, Encoding;
    forall i | 0 <= i < |items|
      ensures IsCanonical(items[i])
    {
      assert Scalar(items[i]);
    }
    ArrayCanonical(items);
    EncodeThenDecode(Array(items));
  }

  /** Pairs tagged with the bytes of their keys. */
  function Tagged(pairs: seq<Pair>): (r: seq<Keyed<Pair>>)
    ensures |r| == |pairs|
    ensures forall i :: 0 <= i < |pairs| ==> r[i] == Keyed(Encoding(pairs[i].key), pairs[i])
  {
    if pairs == [] then [] else [Keyed(Encoding(pairs[0].key), pairs[0])] + Tagged(pairs[1..])
  }

  function ValBytes(): Pair -> seq<byte> { (p: Pair) => Encoding(p.val) }

  lemma {:induction false} EncodedFromTagged(pairs: seq<Pair>)
    ensures EncodedPairs(pairs) == MapVals(ValBytes(), Tagged(pairs))
  {
    hide Encoding;
    if pairs != [] {
      EncodedFromTagged(pairs[1..]);
      assert Tagged(pairs)[1..] == Tagged(pairs[1..]);
    }
  }

  /** The same map with its pairs in the order they are written. */
  function InOrder(pairs: seq<Pair>): (r: seq<Pair>)
    ensures |r| == |pairs|
  {
    Kernel.Payloads(SortByKey(Tagged(pairs)))
  }

  lemma {:induction false} InOrderTagged(pairs: seq<Pair>)
    ensures Tagged(InOrder(pairs)) == SortByKey(Tagged(pairs))
    ensures forall p :: p in InOrder(pairs) <==> p in pairs
  {
    hide Encoding, SortByKey;
    var xs := Tagged(pairs);
    var sorted, r := SortByKey(xs), InOrder(pairs);
    SortMembers(xs);
    forall i | 0 <= i < |sorted|
      ensures Tagged(r)[i] == sorted[i] && r[i] in pairs
    {
      assert sorted[i] in sorted && sorted[i] in xs;
      assert sorted[i] == Keyed(sorted[i].key, sorted[i].val);
    }
    forall p | p in pairs
      ensures p in r
    {
      var i :| 0 <= i < |pairs| && pairs[i] == p;
      assert xs[i] in xs && xs[i] in sorted;
      var j :| 0 <= j < |sorted| && sorted[j] == xs[i];
      assert r[j] == p;
    }
  }

  lemma {:induction false} SameBytesInOrder(pairs: Vec<Pair>)
    ensures Encoding(Map(InOrder(pairs))) == Encoding(Map(pairs))
  {
    hide SortByKey, Kernel.Flatten, Kernel.Head, InOrder, Tagged, EncodedPairs;
    var xs, r := Tagged(pairs), InOrder(pairs);
    var f := ValBytes();
    EncodedFromTagged(pairs);
    EncodedFromTagged(r);
    InOrderTagged(pairs);
    SortMap(f, xs);
    SortMap(f, SortByKey(xs));
    SortSorts(xs);
    SortOfAscending(SortByKey(xs));
  }

  /** Keys and values canonical, keys different. */
  ghost predicate GoodPairs(pairs: seq<Pair>)
  {
    DistinctTextKeys(pairs)
    && forall i :: 0 <= i < |pairs| ==> IsCanonical(pairs[i].key) && IsCanonical(pairs[i].val)
  }

  lemma {:induction false} LiftedPair(pairs: seq<Pair>, i: nat)
    requires i < |pairs|
    ensures LiftPairs(pairs)[i] == Kernel.Entry(Lift(pairs[i].key), Lift(pairs[i].val))
  {
    hide Lift;
    if i > 0 {
      LiftedPair(pairs[1..], i - 1);
      assert LiftPairs(pairs)[1..] == LiftPairs(pairs[1..]);
    }
  }

  lemma {:induction false} CanonicalBytes(v: Value)
    requires IsCanonical(v)
    ensures Kernel.Encoding(Lift(v)) == Kernel.Written(Encoding(v), true)
  {
    CodecProofs.CanonicalEncodes(Lift(v));
    WritersAgree(v);
  }

  lemma {:induction false} KeyBytesDistinct(pairs: seq<Pair>)
    requires GoodPairs(pairs)
    ensures DistinctKeys(Tagged(pairs))
  {
    hide Lift, Encoding, Kernel.Encoding, Kernel.IsCanonical;
    var xs := Tagged(pairs);
    forall i, j | 0 <= i < j < |pairs|
      ensures xs[i].key != xs[j].key
    {
      var a, b := pairs[i].key, pairs[j].key;
      if xs[i].key == xs[j].key {
        assert a != b;
        CanonicalBytes(a);
        CanonicalBytes(b);
        CodecProofs.CanonicalEncodingInjective(Lift(a), Lift(b));
        LiftInjective(a, b);
      }
    }
  }

  /** A map is canonical exactly when its keys and values are and its keys'
      encodings ascend. */
  lemma {:induction false} MapCanonical(pairs: Vec<Pair>)
    requires forall i :: 0 <= i < |pairs| ==> IsCanonical(pairs[i].key) && IsCanonical(pairs[i].val)
    ensures IsCanonical(Map(pairs)) <==> StrictlyAscending(Tagged(pairs))
  {
    hide *;
    var entries := LiftPairs(pairs);
    var xs, ys := Tagged(pairs), Kernel.KeyedByEncoding(entries);
    forall i | 0 <= i < |pairs|
      ensures ys[i].key == xs[i].key
      ensures Kernel.IsCanonical(entries[i].key) && Kernel.IsCanonical(entries[i].val)
    {
      LiftedPair(pairs, i);
      CanonicalBytes(pairs[i].key);
      CanonicalIs(pairs[i]);
    }
    CodecProofs.EntriesCanonicalEach(entries);
    SameKeysAscend(xs, ys);
    MapCanonicalIs(pairs);
  }

  lemma {:induction false} CanonicalIs(p: Pair)
    ensures IsCanonical(p.key) <==> Kernel.IsCanonical(Lift(p.key))
    ensures IsCanonical(p.val) <==> Kernel.IsCanonical(Lift(p.val))
  {
  }

  lemma {:induction false} MapCanonicalIs(pairs: Vec<Pair>)
    ensures IsCanonical(Map(pairs)) <==>
      Kernel.EntriesCanonical(LiftPairs(pairs)) && StrictlyAscending(Kernel.KeyedByEncoding(LiftPairs(pairs)))
  {
    hide Kernel.EntriesCanonical, StrictlyAscending, Kernel.KeyedByEncoding;
  }

  lemma {:induction false} SameKeysAscend<A, B>(xs: seq<Keyed<A>>, ys: seq<Keyed<B>>)
    requires |xs| == |ys| && forall i :: 0 <= i < |xs| ==> ys[i].key == xs[i].key
    ensures StrictlyAscending(xs) <==> StrictlyAscending(ys)
  {
    hide LexLess;
  }

  lemma {:induction false} CanonicalMapPairs(pairs: Vec<Pair>)
    requires IsCanonical(Map(pairs))
    ensures GoodPairs(pairs) && StrictlyAscending(Tagged(pairs))
  {
    hide Encoding, Kernel.Encoding, LexLess, Tagged;
    var entries := LiftPairs(pairs);
    CodecProofs.EntriesCanonicalEach(entries);
    forall i | 0 <= i < |pairs|
      ensures IsCanonical(pairs[i].key) && IsCanonical(pairs[i].val)
    {
      LiftedPair(pairs, i);
      assert entries[i] in entries;
    }
    MapCanonical(pairs);
    forall i, j | 0 <= i < j < |pairs|
      ensures pairs[i].key != pairs[j].key
    {
      assert LexLess(Tagged(pairs)[i].key, Tagged(pairs)[j].key);
      LexIrreflexive(Encoding(pairs[i].key));
    }
  }

  lemma {:induction false} InOrderCanonical(pairs: Vec<Pair>)
    requires GoodPairs(pairs)
    ensures IsCanonical(Map(InOrder(pairs)))
  {
    hide Encoding, Kernel.Encoding, LexLess, Tagged, InOrder, SortByKey, Lift, Kernel.IsCanonical;
    var r := InOrder(pairs);
    KeyBytesDistinct(pairs);
    SortDistinct(Tagged(pairs));
    InOrderTagged(pairs);
    forall i | 0 <= i < |r|
      ensures IsCanonical(r[i].key) && IsCanonical(r[i].val)
    {
      assert r[i] in pairs;
    }
    MapCanonical(r);
  }

  /** Two maps with the same good pairs have one ordered form. */
  lemma {:induction false} InOrderUnique(pairs: Vec<Pair>, other: Vec<Pair>)
    requires GoodPairs(pairs) && IsCanonical(Map(other))
    requires forall p :: p in pairs <==> p in other
    ensures InOrder(pairs) == other
  {
    hide Encoding, Kernel.Encoding, LexLess, Tagged, InOrder, SortByKey, Lift, Kernel.IsCanonical;
    var xs, ys := Tagged(InOrder(pairs)), Tagged(other);
    InOrderCanonical(pairs);
    InOrderTagged(pairs);
    CanonicalMapPairs(InOrder(pairs));
    CanonicalMapPairs(other);
    TaggedMembers(InOrder(pairs));
    TaggedMembers(other);
    AscendingUnique(xs, ys);
    forall i | 0 <= i < |xs|
      ensures InOrder(pairs)[i] == other[i]
    {
      assert xs[i].val == ys[i].val;
    }
  }

  lemma {:induction false} TaggedMembers(pairs: seq<Pair>)
    ensures forall x :: x in Tagged(pairs) <==> x.val in pairs && x.key == Encoding(x.val.key)
  {
    hide Encoding;
    var xs := Tagged(pairs);
    forall x: Keyed<Pair> | x.val in pairs && x.key == Encoding(x.val.key)
      ensures x in xs
    {
      var i :| 0 <= i < |pairs| && pairs[i] == x.val;
      assert xs[i] == Keyed(x.key, x.val) == x;
    }
  }

  // ------------------------------------------------------------------
  // The filter inside a REQ frame
  // ------------------------------------------------------------------

  lemma {:induction false} ListsCanonical(xs: seq<u64>, ds: seq<Digest>)
    ensures Kernel.AllCanonical(LiftAll(UintValues(xs))) && Kernel.AllCanonical(LiftAll(DigestValues(ds)))
    decreases |xs| + |ds|
  {
    if xs != [] {
      ListsCanonical(xs[1..], []);
      var v := UintValues(xs);
      assert LiftAll(v)[1..] == LiftAll(v[1..]);
    }
    if ds != [] {
      ListsCanonical([], ds[1..]);
      var v := DigestValues(ds);
      assert LiftAll(v)[1..] == LiftAll(v[1..]);
    }
  }

  lemma {:induction false} FieldCanonical(f: Filter, k: Key)
    requires FieldValue(f, k).Some?
    ensures IsCanonical(FieldValue(f, k).value)
  {
    hide Kernel.AllCanonical;
    match k
    case Kinds => ListsCanonical(f.kinds.value, []);
    case Authors => ListsCanonical([], f.authors.value);
    case Refs => ListsCanonical([], f.refs.value);
    case Ids => ListsCanonical([], f.ids.value);
    case Since =>
    case Limit =>
  }

  lemma {:induction false} FilterPairsGood(f: Filter)
    ensures GoodPairs(PresentPairs(f, KEYS))
  {
    hide FieldValue, KeyOf, PresentPairs;
    AllKeys();
    PresentDistinct(f, KEYS);
    PresentMembers(f, KEYS);
    var pairs := PresentPairs(f, KEYS);
    forall i | 0 <= i < |pairs|
      ensures IsCanonical(pairs[i].key) && IsCanonical(pairs[i].val)
    {
      assert pairs[i] in pairs;
      var k := KeyOf(pairs[i].key).value;
      KeyOfName(k, pairs[i].key);
      FieldCanonical(f, k);
    }
  }

  /** A frame of three members is canonical when its members are. */
  lemma {:induction false} ThreeCanonical(a: Value, b: Value, c: Value)
    requires IsCanonical(Array([a, b, c]))
    ensures IsCanonical(c)
  {
    hide Kernel.IsCanonical, Lift;
    var items := [a, b, c];
    ArrayParts(items);
    assert items[2] == c;
  }

  lemma {:induction false} ArrayParts(items: Vec<Value>)
    ensures IsCanonical(Array(items)) <==> forall i :: 0 <= i < |items| ==> IsCanonical(items[i])
  {
    hide Kernel.AllCanonical, LiftAll;
    ArrayCanonical(items);
  }

  /** Members written alike are written alike inside a frame. */
  lemma {:induction false} ThreeBytes(a: Value, b: Value, c: Value, d: Value)
    requires Encoding(c) == Encoding(d)
    ensures Encoding(Array([a, b, c])) == Encoding(Array([a, b, d]))
  {
    hide Encoding;
    UnfoldArray([a, b, c]);
    UnfoldArray([a, b, d]);
    assert [a, b, c][1..] == [b, c] && [b, c][1..] == [c] && [c][1..] == [];
    assert [a, b, d][1..] == [b, d] && [b, d][1..] == [d] && [d][1..] == [];
    assert EncodingAll([c]) == EncodingAll([d]);
    assert EncodingAll([b, c]) == EncodingAll([b, d]);
  }

  lemma {:induction false} UnfoldArray(items: Vec<Value>)
    ensures Encoding(Array(items)) == Kernel.Head(4, |items|) + EncodingAll(items)
  {
  }

  /** The value a REQ frame's bytes decode to: the filter's pairs in order. */
  function ReqOnWire(subId: Kernel.Str, f: Filter): Value
  {
    Array([Text(TagName(TagReq)), Text(subId), Map(InOrder(PresentPairs(f, KEYS)))])
  }

  lemma {:induction false} ReqReadBack(subId: Kernel.Str, f: Filter)
    ensures Decode(EncodeClient(Req(subId, f))) == Some(ReqOnWire(subId, f))
    ensures FromValue(Map(InOrder(PresentPairs(f, KEYS)))) == Some(f)
  {
    hide Decode, Encoding, InOrder, Kernel.IsCanonical, AssignAll, PresentPairs, TagName, KeyOf;
    var pairs := PresentPairs(f, KEYS);
    var tag, sub, map' := Text(TagName(TagReq)), Text(subId), Map(InOrder(pairs));
    FilterPairsGood(f);
    InOrderCanonical(pairs);
    InOrderTagged(pairs);
    SameBytesInOrder(pairs);
    ThreeBytes(tag, sub, Map(pairs), map');
    var items := [tag, sub, map'];
    TextCanonical(TagName(TagReq));
    TextCanonical(subId);
    ArrayParts(items);
    EncodeThenDecode(Array(items));
    AllKeys();
    PresentMembers(f, KEYS);
    ReadsWritten(f, InOrder(pairs));
  }

  lemma {:induction false} TextCanonical(s: Kernel.Str)
    ensures IsCanonical(Text(s))
  {
  }

  // ------------------------------------------------------------------
  // Main results
  // ------------------------------------------------------------------

  predicate ClientSubIdFits(f: ClientFrame)
  {
    f.Pub? || ShortSubId(f.subId)
  }

  predicate RelaySubIdFits(f: RelayFrame)
  {
    f.Ok? || ShortSubId(f.subId)
  }

  function RelayTag(f: RelayFrame): Tag
  {
    match f
    case Rec(_, _, _) => TagRec
    case Eose(_) => TagEose
    case Ok(_, _, _) => TagOk
    case Closed(_, _) => TagClosed
  }

  lemma {:induction false} RecExact(items: Vec<Value>)
    requires RecOf(items).Some? && items[0] == Text(TagName(TagRec))
    ensures var f := RecOf(items).value; RelayValue(f) == Array(items) && RelaySubIdFits(f)
  {
    hide TagName, ShortSubId;
    assert items == RelayValue(RecOf(items).value).items;
  }

  lemma {:induction false} EoseExact(items: Vec<Value>)
    requires EoseOf(items).Some? && items[0] == Text(TagName(TagEose))
    ensures var f := EoseOf(items).value; RelayValue(f) == Array(items) && RelaySubIdFits(f)
  {
    hide TagName, ShortSubId;
    assert items == RelayValue(EoseOf(items).value).items;
  }

  lemma {:induction false} OkExact(items: Vec<Value>)
    requires OkOf(items).Some? && items[0] == Text(TagName(TagOk))
    ensures var f := OkOf(items).value; RelayValue(f) == Array(items) && RelaySubIdFits(f)
  {
    hide TagName, ShortSubId;
    assert items == RelayValue(OkOf(items).value).items;
  }

  lemma {:induction false} ClosedExact(items: Vec<Value>)
    requires ClosedOf(items).Some? && items[0] == Text(TagName(TagClosed))
    ensures var f := ClosedOf(items).value; RelayValue(f) == Array(items) && RelaySubIdFits(f)
  {
    hide TagName, ShortSubId;
    assert items == RelayValue(ClosedOf(items).value).items;
  }

  lemma {:induction false} WrittenIsRead(f: RelayFrame)
    ensures var items := RelayValue(f).items;
      items != [] && items[0] == Text(TagName(RelayTag(f)))
      && var r := if RelaySubIdFits(f) then Some(f) else None;
      match RelayTag(f)
      case TagRec => RecOf(items) == r
      case TagEose => EoseOf(items) == r
      case TagOk => OkOf(items) == r
      case _ => ClosedOf(items) == r
  {
    hide TagName, ShortSubId;
  }

  /** A relay frame is read back as it was written, exactly when its
      subscription id has at most 64 bytes. */
  lemma {:induction false} RelayRoundTrip(f: RelayFrame)
    ensures DecodeRelay(EncodeRelay(f)) == if RelaySubIdFits(f) then Some(f) else None
  {
    hide Decode, Encoding, TagOf, TagName, ShortSubId, RecOf, EoseOf, OkOf, ClosedOf, RelaySubIdFits;
    var items := RelayValue(f).items;
    FlatReadBack(items);
    WrittenIsRead(f);
    TagOfName(RelayTag(f), items[0]);
  }

  /** And accepted bytes are the encoding of the frame they decode to. */
  lemma {:induction false} RelayDecodeThenEncode(b: seq<byte>)
    requires DecodeRelay(b).Some?
    ensures EncodeRelay(DecodeRelay(b).value) == b && RelaySubIdFits(DecodeRelay(b).value)
  {
    hide Decode, Encoding, TagOf, TagName, RecOf, EoseOf, OkOf, ClosedOf, RelayValue, RelaySubIdFits;
    var items := Decode(b).value.items;
    DecodeThenEncode(b);
    TagOfName(TagOf(items[0]).value, items[0]);
    match TagOf(items[0]).value
    case TagRec => RecExact(items);
    case TagEose => EoseExact(items);
    case TagOk => OkExact(items);
    case TagClosed => ClosedExact(items);
    case _ =>
  }

  lemma {:induction false} CloseWritten(subId: Kernel.Str)
    ensures var f := Close(subId); var items := ClientValue(f).items;
      items != [] && items[0] == Text(TagName(TagClose))
      && (forall i :: 0 <= i < |items| ==> Scalar(items[i]))
      && CloseOf(items) == if ClientSubIdFits(f) then Some(f) else None
  {
    hide TagName, ShortSubId;
  }

  lemma {:induction false} PubWritten(record: Vec<byte>, nonce: Option<u64>)
    ensures var f := Pub(record, nonce); var items := ClientValue(f).items;
      items != [] && items[0] == Text(TagName(TagPub))
      && (forall i :: 0 <= i < |items| ==> Scalar(items[i]))
      && PubOf(items) == Some(f)
  {
    hide TagName;
  }

  lemma {:induction false} ReqWritten(subId: Kernel.Str, f: Filter, pairs: Vec<Pair>)
    requires FromValue(Map(pairs)) == Some(f)
    ensures var items := [Text(TagName(TagReq)), Text(subId), Map(pairs)];
      ReqOf(items) == if ClientSubIdFits(Req(subId, f)) then Some(Req(subId, f)) else None
  {
    hide TagName, ShortSubId, FromValue;
  }

  /** A client frame is read back as it was written, exactly when its
      subscription id has at most 64 bytes; publications always are. */
  lemma {:induction false} ClientRoundTrip(f: ClientFrame)
    ensures DecodeClient(EncodeClient(f)) == if ClientSubIdFits(f) then Some(f) else None
  {
    hide Decode, Encoding, TagOf, TagName, ReqOf, CloseOf, PubOf, ToValue, FromValue, InOrder, PresentPairs;
    match f
    case Req(subId, filter) =>
      hide ClientSubIdFits;
      ReqReadBack(subId, filter);
      TagOfName(TagReq, Text(TagName(TagReq)));
      ReqWritten(subId, filter, InOrder(PresentPairs(filter, KEYS)));
    case Close(subId) =>
      hide ClientSubIdFits;
      var items := ClientValue(f).items;
      CloseWritten(subId);
      FlatReadBack(items);
      TagOfName(TagClose, items[0]);
    case Pub(record, nonce) =>
      var items := ClientValue(f).items;
      PubWritten(record, nonce);
      FlatReadBack(items);
      TagOfName(TagPub, items[0]);
  }

  predicate AllKnown(pairs: seq<Pair>)
  {
    forall i :: 0 <= i < |pairs| ==> Known(pairs[i])
  }

  /** The filter map of an accepted REQ frame; empty for other frames. */
  function FilterPairs(b: seq<byte>): seq<Pair>
  {
    match Decode(b)
    case Some(Array(items)) => if |items| == 3 && items[2].Map? then items[2].pairs else []
    case _ => []
  }

  lemma {:induction false} CloseExact(items: Vec<Value>)
    requires CloseOf(items).Some? && items[0] == Text(TagName(TagClose))
    ensures |items| == 2
    ensures var f := CloseOf(items).value; f.Close? && ClientValue(f) == Array(items) && ClientSubIdFits(f)
  {
    hide TagName, ShortSubId;
    assert items == ClientValue(CloseOf(items).value).items;
  }

  lemma {:induction false} PubExact(items: Vec<Value>)
    requires PubOf(items).Some? && items[0] == Text(TagName(TagPub))
    ensures |items| == 3 && !items[2].Map?
    ensures var f := PubOf(items).value; f.Pub? && ClientValue(f) == Array(items) && ClientSubIdFits(f)
  {
    hide TagName;
    assert items == ClientValue(PubOf(items).value).items;
  }

  lemma {:induction false} ReqExact(items: Vec<Value>)
    requires ReqOf(items).Some? && items[0] == Text(TagName(TagReq))
    ensures |items| == 3 && items[2].Map?
    ensures var f := ReqOf(items).value;
      f.Req? && ClientSubIdFits(f) && FromValue(items[2]) == Some(f.filter)
      && items == [Text(TagName(TagReq)), Text(f.subId), Map(items[2].pairs)]
  {
    hide TagName, ShortSubId, AssignAll;
  }

  /** Accepted bytes are the encoding of the client frame they decode to, exactly
      when a filter among them has no unknown keys: those are dropped. */
  lemma {:induction false} ClientDecodeThenEncode(b: seq<byte>)
    requires DecodeClient(b).Some?
    ensures ClientSubIdFits(DecodeClient(b).value)
    ensures EncodeClient(DecodeClient(b).value) == b <==> AllKnown(FilterPairs(b))
  {
    hide Decode, Encoding, TagOf, TagName, ReqOf, CloseOf, PubOf, ClientSubIdFits, ClientValue, FromValue, AllKnown;
    var f, items := DecodeClient(b).value, Decode(b).value.items;
    DecodeThenEncode(b);
    TagOfName(TagOf(items[0]).value, items[0]);
    NothingUnknown();
    match TagOf(items[0]).value
    case TagReq =>
      ReqExact(items);
      ReqDecodeThenEncode(b, f.subId, f.filter, items[2].pairs);
    case TagClose => CloseExact(items);
    case TagPub => PubExact(items);
    case _ =>
  }

  lemma NothingUnknown()
    ensures AllKnown([])
  {
  }

  lemma {:induction false} ReqDecodeThenEncode(b: seq<byte>, subId: Kernel.Str, f: Filter, pairs: Vec<Pair>)
    requires Decode(b) == Some(Array([Text(TagName(TagReq)), Text(subId), Map(pairs)]))
    requires FromValue(Map(pairs)) == Some(f)
    ensures EncodeClient(Req(subId, f)) == b <==> AllKnown(pairs)
  {
    hide Decode, Encoding, TagName, ToValue, InOrder, PresentPairs, FromValue, Kernel.IsCanonical, Lift, KeyOf, FieldValue;
    var tag, sub, map' := Text(TagName(TagReq)), Text(subId), Map(pairs);
    var written := PresentPairs(f, KEYS);
    DecodeThenEncode(b);
    ThreeCanonical(tag, sub, map');
    CanonicalMapPairs(pairs);
    AllKeys();
    PresentMembers(f, KEYS);
    FilterPairsGood(f);
    ReqReadBack(subId, f);
    if EncodeClient(Req(subId, f)) == b {
      OnWireParts(subId, f, pairs);
      InOrderTagged(written);
      forall i | 0 <= i < |pairs|
        ensures Known(pairs[i])
      {
        assert pairs[i] in InOrder(written);
      }
    }
    if AllKnown(pairs) {
      ReadsExactly(pairs, f);
      KnownPairsAreWritten(pairs, f);
      InOrderUnique(written, pairs);
      OnWireIs(subId, f, pairs);
      DecodeThenEncode(EncodeClient(Req(subId, f)));
    }
  }

  lemma {:induction false} OnWireParts(subId: Kernel.Str, f: Filter, pairs: Vec<Pair>)
    requires ReqOnWire(subId, f) == Array([Text(TagName(TagReq)), Text(subId), Map(pairs)])
    ensures InOrder(PresentPairs(f, KEYS)) == pairs
  {
    hide InOrder, PresentPairs, TagName;
    assert ReqOnWire(subId, f).items[2] == Map(pairs);
  }

  lemma {:induction false} OnWireIs(subId: Kernel.Str, f: Filter, pairs: Vec<Pair>)
    requires InOrder(PresentPairs(f, KEYS)) == pairs
    ensures ReqOnWire(subId, f) == Array([Text(TagName(TagReq)), Text(subId), Map(pairs)])
  {
    hide InOrder, PresentPairs, TagName;
  }

  lemma {:induction false} KnownPairsAreWritten(pairs: seq<Pair>, f: Filter)
    requires AllKnown(pairs) && Describes(pairs, f) && DistinctTextKeys(pairs)
    ensures forall p :: p in PresentPairs(f, KEYS) <==> p in pairs
  {
    hide FieldValue, KeyOf, PresentPairs, KeyName;
    AllKeys();
    PresentMembers(f, KEYS);
    forall p
      ensures p in PresentPairs(f, KEYS) <==> p in pairs
    {
      if p in pairs {
        var i :| 0 <= i < |pairs| && pairs[i] == p;
        assert Known(pairs[i]) && Fits(f, pairs[i]);
      }
      if p in PresentPairs(f, KEYS) {
        var k := KeyOf(p.key).value;
        assert HasKey(pairs, k);
        var i :| 0 <= i < |pairs| && KeyOf(pairs[i].key) == Some(k);
        KeyOfName(k, p.key);
        KeyOfName(k, pairs[i].key);
        assert Fits(f, pairs[i]);
        assert p == Pair(p.key, p.val) && pairs[i] == Pair(pairs[i].key, pairs[i].val);
        assert pairs[i] in pairs;
      }
    }
  }
}
