/** The frames of `/sync` octet by octet: what a client and a relay write, and the
    map of conditions that a filter becomes inside a frame. */
module FrameWire {
  import opened Wrappers
  import opened Bytes
  import opened FrameCodec
  import opened Filters
  import opened Frames
  import opened Rfc8949
  import Kernel = Codec
  import Utf8

  function TextBytes(s: Kernel.Str): seq<byte> { ShortHead(3, |Utf8.Encode(s)|) + Utf8.Encode(s) }

  function BlobBytes(b: Vec<byte>): seq<byte> { ShortHead(2, |b|) + b }

  function FlagByte(f: bool): byte { if f then 0xf5 else 0xf4 }

  // ------------------------------------------------------------------
  // Filters
  // ------------------------------------------------------------------

  function DigestsBytes(xs: seq<Digest>): seq<byte>
  {
    if xs == [] then [] else [0x58, 0x20] + xs[0] + DigestsBytes(xs[1..])
  }

  function NumbersBytes(xs: seq<u64>): seq<byte>
  {
    if xs == [] then [] else ShortHead(0, xs[0]) + NumbersBytes(xs[1..])
  }

  function DigestField(name: seq<byte>, xs: Option<Vec<Digest>>): seq<byte>
  {
    if xs.None? then [] else name + ShortHead(4, |xs.value|) + DigestsBytes(xs.value)
  }

  function NumberField(name: seq<byte>, x: Option<u64>): seq<byte>
  {
    if x.None? then [] else name + ShortHead(0, x.value)
  }

  function One<T>(x: Option<T>): nat { if x.Some? then 1 else 0 }

  /** A map of the conditions present, under "ids", "refs", "kinds", "limit",
      "since" and "authors", in that order. */
  function FilterBytes(f: Filter): seq<byte>
  {
    ShortHead(5, One(f.ids) + One(f.refs) + One(f.kinds) + One(f.limit) + One(f.since) + One(f.authors))
    + DigestField([0x63, 0x69, 0x64, 0x73], f.ids)
    + DigestField([0x64, 0x72, 0x65, 0x66, 0x73], f.refs)
    + (if f.kinds.None? then []
       else [0x65, 0x6b, 0x69, 0x6e, 0x64, 0x73] + ShortHead(4, |f.kinds.value|) + NumbersBytes(f.kinds.value))
    + NumberField([0x65, 0x6c, 0x69, 0x6d, 0x69, 0x74], f.limit)
    + NumberField([0x65, 0x73, 0x69, 0x6e, 0x63, 0x65], f.since)
    + DigestField([0x67, 0x61, 0x75, 0x74, 0x68, 0x6f, 0x72, 0x73], f.authors)
  }

  // ------------------------------------------------------------------
  // Frames
  // ------------------------------------------------------------------

  /** "REQ", "CLOSE" and "PUB"; a publication without nonce ends in null. */
  function ClientBytes(f: ClientFrame): seq<byte>
  {
    match f
    case Req(subId, filter) => [0x83, 0x63, 0x52, 0x45, 0x51] + TextBytes(subId) + FilterBytes(filter)
    case Close(subId) => [0x82, 0x65, 0x43, 0x4c, 0x4f, 0x53, 0x45] + TextBytes(subId)
    case Pub(record, nonce) =>
      [0x83, 0x63, 0x50, 0x55, 0x42] + BlobBytes(record) + (if nonce.Some? then ShortHead(0, nonce.value) else [0xf6])
  }

  /** "REC", "EOSE", "OK" and "CLOSED". */
  function RelayBytes(f: RelayFrame): seq<byte>
  {
    match f
    case Rec(subId, seqno, record) =>
      [0x84, 0x63, 0x52, 0x45, 0x43] + TextBytes(subId) + ShortHead(0, seqno) + BlobBytes(record)
    case Eose(subId) => [0x82, 0x64, 0x45, 0x4f, 0x53, 0x45] + TextBytes(subId)
    case Ok(id, accepted, reason) =>
      [0x84, 0x62, 0x4f, 0x4b, 0x58, 0x20] + id + [FlagByte(accepted)] + TextBytes(reason)
    case Closed(subId, reason) => [0x83, 0x66, 0x43, 0x4c, 0x4f, 0x53, 0x45, 0x44] + TextBytes(subId) + TextBytes(reason)
  }

  // ------------------------------------------------------------------
  // Values
  // ------------------------------------------------------------------

  lemma ScalarsAre(n: u64, b: Vec<byte>, s: Kernel.Str, f: bool)
    ensures Encoding(Uint(n)) == ShortHead(0, n)
    ensures Encoding(Value.Bytes(b)) == BlobBytes(b)
    ensures Encoding(Text(s)) == TextBytes(s)
    ensures Encoding(Bool(f)) == [FlagByte(f)]
    ensures Encoding(Null) == [0xf6]
  {
    hide Kernel.Head, ShortHead;
    HeadIs(0, n);
    HeadIs(2, |b|);
    HeadIs(3, |Utf8.Encode(s)|);
  }

  lemma ItemsStep(v: Value, rest: seq<Value>)
    ensures EncodingAll([v] + rest) == Encoding(v) + EncodingAll(rest)
    ensures EncodingAll([]) == []
  {
    hide Encoding;
    assert ([v] + rest)[1..] == rest;
  }

  lemma ArrayIs(items: Vec<Value>)
    ensures Encoding(Array(items)) == ShortHead(4, |items|) + EncodingAll(items)
  {
    hide EncodingAll, ShortHead, Kernel.Head;
    HeadIs(4, |items|);
  }

  /** A short name in ASCII. */
  lemma {:induction false} NameIs(s: string, octets: seq<byte>)
    requires |s| == |octets| < 24 && forall i :: 0 <= i < |s| ==> s[i] as int == octets[i] < 0x80
    ensures Encoding(Text(Kernel.Name(s))) == [0x60 + |s|] + octets
  {
    hide Encoding, Utf8.Encode, Ascii;
    AsciiOctets(s, octets);
    AsciiIsUtf8(s);
    ScalarsAre(0, [], Kernel.Name(s), true);
  }

  // ------------------------------------------------------------------
  // The filter map
  // ------------------------------------------------------------------

  function KeyBytes(k: Key): seq<byte>
  {
    match k
    case Ids => [0x63, 0x69, 0x64, 0x73]
    case Refs => [0x64, 0x72, 0x65, 0x66, 0x73]
    case Kinds => [0x65, 0x6b, 0x69, 0x6e, 0x64, 0x73]
    case Limit => [0x65, 0x6c, 0x69, 0x6d, 0x69, 0x74]
    case Since => [0x65, 0x73, 0x69, 0x6e, 0x63, 0x65]
    case Authors => [0x67, 0x61, 0x75, 0x74, 0x68, 0x6f, 0x72, 0x73]
  }

  lemma {:induction false} KeyIs(k: Key)
    ensures Encoding(Text(KeyName(k))) == KeyBytes(k)
  {
    hide Encoding, Utf8.Encode, Kernel.Name;
    match k
    case Ids => NameIs("ids", [0x69, 0x64, 0x73]);
    case Refs => NameIs("refs", [0x72, 0x65, 0x66, 0x73]);
    case Kinds => NameIs("kinds", [0x6b, 0x69, 0x6e, 0x64, 0x73]);
    case Limit => NameIs("limit", [0x6c, 0x69, 0x6d, 0x69, 0x74]);
    case Since => NameIs("since", [0x73, 0x69, 0x6e, 0x63, 0x65]);
    case Authors => NameIs("authors", [0x61, 0x75, 0x74, 0x68, 0x6f, 0x72, 0x73]);
  }

  lemma {:induction false} DigestsAre(xs: seq<Digest>)
    ensures EncodingAll(DigestValues(xs)) == DigestsBytes(xs)
  {
    hide Encoding;
    if xs != [] {
      DigestsAre(xs[1..]);
      assert DigestValues(xs)[1..] == DigestValues(xs[1..]);
      ScalarsAre(0, xs[0], "", true);
    }
  }

  lemma {:induction false} NumbersAre(xs: seq<u64>)
    ensures EncodingAll(UintValues(xs)) == NumbersBytes(xs)
  {
    hide Encoding, ShortHead;
    if xs != [] {
      NumbersAre(xs[1..]);
      assert UintValues(xs)[1..] == UintValues(xs[1..]);
      ScalarsAre(xs[0], [], "", true);
    }
  }

  /** A condition as the sorted writer sees it: encoded key, encoded value. */
  function Condition(f: Filter, k: Key): seq<Keyed<seq<byte>>>
  {
    var v := FieldValue(f, k);
    if v.None? then [] else [Keyed(KeyBytes(k), Encoding(v.value))]
  }

  function Conditions(f: Filter, keys: seq<Key>): seq<Keyed<seq<byte>>>
  {
    if keys == [] then [] else Condition(f, keys[0]) + Conditions(f, keys[1..])
  }

  lemma {:induction false} ConditionsAre(f: Filter, keys: seq<Key>)
    ensures EncodedPairs(PresentPairs(f, keys)) == Conditions(f, keys)
  {
    hide Encoding, FieldValue, KeyBytes, KeyName;
    if keys != [] {
      ConditionsAre(f, keys[1..]);
      KeyIs(keys[0]);
      var v := FieldValue(f, keys[0]);
      if v.Some? {
        var p := Pair(Text(KeyName(keys[0])), v.value);
        assert ([p] + PresentPairs(f, keys[1..]))[1..] == PresentPairs(f, keys[1..]);
      }
    }
  }

  const ORDER: seq<Key> := [Ids, Refs, Kinds, Limit, Since, Authors]

  lemma {:induction false} SameConditions(f: Filter)
    ensures multiset(Conditions(f, KEYS)) == multiset(Conditions(f, ORDER))
    ensures Conditions(f, ORDER)
         == Condition(f, Ids) + (Condition(f, Refs) + (Condition(f, Kinds) + (Condition(f, Limit) + (Condition(f, Since)
            + (Condition(f, Authors) + [])))))
  {
    hide Condition;
    SixConditions(f, Kinds, Authors, Refs, Ids, Since, Limit);
    SixConditions(f, Ids, Refs, Kinds, Limit, Since, Authors);
  }

  lemma {:induction false} SixConditions(f: Filter, a: Key, b: Key, c: Key, d: Key, e: Key, g: Key)
    ensures Conditions(f, [a, b, c, d, e, g])
         == Condition(f, a) + (Condition(f, b) + (Condition(f, c) + (Condition(f, d) + (Condition(f, e)
            + (Condition(f, g) + [])))))
  {
    hide *;
    ConditionsStep(f, a, [b, c, d, e, g]);
    ConditionsStep(f, b, [c, d, e, g]);
    ConditionsStep(f, c, [d, e, g]);
    ConditionsStep(f, d, [e, g]);
    ConditionsStep(f, e, [g]);
    ConditionsStep(f, g, []);
    assert [a] + [b, c, d, e, g] == [a, b, c, d, e, g] && [b] + [c, d, e, g] == [b, c, d, e, g];
    assert [c] + [d, e, g] == [c, d, e, g] && [d] + [e, g] == [d, e, g] && [e] + [g] == [e, g] && [g] + [] == [g];
  }

  lemma ConditionsStep(f: Filter, k: Key, rest: seq<Key>)
    ensures Conditions(f, [k] + rest) == Condition(f, k) + Conditions(f, rest)
    ensures Conditions(f, []) == []
  {
    hide Condition;
    assert ([k] + rest)[1..] == rest;
  }

  lemma {:induction false} KeysInOrder(i: nat, j: nat)
    requires i < j < 6
    ensures LexLess(KeyBytes(ORDER[i]), KeyBytes(ORDER[j]))
  {
    hide LexLess;
    var a, b := KeyBytes(ORDER[i]), KeyBytes(ORDER[j]);
    BytewiseOrder(a, b);
    assert FirstDifference(a, b, 0) || FirstDifference(a, b, 1);
  }

  lemma {:induction false} ConditionsAscend(f: Filter, keys: seq<Key>)
    requires forall i, j :: 0 <= i < j < |keys| ==> LexLess(KeyBytes(keys[i]), KeyBytes(keys[j]))
    ensures StrictlyAscending(Conditions(f, keys))
    ensures forall x :: x in Conditions(f, keys) ==> exists i :: 0 <= i < |keys| && x.key == KeyBytes(keys[i])
  {
    hide LexLess, KeyBytes, FieldValue, Encoding;
    if keys != [] {
      var rest := keys[1..];
      ConditionsAscend(f, rest);
      var tail := Conditions(f, rest);
      forall x | x in tail
        ensures LexLess(KeyBytes(keys[0]), x.key) && exists i :: 0 <= i < |keys| && x.key == KeyBytes(keys[i])
      {
        var i :| 0 <= i < |rest| && x.key == KeyBytes(rest[i]);
        assert rest[i] == keys[i + 1];
      }
      var all := Conditions(f, keys);
      forall i, j | 0 <= i < j < |all|
        ensures LexLess(all[i].key, all[j].key)
      {
        if FieldValue(f, keys[0]).Some? {
          assert all[j] == tail[j - 1];
          if i > 0 { assert all[i] == tail[i - 1]; }
        }
      }
      assert forall x :: x in Condition(f, keys[0]) ==> x.key == KeyBytes(keys[0]);
    }
  }

  lemma {:induction false} FlattenAppend(a: seq<Keyed<seq<byte>>>, b: seq<Keyed<seq<byte>>>)
    ensures Kernel.Flatten(a + b) == Kernel.Flatten(a) + Kernel.Flatten(b)
  {
    if a == [] {
      assert a + b == b;
    } else {
      assert (a + b)[1..] == a[1..] + b;
      FlattenAppend(a[1..], b);
    }
  }

  lemma {:induction false} DigestCondition(f: Filter, k: Key, name: seq<byte>, xs: Option<Vec<Digest>>)
    requires FieldValue(f, k) == DigestListValue(xs) && name == KeyBytes(k)
    ensures Kernel.Flatten(Condition(f, k)) == DigestField(name, xs) && |Condition(f, k)| == One(xs)
  {
    hide Encoding, ShortHead, KeyBytes, FieldValue;
    if xs.Some? {
      ArrayIs(DigestValues(xs.value));
      DigestsAre(xs.value);
    }
  }

  lemma {:induction false} NumberCondition(f: Filter, k: Key, name: seq<byte>, x: Option<u64>)
    requires FieldValue(f, k) == UintValue(x) && name == KeyBytes(k)
    ensures Kernel.Flatten(Condition(f, k)) == NumberField(name, x) && |Condition(f, k)| == One(x)
  {
    hide Encoding, ShortHead, KeyBytes, FieldValue;
    if x.Some? { ScalarsAre(x.value, [], "", true); }
  }

  lemma {:induction false} KindsCondition(f: Filter)
    ensures |Condition(f, Kinds)| == One(f.kinds)
    ensures Kernel.Flatten(Condition(f, Kinds))
         == if f.kinds.None? then []
            else [0x65, 0x6b, 0x69, 0x6e, 0x64, 0x73] + ShortHead(4, |f.kinds.value|) + NumbersBytes(f.kinds.value)
  {
    hide Encoding, ShortHead;
    if f.kinds.Some? {
      ArrayIs(UintValues(f.kinds.value));
      NumbersAre(f.kinds.value);
    }
  }

  /** What a filter is written as. */
  lemma {:induction false} FilterWritten(f: Filter)
    ensures Encoding(ToValue(f)) == FilterBytes(f)
  {
    hide *;
    FieldValues(f);
    ConditionsAre(f, KEYS);
    SameConditions(f);
    SortedConditions(f);
    MapIs(PresentPairs(f, KEYS));
    KindsCondition(f);
    FilterParts(f);
  }

  lemma MapIs(pairs: Vec<Pair>)
    ensures Encoding(Map(pairs)) == ShortHead(5, |pairs|) + Kernel.Flatten(SortByKey(EncodedPairs(pairs)))
    ensures |EncodedPairs(pairs)| == |pairs|
  {
    hide EncodedPairs, ShortHead, SortByKey, Kernel.Flatten, Kernel.Head;
    HeadIs(5, |pairs|);
  }

  lemma {:induction false} SortedConditions(f: Filter)
    ensures SortByKey(Conditions(f, KEYS)) == Conditions(f, ORDER)
  {
    hide Conditions, SortByKey, LexLess, KeyBytes;
    SameConditions(f);
    forall i, j | 0 <= i < j < |ORDER|
      ensures LexLess(KeyBytes(ORDER[i]), KeyBytes(ORDER[j]))
    {
      KeysInOrder(i, j);
    }
    ConditionsAscend(f, ORDER);
    SortSorts(Conditions(f, KEYS));
    SameAscending(SortByKey(Conditions(f, KEYS)), Conditions(f, ORDER));
  }

  lemma {:induction false} FilterParts(f: Filter)
    requires |Conditions(f, KEYS)| < U64_SIZE
    ensures FilterBytes(f) == ShortHead(5, |Conditions(f, KEYS)|) + Kernel.Flatten(Conditions(f, ORDER))
  {
    hide Conditions, Kernel.Flatten, DigestField, NumberField, NumbersBytes, ShortHead, One, Condition, FieldValue;
    EachCondition(f);
    SameConditions(f);
    assert |Conditions(f, KEYS)| == |Conditions(f, ORDER)| by {
      assert |Conditions(f, KEYS)| == |multiset(Conditions(f, KEYS))| == |Conditions(f, ORDER)|;
    }
    SixParts(Condition(f, Ids), Condition(f, Refs), Condition(f, Kinds), Condition(f, Limit), Condition(f, Since), Condition(f, Authors));
    SixJoined(ShortHead(5, |Conditions(f, KEYS)|), Kernel.Flatten(Condition(f, Ids)), Kernel.Flatten(Condition(f, Refs)),
              Kernel.Flatten(Condition(f, Kinds)), Kernel.Flatten(Condition(f, Limit)), Kernel.Flatten(Condition(f, Since)),
              Kernel.Flatten(Condition(f, Authors)));
  }

  lemma SixJoined(h: seq<byte>, a: seq<byte>, b: seq<byte>, c: seq<byte>, d: seq<byte>, e: seq<byte>, g: seq<byte>)
    ensures h + (a + (b + (c + (d + (e + g))))) == h + a + b + c + d + e + g
  {
  }

  lemma {:induction false} EachCondition(f: Filter)
    ensures Kernel.Flatten(Condition(f, Ids)) == DigestField([0x63, 0x69, 0x64, 0x73], f.ids) && |Condition(f, Ids)| == One(f.ids)
    ensures Kernel.Flatten(Condition(f, Refs)) == DigestField([0x64, 0x72, 0x65, 0x66, 0x73], f.refs)
         && |Condition(f, Refs)| == One(f.refs)
    ensures Kernel.Flatten(Condition(f, Kinds))
         == (if f.kinds.None? then []
             else [0x65, 0x6b, 0x69, 0x6e, 0x64, 0x73] + ShortHead(4, |f.kinds.value|) + NumbersBytes(f.kinds.value))
         && |Condition(f, Kinds)| == One(f.kinds)
    ensures Kernel.Flatten(Condition(f, Limit)) == NumberField([0x65, 0x6c, 0x69, 0x6d, 0x69, 0x74], f.limit)
         && |Condition(f, Limit)| == One(f.limit)
    ensures Kernel.Flatten(Condition(f, Since)) == NumberField([0x65, 0x73, 0x69, 0x6e, 0x63, 0x65], f.since)
         && |Condition(f, Since)| == One(f.since)
    ensures Kernel.Flatten(Condition(f, Authors)) == DigestField([0x67, 0x61, 0x75, 0x74, 0x68, 0x6f, 0x72, 0x73], f.authors)
         && |Condition(f, Authors)| == One(f.authors)
  {
    hide Kernel.Flatten, DigestField, NumberField, NumbersBytes, ShortHead, One, Condition;
    FieldValues(f);
    KindsCondition(f);
    hide UintListValue, DigestListValue, UintValue, FieldValue;
    DigestCondition(f, Ids, [0x63, 0x69, 0x64, 0x73], f.ids);
    DigestCondition(f, Refs, [0x64, 0x72, 0x65, 0x66, 0x73], f.refs);
    NumberCondition(f, Limit, [0x65, 0x6c, 0x69, 0x6d, 0x69, 0x74], f.limit);
    NumberCondition(f, Since, [0x65, 0x73, 0x69, 0x6e, 0x63, 0x65], f.since);
    DigestCondition(f, Authors, [0x67, 0x61, 0x75, 0x74, 0x68, 0x6f, 0x72, 0x73], f.authors);
  }

  lemma {:induction false} SixParts(a: seq<Keyed<seq<byte>>>, b: seq<Keyed<seq<byte>>>, c: seq<Keyed<seq<byte>>>,
                                    d: seq<Keyed<seq<byte>>>, e: seq<Keyed<seq<byte>>>, g: seq<Keyed<seq<byte>>>)
    ensures Kernel.Flatten(a + (b + (c + (d + (e + (g + []))))))
         == Kernel.Flatten(a) + (Kernel.Flatten(b) + (Kernel.Flatten(c) + (Kernel.Flatten(d) + (Kernel.Flatten(e) + Kernel.Flatten(g)))))
  {
    hide *;
    assert g + [] == g;
    FlattenAppend(a, b + (c + (d + (e + g))));
    FlattenAppend(b, c + (d + (e + g)));
    FlattenAppend(c, d + (e + g));
    FlattenAppend(d, e + g);
    FlattenAppend(e, g);
  }

  // ------------------------------------------------------------------
  // Frames
  // ------------------------------------------------------------------

  lemma {:induction false} TagIs(t: Tag)
    ensures Encoding(Text(TagName(t))) ==
      match t
      case TagReq => [0x63, 0x52, 0x45, 0x51]
      case TagClose => [0x65, 0x43, 0x4c, 0x4f, 0x53, 0x45]
      case TagPub => [0x63, 0x50, 0x55, 0x42]
      case TagRec => [0x63, 0x52, 0x45, 0x43]
      case TagEose => [0x64, 0x45, 0x4f, 0x53, 0x45]
      case TagOk => [0x62, 0x4f, 0x4b]
      case TagClosed => [0x66, 0x43, 0x4c, 0x4f, 0x53, 0x45, 0x44]
  {
    hide Encoding, Utf8.Encode, Kernel.Name;
    match t
    case TagReq => NameIs("REQ", [0x52, 0x45, 0x51]);
    case TagClose => NameIs("CLOSE", [0x43, 0x4c, 0x4f, 0x53, 0x45]);
    case TagPub => NameIs("PUB", [0x50, 0x55, 0x42]);
    case TagRec => NameIs("REC", [0x52, 0x45, 0x43]);
    case TagEose => NameIs("EOSE", [0x45, 0x4f, 0x53, 0x45]);
    case TagOk => NameIs("OK", [0x4f, 0x4b]);
    case TagClosed => NameIs("CLOSED", [0x43, 0x4c, 0x4f, 0x53, 0x45, 0x44]);
  }

  lemma {:induction false} TwoItems(a: Value, b: Value)
    ensures Encoding(Array([a, b])) == [0x82] + Encoding(a) + Encoding(b)
  {
    assert ShortHead(4, 2) == [0x82];
    hide Encoding, ShortHead;
    ArrayIs([a, b]);
    assert [a] + [b] == [a, b] && [b] + [] == [b];
    ItemsStep(a, [b]);
    ItemsStep(b, []);
  }

  lemma {:induction false} ThreeItems(a: Value, b: Value, c: Value)
    ensures Encoding(Array([a, b, c])) == [0x83] + Encoding(a) + Encoding(b) + Encoding(c)
  {
    assert ShortHead(4, 3) == [0x83];
    hide Encoding, ShortHead;
    ArrayIs([a, b, c]);
    assert [a] + [b, c] == [a, b, c] && [b] + [c] == [b, c] && [c] + [] == [c];
    ItemsStep(a, [b, c]);
    ItemsStep(b, [c]);
    ItemsStep(c, []);
  }

  lemma {:induction false} FourItems(a: Value, b: Value, c: Value, d: Value)
    ensures Encoding(Array([a, b, c, d])) == [0x84] + Encoding(a) + Encoding(b) + Encoding(c) + Encoding(d)
  {
    assert ShortHead(4, 4) == [0x84];
    hide *;
    ArrayIs([a, b, c, d]);
    assert [a] + [b, c, d] == [a, b, c, d] && [b] + [c, d] == [b, c, d] && [c] + [d] == [c, d] && [d] + [] == [d];
    ItemsStep(a, [b, c, d]);
    ItemsStep(b, [c, d]);
    ItemsStep(c, [d]);
    ItemsStep(d, []);
    FourJoined(Encoding(a), Encoding(b), Encoding(c), Encoding(d));
  }

  lemma FourJoined(a: seq<byte>, b: seq<byte>, c: seq<byte>, d: seq<byte>)
    ensures [0x84] + (a + (b + (c + (d + [])))) == [0x84] + a + b + c + d
  {
  }

  /** What a client writes. */
  lemma {:induction false} ClientWritten(f: ClientFrame)
    ensures EncodeClient(f) == ClientBytes(f)
  {
    hide Encoding, ShortHead, FilterBytes, TextBytes, BlobBytes, ToValue, TagName;
    match f
    case Req(subId, filter) =>
      TagIs(TagReq);
      ScalarsAre(0, [], subId, true);
      FilterWritten(filter);
      ThreeItems(Text(TagName(TagReq)), Text(subId), ToValue(filter));
    case Close(subId) =>
      TagIs(TagClose);
      ScalarsAre(0, [], subId, true);
      TwoItems(Text(TagName(TagClose)), Text(subId));
    case Pub(record, nonce) =>
      TagIs(TagPub);
      ScalarsAre(if nonce.Some? then nonce.value else 0, record, "", true);
      ThreeItems(Text(TagName(TagPub)), Value.Bytes(record), NonceValue(nonce));
  }

  lemma {:induction false} RecWritten(subId: Kernel.Str, seqno: u64, record: Vec<byte>)
    ensures EncodeRelay(Rec(subId, seqno, record)) == RelayBytes(Rec(subId, seqno, record))
  {
    hide Encoding, ShortHead, TextBytes, BlobBytes, TagName;
    TagIs(TagRec);
    ScalarsAre(seqno, record, subId, true);
    FourItems(Text(TagName(TagRec)), Text(subId), Uint(seqno), Value.Bytes(record));
    assert [0x84] + [0x63, 0x52, 0x45, 0x43] == [0x84, 0x63, 0x52, 0x45, 0x43];
  }

  lemma {:induction false} OkWritten(id: Digest, accepted: bool, reason: Kernel.Str)
    ensures EncodeRelay(Ok(id, accepted, reason)) == RelayBytes(Ok(id, accepted, reason))
  {
    hide Encoding, ShortHead, TextBytes, BlobBytes, TagName;
    TagIs(TagOk);
    ScalarsAre(0, id, reason, accepted);
    DigestBytes(id);
    FourItems(Text(TagName(TagOk)), Value.Bytes(id), Bool(accepted), Text(reason));
    assert [0x84] + [0x62, 0x4f, 0x4b] + ([0x58, 0x20] + id) == [0x84, 0x62, 0x4f, 0x4b, 0x58, 0x20] + id;
  }

  lemma {:induction false} EoseWritten(subId: Kernel.Str)
    ensures EncodeRelay(Eose(subId)) == RelayBytes(Eose(subId))
  {
    hide Encoding, ShortHead, TextBytes, TagName;
    TagIs(TagEose);
    ScalarsAre(0, [], subId, true);
    TwoItems(Text(TagName(TagEose)), Text(subId));
    assert [0x82] + [0x64, 0x45, 0x4f, 0x53, 0x45] == [0x82, 0x64, 0x45, 0x4f, 0x53, 0x45];
  }

  lemma {:induction false} ClosedWritten(subId: Kernel.Str, reason: Kernel.Str)
    ensures EncodeRelay(Closed(subId, reason)) == RelayBytes(Closed(subId, reason))
  {
    hide Encoding, ShortHead, TextBytes, TagName;
    TagIs(TagClosed);
    ScalarsAre(0, [], subId, true);
    ScalarsAre(0, [], reason, true);
    ThreeItems(Text(TagName(TagClosed)), Text(subId), Text(reason));
    assert [0x83] + [0x66, 0x43, 0x4c, 0x4f, 0x53, 0x45, 0x44] == [0x83, 0x66, 0x43, 0x4c, 0x4f, 0x53, 0x45, 0x44];
  }

  /** What a relay writes. */
  lemma {:induction false} RelayWritten(f: RelayFrame)
    ensures EncodeRelay(f) == RelayBytes(f)
  {
    hide EncodeRelay, RelayBytes;
    match f
    case Rec(subId, seqno, record) => RecWritten(subId, seqno, record);
    case Eose(subId) => EoseWritten(subId);
    case Ok(id, accepted, reason) => OkWritten(id, accepted, reason);
    case Closed(subId, reason) => ClosedWritten(subId, reason);
  }

  lemma DigestBytes(d: Digest)
    ensures BlobBytes(d) == [0x58, 0x20] + d
  {
  }
}
