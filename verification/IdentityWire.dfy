/** Rotation bodies key by key and octet by octet. */
module IdentityWire {
  import opened Wrappers
  import opened Bytes
  import opened Codec
  import opened CodecProofs
  import opened Record
  import opened Identity
  import opened Rfc8949
  import IdentityBuild
  import RecordWire
  import Blob
  import Utf8

  // ------------------------------------------------------------------
  // Reading
  // ------------------------------------------------------------------

  /** The first entry whose key is the text `key` holds `val`. */
  ghost predicate Holds(body: Value, key: string, val: Value)
  {
    body.Map? && exists i :: 0 <= i < |body.entries| && FirstAt(body.entries, i, key, val)
  }

  ghost predicate FirstAt(entries: seq<Entry>, i: nat, key: string, val: Value)
    requires i < |entries|
  {
    && entries[i].key.Text? && entries[i].key.s == key && entries[i].val == val
    && forall j :: 0 <= j < i ==> !(entries[j].key.Text? && entries[j].key.s == key)
  }

  lemma {:induction false} LookupFirst(entries: seq<Entry>, key: Str, val: Value)
    ensures Lookup(entries, key) == Some(val) <==> exists i :: 0 <= i < |entries| && FirstAt(entries, i, key, val)
  {
    if entries != [] {
      var rest := entries[1..];
      LookupFirst(rest, key, val);
      if i :| 0 <= i < |rest| && FirstAt(rest, i, key, val) && !(entries[0].key.Text? && entries[0].key.s == key) {
        assert forall j :: 0 < j < |entries| ==> entries[j] == rest[j - 1];
        assert FirstAt(entries, i + 1, key, val);
      }
      if i :| 0 <= i < |entries| && FirstAt(entries, i, key, val) {
        if i > 0 {
          assert forall j :: 0 <= j < |rest| ==> rest[j] == entries[j + 1];
          assert FirstAt(rest, i - 1, key, val);
        } else {
          assert entries[0].key.AsText() == Some(key);
        }
      }
      if entries[0].key.AsText() == Some(key) && entries[0].val == val { assert FirstAt(entries, 0, key, val); }
    }
  }

  /** Pairs of an algorithm and a key. */
  ghost predicate KeyPairs(items: seq<Value>, keys: seq<AlgKey>)
  {
    |items| == |keys| && forall i :: 0 <= i < |items| ==> items[i] == Array([Uint(keys[i].alg), Bytes(keys[i].key)])
  }

  lemma {:induction false} KeyPairsRead(items: seq<Value>, keys: seq<AlgKey>)
    ensures ParseAlgKeys(items) == Some(keys) <==> KeyPairs(items, keys)
  {
    if items != [] {
      var rest := items[1..];
      var tail := if keys == [] then [] else keys[1..];
      KeyPairsRead(rest, tail);
      OnePair(items[0]);
      if ParseAlgKeys(items) == Some(keys) {
        assert keys[1..] == ParseAlgKeys(rest).value;
        assert forall i :: 0 < i < |items| ==> items[i] == rest[i - 1] && keys[i] == tail[i - 1];
      }
      if KeyPairs(items, keys) {
        assert items[0] == Array([Uint(keys[0].alg), Bytes(keys[0].key)]);
        assert forall i :: 0 <= i < |rest| ==> rest[i] == items[i + 1] && tail[i] == keys[i + 1];
        assert keys == [keys[0]] + keys[1..] && keys[0] == AlgKey(keys[0].alg, keys[0].key);
      }
    }
  }

  lemma OnePair(v: Value)
    ensures forall alg: u64, key: Vec<byte> ::
      v == Array([Uint(alg), Bytes(key)]) <==> v.Array? && |v.items| == 2 && v.items[0] == Uint(alg) && v.items[1] == Bytes(key)
  {
    if v.Array? && |v.items| == 2 { assert v.items == [v.items[0], v.items[1]]; }
  }

  /** A rotation body reads as `b` if and only if it is a map in which the four keys
      have the values that `b` has; other entries do not matter. */
  lemma {:induction false} BodyReadsExactly(body: Value, b: RotationBody)
    ensures ParseBody(body) == Some(b)
       <==> Holds(body, "key", Bytes(b.key)) && Holds(body, "key_alg", Uint(b.keyAlg))
            && Holds(body, "contest_window", Uint(b.contestWindow))
            && exists items: Vec<Value> :: Holds(body, "recovery", Array(items)) && KeyPairs(items, b.recovery)
  {
    hide *;
    if body.Map? {
      var es := body.entries;
      ParseIsFields(es);
      FieldsExactly(Lookup(es, Name("key")), Lookup(es, Name("key_alg")),
                    Lookup(es, Name("contest_window")), Lookup(es, Name("recovery")), b);
      NamedValue(body, Name("key"), Bytes(b.key));
      NamedValue(body, Name("key_alg"), Uint(b.keyAlg));
      NamedValue(body, Name("contest_window"), Uint(b.contestWindow));
      NamedPairs(body, Name("recovery"), b.recovery);
      FourMean(Lookup(es, Name("key")), Lookup(es, Name("key_alg")),
               Lookup(es, Name("contest_window")), Lookup(es, Name("recovery")), b);
    } else {
      NotABody(body);
      HoldsNothing(body, "key", Bytes(b.key));
    }
  }

  lemma NotABody(body: Value)
    requires !body.Map?
    ensures ParseBody(body) == None
  {
  }

  lemma HoldsNothing(body: Value, key: string, val: Value)
    requires !body.Map?
    ensures !Holds(body, key, val)
  {
  }

  lemma {:induction false} NamedValue(body: Value, key: Str, val: Value)
    requires body.Map?
    ensures Lookup(body.entries, key) == Some(val) <==> Holds(body, key, val)
  {
    LookupFirst(body.entries, key, val);
  }

  ghost predicate PairsUnder(v: Option<Value>, keys: seq<AlgKey>)
  {
    v.Some? && v.value.Array? && ParseAlgKeys(v.value.items) == Some(keys)
  }

  lemma {:induction false} NamedPairs(body: Value, key: Str, keys: seq<AlgKey>)
    requires body.Map?
    ensures PairsUnder(Lookup(body.entries, key), keys)
       <==> exists items: Vec<Value> :: Holds(body, key, Array(items)) && KeyPairs(items, keys)
  {
    hide Lookup, ParseAlgKeys, KeyPairs, Holds;
    forall items: Vec<Value>
      ensures Lookup(body.entries, key) == Some(Array(items)) <==> Holds(body, key, Array(items))
      ensures ParseAlgKeys(items) == Some(keys) <==> KeyPairs(items, keys)
    {
      NamedValue(body, key, Array(items));
      KeyPairsRead(items, keys);
    }
    var v := Lookup(body.entries, key);
    if v.Some? && v.value.Array? { assert v == Some(Array(v.value.items)); }
  }

  lemma FourMean(key: Option<Value>, alg: Option<Value>, window: Option<Value>, recovery: Option<Value>, b: RotationBody)
    ensures FourValues(key, alg, window, recovery, b)
       <==> key == Some(Bytes(b.key)) && alg == Some(Uint(b.keyAlg)) && window == Some(Uint(b.contestWindow))
            && PairsUnder(recovery, b.recovery)
  {
  }

  /** The four values under the keys of a body, and what they stand for. */
  ghost predicate FourValues(key: Option<Value>, alg: Option<Value>, window: Option<Value>, recovery: Option<Value>, b: RotationBody)
  {
    && key == Some(Bytes(b.key)) && alg == Some(Uint(b.keyAlg)) && window == Some(Uint(b.contestWindow))
    && recovery.Some? && recovery.value.Array? && ParseAlgKeys(recovery.value.items) == Some(b.recovery)
  }

  /** A body from the values found under its keys. */
  function FromFields(keyV: Option<Value>, algV: Option<Value>, windowV: Option<Value>, recoveryV: Option<Value>)
    : Option<RotationBody>
  {
    var kv :- keyV;
    var key :- kv.AsBytes();
    var av :- algV;
    var keyAlg :- av.AsUint();
    var wv :- windowV;
    var contestWindow :- wv.AsUint();
    var rv :- recoveryV;
    var arr :- rv.AsArray();
    var recovery :- ParseAlgKeys(arr);
    Some(RotationBody(key, keyAlg, recovery, contestWindow))
  }

  lemma {:induction false} FieldsExactly(key: Option<Value>, alg: Option<Value>, window: Option<Value>, recovery: Option<Value>, b: RotationBody)
    ensures FromFields(key, alg, window, recovery) == Some(b) <==> FourValues(key, alg, window, recovery, b)
  {
    hide ParseAlgKeys;
    assert b == RotationBody(b.key, b.keyAlg, b.recovery, b.contestWindow);
  }

  lemma ParseIsFields(es: Vec<Entry>)
    ensures ParseBody(Map(es)) == FromFields(Lookup(es, Name("key")), Lookup(es, Name("key_alg")),
                                             Lookup(es, Name("contest_window")), Lookup(es, Name("recovery")))
  {
    hide Lookup, Name, ParseAlgKeys, Utf8.Encode;
  }

  // ------------------------------------------------------------------
  // Writing
  // ------------------------------------------------------------------

  function KeysBytes(keys: seq<AlgKey>): seq<byte>
  {
    if keys == [] then []
    else [0x82] + ShortHead(0, keys[0].alg) + ShortHead(2, |keys[0].key|) + keys[0].key + KeysBytes(keys[1..])
  }

  /** A body on the wire: "key", "key_alg", "recovery" and "contest_window", in
      that order. */
  function BodyBytes(b: RotationBody): seq<byte>
    requires |b.recovery| < U64_SIZE
  {
    [0xa4]
    + ([0x63, 0x6b, 0x65, 0x79] + ShortHead(2, |b.key|) + b.key)
    + ([0x67, 0x6b, 0x65, 0x79, 0x5f, 0x61, 0x6c, 0x67] + ShortHead(0, b.keyAlg))
    + ([0x68, 0x72, 0x65, 0x63, 0x6f, 0x76, 0x65, 0x72, 0x79] + ShortHead(4, |b.recovery|) + KeysBytes(b.recovery))
    + ([0x6e, 0x63, 0x6f, 0x6e, 0x74, 0x65, 0x73, 0x74, 0x5f, 0x77, 0x69, 0x6e, 0x64, 0x6f, 0x77]
       + ShortHead(0, b.contestWindow))
  }

  lemma {:induction false} KeyEncoded(k: AlgKey)
    ensures Encode(Array([Uint(k.alg), Bytes(k.key)])) == Some([0x82] + ShortHead(0, k.alg) + ShortHead(2, |k.key|) + k.key)
  {
    hide ShortHead, Encode, InOrder;
    RecordWire.SmallHeads();
    var a, b := Uint(k.alg), Value.Bytes(k.key);
    EncodedAs(a);
    EncodedAs(b);
    EncodedAs(Array([a, b]));
    InOrderCons(a, [b]);
    InOrderCons(b, []);
    RecordWire.NothingInOrder();
    assert [a] + [b] == [a, b] && [b] + [] == [b];
    RecordWire.TwoItems([0x82], Encode(a).value, ShortHead(2, |k.key|), k.key);
  }

  lemma {:induction false} KeysEncoded(keys: seq<AlgKey>)
    ensures InOrder(IdentityBuild.AlgKeyValues(keys)) == Some(KeysBytes(keys))
  {
    hide ShortHead, Encode;
    if keys != [] {
      KeysEncoded(keys[1..]);
      KeyEncoded(keys[0]);
      assert IdentityBuild.AlgKeyValues(keys)[1..] == IdentityBuild.AlgKeyValues(keys[1..]);
    }
  }

  lemma {:induction false} NamesEncoded()
    ensures Encode(Text(Name("key"))) == Some([0x63, 0x6b, 0x65, 0x79])
    ensures Encode(Text(Name("key_alg"))) == Some([0x67, 0x6b, 0x65, 0x79, 0x5f, 0x61, 0x6c, 0x67])
    ensures Encode(Text(Name("recovery"))) == Some([0x68, 0x72, 0x65, 0x63, 0x6f, 0x76, 0x65, 0x72, 0x79])
    ensures Encode(Text(Name("contest_window")))
         == Some([0x6e, 0x63, 0x6f, 0x6e, 0x74, 0x65, 0x73, 0x74, 0x5f, 0x77, 0x69, 0x6e, 0x64, 0x6f, 0x77])
  {
    hide *;
    assert [0x63] + [0x6b, 0x65, 0x79]
        == [0x63, 0x6b, 0x65, 0x79];
    NameEncoded("key", [0x6b, 0x65, 0x79]);
    assert [0x67] + [0x6b, 0x65, 0x79, 0x5f, 0x61, 0x6c, 0x67]
        == [0x67, 0x6b, 0x65, 0x79, 0x5f, 0x61, 0x6c, 0x67];
    NameEncoded("key_alg", [0x6b, 0x65, 0x79, 0x5f, 0x61, 0x6c, 0x67]);
    assert [0x68] + [0x72, 0x65, 0x63, 0x6f, 0x76, 0x65, 0x72, 0x79]
        == [0x68, 0x72, 0x65, 0x63, 0x6f, 0x76, 0x65, 0x72, 0x79];
    NameEncoded("recovery", [0x72, 0x65, 0x63, 0x6f, 0x76, 0x65, 0x72, 0x79]);
    assert [0x6e] + [0x63, 0x6f, 0x6e, 0x74, 0x65, 0x73, 0x74, 0x5f, 0x77, 0x69, 0x6e, 0x64, 0x6f, 0x77]
        == [0x6e, 0x63, 0x6f, 0x6e, 0x74, 0x65, 0x73, 0x74, 0x5f, 0x77, 0x69, 0x6e, 0x64, 0x6f, 0x77];
    NameEncoded("contest_window", [0x63, 0x6f, 0x6e, 0x74, 0x65, 0x73, 0x74, 0x5f, 0x77, 0x69, 0x6e, 0x64, 0x6f, 0x77]);
  }

  /** A short name in ASCII. */
  lemma {:induction false} NameEncoded(s: string, octets: seq<byte>)
    requires |s| == |octets| < 24 && forall i :: 0 <= i < |s| ==> s[i] as int == octets[i] < 0x80
    ensures Encode(Text(Name(s))) == Some([0x60 + |s|] + octets)
  {
    hide Encode, Utf8.Encode, Ascii;
    AsciiOctets(s, octets);
    AsciiIsUtf8(s);
    EncodedAs(Text(Name(s)));
  }

  /** What a rotation body is written as. */
  lemma {:induction false} BodyWritten(b: RotationBody)
    requires |b.recovery| < U64_SIZE
    ensures Encode(IdentityBuild.BodyValue(b)) == Some(BodyBytes(b))
  {
    hide *;
    var es := IdentityBuild.BodyEntries(b);
    IdentityBuild.BodyParts(b);
    NamesEncoded();
    KeysEncoded(b.recovery);
    EncodedAs(es[0].val);
    EncodedAs(es[1].val);
    EncodedAs(es[2].val);
    EncodedAs(es[3].val);
    RecordWire.NothingListed();
    ListingCons(es[0], []);
    ListingCons(es[3], [es[0]] + []);
    ListingCons(es[2], [es[3]] + ([es[0]] + []));
    ListingCons(es[1], [es[2]] + ([es[3]] + ([es[0]] + [])));
    var order := [es[1]] + ([es[2]] + ([es[3]] + ([es[0]] + [])));
    SameFour(es, order);
    EntriesStart(es);
    KeysInTurn(es[1], es[2], es[3], es[0]);
    ListedAs(es, order);
    FourEntries(b);
  }

  lemma EntriesStart(es: seq<Entry>)
    requires |es| == 4 && es[0].key == Text(Name("contest_window")) && es[1].key == Text(Name("key"))
    requires es[2].key == Text(Name("key_alg")) && es[3].key == Text(Name("recovery"))
    ensures StartsWith(es[1], 0x63) && StartsWith(es[2], 0x67) && StartsWith(es[3], 0x68) && StartsWith(es[0], 0x6e)
  {
    hide Encode, Name, Utf8.Encode;
    NamesEncoded();
  }

  lemma {:induction false} FourEntries(b: RotationBody)
    requires |b.recovery| < U64_SIZE
    ensures ShortHead(5, 4)
         + ([0x63, 0x6b, 0x65, 0x79] + (ShortHead(2, |b.key|) + b.key)
         + ([0x67, 0x6b, 0x65, 0x79, 0x5f, 0x61, 0x6c, 0x67] + ShortHead(0, b.keyAlg)
         + ([0x68, 0x72, 0x65, 0x63, 0x6f, 0x76, 0x65, 0x72, 0x79] + (ShortHead(4, |b.recovery|) + KeysBytes(b.recovery))
         + ([0x6e, 0x63, 0x6f, 0x6e, 0x74, 0x65, 0x73, 0x74, 0x5f, 0x77, 0x69, 0x6e, 0x64, 0x6f, 0x77]
            + ShortHead(0, b.contestWindow) + []))))
      == BodyBytes(b)
  {
    assert ShortHead(5, 4) == [0xa4];
    hide ShortHead, KeysBytes;
    Joined([0xa4], [0x63, 0x6b, 0x65, 0x79], ShortHead(2, |b.key|), b.key,
           [0x67, 0x6b, 0x65, 0x79, 0x5f, 0x61, 0x6c, 0x67], ShortHead(0, b.keyAlg),
           [0x68, 0x72, 0x65, 0x63, 0x6f, 0x76, 0x65, 0x72, 0x79], ShortHead(4, |b.recovery|), KeysBytes(b.recovery),
           [0x6e, 0x63, 0x6f, 0x6e, 0x74, 0x65, 0x73, 0x74, 0x5f, 0x77, 0x69, 0x6e, 0x64, 0x6f, 0x77], ShortHead(0, b.contestWindow));
  }

  lemma Joined(h: seq<byte>, a: seq<byte>, a1: seq<byte>, a2: seq<byte>, c: seq<byte>, c1: seq<byte>,
               d: seq<byte>, d1: seq<byte>, d2: seq<byte>, e: seq<byte>, e1: seq<byte>)
    ensures h + (a + (a1 + a2) + (c + c1 + (d + (d1 + d2) + (e + e1 + []))))
         == h + (a + a1 + a2) + (c + c1) + (d + d1 + d2) + (e + e1)
  {
  }

  lemma {:induction false} KeysInTurn(a: Entry, b: Entry, c: Entry, d: Entry)
    requires StartsWith(a, 0x63) && StartsWith(b, 0x67) && StartsWith(c, 0x68) && StartsWith(d, 0x6e)
    ensures Ascends([a, b, c, d])
  {
    hide Encode;
    FirstOctets(a, b, 0x63, 0x67);
    FirstOctets(b, c, 0x67, 0x68);
    FirstOctets(c, d, 0x68, 0x6e);
  }

  ghost predicate StartsWith(e: Entry, x: byte)
  {
    Encode(e.key).Some? && |Encode(e.key).value| > 0 && Encode(e.key).value[0] == x
  }

  lemma FirstOctets(a: Entry, b: Entry, x: byte, y: byte)
    requires StartsWith(a, x) && StartsWith(b, y) && x < y
    ensures InTurn(a, b)
  {
    hide Encode;
    assert FirstDifference(Encode(a.key).value, Encode(b.key).value, 0);
  }

  lemma SameFour<T>(es: seq<T>, order: seq<T>)
    requires |es| == 4 && order == [es[1]] + ([es[2]] + ([es[3]] + ([es[0]] + [])))
    ensures order == [es[1], es[2], es[3], es[0]] && multiset(order) == multiset(es)
  {
    assert order == es[1..] + [es[0]];
    Rotated(es[0], es[1..]);
    assert es == [es[0]] + es[1..];
  }

  lemma Rotated<T>(x: T, rest: seq<T>)
    ensures multiset(rest + [x]) == multiset([x] + rest)
  {
  }

  // ------------------------------------------------------------------
  // Genesis and rotation records
  // ------------------------------------------------------------------

  /** A signed rotation record with this author, these references and the octets
      of this body. */
  ghost predicate RotationRecord(h: Blob.Hash, r: Record, identity: Digest, createdAt: i64, refs: seq<Ref>, b: RotationBody, kp: Keypair)
    requires |b.recovery| < U64_SIZE
  {
    && r.kind == 1 && r.author == IdentityRef(identity, kp.publicKey) && r.createdAt == createdAt && r.refs == refs
    && r.sigAlg == 1 && Encode(r.body) == Some(BodyBytes(b)) && r.sig == kp.sign(RecordWire.Message(h, r))
  }

  lemma {:induction false} SignedBody(h: Blob.Hash, createdAt: i64, refs: Vec<Ref>, b: RotationBody, kp: Keypair, identity: Digest)
    requires |b.recovery| < U64_SIZE && SignAs(h, 1, createdAt, refs, IdentityBuild.BodyValue(b), kp, identity).Some?
    ensures RotationRecord(h, SignAs(h, 1, createdAt, refs, IdentityBuild.BodyValue(b), kp, identity).value, identity, createdAt, refs, b, kp)
  {
    hide SignAs, Encode, IdentityBuild.BodyValue, BodyBytes, RecordWire.Message;
    BodyWritten(b);
    RecordWire.SignedAs(h, 1, createdAt, refs, IdentityBuild.BodyValue(b), kp, identity);
  }

  /** A genesis is made under the identity of 32 zeros, refers to nothing, and
      declares the signer's own key, with algorithm 1. */
  lemma {:induction false} GenesisMade(h: Blob.Hash, kp: Keypair, recovery: Vec<AlgKey>, contestWindow: u64, createdAt: i64)
    ensures var g := IdentityBuild.MakeGenesis(h, kp, recovery, contestWindow, createdAt);
      g.Some? ==>
        exists zeros: Digest ::
          && (forall i :: 0 <= i < 32 ==> zeros[i] == 0)
          && RotationRecord(h, g.value, zeros, createdAt, [], RotationBody(kp.publicKey, 1, recovery, contestWindow), kp)
  {
    hide SignAs, IdentityBuild.BodyValue, RotationRecord;
    var g := IdentityBuild.MakeGenesis(h, kp, recovery, contestWindow, createdAt);
    if g.Some? {
      SignedBody(h, createdAt, [], RotationBody(kp.publicKey, 1, recovery, contestWindow), kp, ZERO_ID);
      assert forall i :: 0 <= i < 32 ==> ZERO_ID[i] == 0;
    }
  }

  /** A rotation is made under its identity and refers to the record it follows,
      with type 0, and to nothing else. */
  lemma {:induction false} RotationMade(h: Blob.Hash, identity: Digest, prev: Digest, body: RotationBody, createdAt: i64, signer: Keypair)
    requires |body.recovery| < U64_SIZE
    ensures var r := IdentityBuild.MakeRotation(h, identity, prev, body, createdAt, signer);
      r.Some? ==> RotationRecord(h, r.value, identity, createdAt, [Ref(0, prev)], body, signer)
  {
    hide SignAs, IdentityBuild.BodyValue, RotationRecord;
    if IdentityBuild.MakeRotation(h, identity, prev, body, createdAt, signer).Some? {
      SignedBody(h, createdAt, [Ref(0, prev)], body, signer, identity);
    }
  }
}
