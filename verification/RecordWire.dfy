/** Records octet by octet: the envelope, the id and what a signature covers. */
module RecordWire {
  import opened Wrappers
  import opened Bytes
  import opened Codec
  import opened CodecProofs
  import opened Record
  import opened Blob
  import opened Rfc8949

  // ------------------------------------------------------------------
  // The envelope
  // ------------------------------------------------------------------

  function IntegerBytes(v: i64): seq<byte>
  {
    if v >= 0 then ShortHead(0, v) else ShortHead(1, -1 - v)
  }

  /** References: arrays of a type and 32 octets. */
  function RefsBytes(refs: seq<Ref>): seq<byte>
  {
    if refs == [] then []
    else [0x82] + ShortHead(0, refs[0].refType) + [0x58, 0x20] + refs[0].hash + RefsBytes(refs[1..])
  }

  /** The six signed fields, under the keys 1 to 6. */
  function FieldsBytes(r: Record, body: seq<byte>): seq<byte>
    requires |r.author.signingKey| < U64_SIZE
  {
    [0x01] + ShortHead(0, r.kind)
    + ([0x02, 0x82, 0x58, 0x20] + r.author.identityId + ShortHead(2, |r.author.signingKey|) + r.author.signingKey)
    + ([0x03] + IntegerBytes(r.createdAt))
    + ([0x04] + ShortHead(4, |r.refs|) + RefsBytes(r.refs))
    + ([0x05] + body)
    + ([0x06] + ShortHead(0, r.sigAlg))
  }

  /** A map of six entries, or of seven with the signature under the key 7. */
  function EnvelopeBytes(r: Record, body: seq<byte>, withSig: bool): seq<byte>
  {
    if withSig then [0xa7] + FieldsBytes(r, body) + ([0x07] + ShortHead(2, |r.sig|) + r.sig)
    else [0xa6] + FieldsBytes(r, body)
  }

  lemma SmallHeads()
    ensures ShortHead(4, 2) == [0x82] && ShortHead(2, 32) == [0x58, 0x20]
    ensures ShortHead(5, 6) == [0xa6] && ShortHead(5, 7) == [0xa7]
    ensures forall k: nat :: k < 24 ==> ShortHead(0, k) == [k]
  {
  }

  lemma {:induction false} RefEncoded(r: Ref)
    ensures Encode(r.ToValue()) == Some([0x82] + ShortHead(0, r.refType) + [0x58, 0x20] + r.hash)
  {
    hide ShortHead, Encode, InOrder;
    SmallHeads();
    var a, b := Uint(r.refType), Value.Bytes(r.hash);
    EncodedAs(a);
    EncodedAs(b);
    EncodedAs(Array([a, b]));
    InOrderCons(a, [b]);
    InOrderCons(b, []);
    NothingInOrder();
    assert [a] + [b] == [a, b] && [b] + [] == [b];
    TwoItems([0x82], Encode(a).value, [0x58, 0x20], r.hash);
  }

  lemma TwoItems(h: seq<byte>, a: seq<byte>, k: seq<byte>, b: seq<byte>)
    ensures h + (a + (k + b + [])) == h + a + k + b
  {
  }

  lemma NothingInOrder()
    ensures InOrder([]) == Some([])
  {
  }

  lemma {:induction false} RefsEncoded(refs: seq<Ref>)
    ensures InOrder(RefValues(refs)) == Some(RefsBytes(refs))
  {
    hide ShortHead, Encode;
    if refs != [] {
      RefsEncoded(refs[1..]);
      RefEncoded(refs[0]);
      assert RefValues(refs)[1..] == RefValues(refs[1..]);
    }
  }

  lemma {:induction false} AuthorEncoded(a: IdentityRef)
    ensures Encode(a.ToValue()) == Some([0x82, 0x58, 0x20] + a.identityId + ShortHead(2, |a.signingKey|) + a.signingKey)
  {
    hide ShortHead, Encode, InOrder;
    SmallHeads();
    var x, y := Value.Bytes(a.identityId), Value.Bytes(a.signingKey);
    EncodedAs(x);
    EncodedAs(y);
    EncodedAs(Array([x, y]));
    InOrderCons(x, [y]);
    InOrderCons(y, []);
    NothingInOrder();
    assert [x] + [y] == [x, y] && [y] + [] == [y];
    TwoStrings(a.identityId, ShortHead(2, |a.signingKey|), a.signingKey);
  }

  lemma TwoStrings(a: seq<byte>, k: seq<byte>, b: seq<byte>)
    ensures [0x82] + ([0x58, 0x20] + a + (k + b + [])) == [0x82, 0x58, 0x20] + a + k + b
  {
  }

  /** One entry of the envelope. */
  lemma {:induction false} EntryListed(k: nat, v: Value, rest: seq<Entry>)
    requires 1 <= k <= 7 && Encode(v).Some? && Listing(rest).Some?
    ensures Listing([Entry(Uint(k), v)] + rest) == Some([k] + Encode(v).value + Listing(rest).value)
  {
    hide Encode, Listing, ShortHead;
    SmallHeads();
    EncodedAs(Uint(k));
    ListingCons(Entry(Uint(k), v), rest);
  }

  lemma {:induction false} FieldsListed(r: Record, last: seq<Entry>)
    requires Encode(r.body).Some? && Listing(last).Some?
    ensures Listing(UnsignedEntries(r) + last) == Some(FieldsBytes(r, Encode(r.body).value) + Listing(last).value)
  {
    var es := UnsignedEntries(r);
    assert es + last == [es[0]] + ([es[1]] + ([es[2]] + ([es[3]] + ([es[4]] + ([es[5]] + last)))));
    RefsEncoded(r.refs);
    AuthorEncoded(r.author);
    EncodedAs(Uint(r.kind));
    EncodedAs(FromI64(r.createdAt));
    EncodedAs(Array(RefValues(r.refs)));
    EncodedAs(Uint(r.sigAlg));
    hide Encode, Listing, ShortHead, RefsBytes, InOrder, RefValues;
    EntryListed(6, es[5].val, last);
    EntryListed(5, es[4].val, [es[5]] + last);
    EntryListed(4, es[3].val, [es[4]] + ([es[5]] + last));
    EntryListed(3, es[2].val, [es[3]] + ([es[4]] + ([es[5]] + last)));
    EntryListed(2, es[1].val, [es[2]] + ([es[3]] + ([es[4]] + ([es[5]] + last))));
    EntryListed(1, es[0].val, [es[1]] + ([es[2]] + ([es[3]] + ([es[4]] + ([es[5]] + last)))));
    SixFields(ShortHead(0, r.kind), r.author.identityId, ShortHead(2, |r.author.signingKey|) , r.author.signingKey,
              IntegerBytes(r.createdAt), ShortHead(4, |r.refs|), RefsBytes(r.refs), Encode(r.body).value,
              ShortHead(0, r.sigAlg), Listing(last).value);
  }

  lemma SixFields(a: seq<byte>, b: seq<byte>, b1: seq<byte>, b2: seq<byte>, c: seq<byte>, d1: seq<byte>, d2: seq<byte>,
                  e: seq<byte>, f: seq<byte>, last: seq<byte>)
    ensures [1] + a + ([2] + ([0x82, 0x58, 0x20] + b + b1 + b2) + ([3] + c + ([4] + (d1 + d2) + ([5] + e + ([6] + f + last)))))
         == [0x01] + a + ([0x02, 0x82, 0x58, 0x20] + b + b1 + b2) + ([0x03] + c) + ([0x04] + d1 + d2) + ([0x05] + e)
            + ([0x06] + f) + last
  {
  }

  /** The whole envelope, signed or not, once the body is encoded. */
  lemma {:induction false} EnvelopeIs(r: Record, withSig: bool)
    ensures Encode(ToValue(r, withSig))
         == if Encode(r.body).None? then None else Some(EnvelopeBytes(r, Encode(r.body).value, withSig))
  {
    hide Encode, Listing, ShortHead, FieldsBytes, Ascends, UnsignedEntries;
    EnvelopeEncodes(r, withSig);
    if Encode(r.body).Some? {
      SmallHeads();
      var sig := Entry(Uint(7), Value.Bytes(r.sig));
      var last := if withSig then [sig] else [];
      NothingListed();
      EncodedAs(Value.Bytes(r.sig));
      EntryListed(7, Value.Bytes(r.sig), []);
      assert [sig] + [] == [sig] && UnsignedEntries(r) + [] == UnsignedEntries(r);
      FieldsListed(r, last);
      var entries := UnsignedEntries(r) + last;
      assert Ascends(entries) by { KeysAscend(r, withSig); }
      ListedAs(entries, entries);
      AddSignature(FieldsBytes(r, Encode(r.body).value), ShortHead(2, |r.sig|), r.sig);
    }
  }

  lemma AddSignature(fields: seq<byte>, head: seq<byte>, sig: seq<byte>)
    ensures [0xa7] + (fields + ([0x07] + (head + sig) + [])) == [0xa7] + fields + ([0x07] + head + sig)
    ensures [0xa6] + (fields + []) == [0xa6] + fields
  {
  }

  lemma NothingListed()
    ensures Listing([]) == Some([])
  {
  }

  lemma {:induction false} KeysAscend(r: Record, withSig: bool)
    ensures ToValue(r, withSig) == Map(UnsignedEntries(r) + if withSig then [Entry(Uint(7), Value.Bytes(r.sig))] else [])
    ensures Ascends(UnsignedEntries(r) + if withSig then [Entry(Uint(7), Value.Bytes(r.sig))] else [])
  {
    var entries := UnsignedEntries(r) + if withSig then [Entry(Uint(7), Value.Bytes(r.sig))] else [];
    assert ToValue(r, withSig) == Map(entries);
    forall i | 0 <= i < |entries|
      ensures entries[i].key == Uint(i + 1)
    {
    }
    hide UnsignedEntries;
    forall i, j | 0 <= i && j == i + 1 < |entries|
      ensures InTurn(entries[i], entries[j])
    {
      OneByteKeys(i + 1);
    }
  }

  lemma OneByteKeys(k: nat)
    requires 1 <= k <= 7
    ensures Encode(Uint(k)) == Some([k]) && Encode(Uint(k + 1)) == Some([k + 1]) && Before([k], [k + 1])
  {
    SmallHeads();
    EncodedAs(Uint(k));
    EncodedAs(Uint(k + 1));
    assert FirstDifference([k], [k + 1], 0);
  }

  /** The id is the hash of the envelope without its signature. */
  lemma {:induction false} IdIs(h: Hash, r: Record)
    requires Encode(r.body).Some?
    ensures Id(h, r) == h(EnvelopeBytes(r, Encode(r.body).value, false))
  {
    hide Encoding, EnvelopeBytes;
    EnvelopeIs(r, false);
  }

  // ------------------------------------------------------------------
  // What is signed
  // ------------------------------------------------------------------

  /** "evermesh:record:v1" followed by the id. */
  function Message(h: Hash, r: Record): seq<byte>
    requires Encode(r.body).Some?
  {
    [0x65, 0x76, 0x65, 0x72, 0x6d, 0x65, 0x73, 0x68, 0x3a, 0x72, 0x65, 0x63, 0x6f, 0x72, 0x64, 0x3a, 0x76, 0x31]
    + h(EnvelopeBytes(r, Encode(r.body).value, false))
  }

  /** A record verifies if and only if its algorithm is Ed25519, key and signature
      have their sizes and the check accepts the signature for that message. */
  lemma {:induction false} VerifiesIs(h: Hash, check: SigCheck, r: Record)
    requires Encode(r.body).Some?
    ensures Verifies(h, check, r)
       <==> r.sigAlg == 1 && |r.author.signingKey| == 32 && |r.sig| == 64
            && check(r.author.signingKey, Message(h, r), r.sig)
  {
    hide EnvelopeBytes, Id;
    IdIs(h, r);
  }

  /** A record that was signed carries the signature of that message, over the
      fields given and the canonical form of the body. */
  lemma {:induction false} SignedAs(h: Hash, kind: u64, createdAt: i64, refs: Vec<Ref>, body: Value, kp: Keypair, identity: Digest)
    requires SignAs(h, kind, createdAt, refs, body, kp, identity).Some?
    ensures var r := SignAs(h, kind, createdAt, refs, body, kp, identity).value;
      r == Record(kind, IdentityRef(identity, kp.publicKey), createdAt, refs, Canonical(body), 1, r.sig)
      && Encode(r.body).Some? && Encode(r.body) == Encode(body) && r.sig == kp.sign(Message(h, r))
  {
    hide Encoding, EnvelopeBytes, UnsignedEntries, Canonical;
    var u := Unsigned(kind, createdAt, refs, body, kp, identity);
    var r := SignAs(h, kind, createdAt, refs, body, kp, identity).value;
    EnvelopeEncodes(u, false);
    CanonicalKeepsEncoding(body);
    IdIs(h, u);
    SameFields(u, r);
  }

  lemma SameFields(r: Record, s: Record)
    requires r.(sig := s.sig) == s && Encode(r.body).Some?
    ensures EnvelopeBytes(r, Encode(r.body).value, false) == EnvelopeBytes(s, Encode(s.body).value, false)
  {
  }

  /** Who can make signatures: under `key` the check accepts nothing but messages
      of records in `signed`, all of which encode. */
  ghost predicate OnlySigned(h: Hash, check: SigCheck, key: seq<byte>, signed: set<Record>)
  {
    && (forall s :: s in signed ==> IsCanonical(s.body) && Encode(s.body).Some?)
    && forall m: seq<byte>, sig: seq<byte> :: check(key, m, sig) ==> IsMessage(h, signed, m)
  }

  ghost predicate IsMessage(h: Hash, signed: set<Record>, m: seq<byte>)
  {
    exists s :: s in signed && Encode(s.body).Some? && m == Message(h, s)
  }

  /** Nothing else verifies: a record under that key agrees in every field but the
      signature with one that was signed, or two different envelopes with one
      hash are at hand. */
  lemma {:induction false} NoForgery(h: Hash, check: SigCheck, r: Record, signed: set<Record>) returns (s: Record)
    requires OnlySigned(h, check, r.author.signingKey, signed)
    requires IsCanonical(r.body) && Verifies(h, check, r)
    ensures s in signed && Encode(r.body).Some? && Encode(s.body).Some?
    ensures r.(sig := s.sig) == s
         || (var x, y := EnvelopeBytes(r, Encode(r.body).value, false), EnvelopeBytes(s, Encode(s.body).value, false);
             x != y && h(x) == h(y))
  {
    hide Encoding, EnvelopeBytes, Id, IsCanonical, Verifies;
    CanonicalEncodes(r.body);
    VerifiesIs(h, check, r);
    assert IsMessage(h, signed, Message(h, r));
    s :| s in signed && Encode(s.body).Some? && Message(h, r) == Message(h, s);
    assert h(EnvelopeBytes(r, Encode(r.body).value, false)) == Message(h, r)[18..];
    assert h(EnvelopeBytes(s, Encode(s.body).value, false)) == Message(h, s)[18..];
    SameEnvelope(r, s);
  }

  /** Equal envelopes are envelopes of equal records. */
  lemma {:induction false} SameEnvelope(r: Record, s: Record)
    requires IsCanonical(r.body) && IsCanonical(s.body) && Encode(r.body).Some? && Encode(s.body).Some?
    ensures EnvelopeBytes(r, Encode(r.body).value, false) == EnvelopeBytes(s, Encode(s.body).value, false) ==>
      r.(sig := s.sig) == s
  {
    hide Encoding, EnvelopeBytes, IsCanonical, UnsignedEntries;
    EnvelopeIs(r, false);
    EnvelopeIs(s, false);
    EnvelopeCanonical(r, false);
    EnvelopeCanonical(s, false);
    if EnvelopeBytes(r, Encode(r.body).value, false) == EnvelopeBytes(s, Encode(s.body).value, false) {
      CanonicalEncodingInjective(ToValue(r, false), ToValue(s, false));
      SameUnsigned(r, s);
    }
  }
}
