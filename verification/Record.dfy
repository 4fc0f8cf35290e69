/** The record envelope (`record.rs`): CBOR map, id, conversions, signing. Hashing
    and signature checks are parameters. */
module Record {
  import opened Wrappers
  import opened Bytes
  import opened Codec
  import opened CodecProofs
  import opened Blob

  const SIG_ALG_ED25519: u64 := 1

  /** `evermesh:record:v1` in ASCII. */
  const RECORD_SIG_PREFIX: seq<byte> :=
    [101, 118, 101, 114, 109, 101, 115, 104, 58, 114, 101, 99, 111, 114, 100, 58, 118, 49]

  datatype Ref = Ref(refType: u64, hash: Digest)
  {
    predicate IsRecord() { refType == 0 }

    function ToValue(): Value { Array([Uint(refType), Bytes(hash)]) }
  }

  function RefFromValue(v: Value): (r: Option<Ref>)
    ensures r.Some? ==> r.value.ToValue() == v && r.value.refType <= 1
  {
    var arr :- v.AsArray();
    if |arr| != 2 then None
    else
      var refType :- arr[0].AsUint();
      if refType > 1 then None
      else
        var hash :- arr[1].AsBytes();
        if |hash| != 32 then None else Some(Ref(refType, hash))
  }

  datatype IdentityRef = IdentityRef(identityId: Digest, signingKey: Vec<byte>)
  {
    function ToValue(): Value { Array([Bytes(identityId), Bytes(signingKey)]) }
  }

  function IdentityRefFromValue(v: Value): (r: Option<IdentityRef>)
    ensures r.Some? ==> r.value.ToValue() == v
  {
    var arr :- v.AsArray();
    if |arr| != 2 then None
    else
      var id :- arr[0].AsBytes();
      if |id| != 32 then None
      else
        var key :- arr[1].AsBytes();
        Some(IdentityRef(id, key))
  }

  datatype Record = Record(kind: u64, author: IdentityRef, createdAt: i64, refs: Vec<Ref>, body: Value,
                           sigAlg: u64, sig: Vec<byte>)

  function RefValues(refs: seq<Ref>): (r: seq<Value>)
    ensures |r| == |refs|
    ensures forall i :: 0 <= i < |refs| ==> r[i] == refs[i].ToValue()
  {
    if refs == [] then [] else [refs[0].ToValue()] + RefValues(refs[1..])
  }

  function UnsignedEntries(r: Record): (es: seq<Entry>)
    ensures |es| == 6
  {
    [ Entry(Uint(1), Uint(r.kind)),
      Entry(Uint(2), r.author.ToValue()),
      Entry(Uint(3), FromI64(r.createdAt)),
      Entry(Uint(4), Array(RefValues(r.refs))),
      Entry(Uint(5), r.body),
      Entry(Uint(6), Uint(r.sigAlg)) ]
  }

  function ToValue(r: Record, withSig: bool): Value
  {
    if withSig then Map(UnsignedEntries(r) + [Entry(Uint(7), Bytes(r.sig))]) else Map(UnsignedEntries(r))
  }

  /** The bytes the id is taken over. */
  function UnsignedBytes(r: Record): seq<byte> { Encoding(ToValue(r, false)).bytes }

  /** The record id. The source panics when the body does not encode, which its
      constructors rule out. */
  function Id(h: Hash, r: Record): Digest { h(UnsignedBytes(r)) }

  function ToCbor(r: Record): Option<seq<byte>> { Encode(ToValue(r, true)) }

  predicate KnownRefs(refs: seq<Ref>) { forall x :: x in refs ==> x.refType <= 1 }

  function ParseRefs(arr: seq<Value>): (r: Option<seq<Ref>>)
    ensures r.Some? ==> |r.value| == |arr| && RefValues(r.value) == arr
    ensures r.Some? ==> KnownRefs(r.value)
  {
    if arr == [] then Some([])
    else
      var h :- RefFromValue(arr[0]);
      var t :- ParseRefs(arr[1..]);
      Some([h] + t)
  }

  function FromValue(v: Value): (r: Option<Record>)
  {
    if !v.Map? || |v.entries| != 7 then None
    else
      var m := v.entries;
      if exists i :: 0 <= i < 7 && m[i].key.AsUint() != Some(i + 1) then None
      else
        var kind :- m[0].val.AsUint();
        var author :- IdentityRefFromValue(m[1].val);
        var createdAt :- m[2].val.AsI64();
        var refsArr :- m[3].val.AsArray();
        var refs :- ParseRefs(refsArr);
        if !m[4].val.Map? then None
        else
          var sigAlg :- m[5].val.AsUint();
          var sig :- m[6].val.AsBytes();
          Some(Record(kind, author, createdAt, refs, m[4].val, sigAlg, sig))
  }

  function FromCbor(b: seq<byte>): Option<Record>
  {
    var v :- Decode(b);
    FromValue(v)
  }

  /** Ed25519 verification: key, message, signature. */
  type SigCheck = (seq<byte>, seq<byte>, seq<byte>) -> bool

  function SigMessage(h: Hash, r: Record): seq<byte> { RECORD_SIG_PREFIX + Id(h, r) }

  predicate Verifies(h: Hash, check: SigCheck, r: Record)
  {
    r.sigAlg == SIG_ALG_ED25519 && |r.author.signingKey| == 32 && |r.sig| == 64
    && check(r.author.signingKey, SigMessage(h, r), r.sig)
  }

  /** A signing key pair, its public half and its signing function. */
  datatype Keypair = Keypair(publicKey: Digest, sign: seq<byte> -> Vec<byte>)

  ghost predicate Sound(check: SigCheck, kp: Keypair)
  {
    forall m: seq<byte> {:trigger kp.sign(m)} :: |kp.sign(m)| == 64 && check(kp.publicKey, m, kp.sign(m))
  }

  function Unsigned(kind: u64, createdAt: i64, refs: Vec<Ref>, body: Value, kp: Keypair, identity: Digest): Record
  {
    Record(kind, IdentityRef(identity, kp.publicKey), createdAt, refs, Canonical(body), SIG_ALG_ED25519, [])
  }

  /** `sign_as`: only a map body without duplicate keys can be signed. */
  function SignAs(h: Hash, kind: u64, createdAt: i64, refs: Vec<Ref>, body: Value, kp: Keypair, identity: Digest)
    : Option<Record>
  {
    if !body.Map? then None
    else
      var r := Unsigned(kind, createdAt, refs, body, kp, identity);
      if Encode(ToValue(r, false)).None? then None
      else Some(r.(sig := kp.sign(SigMessage(h, r))))
  }

  // ------------------------------------------------------------------
  // The envelope as a value
  // ------------------------------------------------------------------

  /** Parsing is exact: only the value built from a record parses to it. */
  lemma {:induction false} FromValueExact(v: Value)
    requires FromValue(v).Some?
    ensures ToValue(FromValue(v).value, true) == v
  {
    hide ParseRefs, RefValues, IdentityRefFromValue;
    var r := FromValue(v).value;
    var m := v.entries;
    assert FromI64(r.createdAt) == m[2].val;
    hide FromI64;
    forall i | 0 <= i < 7
      ensures ToValue(r, true).entries[i] == m[i]
    {
      assert m[i].key.AsUint() == Some(i + 1);
      assert m[i] == Entry(Uint(i + 1), m[i].val);
    }
  }

  lemma {:induction false} RefBack(r: Ref)
    ensures RefFromValue(r.ToValue()) == if r.refType <= 1 then Some(r) else None
  {
    assert r == Ref(r.refType, r.hash);
  }

  lemma KnownRefsStep(r: Ref, rest: seq<Ref>)
    ensures KnownRefs([r] + rest) <==> r.refType <= 1 && KnownRefs(rest)
    ensures RefValues([r] + rest) == [r.ToValue()] + RefValues(rest)
  {
    assert ([r] + rest)[1..] == rest;
  }

  lemma {:induction false} ParseRefsStep(v: Value, vs: seq<Value>)
    ensures ParseRefs([v] + vs)
         == (var h, t := RefFromValue(v), ParseRefs(vs);
             if h.None? || t.None? then None else Some([h.value] + t.value))
  {
    hide RefFromValue;
    assert ([v] + vs)[1..] == vs;
  }

  lemma {:induction false} ParseRefsBack(refs: seq<Ref>)
    ensures ParseRefs(RefValues(refs)) == if KnownRefs(refs) then Some(refs) else None
  {
    if refs != [] {
      hide *;
      var r, rest := refs[0], refs[1..];
      assert refs == [r] + rest;
      ParseRefsBack(rest);
      RefBack(r);
      KnownRefsStep(r, rest);
      ParseRefsStep(r.ToValue(), RefValues(rest));
    }
  }

  /** What parsing a record's own value gives back. */
  lemma {:induction false} FromValueOfRecord(r: Record)
    ensures FromValue(ToValue(r, true))
         == if r.body.Map? && KnownRefs(r.refs) then Some(r) else None
  {
    hide ParseRefs, RefValues, FromI64;
    ParseRefsBack(r.refs);
    var m := ToValue(r, true).entries;
    assert forall i :: 0 <= i < 7 ==> m[i].key.AsUint() == Some(i + 1);
    assert r.author == IdentityRef(r.author.identityId, r.author.signingKey);
    assert FromI64(r.createdAt).AsI64() == Some(r.createdAt);
  }

  lemma {:induction false} RefValuesCanonical(refs: seq<Ref>)
    ensures AllCanonical(RefValues(refs)) && DepthAll(RefValues(refs)) <= 2
  {
    if refs != [] {
      RefValuesCanonical(refs[1..]);
      assert RefValues(refs)[1..] == RefValues(refs[1..]);
      PairOf(Uint(refs[0].refType), Bytes(refs[0].hash));
    }
  }

  /** Apart from the body, an envelope has nothing to reorder, nothing that
      fails to encode, and little depth. */
  ghost predicate Flat(e: Entry)
  {
    IsCanonical(e.key) && IsCanonical(e.val) && Depth(e.key) == 0 && Depth(e.val) <= 2 && Encodes(e)
  }

  function BodyEntry(r: Record): Entry { Entry(Uint(5), r.body) }

  lemma {:induction false} EnvelopeEntries(r: Record, withSig: bool) returns (entries: Vec<Entry>)
    ensures ToValue(r, withSig) == Map(entries) && |entries| <= 7
    ensures forall i :: 0 <= i < |entries| ==> entries[i].key == Uint(i + 1)
    ensures BodyEntry(r) in entries && forall e :: e in entries && e != BodyEntry(r) ==> Flat(e)
    ensures IsCanonical(Uint(5)) && Depth(Uint(5)) == 0 && Encoding(Uint(5)).ok
  {
    hide Flat, IsCanonical, Depth, Encoding, FromI64, RefValues;
    entries := ToValue(r, withSig).entries;
    assert entries[4] == BodyEntry(r);
    ScalarFlat(1, Uint(r.kind));
    AuthorFlat(r.author);
    ScalarFlat(3, FromI64(r.createdAt));
    RefsFlat(r.refs);
    ScalarFlat(6, Uint(r.sigAlg));
    ScalarFlat(7, Bytes(r.sig));
    ScalarFlat(5, Null);
    FlatKey(Entry(Uint(5), Null));
  }

  lemma FlatKey(e: Entry)
    requires Flat(e)
    ensures IsCanonical(e.key) && Depth(e.key) == 0 && Encoding(e.key).ok
  {
  }

  lemma {:induction false} ScalarFlat(k: u64, v: Value)
    requires !v.Array? && !v.Map?
    ensures Flat(Entry(Uint(k), v))
  {
  }

  lemma {:induction false} AuthorFlat(a: IdentityRef)
    ensures Flat(Entry(Uint(2), a.ToValue()))
  {
    PairOf(Bytes(a.identityId), Bytes(a.signingKey));
    CanonicalEncodes(a.ToValue());
  }

  lemma {:induction false} RefsFlat(refs: Vec<Ref>)
    ensures Flat(Entry(Uint(4), Array(RefValues(refs))))
  {
    RefValuesCanonical(refs);
    CanonicalEncodes(Array(RefValues(refs)));
  }

  lemma {:induction false} EnvelopeKeysAscend(entries: seq<Entry>)
    requires |entries| <= 7 && forall i :: 0 <= i < |entries| ==> entries[i].key == Uint(i + 1)
    ensures StrictlyAscending(KeyedByEncoding(entries))
  {
    var xs := KeyedByEncoding(entries);
    forall i, j | 0 <= i < j < |xs|
      ensures LexLess(xs[i].key, xs[j].key)
    {
      assert xs[i].key == [i + 1] && xs[j].key == [j + 1];
    }
  }

  /** A record's value is in canonical form exactly when its body is, and within
      the decoder's depth exactly when no body node lies deeper than 63. */
  lemma {:induction false} EnvelopeCanonical(r: Record, withSig: bool)
    ensures IsCanonical(ToValue(r, withSig)) <==> IsCanonical(r.body)
    ensures Depth(ToValue(r, withSig)) <= MAX_DEPTH <==> Depth(r.body) <= MAX_DEPTH - 1
  {
    hide IsCanonical, Depth, Encoding, KeyedByEncoding, EntriesCanonical, DepthEntries, ToValue;
    var entries := EnvelopeEntries(r, withSig);
    EntriesCanonicalEach(entries);
    EnvelopeKeysAscend(entries);
    DepthEntriesEach(entries, MAX_DEPTH);
    MapOf(entries);
  }

  lemma MapOf(entries: Vec<Entry>)
    ensures IsCanonical(Map(entries)) <==> EntriesCanonical(entries) && StrictlyAscending(KeyedByEncoding(entries))
    ensures Depth(Map(entries)) == DepthEntries(entries)
  {
  }

  /** The envelope encodes exactly when the body does. */
  lemma {:induction false} EnvelopeEncodes(r: Record, withSig: bool)
    ensures Encode(ToValue(r, withSig)).Some? <==> Encode(r.body).Some?
  {
    hide IsCanonical, Depth, Encoding, EncodedPairs, KeyedByEncoding, ToValue;
    var entries := EnvelopeEntries(r, withSig);
    PairsOf(entries);
    EnvelopeKeysAscend(entries);
    MapEncodes(entries);
    assert Encodes(BodyEntry(r)) <==> Encode(r.body).Some?;
  }

  lemma {:induction false} MapEncodes(entries: Vec<Entry>)
    requires StrictlyAscending(KeyedByEncoding(entries))
    ensures Encoding(Map(entries)).ok <==> EncodedPairs(entries).Some?
  {
    if EncodedPairs(entries).Some? { SortedMap(entries); }
  }

  // ------------------------------------------------------------------
  // Round trips
  // ------------------------------------------------------------------

  /** The body is a map in canonical order at most 63 deep, and every reference
      is of a known type. */
  ghost predicate WireFit(r: Record)
  {
    r.body.Map? && IsCanonical(r.body) && Depth(r.body) < MAX_DEPTH && KnownRefs(r.refs)
  }

  /** One wire form: bytes that parse to a record are the record's own bytes. */
  lemma {:induction false} FromCborThenToCbor(b: seq<byte>)
    requires FromCbor(b).Some?
    ensures var r := FromCbor(b).value;
      ToCbor(r) == Some(b) && WireFit(r)
  {
    var v := Decode(b).value;
    var r := FromValue(v).value;
    DecodeThenEncode(b);
    FromValueExact(v);
    EnvelopeCanonical(r, true);
    FromValueOfRecord(r);
  }

  /** Exactly which records survive the wire unchanged. */
  lemma {:induction false} ToCborThenFromCbor(r: Record)
    requires ToCbor(r).Some?
    ensures FromCbor(ToCbor(r).value) == Some(r) <==> WireFit(r)
  {
    EnvelopeCanonical(r, true);
    FromValueOfRecord(r);
    if FromCbor(ToCbor(r).value) == Some(r) {
      FromCborThenToCbor(ToCbor(r).value);
    } else if IsCanonical(r.body) && Depth(r.body) < MAX_DEPTH {
      EncodeThenDecode(ToValue(r, true));
      CanonicalOfCanonical(ToValue(r, true));
    }
  }

  /** Signing yields a record that verifies; it survives the wire exactly when
      its references are of a known type and its body is at most 63 deep. */
  lemma {:induction false} SignedRecords(h: Hash, check: SigCheck, kind: u64, createdAt: i64, refs: Vec<Ref>, body: Value,
                                         kp: Keypair, identity: Digest)
    requires Sound(check, kp)
    ensures var s := SignAs(h, kind, createdAt, refs, body, kp, identity);
      (s.Some? <==> body.Map? && Encode(body).Some?)
      && (s.Some? ==>
            Verifies(h, check, s.value) && ToCbor(s.value).Some?
            && (FromCbor(ToCbor(s.value).value) == Some(s.value)
                <==> Depth(body) < MAX_DEPTH && KnownRefs(refs)))
  {
    var r := Unsigned(kind, createdAt, refs, body, kp, identity);
    EnvelopeEncodes(r, false);
    CanonicalKeepsEncoding(body);
    if body.Map? && Encode(body).Some? {
      var s := r.(sig := kp.sign(SigMessage(h, r)));
      assert UnsignedEntries(s) == UnsignedEntries(r);
      EnvelopeEncodes(s, true);
      CanonicalIsCanonical(body);
      CanonicalKeepsDepth(body);
      ToCborThenFromCbor(s);
    }
  }

  /** The id covers every field but the signature: changing the signature does
      not move it, and two records with one id either agree on all other fields
      or exhibit a collision of the hash. */
  lemma {:induction false} IdCommits(h: Hash, r: Record, s: Record)
    requires IsCanonical(r.body) && IsCanonical(s.body)
    ensures Id(h, r.(sig := s.sig)) == Id(h, r)
    ensures Id(h, r) == Id(h, s) ==>
      r.(sig := s.sig) == s || (UnsignedBytes(r) != UnsignedBytes(s) && h(UnsignedBytes(r)) == h(UnsignedBytes(s)))
  {
    assert UnsignedEntries(r.(sig := s.sig)) == UnsignedEntries(r);
    if UnsignedBytes(r) == UnsignedBytes(s) {
      EnvelopeCanonical(r, false);
      EnvelopeCanonical(s, false);
      CanonicalEncodes(ToValue(r, false));
      CanonicalEncodes(ToValue(s, false));
      CanonicalEncodingInjective(ToValue(r, false), ToValue(s, false));
      SameUnsigned(r, s);
    }
  }

  lemma {:induction false} SameUnsigned(r: Record, s: Record)
    requires UnsignedEntries(r) == UnsignedEntries(s)
    ensures r.(sig := s.sig) == s
  {
    var a, b := UnsignedEntries(r), UnsignedEntries(s);
    assert forall i :: 0 <= i < 6 ==> a[i].val == b[i].val;
    assert a[0].val == b[0].val && a[1].val == b[1].val && a[2].val == b[2].val;
    assert a[3].val == b[3].val && a[4].val == b[4].val && a[5].val == b[5].val;
    var x, y := r.author.ToValue().items, s.author.ToValue().items;
    assert x[0] == y[0] && x[1] == y[1];
    assert FromI64(r.createdAt).AsI64() == FromI64(s.createdAt).AsI64();
    assert RefValues(r.refs) == RefValues(s.refs);
    forall i | 0 <= i < |r.refs|
      ensures r.refs[i] == s.refs[i]
    {
      var p, q := r.refs[i].ToValue().items, s.refs[i].ToValue().items;
      assert RefValues(r.refs)[i] == RefValues(s.refs)[i];
      assert p[0] == q[0] && p[1] == q[1];
    }
  }
}
