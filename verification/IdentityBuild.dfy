/** Making genesis and rotation records (`identity.rs`), and that the verifier
    takes them for what they are: the body reads back as the rotation it was
    made from, a genesis starts a chain on its own, and a rotation moves the
    state it was signed under to its own keys. */
module IdentityBuild {
  import opened Wrappers
  import opened Bytes
  import opened Codec
  import opened CodecProofs
  import opened Record
  import opened Blob
  import opened Identity
  import opened IdentityProofs
  import opened IdentityFinality
  import Utf8

  function AlgKeyValues(ks: seq<AlgKey>): (r: seq<Value>)
    ensures |r| == |ks|
  {
    if ks == [] then [] else [Array([Uint(ks[0].alg), Bytes(ks[0].key)])] + AlgKeyValues(ks[1..])
  }

  /** `RotationBody::to_value`. */
  function BodyEntries(b: RotationBody): seq<Entry>
    requires |b.recovery| < U64_SIZE
  {
    [Entry(Text(Name("contest_window")), Uint(b.contestWindow)),
     Entry(Text(Name("key")), Value.Bytes(b.key)),
     Entry(Text(Name("key_alg")), Uint(b.keyAlg)),
     Entry(Text(Name("recovery")), Array(AlgKeyValues(b.recovery)))]
  }

  function BodyValue(b: RotationBody): Value
    requires |b.recovery| < U64_SIZE
  {
    Map(BodyEntries(b))
  }

  /** `Identity::genesis`. */
  function MakeGenesis(h: Hash, kp: Keypair, recovery: Vec<AlgKey>, contestWindow: u64, createdAt: i64): Option<Record>
  {
    var body := RotationBody(kp.publicKey, SIG_ALG_ED25519, recovery, contestWindow);
    SignAs(h, KIND_ROTATION, createdAt, [], BodyValue(body), kp, ZERO_ID)
  }

  /** `Identity::rotate`: whether the signer may do so is not asked here. */
  function MakeRotation(h: Hash, identity: Digest, prev: Digest, body: RotationBody, createdAt: i64, signer: Keypair)
    : Option<Record>
    requires |body.recovery| < U64_SIZE
  {
    SignAs(h, KIND_ROTATION, createdAt, [Ref(0, prev)], BodyValue(body), signer, identity)
  }

  // ------------------------------------------------------------------
  // Bodies survive being put in order
  // ------------------------------------------------------------------

  lemma {:induction false} AlgKeysRead(ks: seq<AlgKey>)
    ensures ParseAlgKeys(AlgKeyValues(ks)) == Some(ks)
    ensures AllCanonical(AlgKeyValues(ks))
  {
    if ks != [] {
      AlgKeysRead(ks[1..]);
      assert AlgKeyValues(ks)[1..] == AlgKeyValues(ks[1..]);
      PairOf(Uint(ks[0].alg), Value.Bytes(ks[0].key));
      assert ks[0] == AlgKey(ks[0].alg, ks[0].key) && ks == [ks[0]] + ks[1..];
    }
  }

  lemma {:induction false} KeyNames()
    ensures |"contest_window"| == 14 && |"key"| == 3 && |"key_alg"| == 7 && |"recovery"| == 8
    ensures Name("contest_window") == "contest_window" && Name("key") == "key"
    ensures Name("key_alg") == "key_alg" && Name("recovery") == "recovery"
  {
  }

  /** Entries in canonical form with different keys make a map that encodes. */
  lemma {:induction false} DistinctKeysEncode(entries: Vec<Entry>)
    requires forall i :: 0 <= i < |entries| ==> IsCanonical(entries[i].key) && IsCanonical(entries[i].val)
    requires forall i, j :: 0 <= i < j < |entries| ==> entries[i].key != entries[j].key
    ensures Encode(Map(entries)).Some?
  {
    hide IsCanonical, Encoding, Canonical;
    forall i | 0 <= i < |entries|
      ensures Encode(entries[i].key).Some? && Encode(entries[i].val).Some? && Canonical(entries[i].key) == entries[i].key
    {
      CanonicalEncodes(entries[i].key);
      CanonicalEncodes(entries[i].val);
      CanonicalOfCanonical(entries[i].key);
    }
    MapEncodesExactly(entries);
  }

  /** The canonical form of entries that are canonical already is a reordering of
      them. */
  lemma {:induction false} CanonicalMembers(entries: seq<Entry>)
    requires forall i :: 0 <= i < |entries| ==> IsCanonical(entries[i].key) && IsCanonical(entries[i].val)
    ensures forall e :: e in Payloads(SortByKey(CanonicalEntries(entries))) <==> e in entries
  {
    hide IsCanonical, Encoding, SortByKey, CanonicalEntries, Canonical;
    var c := CanonicalEntries(entries);
    SettledEntries(entries);
    SortMembers(c);
    var sorted := SortByKey(c);
    var p := Payloads(sorted);
    forall e | e in p
      ensures e in entries
    {
      var i :| 0 <= i < |p| && p[i] == e;
      assert sorted[i] in sorted && sorted[i] in c;
      var j :| 0 <= j < |c| && c[j] == sorted[i];
      assert c[j].val == entries[j];
    }
    forall e | e in entries
      ensures e in p
    {
      var j :| 0 <= j < |entries| && entries[j] == e;
      assert c[j] in c && c[j] in sorted;
      var i :| 0 <= i < |sorted| && sorted[i] == c[j];
      assert p[i] == e;
    }
  }

  lemma {:induction false} SettledEntries(entries: seq<Entry>)
    requires forall i :: 0 <= i < |entries| ==> IsCanonical(entries[i].key) && IsCanonical(entries[i].val)
    ensures forall i :: 0 <= i < |entries| ==> CanonicalEntries(entries)[i].val == entries[i]
    decreases entries
  {
    hide IsCanonical, Encoding, Canonical;
    if entries != [] {
      CanonicalOfCanonical(entries[0].key);
      CanonicalOfCanonical(entries[0].val);
      SettledEntries(entries[1..]);
      assert CanonicalEntries(entries)[1..] == CanonicalEntries(entries[1..]);
      assert entries[0] == Entry(entries[0].key, entries[0].val);
      forall i | 0 <= i < |entries|
        ensures CanonicalEntries(entries)[i].val == entries[i]
      {
        if i > 0 { assert CanonicalEntries(entries[1..])[i - 1].val == entries[1..][i - 1]; }
      }
    }
  }

  /** A key that occurs with one value only is found with that value, wherever
      it stands. */
  lemma {:induction false} LookupOnly(entries: seq<Entry>, key: Str, val: Value)
    requires Entry(Text(key), val) in entries
    requires forall i :: 0 <= i < |entries| && entries[i].key == Text(key) ==> entries[i].val == val
    ensures Lookup(entries, key) == Some(val)
  {
    if entries[0].key != Text(key) {
      assert entries == [entries[0]] + entries[1..];
      LookupOnly(entries[1..], key, val);
    }
  }

  lemma {:induction false} BodyEntriesGood(b: RotationBody)
    requires |b.recovery| < U64_SIZE
    ensures var es := BodyEntries(b);
      (forall i :: 0 <= i < |es| ==> IsCanonical(es[i].key) && IsCanonical(es[i].val))
      && (forall i, j :: 0 <= i < j < |es| ==> es[i].key != es[j].key)
  {
    hide Utf8.Encode;
    AlgKeysRead(b.recovery);
    KeyNames();
    hide AllCanonical, AlgKeyValues, Name;
  }

  /** In any reordering of entries with different keys each key is found. */
  lemma {:induction false} FoundAnywhere(p: seq<Entry>, es: seq<Entry>, k: nat, key: Str)
    requires k < |es| && es[k].key == Text(key)
    requires forall e :: e in p <==> e in es
    requires forall i, j :: 0 <= i < j < |es| ==> es[i].key != es[j].key
    ensures Lookup(p, key) == Some(es[k].val)
  {
    hide Lookup;
    assert es[k] in es && es[k] == Entry(Text(key), es[k].val);
    forall i | 0 <= i < |p| && p[i].key == Text(key)
      ensures p[i].val == es[k].val
    {
      assert p[i] in p;
      var j :| 0 <= j < |es| && es[j] == p[i];
      assert j == k;
    }
    LookupOnly(p, key, es[k].val);
  }

  /** Signing puts the body's keys in order; parsing finds them all the same. */
  lemma {:induction false} BodyRoundTrip(b: RotationBody)
    requires |b.recovery| < U64_SIZE
    ensures Encode(BodyValue(b)).Some? && Canonical(BodyValue(b)).Map?
    ensures ParseBody(Canonical(BodyValue(b))) == Some(b)
  {
    hide *;
    var es := BodyEntries(b);
    BodyParts(b);
    CanonicalMap(es);
    BodyEntriesGood(b);
    DistinctKeysEncode(es);
    CanonicalMembers(es);
    var p := Payloads(SortByKey(CanonicalEntries(es)));
    FoundAnywhere(p, es, 0, Name("contest_window"));
    FoundAnywhere(p, es, 1, Name("key"));
    FoundAnywhere(p, es, 2, Name("key_alg"));
    FoundAnywhere(p, es, 3, Name("recovery"));
    BodyFound(b, p);
  }

  lemma BodyParts(b: RotationBody)
    requires |b.recovery| < U64_SIZE
    ensures var es := BodyEntries(b);
      |es| == 4 && BodyValue(b) == Map(es)
      && es[0] == Entry(Text(Name("contest_window")), Uint(b.contestWindow))
      && es[1] == Entry(Text(Name("key")), Value.Bytes(b.key))
      && es[2] == Entry(Text(Name("key_alg")), Uint(b.keyAlg))
      && es[3] == Entry(Text(Name("recovery")), Array(AlgKeyValues(b.recovery)))
  {
    hide Name, AlgKeyValues;
  }

  lemma CanonicalMap(es: Vec<Entry>)
    ensures Canonical(Map(es)) == Map(Payloads(SortByKey(CanonicalEntries(es))))
  {
    hide SortByKey, CanonicalEntries, Payloads;
  }

  lemma {:induction false} BodyFound(b: RotationBody, p: Vec<Entry>)
    requires |b.recovery| < U64_SIZE
    requires Lookup(p, Name("contest_window")) == Some(Uint(b.contestWindow))
    requires Lookup(p, Name("key")) == Some(Value.Bytes(b.key))
    requires Lookup(p, Name("key_alg")) == Some(Uint(b.keyAlg))
    requires Lookup(p, Name("recovery")) == Some(Array(AlgKeyValues(b.recovery)))
    ensures ParseBody(Map(p)) == Some(b)
  {
    hide Lookup, ParseAlgKeys, AlgKeyValues, Name;
    AlgKeysRead(b.recovery);
  }

  // ------------------------------------------------------------------
  // Main results
  // ------------------------------------------------------------------

  lemma {:induction false} SignedRotation(h: Hash, check: SigCheck, createdAt: i64, refs: Vec<Ref>, b: RotationBody,
                                          kp: Keypair, identity: Digest)
    requires Sound(check, kp) && |b.recovery| < U64_SIZE
    ensures var s := SignAs(h, KIND_ROTATION, createdAt, refs, BodyValue(b), kp, identity);
      s.Some? && Verifies(h, check, s.value) && ParseRotation(s.value) == Some(b)
      && s.value.kind == KIND_ROTATION && s.value.refs == refs && s.value.sigAlg == SIG_ALG_ED25519
      && s.value.author == IdentityRef(identity, kp.publicKey)
  {
    hide Encode, Canonical, ParseBody, BodyEntries, Depth, FromCbor, ToCbor;
    BodyRoundTrip(b);
    SignedRecords(h, check, KIND_ROTATION, createdAt, refs, BodyValue(b), kp, identity);
  }

  /** A genesis record always can be made, and a verifier that has only it reads
      the new identity: its id, its key, its recovery keys and its window. */
  lemma {:induction false} GenesisVerifies(v: View, kp: Keypair, recovery: Vec<AlgKey>, contestWindow: u64, createdAt: i64)
    requires Sound(v.check, kp)
    ensures var g := MakeGenesis(v.h, kp, recovery, contestWindow, createdAt);
      g.Some?
      && var id := Id(v.h, g.value);
      VerifyChain(v, [g.value])
      == Verified(IdentityState(id, kp.publicKey, SIG_ALG_ED25519, recovery, contestWindow, id, 0))
  {
    hide SignAs, Verifies, Id, ParseRotation, Sound, BodyValue;
    var body := RotationBody(kp.publicKey, SIG_ALG_ED25519, recovery, contestWindow);
    SignedRotation(v.h, v.check, createdAt, [], body, kp, ZERO_ID);
    var g := MakeGenesis(v.h, kp, recovery, contestWindow, createdAt).value;
    assert IsGenesis(v, g);
    assert Geneses(v, [g]) == [g];
    AloneStays(v, Initial(v, g), g);
  }

  /** Supplied twice, the very genesis that starts a chain on its own starts
      none. */
  lemma {:induction false} GenesisTwice(v: View, kp: Keypair, recovery: Vec<AlgKey>, contestWindow: u64, createdAt: i64)
    requires Sound(v.check, kp)
    ensures var g := MakeGenesis(v.h, kp, recovery, contestWindow, createdAt);
      g.Some? && VerifyChain(v, [g.value]).Verified? && VerifyChain(v, [g.value, g.value]) == Rejected(MultipleGenesis)
  {
    hide MakeGenesis, IsGenesis, Walk;
    GenesisVerifies(v, kp, recovery, contestWindow, createdAt);
    var g := MakeGenesis(v.h, kp, recovery, contestWindow, createdAt).value;
    GenesesMember(v, [g], Geneses(v, [g])[0]);
    RepeatedGenesisFails(v, [g, g], g);
  }

  lemma {:induction false} AloneStays(v: View, s: IdentityState, g: Record)
    requires g.refs == []
    ensures Walk(v, s, [g], 1) == s
  {
    hide Verifies, ParseRotation, Signing, Recovery;
    OneList(v, s, g);
  }

  /** A rotation made by the holder of the current signing key or of a recovery
      key is recognised as exactly that; one made with any other key is neither. */
  lemma {:induction false} RotationIsRecognised(v: View, s: IdentityState, body: RotationBody, createdAt: i64, signer: Keypair)
    requires Sound(v.check, signer) && |body.recovery| < U64_SIZE
    ensures var r := MakeRotation(v.h, s.identityId, s.head, body, createdAt, signer);
      r.Some?
      && (IsSigning(v, s, r.value) <==> s.IsSigningKey(SIG_ALG_ED25519, signer.publicKey))
      && (IsRecovery(v, s, r.value) <==>
            !s.IsSigningKey(SIG_ALG_ED25519, signer.publicKey) && s.IsRecoveryKey(SIG_ALG_ED25519, signer.publicKey))
      && ParseRotation(r.value) == Some(body)
  {
    hide SignAs, Verifies, Id, ParseRotation, Sound, BodyValue;
    SignedRotation(v.h, v.check, createdAt, [Ref(0, s.head)], body, signer, s.identityId);
  }

  /** Two rotations made under one key after its genesis are such siblings as a
      final choice moves between, unless hashes collide. */
  lemma {:induction false} MadeSiblings(v: View, kp: Keypair, recovery: Vec<AlgKey>, contestWindow: u64, createdAt: i64,
                                        bodyA: RotationBody, bodyB: RotationBody)
    returns (g: Record, a: Record, b: Record)
    requires Sound(v.check, kp) && |bodyA.recovery| < U64_SIZE && |bodyB.recovery| < U64_SIZE
    ensures MakeGenesis(v.h, kp, recovery, contestWindow, createdAt) == Some(g)
    ensures MakeRotation(v.h, Id(v.h, g), Id(v.h, g), bodyA, createdAt, kp) == Some(a)
    ensures MakeRotation(v.h, Id(v.h, g), Id(v.h, g), bodyB, createdAt, kp) == Some(b)
    ensures ParseRotation(g).Some? && ParseRotation(g).value.contestWindow == contestWindow
    ensures Id(v.h, a) != Id(v.h, g) && Id(v.h, b) != Id(v.h, g) ==> SigningPair(v, g, a, b)
  {
    hide SignAs, Verifies, Id, ParseRotation, Sound, BodyValue, IsSigning, IsRecovery;
    var body := RotationBody(kp.publicKey, SIG_ALG_ED25519, recovery, contestWindow);
    SignedRotation(v.h, v.check, createdAt, [], body, kp, ZERO_ID);
    g := MakeGenesis(v.h, kp, recovery, contestWindow, createdAt).value;
    var s := Initial(v, g);
    RotationIsRecognised(v, s, bodyA, createdAt, kp);
    RotationIsRecognised(v, s, bodyB, createdAt, kp);
    a := MakeRotation(v.h, s.identityId, s.head, bodyA, createdAt, kp).value;
    b := MakeRotation(v.h, s.identityId, s.head, bodyB, createdAt, kp).value;
  }

  lemma {:induction false} NothingAuthorised(v: View, s: IdentityState, records: seq<Record>)
    requires Choose(v, s, records).None?
    ensures Signing(v, s, records) == [] && Recovery(v, s, records) == []
  {
    hide Signing, Recovery, Lowest, Finals;
    if s.contestWindow == 0 {
      assert Signing(v, s, records) + Recovery(v, s, records) == [];
    }
  }

  lemma {:induction false} OnlyChildChosen(observed: Digest -> Option<i64>, now: i64, window: u64, c: Candidate)
    ensures Pick(observed, now, window, [c], []) == Some(c) && Pick(observed, now, window, [], [c]) == Some(c)
  {
    hide IsFinal;
    assert [c] + [] == [c] && [] + [c] == [c];
    assert [c][1..] == [];
    assert Lowest([c]) == Some(c);
    assert Finals(observed, now, window, [c]) == if IsFinal(observed, now, window, c.id) then [c] else [];
  }

  /** And it moves the chain on: where no rotation was left to follow, the
      verifier now follows this one, to the keys and window it declares. */
  lemma {:induction false} RotationAdvances(v: View, s: IdentityState, records: seq<Record>, body: RotationBody,
                                            createdAt: i64, signer: Keypair)
    requires Sound(v.check, signer) && |body.recovery| < U64_SIZE && Choose(v, s, records).None?
    requires s.IsSigningKey(SIG_ALG_ED25519, signer.publicKey) || s.IsRecoveryKey(SIG_ALG_ED25519, signer.publicKey)
    ensures var r := MakeRotation(v.h, s.identityId, s.head, body, createdAt, signer);
      r.Some?
      && Walk(v, s, records + [r.value], 1)
         == IdentityState(s.identityId, body.key, body.keyAlg, body.recovery, body.contestWindow,
                          Id(v.h, r.value), s.depth + 1)
  {
    hide MakeRotation, Choose, Pick, IsSigning, IsRecovery, Id, ParseRotation, Sound;
    RotationIsRecognised(v, s, body, createdAt, signer);
    var r := MakeRotation(v.h, s.identityId, s.head, body, createdAt, signer).value;
    NothingAuthorised(v, s, records);
    ListsOfAppend(v, s, records, [r]);
    var c := CandidateOf(v, r);
    OneList(v, s, r);
    OnlyChildChosen(v.observed, v.now, s.contestWindow, c);
    assert [] + Signing(v, s, [r]) == Signing(v, s, [r]) && [] + Recovery(v, s, [r]) == Recovery(v, s, [r]);
    ChooseIs(v, s, records + [r]);
  }

  lemma OneList(v: View, s: IdentityState, r: Record)
    ensures Signing(v, s, [r]) == if IsSigning(v, s, r) then [CandidateOf(v, r)] else []
    ensures Recovery(v, s, [r]) == if IsRecovery(v, s, r) then [CandidateOf(v, r)] else []
  {
    hide ParseRotation, Verifies, Id;
  }

  lemma ChooseIs(v: View, s: IdentityState, records: seq<Record>)
    ensures Choose(v, s, records)
         == Pick(v.observed, v.now, s.contestWindow, Signing(v, s, records), Recovery(v, s, records))
  {
  }
}
