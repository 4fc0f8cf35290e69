/** The identity rotation log (`identity.rs`): which rotation a verifier follows
    from genesis, as a fork choice over an unordered bag of records. */
module Identity {
  import opened Wrappers
  import opened Bytes
  import opened Codec
  import opened Record
  import opened Blob

  const KIND_ROTATION: u64 := 1

  datatype AlgKey = AlgKey(alg: u64, key: Vec<byte>)

  datatype RotationBody = RotationBody(key: Vec<byte>, keyAlg: u64, recovery: seq<AlgKey>, contestWindow: u64)

  datatype IdentityState = IdentityState(identityId: Digest, signingKey: Vec<byte>, keyAlg: u64, recovery: seq<AlgKey>,
                                         contestWindow: u64, head: Digest, depth: nat)
  {
    predicate IsSigningKey(alg: u64, key: Vec<byte>) { keyAlg == alg && signingKey == key }

    predicate IsRecoveryKey(alg: u64, key: Vec<byte>) { AlgKey(alg, key) in recovery }
  }

  /** What a verifier brings along: hash, signature check, when it first saw a
      record, and its clock. */
  datatype View = View(h: Hash, check: SigCheck, observed: Digest -> Option<i64>, now: i64)

  // ------------------------------------------------------------------
  // Rotation bodies
  // ------------------------------------------------------------------

  function ParseAlgKeys(entries: seq<Value>): Option<seq<AlgKey>>
  {
    if entries == [] then Some([])
    else
      var pair :- entries[0].AsArray();
      if |pair| != 2 then None
      else
        var alg :- pair[0].AsUint();
        var key :- pair[1].AsBytes();
        var t :- ParseAlgKeys(entries[1..]);
        Some([AlgKey(alg, key)] + t)
  }

  function ParseRotation(r: Record): Option<RotationBody>
  {
    if r.kind != KIND_ROTATION then None else ParseBody(r.body)
  }

  function ParseBody(body: Value): Option<RotationBody>
  {
    var keyV :- body.MapGet(Name("key"));
    var key :- keyV.AsBytes();
    var algV :- body.MapGet(Name("key_alg"));
    var keyAlg :- algV.AsUint();
    var windowV :- body.MapGet(Name("contest_window"));
    var contestWindow :- windowV.AsUint();
    var recoveryV :- body.MapGet(Name("recovery"));
    var arr :- recoveryV.AsArray();
    var recovery :- ParseAlgKeys(arr);
    Some(RotationBody(key, keyAlg, recovery, contestWindow))
  }

  // ------------------------------------------------------------------
  // Genesis and children
  // ------------------------------------------------------------------

  predicate IsGenesis(v: View, r: Record)
  {
    r.kind == KIND_ROTATION && r.refs == [] && r.author.identityId == ZERO_ID
    && ParseRotation(r).Some?
    && r.author.signingKey == ParseRotation(r).value.key && r.sigAlg == ParseRotation(r).value.keyAlg
    && Verifies(v.h, v.check, r)
  }

  function Geneses(v: View, records: seq<Record>): (g: seq<Record>)
    ensures forall i :: 0 <= i < |g| ==> g[i] in records && IsGenesis(v, g[i]) && ParseRotation(g[i]).Some?
    decreases |records|
  {
    if records == [] then []
    else if IsGenesis(v, records[0]) then [records[0]] + Geneses(v, records[1..])
    else Geneses(v, records[1..])
  }

  /** A verified rotation of identity `id` that names `head` as its parent. */
  predicate IsChild(v: View, id: Digest, head: Digest, r: Record)
  {
    r.kind == KIND_ROTATION && |r.refs| == 1 && r.refs[0].IsRecord() && r.refs[0].hash == head
    && r.author.identityId == id && Verifies(v.h, v.check, r)
  }

  predicate IsSigning(v: View, s: IdentityState, r: Record)
  {
    IsChild(v, s.identityId, s.head, r) && ParseRotation(r).Some? && s.IsSigningKey(r.sigAlg, r.author.signingKey)
  }

  predicate IsRecovery(v: View, s: IdentityState, r: Record)
  {
    IsChild(v, s.identityId, s.head, r) && ParseRotation(r).Some? && !s.IsSigningKey(r.sigAlg, r.author.signingKey)
    && s.IsRecoveryKey(r.sigAlg, r.author.signingKey)
  }

  /** What the fork choice keeps of a child. */
  datatype Candidate = Candidate(id: Digest, body: RotationBody)

  function CandidateOf(v: View, r: Record): Candidate
    requires ParseRotation(r).Some?
  {
    Candidate(Id(v.h, r), ParseRotation(r).value)
  }

  function Signing(v: View, s: IdentityState, records: seq<Record>): seq<Candidate>
    decreases |records|
  {
    if records == [] then []
    else if IsSigning(v, s, records[0]) then [CandidateOf(v, records[0])] + Signing(v, s, records[1..])
    else Signing(v, s, records[1..])
  }

  function Recovery(v: View, s: IdentityState, records: seq<Record>): seq<Candidate>
    decreases |records|
  {
    if records == [] then []
    else if IsRecovery(v, s, records[0]) then [CandidateOf(v, records[0])] + Recovery(v, s, records[1..])
    else Recovery(v, s, records[1..])
  }

  // ------------------------------------------------------------------
  // Fork choice
  // ------------------------------------------------------------------

  /** `i64::saturating_sub`. */
  function SaturatingSub(a: i64, b: i64): i64
  {
    if a - b > I64_MAX then I64_MAX else if a - b < I64_MIN then I64_MIN else a - b
  }

  /** Seen longer ago than the window; a negative elapsed time never is. */
  predicate IsFinal(observed: Digest -> Option<i64>, now: i64, window: u64, id: Digest)
  {
    observed(id).Some? && SaturatingSub(now, observed(id).value) >= 0
    && SaturatingSub(now, observed(id).value) > window
  }

  function Finals(observed: Digest -> Option<i64>, now: i64, window: u64, cands: seq<Candidate>): seq<Candidate>
    decreases |cands|
  {
    if cands == [] then []
    else if IsFinal(observed, now, window, cands[0].id) then [cands[0]] + Finals(observed, now, window, cands[1..])
    else Finals(observed, now, window, cands[1..])
  }

  /** The first candidate of lowest id. */
  function Lowest(cands: seq<Candidate>): (c: Option<Candidate>)
    ensures c.None? <==> cands == []
  {
    if cands == [] then None
    else
      var t := Lowest(cands[1..]);
      if t.Some? && LexLess(t.value.id, cands[0].id) then t else Some(cands[0])
  }

  /** The rotation followed at a state with the given authorised children. */
  function Pick(observed: Digest -> Option<i64>, now: i64, window: u64, signing: seq<Candidate>,
                recovery: seq<Candidate>): Option<Candidate>
  {
    if window == 0 then Lowest(signing + recovery)
    else
      var finals := Finals(observed, now, window, signing);
      if finals != [] then Lowest(finals)
      else if recovery != [] then Lowest(recovery)
      else Lowest(signing)
  }

  function Choose(v: View, s: IdentityState, records: seq<Record>): Option<Candidate>
  {
    Pick(v.observed, v.now, s.contestWindow, Signing(v, s, records), Recovery(v, s, records))
  }

  function Advance(s: IdentityState, c: Candidate): IdentityState
  {
    IdentityState(s.identityId, c.body.key, c.body.keyAlg, c.body.recovery, c.body.contestWindow, c.id, s.depth + 1)
  }

  /** The walk from `s`, cut off after `n` rotations. */
  function Walk(v: View, s: IdentityState, records: seq<Record>, n: nat): IdentityState
    decreases n
  {
    if n == 0 then s
    else
      var c := Choose(v, s, records);
      if c.None? then s else Walk(v, Advance(s, c.value), records, n - 1)
  }

  datatype ChainError = NoGenesis | MultipleGenesis

  datatype ChainResult = Verified(state: IdentityState) | Rejected(error: ChainError)

  function Initial(v: View, g: Record): IdentityState
    requires ParseRotation(g).Some?
  {
    var b := ParseRotation(g).value;
    IdentityState(Id(v.h, g), b.key, b.keyAlg, b.recovery, b.contestWindow, Id(v.h, g), 0)
  }

  /** `verify_chain`: with parent links that cannot run in circles, as many steps
      as there are records reach the end of the walk. */
  function VerifyChain(v: View, records: seq<Record>): ChainResult
  {
    var g := Geneses(v, records);
    if |g| == 0 then Rejected(NoGenesis)
    else if |g| > 1 then Rejected(MultipleGenesis)
    else Verified(Walk(v, Initial(v, g[0]), records, |records|))
  }

  // ------------------------------------------------------------------
  // Members of the candidate lists
  // ------------------------------------------------------------------

  ghost predicate SigningFrom(v: View, s: IdentityState, records: seq<Record>, c: Candidate)
  {
    exists r :: r in records && IsSigning(v, s, r) && c == CandidateOf(v, r)
  }

  ghost predicate RecoveryFrom(v: View, s: IdentityState, records: seq<Record>, c: Candidate)
  {
    exists r :: r in records && IsRecovery(v, s, r) && c == CandidateOf(v, r)
  }

  lemma {:induction false} SigningMember(v: View, s: IdentityState, records: seq<Record>, c: Candidate)
    ensures c in Signing(v, s, records) <==> SigningFrom(v, s, records, c)
  {
    hide IsSigning;
    if records != [] {
      SigningMember(v, s, records[1..], c);
      assert forall r :: r in records <==> r == records[0] || r in records[1..];
    }
  }

  lemma {:induction false} RecoveryMember(v: View, s: IdentityState, records: seq<Record>, c: Candidate)
    ensures c in Recovery(v, s, records) <==> RecoveryFrom(v, s, records, c)
  {
    hide IsRecovery;
    if records != [] {
      RecoveryMember(v, s, records[1..], c);
      assert forall r :: r in records <==> r == records[0] || r in records[1..];
    }
  }

  lemma {:induction false} FinalMember(observed: Digest -> Option<i64>, now: i64, window: u64, cands: seq<Candidate>,
                                       c: Candidate)
    ensures c in Finals(observed, now, window, cands) <==> c in cands && IsFinal(observed, now, window, c.id)
  {
    hide IsFinal;
    if cands != [] {
      FinalMember(observed, now, window, cands[1..], c);
    }
  }

  ghost predicate IsLeast(c: Candidate, cands: seq<Candidate>)
  {
    c in cands && forall d :: d in cands ==> !LexLess(d.id, c.id)
  }

  lemma {:induction false} LowestIsLeast(cands: seq<Candidate>)
    requires cands != []
    ensures IsLeast(Lowest(cands).value, cands)
  {
    hide LexLess;
    var c, t := Lowest(cands).value, cands[1..];
    LexIrreflexive(cands[0].id);
    if t != [] {
      LowestIsLeast(t);
      var l := Lowest(t).value;
      forall d | d in cands
        ensures !LexLess(d.id, c.id)
      {
        if LexLess(l.id, cands[0].id) {
          LexAsymmetric(l.id, cands[0].id);
        } else if d in t {
          LexWeakTransitive(cands[0].id, l.id, d.id);
        }
      }
    }
  }
}
