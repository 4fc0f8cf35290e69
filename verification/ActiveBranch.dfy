/** The active branch, over records. */
module ActiveBranch {
  import opened Wrappers
  import opened Bytes
  import opened Codec
  import opened Record
  import opened Identity
  import opened IdentityProofs
  import Rfc8949

  // ------------------------------------------------------------------
  // Genesis, rotations, finality
  // ------------------------------------------------------------------

  /** A valid genesis: a rotation without references or identity, signed by the
      key that its own body declares. */
  predicate Genesis(v: View, r: Record)
  {
    && r.kind == 1 && r.refs == [] && Verifies(v.h, v.check, r)
    && (forall i :: 0 <= i < 32 ==> r.author.identityId[i] == 0)
    && (var b := ParseBody(r.body); b.Some? && b.value.key == r.author.signingKey && b.value.keyAlg == r.sigAlg)
  }

  lemma GenesisIs(v: View, r: Record)
    ensures IsGenesis(v, r) <==> Genesis(v, r)
  {
    hide Verifies, ParseBody;
    if forall i :: 0 <= i < 32 ==> r.author.identityId[i] == 0 {
      assert r.author.identityId == ZERO_ID;
    }
  }

  /** A well-formed rotation whose one reference is the record at the head. */
  predicate Child(v: View, s: IdentityState, r: Record)
  {
    && r.kind == 1 && |r.refs| == 1 && r.refs[0] == Ref(0, s.head) && r.author.identityId == s.identityId
    && Verifies(v.h, v.check, r) && ParseBody(r.body).Some?
  }

  predicate BySigningKey(s: IdentityState, r: Record)
  {
    r.sigAlg == s.keyAlg && r.author.signingKey == s.signingKey
  }

  predicate ByRecoveryKey(s: IdentityState, r: Record)
  {
    !BySigningKey(s, r) && exists i :: 0 <= i < |s.recovery| && s.recovery[i] == AlgKey(r.sigAlg, r.author.signingKey)
  }

  lemma AuthorisedIs(v: View, s: IdentityState, r: Record)
    ensures IsSigning(v, s, r) <==> Child(v, s, r) && BySigningKey(s, r)
    ensures IsRecovery(v, s, r) <==> Child(v, s, r) && ByRecoveryKey(s, r)
  {
    hide Verifies, ParseBody;
    if |r.refs| == 1 { assert r.refs[0] == Ref(r.refs[0].refType, r.refs[0].hash); }
  }

  /** First observed more than `window` seconds ago, where a window of 2^63 - 1
      seconds or more never passes. */
  predicate Final(v: View, window: u64, id: Digest)
  {
    v.observed(id).Some? && v.now - v.observed(id).value > window && window < 0x7fff_ffff_ffff_ffff
  }

  lemma FinalIs(v: View, window: u64, id: Digest)
    ensures IsFinal(v.observed, v.now, window, id) <==> Final(v, window, id)
  {
  }

  // ------------------------------------------------------------------
  // The rule
  // ------------------------------------------------------------------

  /** The kinds of children among which the lowest id decides. */
  datatype Class = Authorised | FinalSigning | ByRecovery | BySigning

  predicate InClass(v: View, s: IdentityState, c: Class, r: Record)
  {
    Child(v, s, r)
    && match c
       case Authorised => BySigningKey(s, r) || ByRecoveryKey(s, r)
       case FinalSigning => BySigningKey(s, r) && Final(v, s.contestWindow, Id(v.h, r))
       case ByRecovery => ByRecoveryKey(s, r)
       case BySigning => BySigningKey(s, r)
  }

  ghost predicate AnyOf(v: View, s: IdentityState, records: seq<Record>, c: Class)
  {
    exists r :: r in records && InClass(v, s, c, r)
  }

  /** Without a window the two authorities are one class; with one, final signing
      children come before recovery children, and these before other signing
      children. */
  ghost function Deciding(v: View, s: IdentityState, records: seq<Record>): Class
  {
    if s.contestWindow == 0 then Authorised
    else if AnyOf(v, s, records, FinalSigning) then FinalSigning
    else if AnyOf(v, s, records, ByRecovery) then ByRecovery
    else BySigning
  }

  /** `r` has the lowest id of its class, compared octet by octet. */
  ghost predicate LowestOf(v: View, s: IdentityState, records: seq<Record>, c: Class, r: Record)
  {
    r in records && InClass(v, s, c, r)
    && forall q :: q in records && InClass(v, s, c, q) ==> !Rfc8949.Before(Id(v.h, q), Id(v.h, r))
  }

  /** The rotation that section 4 selects at `s`. */
  ghost predicate Selected(v: View, s: IdentityState, records: seq<Record>, r: Record)
  {
    LowestOf(v, s, records, Deciding(v, s, records), r)
  }

  /** The state that a rotation declares. */
  function Declared(v: View, s: IdentityState, r: Record): IdentityState
    requires ParseBody(r.body).Some?
  {
    var b := ParseBody(r.body).value;
    s.(signingKey := b.key, keyAlg := b.keyAlg, recovery := b.recovery, contestWindow := b.contestWindow,
       head := Id(v.h, r), depth := s.depth + 1)
  }

  // ------------------------------------------------------------------
  // The fork choice follows it
  // ------------------------------------------------------------------

  /** The candidate list that stands for a class. */
  ghost function ListOf(v: View, s: IdentityState, records: seq<Record>, c: Class): seq<Candidate>
  {
    match c
    case Authorised => Signing(v, s, records) + Recovery(v, s, records)
    case FinalSigning => Finals(v.observed, v.now, s.contestWindow, Signing(v, s, records))
    case ByRecovery => Recovery(v, s, records)
    case BySigning => Signing(v, s, records)
  }

  /** A list of candidates holds the candidate of `r`. */
  ghost predicate Holds(v: View, cands: seq<Candidate>, r: Record)
  {
    ParseRotation(r).Some? && CandidateOf(v, r) in cands
  }

  lemma {:induction false} ListedFrom(v: View, s: IdentityState, records: seq<Record>, c: Class, x: Candidate)
    returns (r: Record)
    requires x in ListOf(v, s, records, c)
    ensures r in records && InClass(v, s, c, r) && ParseRotation(r).Some? && x == CandidateOf(v, r)
  {
    hide Signing, Recovery, Finals, Id, ParseRotation, IsFinal, IsChild, Child, Final;
    FinalMember(v.observed, v.now, s.contestWindow, Signing(v, s, records), x);
    SigningMember(v, s, records, x);
    RecoveryMember(v, s, records, x);
    if c == ByRecovery || (c == Authorised && x !in Signing(v, s, records)) {
      r :| r in records && IsRecovery(v, s, r) && x == CandidateOf(v, r);
    } else {
      r :| r in records && IsSigning(v, s, r) && x == CandidateOf(v, r);
    }
    AuthorisedIs(v, s, r);
    FinalIs(v, s.contestWindow, Id(v.h, r));
  }

  lemma {:induction false} InClassListed(v: View, s: IdentityState, records: seq<Record>, c: Class, r: Record)
    requires r in records && InClass(v, s, c, r)
    ensures ParseRotation(r).Some? && CandidateOf(v, r) in ListOf(v, s, records, c)
  {
    assert ParseRotation(r).Some?;
    hide Signing, Recovery, Finals, IsSigning, IsRecovery, Id, ParseRotation, IsFinal, Child, Final;
    var x := CandidateOf(v, r);
    AuthorisedIs(v, s, r);
    FinalIs(v, s.contestWindow, Id(v.h, r));
    FinalMember(v.observed, v.now, s.contestWindow, Signing(v, s, records), x);
    SigningMember(v, s, records, x);
    RecoveryMember(v, s, records, x);
  }

  lemma {:induction false} SomeListed(v: View, s: IdentityState, records: seq<Record>, c: Class)
    ensures AnyOf(v, s, records, c) <==> ListOf(v, s, records, c) != []
  {
    hide ListOf, InClass;
    if ListOf(v, s, records, c) != [] {
      var r := ListedFrom(v, s, records, c, ListOf(v, s, records, c)[0]);
    }
    if r :| r in records && InClass(v, s, c, r) {
      InClassListed(v, s, records, c, r);
    }
  }

  lemma {:induction false} ChoiceIsLowest(v: View, s: IdentityState, records: seq<Record>)
    ensures Choose(v, s, records) == Lowest(ListOf(v, s, records, Deciding(v, s, records)))
  {
    hide Signing, Recovery, Finals, Lowest, AnyOf;
    SomeListed(v, s, records, FinalSigning);
    SomeListed(v, s, records, ByRecovery);
  }

  /** The candidate of lowest id is a record of lowest id. */
  lemma {:induction false} LowestListed(v: View, s: IdentityState, records: seq<Record>, c: Class) returns (r: Record)
    requires ListOf(v, s, records, c) != []
    ensures LowestOf(v, s, records, c, r) && ParseRotation(r).Some?
    ensures Lowest(ListOf(v, s, records, c)) == Some(CandidateOf(v, r))
  {
    hide ListOf, InClass, Lowest, LexLess, Id, ParseRotation, Rfc8949.Before;
    var cands := ListOf(v, s, records, c);
    LowestIsLeast(cands);
    r := ListedFrom(v, s, records, c, Lowest(cands).value);
    forall q | q in records && InClass(v, s, c, q)
      ensures !Rfc8949.Before(Id(v.h, q), Id(v.h, r))
    {
      InClassListed(v, s, records, c, q);
      Rfc8949.BytewiseOrder(Id(v.h, q), Id(v.h, r));
    }
  }

  lemma {:induction false} NobodyDecides(v: View, s: IdentityState, records: seq<Record>)
    ensures AnyOf(v, s, records, Deciding(v, s, records)) <==> AnyOf(v, s, records, Authorised)
  {
    hide Child, Final, Id;
    if r :| r in records && InClass(v, s, Authorised, r) {
      if ByRecoveryKey(s, r) {
        assert InClass(v, s, ByRecovery, r);
      } else {
        assert InClass(v, s, BySigning, r);
      }
    }
  }

  /** At every state the verifier follows the rotation that the rule selects, to
      the state it declares, and stays where no child is authorised. */
  lemma {:induction false} RuleFollowed(v: View, s: IdentityState, records: seq<Record>) returns (r: Record)
    ensures Choose(v, s, records).None? <==> !AnyOf(v, s, records, Authorised)
    ensures Choose(v, s, records).Some? ==>
      Selected(v, s, records, r) && ParseBody(r.body).Some?
      && Advance(s, Choose(v, s, records).value) == Declared(v, s, r)
  {
    var c := Deciding(v, s, records);
    hide ListOf, InClass, Choose, Lowest, AnyOf, Id, Deciding, LowestOf, ParseBody;
    ChoiceIsLowest(v, s, records);
    SomeListed(v, s, records, c);
    NobodyDecides(v, s, records);
    if ListOf(v, s, records, c) != [] {
      r := LowestListed(v, s, records, c);
    } else {
      r :| true;
    }
  }

  /** The step of the walk after `k` rotations. */
  lemma {:induction false} WalkFollowsRule(v: View, s: IdentityState, records: seq<Record>, k: nat) returns (r: Record)
    ensures var t, next := Walk(v, s, records, k), Walk(v, s, records, k + 1);
      if AnyOf(v, t, records, Authorised)
      then Selected(v, t, records, r) && ParseBody(r.body).Some? && next == Declared(v, t, r)
      else next == t
  {
    hide Choose, Walk, Selected, Declared, AnyOf, ParseBody;
    NextStep(v, s, records, k);
    r := RuleFollowed(v, Walk(v, s, records, k), records);
  }

  // ------------------------------------------------------------------
  // The whole chain
  // ------------------------------------------------------------------

  /** From `s` the rule selects `links` one after the other and then nothing more,
      at `t`. */
  ghost predicate Branch(v: View, s: IdentityState, records: seq<Record>, links: seq<Record>, t: IdentityState)
    decreases |links|
  {
    if links == [] then s == t && !AnyOf(v, s, records, Authorised)
    else Selected(v, s, records, links[0]) && ParseBody(links[0].body).Some?
         && Branch(v, Declared(v, s, links[0]), records, links[1..], t)
  }

  /** What a genesis declares. */
  function Start(v: View, g: Record): IdentityState
    requires ParseBody(g.body).Some?
  {
    var b := ParseBody(g.body).value;
    IdentityState(Id(v.h, g), b.key, b.keyAlg, b.recovery, b.contestWindow, Id(v.h, g), 0)
  }

  lemma {:induction false} WalkIsBranch(v: View, s: IdentityState, records: seq<Record>, n: nat) returns (links: seq<Record>)
    requires Choose(v, Walk(v, s, records, n), records).None?
    ensures Branch(v, s, records, links, Walk(v, s, records, n))
    decreases n
  {
    hide Choose, Selected, Declared, AnyOf, ParseBody;
    var r := RuleFollowed(v, s, records);
    if Choose(v, s, records).None? {
      links := [];
      WalkStaysPut(v, s, records, n);
    } else {
      var rest := WalkIsBranch(v, Declared(v, s, r), records, n - 1);
      links := [r] + rest;
      assert links[1..] == rest;
    }
  }

  /** Where one id means one signed content the rule selects one state. */
  lemma {:induction false} OneSelected(v: View, s: IdentityState, records: seq<Record>, q: Record, r: Record)
    requires OneContentPerId(v.h, records) && Selected(v, s, records, q) && Selected(v, s, records, r)
    ensures ParseBody(q.body).Some? && ParseBody(r.body).Some? && Declared(v, s, q) == Declared(v, s, r)
  {
    assert ParseBody(q.body).Some? && ParseBody(r.body).Some?;
    hide InClass, Deciding, Id, ParseBody, LexLess, Rfc8949.Before;
    LexTotal(Id(v.h, q), Id(v.h, r));
    Rfc8949.BytewiseOrder(Id(v.h, q), Id(v.h, r));
    Rfc8949.BytewiseOrder(Id(v.h, r), Id(v.h, q));
    assert q.(sig := r.sig) == r;
  }

  lemma {:induction false} SelectedIsAuthorised(v: View, s: IdentityState, records: seq<Record>, r: Record)
    requires Selected(v, s, records, r)
    ensures AnyOf(v, s, records, Authorised)
  {
    hide Child, Final, Id;
    NobodyDecides(v, s, records);
    assert AnyOf(v, s, records, Deciding(v, s, records));
  }

  lemma {:induction false} BranchIsWalk(v: View, s: IdentityState, records: seq<Record>, links: seq<Record>, t: IdentityState, n: nat)
    requires OneContentPerId(v.h, records) && Branch(v, s, records, links, t)
    requires Choose(v, Walk(v, s, records, n), records).None?
    ensures Walk(v, s, records, n) == t
    decreases n
  {
    hide Choose, Selected, Declared, AnyOf, ParseBody, OneContentPerId;
    var r := RuleFollowed(v, s, records);
    if links == [] {
      WalkStaysPut(v, s, records, n);
    } else {
      SelectedIsAuthorised(v, s, records, links[0]);
      OneSelected(v, s, records, links[0], r);
      assert Choose(v, s, records).Some?;
      BranchIsWalk(v, Declared(v, s, r), records, links[1..], t, n - 1);
    }
  }

  /** `verify_chain` returns a state if and only if that state ends the branch
      which the rule selects from the one genesis supplied. */
  lemma {:induction false} ActiveBranchExactly(v: View, records: seq<Record>, rank: Digest -> nat, g: Record, t: IdentityState)
    requires OneContentPerId(v.h, records) && Ranked(v.h, records, rank)
    requires Genesis(v, g) && multiset(records)[g] == 1 && forall r :: r in records && Genesis(v, r) ==> r == g
    ensures VerifyChain(v, records) == Verified(t) <==> exists links :: Branch(v, Start(v, g), records, links, t)
  {
    var s := Start(v, g);
    hide Choose, Walk, Genesis, IsGenesis, ParseBody, Remaining, Id, Branch, OneContentPerId, Geneses, Ranked;
    OnlyGenesis(v, records, g);
    StartIs(v, g);
    RemainingShrinks(v.h, records, rank, rank(s.head), rank(s.head));
    WalkStops(v, s, records, rank, |records|);
    var links := WalkIsBranch(v, s, records, |records|);
    if other :| Branch(v, s, records, other, t) {
      BranchIsWalk(v, s, records, other, t, |records|);
    }
  }

  lemma StartIs(v: View, g: Record)
    requires Genesis(v, g)
    ensures ParseRotation(g).Some? && Initial(v, g) == Start(v, g)
  {
    hide ParseBody, Id, Verifies;
  }

  lemma {:induction false} OnlyGenesis(v: View, records: seq<Record>, g: Record)
    requires Genesis(v, g) && multiset(records)[g] == 1 && forall r :: r in records && Genesis(v, r) ==> r == g
    ensures Geneses(v, records) == [g]
  {
    hide Genesis, IsGenesis, Geneses;
    var gs := Geneses(v, records);
    forall r
      ensures multiset(gs)[r] == multiset{g}[r]
    {
      GenesesCount(v, records, r);
      GenesisIs(v, r);
      assert r in records <==> r in multiset(records);
    }
    assert multiset(gs) == multiset{g};
    assert |gs| == |multiset(gs)|;
    assert gs[0] in multiset(gs);
  }

  /** Without exactly one genesis there is no state. */
  lemma {:induction false} NoGenesisNoState(v: View, records: seq<Record>)
    ensures VerifyChain(v, records) == Rejected(NoGenesis) <==> forall r :: r in records ==> !Genesis(v, r)
    ensures VerifyChain(v, records).Verified? ==>
      exists g :: g in records && Genesis(v, g) && multiset(records)[g] == 1
  {
    hide Genesis, IsGenesis, Geneses, Walk;
    var gs := Geneses(v, records);
    forall r
      ensures r in gs <==> r in records && Genesis(v, r)
    {
      GenesesMember(v, records, r);
      GenesisIs(v, r);
    }
    if |gs| == 1 {
      SingleGenesis(v, records);
    } else if gs != [] {
      assert gs[0] in gs;
    }
  }
}
