/** What the fork choice guarantees. */
module IdentityProofs {
  import opened Wrappers
  import opened Bytes
  import opened Record
  import opened Blob
  import opened Identity

  /** Records with one id carry the same signed contents. `Record.IdCommits`
      shows that anything else is a hash collision. */
  ghost predicate OneContentPerId(h: Hash, records: seq<Record>)
  {
    forall r, s :: r in records && s in records && Id(h, r) == Id(h, s) ==> r.(sig := s.sig) == s
  }

  ghost predicate Consistent(cands: seq<Candidate>)
  {
    forall c, d :: c in cands && d in cands && c.id == d.id ==> c == d
  }

  // ------------------------------------------------------------------
  // The choice depends on the set of records only
  // ------------------------------------------------------------------

  lemma {:induction false} LeastIsUnique(cands: seq<Candidate>, c: Candidate, d: Candidate)
    requires Consistent(cands) && IsLeast(c, cands) && IsLeast(d, cands)
    ensures c == d
  {
    hide LexLess;
    LexTotal(c.id, d.id);
  }

  lemma {:induction false} LowestOfSameSet(a: seq<Candidate>, b: seq<Candidate>)
    requires Consistent(a) && forall c :: c in a <==> c in b
    ensures Lowest(a) == Lowest(b)
  {
    hide Lowest, LexLess;
    assert a == [] <==> b == [] by {
      if a != [] { assert a[0] in b; }
      if b != [] { assert b[0] in a; }
    }
    if a != [] {
      LowestIsLeast(a);
      LowestIsLeast(b);
      LeastIsUnique(a, Lowest(a).value, Lowest(b).value);
    }
  }

  lemma {:induction false} PickOfSameSets(observed: Digest -> Option<i64>, now: i64, window: u64, sa: seq<Candidate>,
                                          ra: seq<Candidate>, sb: seq<Candidate>, rb: seq<Candidate>)
    requires Consistent(sa + ra)
    requires (forall c :: c in sa <==> c in sb) && (forall c :: c in ra <==> c in rb)
    ensures Pick(observed, now, window, sa, ra) == Pick(observed, now, window, sb, rb)
  {
    hide Lowest, LexLess, Finals, IsFinal;
    var fa, fb := Finals(observed, now, window, sa), Finals(observed, now, window, sb);
    forall c
      ensures c in fa <==> c in fb
      ensures c in fa ==> c in sa + ra
    {
      FinalMember(observed, now, window, sa, c);
      FinalMember(observed, now, window, sb, c);
    }
    assert forall c :: c in sa || c in ra ==> c in sa + ra;
    assert fa == [] <==> fb == [] by {
      if fa != [] { assert fa[0] in fb; }
      if fb != [] { assert fb[0] in fa; }
    }
    assert ra == [] <==> rb == [] by {
      if ra != [] { assert ra[0] in rb; }
      if rb != [] { assert rb[0] in ra; }
    }
    LowestOfSameSet(sa + ra, sb + rb);
    LowestOfSameSet(fa, fb);
    LowestOfSameSet(ra, rb);
    LowestOfSameSet(sa, sb);
  }

  lemma {:induction false} SameContentSameCandidate(v: View, r: Record, s: Record)
    requires r.(sig := s.sig) == s && ParseRotation(r).Some?
    ensures ParseRotation(s) == ParseRotation(r)
  {
    hide ParseBody;
  }

  lemma {:induction false} CandidatesConsistent(v: View, s: IdentityState, records: seq<Record>)
    requires OneContentPerId(v.h, records)
    ensures Consistent(Signing(v, s, records) + Recovery(v, s, records))
  {
    hide Signing, Recovery, Id, ParseRotation, IsSigning, IsRecovery;
    var all := Signing(v, s, records) + Recovery(v, s, records);
    forall c, d | c in all && d in all && c.id == d.id
      ensures c == d
    {
      var r := AuthorisedFrom(v, s, records, c);
      var q := AuthorisedFrom(v, s, records, d);
      SameContentSameCandidate(v, r, q);
    }
  }

  /** The record behind a candidate. */
  lemma {:induction false} AuthorisedFrom(v: View, s: IdentityState, records: seq<Record>, c: Candidate) returns (r: Record)
    requires c in Signing(v, s, records) + Recovery(v, s, records)
    ensures r in records && (IsSigning(v, s, r) || IsRecovery(v, s, r))
    ensures ParseRotation(r).Some? && c == CandidateOf(v, r)
    ensures c in Signing(v, s, records) || IsRecovery(v, s, r)
    ensures c in Recovery(v, s, records) || IsSigning(v, s, r)
  {
    hide Id, ParseRotation, Signing, Recovery;
    SigningMember(v, s, records, c);
    RecoveryMember(v, s, records, c);
    if c in Signing(v, s, records) {
      r :| r in records && IsSigning(v, s, r) && c == CandidateOf(v, r);
    } else {
      r :| r in records && IsRecovery(v, s, r) && c == CandidateOf(v, r);
    }
  }

  lemma {:induction false} ChoiceOfSameSet(v: View, s: IdentityState, a: seq<Record>, b: seq<Record>)
    requires OneContentPerId(v.h, a) && forall r :: r in a <==> r in b
    ensures Choose(v, s, a) == Choose(v, s, b)
  {
    hide Signing, Recovery, Id, ParseRotation, IsSigning, IsRecovery, Pick;
    CandidatesConsistent(v, s, a);
    forall c
      ensures c in Signing(v, s, a) <==> c in Signing(v, s, b)
      ensures c in Recovery(v, s, a) <==> c in Recovery(v, s, b)
    {
      SigningMember(v, s, a, c);
      SigningMember(v, s, b, c);
      RecoveryMember(v, s, a, c);
      RecoveryMember(v, s, b, c);
    }
    PickOfSameSets(v.observed, v.now, s.contestWindow, Signing(v, s, a), Recovery(v, s, a), Signing(v, s, b),
                   Recovery(v, s, b));
  }

  lemma {:induction false} WalkOfSameSet(v: View, s: IdentityState, a: seq<Record>, b: seq<Record>, n: nat)
    requires OneContentPerId(v.h, a) && forall r :: r in a <==> r in b
    ensures Walk(v, s, a, n) == Walk(v, s, b, n)
    decreases n
  {
    hide Choose;
    if n > 0 {
      ChoiceOfSameSet(v, s, a, b);
      if Choose(v, s, a).Some? {
        WalkOfSameSet(v, Advance(s, Choose(v, s, a).value), a, b, n - 1);
      }
    }
  }

  lemma {:induction false} GenesesCount(v: View, records: seq<Record>, r: Record)
    ensures multiset(Geneses(v, records))[r] == if IsGenesis(v, r) then multiset(records)[r] else 0
  {
    hide IsGenesis;
    if records != [] {
      GenesesCount(v, records[1..], r);
      assert records == [records[0]] + records[1..];
    }
  }

  lemma {:induction false} GenesesOfPermutation(v: View, a: seq<Record>, b: seq<Record>)
    requires multiset(a) == multiset(b)
    ensures multiset(Geneses(v, a)) == multiset(Geneses(v, b))
    ensures |Geneses(v, a)| == |Geneses(v, b)|
    ensures |Geneses(v, a)| == 1 ==> Geneses(v, a) == Geneses(v, b)
  {
    hide Geneses, IsGenesis;
    var x, y := Geneses(v, a), Geneses(v, b);
    forall r
      ensures multiset(x)[r] == multiset(y)[r]
    {
      GenesesCount(v, a, r);
      GenesesCount(v, b, r);
    }
    assert multiset(x) == multiset(y);
    assert |x| == |multiset(x)| && |y| == |multiset(y)|;
    if |x| == 1 {
      assert x[0] in multiset(y);
    }
  }

  /** Order independence: every permutation of the input gives the same state or
      the same error. */
  lemma {:induction false} OrderIndependence(v: View, a: seq<Record>, b: seq<Record>)
    requires multiset(a) == multiset(b) && OneContentPerId(v.h, a)
    ensures VerifyChain(v, a) == VerifyChain(v, b)
  {
    hide Geneses, Walk, IsGenesis;
    GenesesOfPermutation(v, a, b);
    assert |a| == |multiset(a)| && |b| == |multiset(b)|;
    forall r
      ensures r in a <==> r in b
    {
      assert r in a <==> r in multiset(a);
      assert r in b <==> r in multiset(b);
    }
    if |Geneses(v, a)| == 1 {
      WalkOfSameSet(v, Initial(v, Geneses(v, a)[0]), a, b, |a|);
    }
  }

  // ------------------------------------------------------------------
  // Termination and the certified path
  // ------------------------------------------------------------------

  /** A rotation that names a parent record, as every rotation but a genesis
      does. */
  predicate NamesParent(r: Record)
  {
    r.kind == KIND_ROTATION && |r.refs| == 1 && r.refs[0].IsRecord()
  }

  /** Parent links do not run in circles: a rank grows along every link. */
  ghost predicate Ranked(h: Hash, records: seq<Record>, rank: Digest -> nat)
  {
    forall r :: r in records && NamesParent(r) ==> rank(r.refs[0].hash) < rank(Id(h, r))
  }

  /** How many rotations with a parent are ranked above `m`. */
  ghost function Remaining(h: Hash, records: seq<Record>, rank: Digest -> nat, m: nat): nat
  {
    if records == [] then 0
    else (if NamesParent(records[0]) && rank(Id(h, records[0])) > m then 1 else 0) + Remaining(h, records[1..], rank, m)
  }

  lemma {:induction false} RemainingShrinks(h: Hash, records: seq<Record>, rank: Digest -> nat, m: nat, n: nat)
    requires m <= n
    ensures Remaining(h, records, rank, n) <= Remaining(h, records, rank, m) <= |records|
    ensures (exists r :: r in records && NamesParent(r) && m < rank(Id(h, r)) <= n) ==>
      Remaining(h, records, rank, n) < Remaining(h, records, rank, m)
  {
    hide Id;
    if records != [] {
      RemainingShrinks(h, records[1..], rank, m, n);
      assert forall r :: r in records <==> r == records[0] || r in records[1..];
    }
  }

  lemma {:induction false} ChosenRecord(v: View, s: IdentityState, records: seq<Record>) returns (r: Record)
    requires Choose(v, s, records).Some?
    ensures r in records && (IsSigning(v, s, r) || IsRecovery(v, s, r))
    ensures ParseRotation(r).Some? && Choose(v, s, records).value == CandidateOf(v, r)
    ensures NamesParent(r) && r.refs[0].hash == s.head && Choose(v, s, records).value.id == Id(v.h, r)
  {
    var c := ChosenMember(v, s, records);
    hide Signing, Recovery, Choose, Id, ParseRotation;
    r := AuthorisedFrom(v, s, records, c);
  }

  lemma {:induction false} ChosenMember(v: View, s: IdentityState, records: seq<Record>) returns (c: Candidate)
    requires Choose(v, s, records).Some?
    ensures c == Choose(v, s, records).value && c in Signing(v, s, records) + Recovery(v, s, records)
    ensures s.contestWindow > 0 && Recovery(v, s, records) != [] ==>
      (Finals(v.observed, v.now, s.contestWindow, Signing(v, s, records)) == [] ==> c in Recovery(v, s, records))
  {
    hide Signing, Recovery, Lowest, Finals, LexLess, IsFinal;
    c := Choose(v, s, records).value;
    var sig, rec := Signing(v, s, records), Recovery(v, s, records);
    if s.contestWindow == 0 {
      LowestIsLeast(sig + rec);
    } else {
      var f := Finals(v.observed, v.now, s.contestWindow, sig);
      FinalMember(v.observed, v.now, s.contestWindow, sig, c);
      if f != [] {
        LowestIsLeast(f);
      } else if rec != [] {
        LowestIsLeast(rec);
      } else {
        LowestIsLeast(sig);
      }
    }
  }

  lemma {:induction false} NoChoiceNoChild(v: View, s: IdentityState, records: seq<Record>)
    ensures Choose(v, s, records).None? <==>
      forall r :: r in records ==> !IsSigning(v, s, r) && !IsRecovery(v, s, r)
  {
    var sig, rec := Signing(v, s, records), Recovery(v, s, records);
    hide Signing, Recovery, IsSigning, IsRecovery, Lowest, Finals, IsFinal, Id, ParseRotation;
    if Choose(v, s, records).Some? {
      var r := ChosenRecord(v, s, records);
    } else {
      var f := Finals(v.observed, v.now, s.contestWindow, sig);
      assert sig == [] && rec == [];
      forall r | r in records
        ensures !IsSigning(v, s, r) && !IsRecovery(v, s, r)
      {
        NotAuthorised(v, s, records, r);
      }
    }
  }

  lemma {:induction false} NotAuthorised(v: View, s: IdentityState, records: seq<Record>, r: Record)
    requires r in records && Signing(v, s, records) == [] && Recovery(v, s, records) == []
    ensures !IsSigning(v, s, r) && !IsRecovery(v, s, r)
  {
    if IsSigning(v, s, r) || IsRecovery(v, s, r) {
      SigningMember(v, s, records, CandidateOf(v, r));
      RecoveryMember(v, s, records, CandidateOf(v, r));
    }
  }

  /** With ranked parent links the walk ends after at most as many steps as there
      are rotations above its start. */
  lemma {:induction false} WalkStops(v: View, s: IdentityState, records: seq<Record>, rank: Digest -> nat, n: nat)
    requires Ranked(v.h, records, rank) && Remaining(v.h, records, rank, rank(s.head)) <= n
    ensures Choose(v, Walk(v, s, records, n), records).None?
    ensures Walk(v, s, records, n).depth <= s.depth + Remaining(v.h, records, rank, rank(s.head))
    decreases n
  {
    hide Choose, IsSigning, IsRecovery, Id, ParseRotation, Remaining;
    if Choose(v, s, records).Some? {
      var r := ChosenRecord(v, s, records);
      var next := Advance(s, Choose(v, s, records).value);
      assert rank(s.head) < rank(Id(v.h, r)) == rank(next.head);
      RemainingShrinks(v.h, records, rank, rank(s.head), rank(next.head));
      WalkStops(v, next, records, rank, n - 1);
    }
  }

  lemma {:induction false} WalkSplits(v: View, s: IdentityState, records: seq<Record>, m: nat, n: nat)
    ensures Walk(v, s, records, m + n) == Walk(v, Walk(v, s, records, m), records, n)
    decreases m
  {
    hide Choose;
    if m > 0 {
      if Choose(v, s, records).Some? {
        WalkSplits(v, Advance(s, Choose(v, s, records).value), records, m - 1, n);
      }
    }
  }

  ghost predicate Follows(v: View, s: IdentityState, records: seq<Record>, r: Record)
  {
    r in records && (IsSigning(v, s, r) || IsRecovery(v, s, r))
  }

  ghost function After(v: View, s: IdentityState, r: Record): IdentityState
    requires IsSigning(v, s, r) || IsRecovery(v, s, r)
  {
    Advance(s, CandidateOf(v, r))
  }

  /** A path of authorised rotations from `s` to `t`. */
  ghost predicate IsChain(v: View, s: IdentityState, records: seq<Record>, links: seq<Record>, t: IdentityState)
    decreases |links|
  {
    if links == [] then s == t
    else Follows(v, s, records, links[0]) && IsChain(v, After(v, s, links[0]), records, links[1..], t)
  }

  lemma {:induction false} WalkIsChain(v: View, s: IdentityState, records: seq<Record>, n: nat) returns (links: seq<Record>)
    ensures IsChain(v, s, records, links, Walk(v, s, records, n))
    ensures |links| == Walk(v, s, records, n).depth - s.depth
    decreases n
  {
    hide Choose, IsSigning, IsRecovery, Id, ParseRotation;
    if n == 0 || Choose(v, s, records).None? {
      links := [];
    } else {
      var r := ChosenRecord(v, s, records);
      var rest := WalkIsChain(v, Advance(s, CandidateOf(v, r)), records, n - 1);
      links := [r] + rest;
      assert links[1..] == rest;
    }
  }

  /** The verified state is the end of a chain that starts at the one genesis,
      in which every link verifies, names its predecessor and is signed by a
      signing or recovery key of the state before it; the chain cannot be
      extended, and is no longer than the number of rotations with a parent
      ranked above the genesis. */
  lemma {:induction false} CertifiedMaximalPath(v: View, records: seq<Record>, rank: Digest -> nat)
    returns (g: Record, links: seq<Record>)
    requires VerifyChain(v, records).Verified? && Ranked(v.h, records, rank)
    ensures var state := VerifyChain(v, records).state;
      g in records && IsGenesis(v, g) && multiset(records)[g] == 1
      && (forall r :: r in records && IsGenesis(v, r) ==> r == g)
      && IsChain(v, Initial(v, g), records, links, state)
      && |links| == state.depth <= Remaining(v.h, records, rank, rank(Id(v.h, g)))
      && (forall r :: r in records ==> !IsSigning(v, state, r) && !IsRecovery(v, state, r))
  {
    hide Choose, Walk, IsGenesis, IsSigning, IsRecovery, ParseRotation, Remaining, Id, IsChain;
    g := Geneses(v, records)[0];
    var s := Initial(v, g);
    SingleGenesis(v, records);
    RemainingShrinks(v.h, records, rank, rank(s.head), rank(s.head));
    WalkStops(v, s, records, rank, |records|);
    links := WalkIsChain(v, s, records, |records|);
    NoChoiceNoChild(v, Walk(v, s, records, |records|), records);
  }

  lemma {:induction false} SingleGenesis(v: View, records: seq<Record>)
    requires |Geneses(v, records)| == 1
    ensures var g := Geneses(v, records)[0];
      multiset(records)[g] == 1 && forall r :: r in records && IsGenesis(v, r) ==> r == g
  {
    hide IsGenesis, Geneses;
    var gs := Geneses(v, records);
    assert gs == [gs[0]];
    forall r | r in records && IsGenesis(v, r)
      ensures r == gs[0]
    {
      GenesesCount(v, records, r);
      assert r in multiset(records);
      assert r in multiset(gs);
    }
    GenesesCount(v, records, gs[0]);
  }

  // ------------------------------------------------------------------
  // Repetitions
  // ------------------------------------------------------------------

  /** A genesis supplied twice counts as two. */
  lemma {:induction false} RepeatedGenesisFails(v: View, records: seq<Record>, g: Record)
    requires IsGenesis(v, g) && multiset(records)[g] > 1
    ensures VerifyChain(v, records) == Rejected(MultipleGenesis)
  {
    hide IsGenesis, Geneses, Walk;
    GenesesCount(v, records, g);
    var gs := Geneses(v, records);
    assert |multiset(gs)| == |gs|;
  }

  lemma {:induction false} GenesesMember(v: View, records: seq<Record>, r: Record)
    ensures r in Geneses(v, records) <==> r in records && IsGenesis(v, r)
  {
    hide IsGenesis, Geneses;
    GenesesCount(v, records, r);
    assert r in records <==> r in multiset(records);
    assert r in Geneses(v, records) <==> r in multiset(Geneses(v, records));
  }

  /** From a state reached before, more steps than it takes to stop change
      nothing, over either list of the same records. */
  lemma {:induction false} WalkOfSameSetEnds(v: View, s: IdentityState, a: seq<Record>, b: seq<Record>, rank: Digest -> nat)
    requires OneContentPerId(v.h, a) && Ranked(v.h, a, rank) && forall r :: r in a <==> r in b
    ensures Walk(v, s, a, |a|) == Walk(v, s, b, |b|)
  {
    hide Choose, Walk, Remaining, OneContentPerId;
    WalkOfSameSet(v, s, a, b, |a|);
    RemainingShrinks(v.h, a, rank, rank(s.head), rank(s.head));
    RemainingShrinks(v.h, b, rank, rank(s.head), rank(s.head));
    WalkStops(v, s, a, rank, |a|);
    WalkStops(v, s, b, rank, |b|);
    if |a| <= |b| {
      WalkSplits(v, s, b, |a|, |b| - |a|);
      ChoiceOfSameSet(v, Walk(v, s, a, |a|), a, b);
      WalkStaysPut(v, Walk(v, s, a, |a|), b, |b| - |a|);
    } else {
      WalkSplits(v, s, b, |b|, |a| - |b|);
      WalkStaysPut(v, Walk(v, s, b, |b|), b, |a| - |b|);
    }
  }

  /** Repetitions: of two inputs made of the same records, however often and in
      whatever order, both give the same answer if and only if the genesis is
      supplied once in both or in neither. */
  lemma {:induction false} RepetitionsMatter(v: View, a: seq<Record>, b: seq<Record>, rank: Digest -> nat)
    requires OneContentPerId(v.h, a) && Ranked(v.h, a, rank) && forall r :: r in a <==> r in b
    ensures VerifyChain(v, a) == VerifyChain(v, b) <==> (|Geneses(v, a)| == 1 <==> |Geneses(v, b)| == 1)
  {
    hide Walk, IsGenesis, Geneses, OneContentPerId, Ranked;
    var x, y := Geneses(v, a), Geneses(v, b);
    forall r
      ensures r in x <==> r in y
    {
      GenesesMember(v, a, r);
      GenesesMember(v, b, r);
    }
    if x != [] { assert x[0] in y; }
    if y != [] { assert y[0] in x; }
    if |x| == 1 && |y| == 1 {
      WalkOfSameSetEnds(v, Initial(v, x[0]), a, b, rank);
    }
  }

  // ------------------------------------------------------------------
  // Additions that do not matter
  // ------------------------------------------------------------------

  lemma {:induction false} ListsOfAppend(v: View, s: IdentityState, a: seq<Record>, b: seq<Record>)
    ensures Signing(v, s, a + b) == Signing(v, s, a) + Signing(v, s, b)
    ensures Recovery(v, s, a + b) == Recovery(v, s, a) + Recovery(v, s, b)
    decreases |a|
  {
    hide IsSigning, IsRecovery, Id, ParseRotation;
    if a == [] {
      assert a + b == b;
    } else {
      ListsOfAppend(v, s, a[1..], b);
      assert (a + b)[1..] == a[1..] + b;
    }
  }

  lemma {:induction false} FinalsOfAppend(observed: Digest -> Option<i64>, now: i64, window: u64, a: seq<Candidate>,
                                          b: seq<Candidate>)
    ensures Finals(observed, now, window, a + b) == Finals(observed, now, window, a) + Finals(observed, now, window, b)
    decreases |a|
  {
    hide IsFinal;
    if a == [] {
      assert a + b == b;
    } else {
      FinalsOfAppend(observed, now, window, a[1..], b);
      assert (a + b)[1..] == a[1..] + b;
    }
  }

  lemma GenesesStep(v: View, rest: seq<Record>)
    requires rest != []
    ensures Geneses(v, rest) == (if IsGenesis(v, rest[0]) then [rest[0]] else []) + Geneses(v, rest[1..])
  {
    hide IsGenesis;
  }

  lemma NoMoreGeneses(v: View)
    ensures Geneses(v, []) == []
  {
  }

  lemma {:induction false} GenesesOfAppend(v: View, a: seq<Record>, b: seq<Record>)
    ensures Geneses(v, a + b) == Geneses(v, a) + Geneses(v, b)
    decreases |a|
  {
    hide *;
    if a == [] {
      NoMoreGeneses(v);
      assert a + b == b;
      assert [] + Geneses(v, b) == Geneses(v, b);
    } else {
      var first := if IsGenesis(v, a[0]) then [a[0]] else [];
      GenesesOfAppend(v, a[1..], b);
      GenesesStep(v, a);
      GenesesStep(v, a + b);
      assert (a + b)[1..] == a[1..] + b && (a + b)[0] == a[0];
      Reassociate(first, Geneses(v, a[1..]), Geneses(v, b));
    }
  }

  lemma Reassociate(a: seq<Record>, b: seq<Record>, c: seq<Record>)
    ensures a + (b + c) == a + b + c
  {
  }

  lemma {:induction false} NothingListed(v: View, s: IdentityState, e: seq<Record>)
    ensures (forall r :: r in e ==> !IsRecovery(v, s, r)) ==> Recovery(v, s, e) == []
    ensures (forall r :: r in e ==> !IsSigning(v, s, r)) ==> Signing(v, s, e) == []
    decreases |e|
  {
    hide IsSigning, IsRecovery;
    if e != [] { NothingListed(v, s, e[1..]); }
  }

  ghost predicate SeenLongAgo(v: View, s: IdentityState, r: Record)
  {
    IsFinal(v.observed, v.now, s.contestWindow, Id(v.h, r))
  }

  ghost predicate FinalSigning(v: View, s: IdentityState, r: Record)
  {
    IsSigning(v, s, r) && SeenLongAgo(v, s, r)
  }

  /** Recovery is open at `s`: a contest window, a recovery child, and no signing
      child that is final. */
  ghost predicate Contested(v: View, s: IdentityState, records: seq<Record>)
  {
    s.contestWindow > 0
    && (exists r :: r in records && IsRecovery(v, s, r))
    && forall r :: r in records ==> !FinalSigning(v, s, r)
  }

  /** `e` is no child of `s`, or a provisional signing child where recovery wins. */
  ghost predicate Harmless(v: View, s: IdentityState, records: seq<Record>, e: Record)
  {
    !IsRecovery(v, s, e) && (IsSigning(v, s, e) ==> Contested(v, s, records) && !SeenLongAgo(v, s, e))
  }

  lemma {:induction false} NoFinals(v: View, s: IdentityState, records: seq<Record>)
    requires forall r :: r in records ==> !FinalSigning(v, s, r)
    ensures Finals(v.observed, v.now, s.contestWindow, Signing(v, s, records)) == []
  {
    hide Signing, Finals, IsSigning, IsFinal, Id, ParseRotation;
    var sig := Signing(v, s, records);
    var f := Finals(v.observed, v.now, s.contestWindow, sig);
    if f != [] {
      FinalMember(v.observed, v.now, s.contestWindow, sig, f[0]);
      SigningMember(v, s, records, f[0]);
    }
  }

  lemma {:induction false} SomeRecovery(v: View, s: IdentityState, records: seq<Record>)
    requires exists r :: r in records && IsRecovery(v, s, r)
    ensures Recovery(v, s, records) != []
  {
    hide Recovery, IsRecovery;
    var r :| r in records && IsRecovery(v, s, r);
    assert ParseRotation(r).Some? by { RecoveryParses(v, s, r); }
    RecoveryMember(v, s, records, CandidateOf(v, r));
  }

  lemma RecoveryParses(v: View, s: IdentityState, r: Record)
    requires IsRecovery(v, s, r)
    ensures ParseRotation(r).Some?
  {
  }

  lemma {:induction false} HarmlessChoice(v: View, s: IdentityState, records: seq<Record>, extra: seq<Record>)
    requires forall e :: e in extra ==> Harmless(v, s, records, e)
    ensures Choose(v, s, records + extra) == Choose(v, s, records)
  {
    hide Signing, Recovery, Finals, Lowest, IsSigning, IsRecovery, SeenLongAgo;
    ListsOfAppend(v, s, records, extra);
    NothingListed(v, s, extra);
    if exists e :: e in extra && IsSigning(v, s, e) {
      NoFinals(v, s, records);
      NoFinals(v, s, extra);
      SomeRecovery(v, s, records);
      FinalsOfAppend(v.observed, v.now, s.contestWindow, Signing(v, s, records), Signing(v, s, extra));
      assert Recovery(v, s, records) + [] == Recovery(v, s, records);
    } else {
      assert Recovery(v, s, records) + [] == Recovery(v, s, records);
      assert Signing(v, s, records) + [] == Signing(v, s, records);
    }
  }

  /** Records that are harmless along the whole walk do not change it. */
  lemma {:induction false} HarmlessWalk(v: View, s: IdentityState, records: seq<Record>, extra: seq<Record>, n: nat)
    requires forall k: nat, e :: k < n && e in extra ==> Harmless(v, Walk(v, s, records, k), records, e)
    ensures Walk(v, s, records + extra, n) == Walk(v, s, records, n)
    decreases n
  {
    hide Choose, Harmless;
    if n > 0 {
      assert Walk(v, s, records, 0) == s;
      HarmlessChoice(v, s, records, extra);
      var c := Choose(v, s, records);
      if c.Some? {
        var next := Advance(s, c.value);
        forall k: nat, e | k < n - 1 && e in extra
          ensures Harmless(v, Walk(v, next, records, k), records, e)
        {
          assert Walk(v, s, records, k + 1) == Walk(v, next, records, k);
        }
        HarmlessWalk(v, next, records, extra, n - 1);
      }
    }
  }

  lemma {:induction false} WalkStaysPut(v: View, s: IdentityState, records: seq<Record>, n: nat)
    requires Choose(v, s, records).None?
    ensures Walk(v, s, records, n) == s
  {
  }

  /** Additions that are harmless at every state of the walk leave the verified
      state as it is. */
  lemma {:induction false} HarmlessAdditions(v: View, records: seq<Record>, extra: seq<Record>, rank: Digest -> nat)
    requires VerifyChain(v, records).Verified? && Ranked(v.h, records, rank)
    requires forall e :: e in extra ==> !IsGenesis(v, e)
    requires forall k: nat, e :: e in extra ==>
      Harmless(v, Walk(v, Initial(v, Geneses(v, records)[0]), records, k), records, e)
    ensures VerifyChain(v, records + extra) == VerifyChain(v, records)
  {
    hide Choose, Walk, IsGenesis, ParseRotation, Remaining, Id, Harmless;
    GenesesOfAppend(v, records, extra);
    NoGeneses(v, extra);
    assert Geneses(v, records) + [] == Geneses(v, records);
    var s := Initial(v, Geneses(v, records)[0]);
    var n := |records + extra|;
    HarmlessWalk(v, s, records, extra, n);
    RemainingShrinks(v.h, records, rank, rank(s.head), rank(s.head));
    WalkStops(v, s, records, rank, |records|);
    WalkSplits(v, s, records, |records|, |extra|);
    WalkStaysPut(v, Walk(v, s, records, |records|), records, |extra|);
  }

  lemma {:induction false} NoGeneses(v: View, extra: seq<Record>)
    requires forall e :: e in extra ==> !IsGenesis(v, e)
    ensures Geneses(v, extra) == []
    decreases |extra|
  {
    hide IsGenesis;
    if extra != [] { NoGeneses(v, extra[1..]); }
  }

  // ------------------------------------------------------------------
  // Theft recovery
  // ------------------------------------------------------------------

  /** The rank of the head grows with every step actually taken. */
  lemma {:induction false} RankGrows(v: View, s: IdentityState, records: seq<Record>, rank: Digest -> nat, n: nat)
    requires Ranked(v.h, records, rank)
    ensures Walk(v, s, records, n) == s || rank(s.head) < rank(Walk(v, s, records, n).head)
    decreases n
  {
    hide Choose, IsSigning, IsRecovery, Id, ParseRotation;
    if n > 0 && Choose(v, s, records).Some? {
      var r := ChosenRecord(v, s, records);
      RankGrows(v, Advance(s, CandidateOf(v, r)), records, rank, n - 1);
    }
  }

  lemma {:induction false} SameHeadSameState(v: View, s: IdentityState, records: seq<Record>, rank: Digest -> nat,
                                             j: nat, k: nat)
    requires Ranked(v.h, records, rank) && Walk(v, s, records, j).head == Walk(v, s, records, k).head
    ensures Walk(v, s, records, j) == Walk(v, s, records, k)
  {
    hide Choose, Walk, Ranked;
    if j <= k {
      WalkSplits(v, s, records, j, k - j);
      RankGrows(v, Walk(v, s, records, j), records, rank, k - j);
    } else {
      WalkSplits(v, s, records, k, j - k);
      RankGrows(v, Walk(v, s, records, k), records, rank, j - k);
    }
  }

  lemma {:induction false} NextStep(v: View, s: IdentityState, records: seq<Record>, j: nat)
    ensures var t := Walk(v, s, records, j); var c := Choose(v, t, records);
      Walk(v, s, records, j + 1) == if c.None? then t else Advance(t, c.value)
  {
    hide Choose;
    WalkSplits(v, s, records, j, 1);
    var t := Walk(v, s, records, j);
    assert Walk(v, t, records, 1) == if Choose(v, t, records).None? then t
                                     else Walk(v, Advance(t, Choose(v, t, records).value), records, 0);
  }

  /** `d` is the id of a signing child of `t`, or of one of the added records. */
  ghost predicate ThiefId(v: View, t: IdentityState, all: seq<Record>, extra: seq<Record>, d: Digest)
  {
    exists x :: (x in extra || (x in all && IsSigning(v, t, x))) && Id(v.h, x) == d
  }

  /** An added record on the thief's side: a provisional signing child of the
      contested state, or a rotation whose parent is a signing child of that
      state or another added record. */
  ghost predicate OnThiefSide(v: View, t: IdentityState, all: seq<Record>, extra: seq<Record>, e: Record)
  {
    |e.refs| == 1
    && ((IsSigning(v, t, e) && !SeenLongAgo(v, t, e)) || ThiefId(v, t, all, extra, e.refs[0].hash))
  }

  ghost predicate Theft(v: View, s: IdentityState, records: seq<Record>, extra: seq<Record>, rank: Digest -> nat, k: nat)
  {
    var t := Walk(v, s, records, k);
    Ranked(v.h, records, rank) && OneContentPerId(v.h, records + extra) && Contested(v, t, records)
    && forall e :: e in extra ==> OnThiefSide(v, t, records + extra, extra, e)
  }

  /** The walk starts at a record without a parent. */
  ghost predicate Rooted(v: View, s: IdentityState, records: seq<Record>)
  {
    exists g :: g in records && g.refs == [] && Id(v.h, g) == s.head
  }

  lemma GenesisIsRoot(v: View, records: seq<Record>)
    requires |Geneses(v, records)| == 1
    ensures Rooted(v, Initial(v, Geneses(v, records)[0]), records)
  {
    hide Geneses, Id, ParseRotation, Verifies;
  }

  /** A record the walk follows at `t` does not share its id with the thief's. */
  lemma {:induction false} FollowedIsNoThief(v: View, t: IdentityState, records: seq<Record>, extra: seq<Record>,
                                             r: Record, x: Record)
    requires Contested(v, t, records) && OneContentPerId(v.h, records + extra)
    requires Choose(v, t, records).Some? && r in records && Choose(v, t, records).value.id == Id(v.h, r)
    requires x in records + extra && IsSigning(v, t, x)
    ensures Id(v.h, r) != Id(v.h, x)
  {
    hide Signing, Recovery, Finals, Choose, Id, ParseRotation, SeenLongAgo;
    SomeRecovery(v, t, records);
    NoFinals(v, t, records);
    var c := ChosenMember(v, t, records);
    RecoveryMember(v, t, records, c);
    var q :| q in records && IsRecovery(v, t, q) && c == CandidateOf(v, q);
    assert q in records + extra;
  }

  lemma {:induction false} HeadsAvoidThieves(v: View, s: IdentityState, records: seq<Record>, extra: seq<Record>,
                                             rank: Digest -> nat, k: nat, j: nat)
    requires Theft(v, s, records, extra, rank, k) && Rooted(v, s, records)
    ensures !ThiefId(v, Walk(v, s, records, k), records + extra, extra, Walk(v, s, records, j).head)
    decreases j
  {
    hide Choose, Walk, Id, ParseRotation, IsSigning, IsRecovery, SeenLongAgo, Contested, Ranked;
    var all, t := records + extra, Walk(v, s, records, k);
    if j == 0 {
      StartIsNoThief(v, s, t, records, extra);
      WalkStart(v, s, records);
    } else {
      HeadsAvoidThieves(v, s, records, extra, rank, k, j - 1);
      NextStep(v, s, records, j - 1);
      var u := Walk(v, s, records, j - 1);
      if Choose(v, u, records).Some? {
        var r := ChosenRecord(v, u, records);
        if u.head == t.head {
          SameHeadSameState(v, s, records, rank, j - 1, k);
        }
        forall x | x in extra || (x in all && IsSigning(v, t, x))
          ensures Id(v.h, x) != Id(v.h, r)
        {
          FollowedElsewhere(v, t, u, records, extra, r, x);
        }
      }
    }
  }

  lemma WalkStart(v: View, s: IdentityState, records: seq<Record>)
    ensures Walk(v, s, records, 0) == s
  {
  }

  lemma SigningNamesHead(v: View, t: IdentityState, x: Record)
    requires IsSigning(v, t, x)
    ensures |x.refs| == 1 && x.refs[0].hash == t.head
  {
  }

  lemma {:induction false} StartIsNoThief(v: View, s: IdentityState, t: IdentityState, records: seq<Record>,
                                          extra: seq<Record>)
    requires OneContentPerId(v.h, records + extra)
    requires forall e :: e in extra ==> OnThiefSide(v, t, records + extra, extra, e)
    requires Rooted(v, s, records)
    ensures !ThiefId(v, t, records + extra, extra, s.head)
  {
    hide Id, ParseRotation, IsSigning, ThiefId, SeenLongAgo;
    var all := records + extra;
    var g :| g in records && g.refs == [] && Id(v.h, g) == s.head;
    assert g in all;
    forall x | x in extra || (x in all && IsSigning(v, t, x))
      ensures Id(v.h, x) != s.head
    {
      assert x in all;
      if x in extra {
        assert OnThiefSide(v, t, all, extra, x);
      } else {
        SigningNamesHead(v, t, x);
      }
      assert |x.refs| == 1;
    }
    assert !ThiefId(v, t, all, extra, s.head) by { ThiefFree(v, t, all, extra, s.head); }
  }

  lemma ThiefFree(v: View, t: IdentityState, all: seq<Record>, extra: seq<Record>, d: Digest)
    requires forall x :: x in extra || (x in all && IsSigning(v, t, x)) ==> Id(v.h, x) != d
    ensures !ThiefId(v, t, all, extra, d)
  {
    hide Id, IsSigning;
  }

  /** The record followed at `u` against a record on the thief's side of `t`. */
  lemma {:induction false} FollowedElsewhere(v: View, t: IdentityState, u: IdentityState, records: seq<Record>,
                                             extra: seq<Record>, r: Record, x: Record)
    requires OneContentPerId(v.h, records + extra) && Contested(v, t, records)
    requires forall e :: e in extra ==> OnThiefSide(v, t, records + extra, extra, e)
    requires !ThiefId(v, t, records + extra, extra, u.head)
    requires u.head == t.head ==> u == t
    requires r in records && |r.refs| == 1 && r.refs[0].hash == u.head
    requires Choose(v, u, records).Some? && Choose(v, u, records).value.id == Id(v.h, r)
    requires x in extra || (x in records + extra && IsSigning(v, t, x))
    ensures Id(v.h, x) != Id(v.h, r)
  {
    hide Choose, Id, ParseRotation, IsSigning, SeenLongAgo, Contested, ThiefId;
    var all := records + extra;
    assert x in all && r in all;
    if Id(v.h, x) == Id(v.h, r) {
      assert r.(sig := x.sig) == x;
      if x in extra { assert OnThiefSide(v, t, all, extra, x); }
      if IsSigning(v, t, x) {
        SigningNamesHead(v, t, x);
        FollowedIsNoThief(v, t, records, extra, r, x);
      }
    }
  }

  /** Theft recovery: where the walk meets a contested state, nothing on the
      thief's side counts: neither further provisional signing children nor any
      branch grown from signing children, at any depth. */
  lemma {:induction false} TheftRecovery(v: View, records: seq<Record>, extra: seq<Record>, rank: Digest -> nat, k: nat)
    requires VerifyChain(v, records).Verified?
    requires Theft(v, Initial(v, Geneses(v, records)[0]), records, extra, rank, k)
    ensures VerifyChain(v, records + extra) == VerifyChain(v, records)
  {
    hide Choose, Walk, Id, ParseRotation, IsGenesis, IsSigning, IsRecovery, SeenLongAgo, Contested, Harmless, ThiefId;
    var s := Initial(v, Geneses(v, records)[0]);
    var t := Walk(v, s, records, k);
    GenesisIsRoot(v, records);
    forall j: nat, e | e in extra
      ensures Harmless(v, Walk(v, s, records, j), records, e)
    {
      HeadsAvoidThieves(v, s, records, extra, rank, k, j);
      var u := Walk(v, s, records, j);
      if u.head == t.head { SameHeadSameState(v, s, records, rank, j, k); }
      assert OnThiefSide(v, t, records + extra, extra, e);
      ThiefIsHarmless(v, t, u, records, extra, e);
    }
    forall e | e in extra
      ensures !IsGenesis(v, e)
    {
      assert OnThiefSide(v, t, records + extra, extra, e);
      GenesisHasNoParent(v, e);
    }
    HarmlessAdditions(v, records, extra, rank);
  }

  lemma GenesisHasNoParent(v: View, e: Record)
    requires e.refs != []
    ensures !IsGenesis(v, e)
  {
  }

  lemma {:induction false} ThiefIsHarmless(v: View, t: IdentityState, u: IdentityState, records: seq<Record>,
                                           extra: seq<Record>, e: Record)
    requires e in extra && OnThiefSide(v, t, records + extra, extra, e) && Contested(v, t, records)
    requires !ThiefId(v, t, records + extra, extra, u.head)
    requires u.head == t.head ==> u == t
    ensures Harmless(v, u, records, e)
  {
    hide Id, ParseRotation, SeenLongAgo, Contested, ThiefId;
  }
}
