/** Time and the fork choice. */
module IdentityFinality {
  import opened Wrappers
  import opened Bytes
  import opened Record
  import opened Blob
  import opened Identity
  import opened IdentityProofs

  // ------------------------------------------------------------------
  // Final children
  // ------------------------------------------------------------------

  /** Once seen longer ago than the window, always so. */
  lemma FinalStaysFinal(observed: Digest -> Option<i64>, now: i64, later: i64, window: u64, id: Digest)
    requires now <= later && IsFinal(observed, now, window, id)
    ensures IsFinal(observed, later, window, id)
  {
  }

  /** A window of 2^63 - 1 seconds or more never closes: the comparison does not
      wrap around. */
  lemma HugeWindowNeverCloses(observed: Digest -> Option<i64>, now: i64, window: u64, id: Digest)
    requires window >= I64_MAX
    ensures !IsFinal(observed, now, window, id)
  {
  }

  /** Who signed a child does not depend on when it was seen or on the clock. */
  lemma {:induction false} SameLists(v: View, w: View, s: IdentityState, records: seq<Record>)
    requires v.h == w.h && v.check == w.check
    ensures Signing(v, s, records) == Signing(w, s, records) && Recovery(v, s, records) == Recovery(w, s, records)
    decreases |records|
  {
    hide Id, ParseRotation, Verifies;
    if records != [] { SameLists(v, w, s, records[1..]); }
  }

  lemma {:induction false} SameGeneses(v: View, w: View, records: seq<Record>)
    requires v.h == w.h && v.check == w.check
    ensures Geneses(v, records) == Geneses(w, records)
    decreases |records|
  {
    hide ParseRotation, Verifies;
    if records != [] { SameGeneses(v, w, records[1..]); }
  }

  /** `s` has a final signing child of lowest id among all its signing children,
      and the window is open: that child is followed. */
  ghost predicate Settled(v: View, s: IdentityState, records: seq<Record>)
  {
    s.contestWindow > 0
    && exists c :: IsLeast(c, Signing(v, s, records)) && IsFinal(v.observed, v.now, s.contestWindow, c.id)
  }

  lemma {:induction false} SettledPick(observed: Digest -> Option<i64>, now: i64, window: u64, signing: seq<Candidate>,
                                       recovery: seq<Candidate>, c: Candidate)
    requires window > 0 && Consistent(signing) && IsLeast(c, signing) && IsFinal(observed, now, window, c.id)
    ensures Pick(observed, now, window, signing, recovery) == Some(c)
  {
    hide LexLess, IsFinal, Lowest, Finals;
    var f := Finals(observed, now, window, signing);
    FinalMember(observed, now, window, signing, c);
    LowestIsLeast(f);
    var l := Lowest(f).value;
    FinalMember(observed, now, window, signing, l);
    LexTotal(l.id, c.id);
  }

  lemma {:induction false} SettledChoice(v: View, later: i64, s: IdentityState, records: seq<Record>, extra: seq<Record>)
    requires v.now <= later && OneContentPerId(v.h, records) && Settled(v, s, records)
    requires forall e :: e in extra ==> !IsSigning(v, s, e)
    ensures Choose(v.(now := later), s, records + extra) == Choose(v, s, records)
  {
    var w := v.(now := later);
    SameLists(v, w, s, records + extra);
    hide Signing, Recovery, IsFinal, IsSigning, Pick, OneContentPerId, IsLeast;
    var c :| IsLeast(c, Signing(v, s, records)) && IsFinal(v.observed, v.now, s.contestWindow, c.id);
    ListsOfAppend(v, s, records, extra);
    NothingListed(v, s, extra);
    assert Signing(v, s, records) + [] == Signing(v, s, records);
    CandidatesConsistent(v, s, records);
    assert Consistent(Signing(v, s, records));
    FinalStaysFinal(v.observed, v.now, later, s.contestWindow, c.id);
    SettledPick(v.observed, v.now, s.contestWindow, Signing(v, s, records), Recovery(v, s, records), c);
    SettledPick(v.observed, later, s.contestWindow, Signing(v, s, records), Recovery(w, s, records + extra), c);
  }

  /** Finality: as long as every step took a final signing child of lowest id,
      that path is walked again at every later time, whatever recovery children
      or unrelated records have been added. */
  lemma {:induction false} FinalPathIsStable(v: View, later: i64, s: IdentityState, records: seq<Record>,
                                             extra: seq<Record>, n: nat)
    requires v.now <= later && OneContentPerId(v.h, records)
    requires forall k: nat :: k < n ==> Settled(v, Walk(v, s, records, k), records)
    requires forall k: nat, e :: k < n && e in extra ==> !IsSigning(v, Walk(v, s, records, k), e)
    ensures Walk(v.(now := later), s, records + extra, n) == Walk(v, s, records, n)
    decreases n
  {
    hide Choose, Settled, IsSigning, OneContentPerId;
    if n > 0 {
      assert Walk(v, s, records, 0) == s;
      SettledChoice(v, later, s, records, extra);
      var c := Choose(v, s, records);
      if c.Some? {
        var next := Advance(s, c.value);
        assert forall k: nat {:trigger Walk(v, next, records, k)} :: Walk(v, s, records, k + 1) == Walk(v, next, records, k);
        FinalPathIsStable(v, later, next, records, extra, n - 1);
      }
    }
  }

  /** A final signing choice need not be for ever. It stays the choice at every
      later time exactly when no signing sibling of lower id can still become
      final, that is, when none would be final at the end of time. */
  lemma {:induction false} FinalChoiceIsForever(v: View, s: IdentityState, records: seq<Record>)
    requires OneContentPerId(v.h, records) && s.contestWindow > 0
    requires exists r :: r in records && FinalSigning(v, s, r)
    ensures var c := Choose(v, s, records);
      c.Some?
      && ((forall later: i64 :: v.now <= later ==> Choose(v.(now := later), s, records) == c)
          <==> forall r :: r in records && IsSigning(v, s, r) && LexLess(Id(v.h, r), c.value.id) ==>
                 !IsFinal(v.observed, I64_MAX, s.contestWindow, Id(v.h, r)))
  {
    hide Signing, Recovery, IsFinal, LexLess, Pick, Id, IsSigning, ParseRotation, OneContentPerId;
    var signing, recovery := Signing(v, s, records), Recovery(v, s, records);
    var c := FinalIsChosen(v, s, records);
    CandidatesConsistent(v, s, records);
    assert forall d :: d in signing ==> d in signing + recovery;
    PickIsForever(v.observed, v.now, s.contestWindow, signing, recovery, c);
    forall later: i64 | v.now <= later
      ensures Choose(v.(now := later), s, records) == Pick(v.observed, later, s.contestWindow, signing, recovery)
    {
      SameLists(v, v.(now := later), s, records);
    }
    LowerSiblings(v, s, records, c.id);
  }

  lemma {:induction false} FinalIsChosen(v: View, s: IdentityState, records: seq<Record>) returns (c: Candidate)
    requires s.contestWindow > 0 && exists r :: r in records && FinalSigning(v, s, r)
    ensures Choose(v, s, records) == Some(c) && c in Signing(v, s, records)
    ensures IsFinal(v.observed, v.now, s.contestWindow, c.id)
  {
    hide Signing, Recovery, IsFinal, LexLess, Id, IsSigning, ParseRotation, Lowest, Finals;
    var signing := Signing(v, s, records);
    var r :| r in records && FinalSigning(v, s, r);
    assert ParseRotation(r).Some? by { SigningParses(v, s, r); }
    SigningMember(v, s, records, CandidateOf(v, r));
    var f := Finals(v.observed, v.now, s.contestWindow, signing);
    FinalMember(v.observed, v.now, s.contestWindow, signing, CandidateOf(v, r));
    LowestIsLeast(f);
    c := Lowest(f).value;
    FinalMember(v.observed, v.now, s.contestWindow, signing, c);
  }

  lemma SigningParses(v: View, s: IdentityState, r: Record)
    requires IsSigning(v, s, r)
    ensures ParseRotation(r).Some?
  {
  }

  /** Signing candidates and the records behind them. */
  lemma {:induction false} LowerSiblings(v: View, s: IdentityState, records: seq<Record>, id: Digest)
    ensures (forall d :: d in Signing(v, s, records) && LexLess(d.id, id) ==>
               !IsFinal(v.observed, I64_MAX, s.contestWindow, d.id))
       <==> (forall r :: r in records && IsSigning(v, s, r) && LexLess(Id(v.h, r), id) ==>
               !IsFinal(v.observed, I64_MAX, s.contestWindow, Id(v.h, r)))
  {
    hide Signing, IsFinal, LexLess, Id, IsSigning, ParseRotation;
    forall d | d in Signing(v, s, records)
      ensures exists r :: r in records && IsSigning(v, s, r) && Id(v.h, r) == d.id
    {
      SigningMember(v, s, records, d);
    }
    forall r | r in records && IsSigning(v, s, r)
      ensures exists d :: d in Signing(v, s, records) && d.id == Id(v.h, r)
    {
      assert ParseRotation(r).Some? by { SigningParses(v, s, r); }
      SigningMember(v, s, records, CandidateOf(v, r));
    }
  }

  lemma {:induction false} PickIsForever(observed: Digest -> Option<i64>, now: i64, window: u64,
                                         signing: seq<Candidate>, recovery: seq<Candidate>, c: Candidate)
    requires window > 0 && Consistent(signing) && c in signing && IsFinal(observed, now, window, c.id)
    requires Pick(observed, now, window, signing, recovery) == Some(c)
    ensures (forall later: i64 :: now <= later ==> Pick(observed, later, window, signing, recovery) == Some(c))
       <==> (forall d :: d in signing && LexLess(d.id, c.id) ==> !IsFinal(observed, I64_MAX, window, d.id))
  {
    hide LexLess, IsFinal, Lowest, Finals;
    if forall d :: d in signing && LexLess(d.id, c.id) ==> !IsFinal(observed, I64_MAX, window, d.id) {
      forall later: i64 | now <= later
        ensures Pick(observed, later, window, signing, recovery) == Some(c)
      {
        StillChosen(observed, now, later, window, signing, recovery, c);
      }
    } else {
      var d :| d in signing && LexLess(d.id, c.id) && IsFinal(observed, I64_MAX, window, d.id);
      FinalMember(observed, I64_MAX, window, signing, d);
      LowestIsLeast(Finals(observed, I64_MAX, window, signing));
      assert Pick(observed, I64_MAX, window, signing, recovery) != Some(c);
    }
  }

  lemma {:induction false} StillChosen(observed: Digest -> Option<i64>, now: i64, later: i64, window: u64,
                                       signing: seq<Candidate>, recovery: seq<Candidate>, c: Candidate)
    requires window > 0 && Consistent(signing) && c in signing && now <= later && IsFinal(observed, now, window, c.id)
    requires forall d :: d in signing && LexLess(d.id, c.id) ==> !IsFinal(observed, I64_MAX, window, d.id)
    ensures Pick(observed, later, window, signing, recovery) == Some(c)
  {
    hide LexLess, IsFinal, Lowest, Finals;
    var f := Finals(observed, later, window, signing);
    FinalStaysFinal(observed, now, later, window, c.id);
    FinalMember(observed, later, window, signing, c);
    LowestIsLeast(f);
    var l := Lowest(f).value;
    FinalMember(observed, later, window, signing, l);
    FinalStaysFinal(observed, later, I64_MAX, window, l.id);
    LexTotal(l.id, c.id);
  }

  // ------------------------------------------------------------------
  // A final choice overtaken
  // ------------------------------------------------------------------

  /** A genesis and two of its signing children; nothing else is named as a
      parent. */
  ghost predicate SigningPair(v: View, g: Record, a: Record, b: Record)
  {
    IsGenesis(v, g) && IsSigning(v, Initial(v, g), a) && IsSigning(v, Initial(v, g), b)
    && Id(v.h, a) != Id(v.h, g) && Id(v.h, b) != Id(v.h, g)
  }

  lemma {:induction false} SiblingLists(v: View, g: Record, a: Record, b: Record)
    requires SigningPair(v, g, a, b)
    ensures ParseRotation(g).Some? && ParseRotation(a).Some? && ParseRotation(b).Some?
    ensures Geneses(v, [g, a, b]) == [g]
    ensures Signing(v, Initial(v, g), [g, a, b]) == [CandidateOf(v, a), CandidateOf(v, b)]
  {
    hide Verifies, ParseRotation, Id;
    var s := Initial(v, g);
    var all := [g, a, b];
    assert all[1..] == [a, b] && [a, b][1..] == [b] && [b][1..] == [];
    assert Geneses(v, [b]) == [] && Geneses(v, [a, b]) == [];
    assert Signing(v, s, [b]) == [CandidateOf(v, b)];
    assert Signing(v, s, [a, b]) == [CandidateOf(v, a), CandidateOf(v, b)];
  }

  lemma {:induction false} NoGrandchildren(v: View, g: Record, a: Record, b: Record, c: Record)
    requires SigningPair(v, g, a, b) && (c == a || c == b)
    ensures ParseRotation(g).Some? && ParseRotation(c).Some?
    ensures forall n: nat :: Walk(v, Advance(Initial(v, g), CandidateOf(v, c)), [g, a, b], n)
                          == Advance(Initial(v, g), CandidateOf(v, c))
  {
    hide Verifies, ParseRotation, Id, Choose, Walk;
    var u := Advance(Initial(v, g), CandidateOf(v, c));
    NoChoiceNoChild(v, u, [g, a, b]);
    forall n: nat
      ensures Walk(v, u, [g, a, b], n) == u
    {
      WalkStaysPut(v, u, [g, a, b], n);
    }
  }

  /** What is verified when the fork choice follows `c`. */
  lemma {:induction false} SiblingFollowed(v: View, g: Record, a: Record, b: Record, c: Record)
    requires SigningPair(v, g, a, b) && (c == a || c == b)
    requires ParseRotation(g).Some? && ParseRotation(c).Some?
    requires Choose(v, Initial(v, g), [g, a, b]) == Some(CandidateOf(v, c))
    ensures VerifyChain(v, [g, a, b]) == Verified(Advance(Initial(v, g), CandidateOf(v, c)))
  {
    hide SigningPair, ParseRotation, Id, Choose, Geneses, IsGenesis;
    SiblingLists(v, g, a, b);
    NoGrandchildren(v, g, a, b, c);
    var s, u := Initial(v, g), Advance(Initial(v, g), CandidateOf(v, c));
    assert Walk(v, s, [g, a, b], 3) == Walk(v, u, [g, a, b], 2);
    assert [g][0] == g;
  }

  /** Who is a child of whom does not depend on when it was seen. */
  lemma SiblingsAnyTime(v: View, w: View, g: Record, a: Record, b: Record)
    requires v.h == w.h && v.check == w.check && SigningPair(v, g, a, b)
    ensures SigningPair(w, g, a, b)
    ensures ParseRotation(g).Some? && ParseRotation(a).Some? && ParseRotation(b).Some?
    ensures Initial(v, g) == Initial(w, g) && CandidateOf(v, a) == CandidateOf(w, a) && CandidateOf(v, b) == CandidateOf(w, b)
  {
    hide ParseRotation, Verifies, Id;
  }

  lemma {:induction false} TwoFinals(observed: Digest -> Option<i64>, now: i64, window: u64, a: Candidate, b: Candidate)
    ensures Finals(observed, now, window, [a, b])
         == (if IsFinal(observed, now, window, a.id) then [a] else []) + if IsFinal(observed, now, window, b.id) then [b] else []
  {
    hide IsFinal;
    assert [a, b][1..] == [b] && [b][1..] == [];
    assert Finals(observed, now, window, [b]) == if IsFinal(observed, now, window, b.id) then [b] else [];
  }

  lemma {:induction false} TwoLowest(a: Candidate, b: Candidate)
    requires LexLess(a.id, b.id)
    ensures Lowest([b]) == Some(b) && Lowest([a, b]) == Some(a)
  {
    hide LexLess;
    LexAsymmetric(a.id, b.id);
    assert [a, b][1..] == [b] && [b][1..] == [];
    assert Lowest([b]) == Some(b);
  }

  /** Any two signing siblings under an open window can change places: the one of
      higher id is seen first, becomes final and is followed; once the other is
      final as well, that one is. */
  lemma {:induction false} FinalChoiceCanBeOvertaken(v: View, g: Record, a: Record, b: Record)
    returns (observed: Digest -> Option<i64>, now: i64, later: i64)
    requires SigningPair(v, g, a, b) && LexLess(Id(v.h, a), Id(v.h, b))
    requires ParseRotation(g).Some? && 0 < ParseRotation(g).value.contestWindow < I64_MAX
    ensures ParseRotation(a).Some? && ParseRotation(b).Some? && now < later
    ensures var s, early := Initial(v, g), v.(observed := observed, now := now);
      FinalSigning(early, s, b)
      && VerifyChain(early, [g, a, b]) == Verified(Advance(s, CandidateOf(v, b)))
      && VerifyChain(early.(now := later), [g, a, b]) == Verified(Advance(s, CandidateOf(v, a)))
  {
    var window := ParseRotation(g).value.contestWindow;
    hide SigningPair, ParseRotation, LexLess, Id, VerifyChain, IsSigning, IsFinal, Choose;
    LexIrreflexive(Id(v.h, a));
    observed, now, later := FirstOneThenBoth(window, Id(v.h, a), Id(v.h, b));
    var early := v.(observed := observed, now := now);
    var late := early.(now := later);
    SiblingsAnyTime(v, early, g, a, b);
    SiblingsAnyTime(v, late, g, a, b);
    SiblingChosen(early, g, a, b);
    SiblingChosen(late, g, a, b);
    SiblingFollowed(early, g, a, b, b);
    SiblingFollowed(late, g, a, b, a);
    SiblingIsSigning(early, g, a, b);
  }

  /** Times at which first only `b` is final, then both. */
  lemma FirstOneThenBoth(window: u64, a: Digest, b: Digest)
    returns (observed: Digest -> Option<i64>, now: i64, later: i64)
    requires 0 < window < I64_MAX && a != b
    ensures now < later
    ensures IsFinal(observed, now, window, b) && !IsFinal(observed, now, window, a)
    ensures IsFinal(observed, later, window, a) && IsFinal(observed, later, window, b)
  {
    now := I64_MIN + window + 1;
    later := now + window + 1;
    observed := (id: Digest) => if id == b then Some(I64_MIN) else Some(I64_MIN + window + 1);
  }

  lemma {:induction false} SiblingChosen(v: View, g: Record, a: Record, b: Record)
    requires SigningPair(v, g, a, b) && LexLess(Id(v.h, a), Id(v.h, b))
    requires ParseRotation(g).Some? && ParseRotation(g).value.contestWindow > 0
    requires IsFinal(v.observed, v.now, ParseRotation(g).value.contestWindow, Id(v.h, b))
    ensures ParseRotation(a).Some? && ParseRotation(b).Some?
    ensures Choose(v, Initial(v, g), [g, a, b])
         == Some(CandidateOf(v, if IsFinal(v.observed, v.now, ParseRotation(g).value.contestWindow, Id(v.h, a)) then a else b))
  {
    hide SigningPair, ParseRotation, LexLess, Id, Lowest, Finals, Signing, Recovery, IsFinal;
    SiblingLists(v, g, a, b);
    var ca, cb := CandidateOf(v, a), CandidateOf(v, b);
    TwoFinals(v.observed, v.now, ParseRotation(g).value.contestWindow, ca, cb);
    TwoLowest(ca, cb);
    assert [ca] + [cb] == [ca, cb] && [] + [cb] == [cb];
  }

  lemma SiblingIsSigning(v: View, g: Record, a: Record, b: Record)
    requires SigningPair(v, g, a, b) && ParseRotation(g).Some?
    ensures IsSigning(v, Initial(v, g), b)
  {
  }

  // ------------------------------------------------------------------
  // Verifiers that agree
  // ------------------------------------------------------------------

  /** Two verifiers with one hash and one signature check that tell final
      rotations from provisional ones alike, under every window declared. */
  ghost predicate SameFinality(v: View, w: View, records: seq<Record>)
  {
    v.h == w.h && v.check == w.check
    && forall q, r :: q in records && r in records && HasOpenWindow(q) && NamesParent(r) ==>
         (SeenThrough(v, q, r) <==> SeenThrough(w, q, r))
  }

  /** A rotation that declares a contest window. */
  ghost predicate HasOpenWindow(q: Record)
  {
    ParseRotation(q).Some? && ParseRotation(q).value.contestWindow > 0
  }

  /** The window that `q` declares has passed since `r` was seen. */
  ghost predicate SeenThrough(v: View, q: Record, r: Record)
    requires HasOpenWindow(q)
  {
    IsFinal(v.observed, v.now, ParseRotation(q).value.contestWindow, Id(v.h, r))
  }

  /** The window in force at `s` was declared by a supplied rotation. */
  ghost predicate Declared(s: IdentityState, records: seq<Record>)
  {
    exists q :: q in records && ParseRotation(q).Some? && ParseRotation(q).value.contestWindow == s.contestWindow
  }

  lemma {:induction false} SameFinals(v: View, w: View, s: IdentityState, records: seq<Record>, cands: seq<Candidate>)
    requires SameFinality(v, w, records) && Declared(s, records) && s.contestWindow > 0
    requires forall i :: 0 <= i < |cands| ==> SigningFrom(v, s, records, cands[i])
    ensures Finals(v.observed, v.now, s.contestWindow, cands) == Finals(w.observed, w.now, s.contestWindow, cands)
    decreases |cands|
  {
    hide IsFinal, ParseRotation, Id, IsChild;
    if cands != [] {
      var q :| q in records && ParseRotation(q).Some? && ParseRotation(q).value.contestWindow == s.contestWindow;
      assert SigningFrom(v, s, records, cands[0]);
      var r :| r in records && IsSigning(v, s, r) && cands[0] == CandidateOf(v, r);
      ChildNamesParent(v, s, r);
      assert SeenThrough(v, q, r) <==> SeenThrough(w, q, r);
      SameFinals(v, w, s, records, cands[1..]);
    }
  }

  lemma ChildNamesParent(v: View, s: IdentityState, r: Record)
    requires IsSigning(v, s, r)
    ensures NamesParent(r)
  {
  }

  lemma {:induction false} SameChoice(v: View, w: View, s: IdentityState, records: seq<Record>)
    requires SameFinality(v, w, records) && Declared(s, records)
    ensures Choose(v, s, records) == Choose(w, s, records)
  {
    hide Signing, Recovery, Finals, Lowest, SameFinality, SigningFrom, Declared;
    assert v.h == w.h && v.check == w.check by { SameEyes(v, w, records); }
    SameLists(v, w, s, records);
    var signing := Signing(v, s, records);
    forall i | 0 <= i < |signing|
      ensures SigningFrom(v, s, records, signing[i])
    {
      SigningMember(v, s, records, signing[i]);
    }
    if s.contestWindow > 0 { SameFinals(v, w, s, records, signing); }
  }

  lemma SameEyes(v: View, w: View, records: seq<Record>)
    requires SameFinality(v, w, records)
    ensures v.h == w.h && v.check == w.check
  {
  }

  lemma {:induction false} SameWalk(v: View, w: View, s: IdentityState, records: seq<Record>, n: nat)
    requires SameFinality(v, w, records) && Declared(s, records)
    ensures Walk(v, s, records, n) == Walk(w, s, records, n)
    decreases n
  {
    hide Choose, SameFinality, ParseRotation, IsSigning, IsRecovery, Id;
    if n > 0 {
      SameChoice(v, w, s, records);
      if Choose(v, s, records).Some? {
        var r := ChosenRecord(v, s, records);
        SameWalk(v, w, Advance(s, CandidateOf(v, r)), records, n - 1);
      }
    }
  }

  /** Such verifiers verify the same state, or fail alike. */
  lemma {:induction false} SameFinalitySameChain(v: View, w: View, records: seq<Record>)
    requires SameFinality(v, w, records)
    ensures VerifyChain(v, records) == VerifyChain(w, records)
  {
    hide Walk, SameFinality, IsGenesis, Geneses, ParseRotation, Id;
    SameEyes(v, w, records);
    SameGeneses(v, w, records);
    if |Geneses(v, records)| == 1 {
      var g := Geneses(v, records)[0];
      assert Declared(Initial(v, g), records);
      SameWalk(v, w, Initial(v, g), records, |records|);
    }
  }

  /** The verifier saw every rotation longer ago than any window declared that
      can close at all. */
  ghost predicate HeldThrough(v: View, records: seq<Record>)
  {
    forall q, r :: q in records && r in records && HasOpenWindow(q) && NamesParent(r) ==>
      ParseRotation(q).value.contestWindow >= I64_MAX || SeenThrough(v, q, r)
  }

  lemma {:induction false} HeldStaysHeld(v: View, later: i64, records: seq<Record>)
    requires v.now <= later && HeldThrough(v, records)
    ensures HeldThrough(v.(now := later), records)
  {
    hide IsFinal, ParseRotation, Id;
    forall q, r | q in records && r in records && HasOpenWindow(q) && NamesParent(r)
                  && ParseRotation(q).value.contestWindow < I64_MAX
      ensures SeenThrough(v.(now := later), q, r)
    {
      assert SeenThrough(v, q, r);
      FinalStaysFinal(v.observed, v.now, later, ParseRotation(q).value.contestWindow, Id(v.h, r));
    }
  }

  lemma {:induction false} HeldMeansSame(v: View, w: View, records: seq<Record>)
    requires v.h == w.h && v.check == w.check && HeldThrough(v, records) && HeldThrough(w, records)
    ensures SameFinality(v, w, records)
  {
    hide IsFinal, ParseRotation, Id;
    forall q, r | q in records && r in records && HasOpenWindow(q) && NamesParent(r)
      ensures SeenThrough(v, q, r) <==> SeenThrough(w, q, r)
    {
      var window := ParseRotation(q).value.contestWindow;
      if window >= I64_MAX {
        HugeWindowNeverCloses(v.observed, v.now, window, Id(v.h, r));
        HugeWindowNeverCloses(w.observed, w.now, window, Id(w.h, r));
      }
    }
  }

  /** Verifiers may disagree for a while, but once both have held the same records
      for the windows, whenever and in whatever order each of them received
      them, they agree, and go on agreeing at every later time. */
  lemma {:induction false} VerifiersConverge(v: View, w: View, a: seq<Record>, b: seq<Record>, later: i64, latest: i64)
    requires v.h == w.h && v.check == w.check && multiset(a) == multiset(b) && OneContentPerId(v.h, a)
    requires HeldThrough(v, a) && HeldThrough(w, b) && v.now <= later && w.now <= latest
    ensures VerifyChain(v.(now := later), a) == VerifyChain(w.(now := latest), b)
  {
    hide HeldThrough, VerifyChain, OneContentPerId;
    HeldStaysHeld(v, later, a);
    HeldStaysHeld(w, latest, b);
    var v', w' := v.(now := later), w.(now := latest);
    HeldOfSameSet(w', b, a);
    HeldMeansSame(v', w', a);
    SameFinalitySameChain(v', w', a);
    OrderIndependence(w', a, b);
  }

  lemma {:induction false} HeldOfSameSet(v: View, a: seq<Record>, b: seq<Record>)
    requires multiset(a) == multiset(b) && HeldThrough(v, a)
    ensures HeldThrough(v, b)
  {
    hide SeenThrough, ParseRotation, NamesParent;
    forall r | r in b
      ensures r in a
    {
      assert r in multiset(b);
    }
  }

  /** Where no window declared can close, or none is open, neither the clock nor
      the times of arrival matter at all. */
  lemma {:induction false} NoWindowNoClock(v: View, w: View, records: seq<Record>)
    requires v.h == w.h && v.check == w.check
    requires forall q :: q in records && HasOpenWindow(q) ==> ParseRotation(q).value.contestWindow >= I64_MAX
    ensures VerifyChain(v, records) == VerifyChain(w, records)
  {
    hide VerifyChain, SeenThrough, ParseRotation, NamesParent;
    HeldMeansSame(v, w, records);
    SameFinalitySameChain(v, w, records);
  }
}
