/** `verify_chain` as it runs: a scan for the genesis, an index of rotations by
    parent, and the walk that updates the state in place. */
module IdentityImpl {
  import opened Wrappers
  import opened Bytes
  import opened Codec
  import opened Record
  import opened Identity
  import opened IdentityProofs

  // ------------------------------------------------------------------
  // Rotation bodies
  // ------------------------------------------------------------------

  ghost function Collected(keys: seq<AlgKey>, rest: Option<seq<AlgKey>>): Option<seq<AlgKey>>
  {
    if rest.None? then None else Some(keys + rest.value)
  }

  lemma CollectStart(all: Option<seq<AlgKey>>)
    ensures Collected([], all) == all && ParseAlgKeys([]) == Some([])
  {
    if all.Some? { assert [] + all.value == all.value; }
  }

  function AlgKeyOf(v: Value): Option<AlgKey>
  {
    var pair :- v.AsArray();
    if |pair| != 2 then None
    else
      var alg :- pair[0].AsUint();
      var key :- pair[1].AsBytes();
      Some(AlgKey(alg, key))
  }

  lemma {:induction false} CollectStep(keys: seq<AlgKey>, rest: seq<Value>)
    requires rest != []
    ensures Collected(keys, ParseAlgKeys(rest))
         == (var k := AlgKeyOf(rest[0]);
             if k.None? then None else Collected(keys + [k.value], ParseAlgKeys(rest[1..])))
  {
    var k, t := AlgKeyOf(rest[0]), ParseAlgKeys(rest[1..]);
    if k.Some? && t.Some? {
      assert keys + ([k.value] + t.value) == keys + [k.value] + t.value;
    }
  }

  /** The loop of `RotationBody::parse`. */
  method CollectKeys(entries: seq<Value>) returns (r: Option<seq<AlgKey>>)
    ensures r == ParseAlgKeys(entries)
  {
    hide AlgKeyOf, ParseAlgKeys;
    var keys: seq<AlgKey> := [];
    var rest := entries;
    CollectStart(ParseAlgKeys(entries));
    while rest != []
      invariant ParseAlgKeys(entries) == Collected(keys, ParseAlgKeys(rest))
      decreases |rest|
    {
      CollectStep(keys, rest);
      var k := AlgKeyOf(rest[0]);
      if k.None? {
        return None;
      }
      keys := keys + [k.value];
      rest := rest[1..];
    }
    assert keys + [] == keys;
    r := Some(keys);
  }

  method ReadRotation(x: Record) returns (r: Option<RotationBody>)
    ensures r == ParseRotation(x)
  {
    hide ParseAlgKeys, Lookup;
    if x.kind != KIND_ROTATION { return None; }
    var keyV, algV := x.body.MapGet(Name("key")), x.body.MapGet(Name("key_alg"));
    var windowV, recoveryV := x.body.MapGet(Name("contest_window")), x.body.MapGet(Name("recovery"));
    if keyV.None? || !keyV.value.Bytes? { return None; }
    if algV.None? || !algV.value.Uint? { return None; }
    if windowV.None? || !windowV.value.Uint? { return None; }
    if recoveryV.None? || !recoveryV.value.Array? { return None; }
    var recovery := CollectKeys(recoveryV.value.items);
    if recovery.None? { return None; }
    r := Some(RotationBody(keyV.value.b, algV.value.n, recovery.value, windowV.value.n));
  }

  // ------------------------------------------------------------------
  // The chain
  // ------------------------------------------------------------------

  /** Step 1: exactly one valid genesis. */
  method FindGenesis(v: View, records: seq<Record>) returns (r: Option<Record>, e: ChainError)
    ensures r.Some? ==> Geneses(v, records) == [r.value]
    ensures r.None? ==> |Geneses(v, records)| != 1 && (e.NoGenesis? <==> Geneses(v, records) == [])
  {
    hide ParseRotation, Verifies, Geneses;
    r, e := None, NoGenesis;
    var rest := records;
    while rest != []
      invariant Geneses(v, records) == (if r.None? then [] else [r.value]) + Geneses(v, rest)
      invariant e == NoGenesis
      decreases |rest|
    {
      var x := rest[0];
      GenesesStep(v, rest);
      rest := rest[1..];
      if x.kind != KIND_ROTATION || x.refs != [] { continue; }
      if x.author.identityId != ZERO_ID { continue; }
      var body := ReadRotation(x);
      if body.None? { continue; }
      if x.author.signingKey != body.value.key || x.sigAlg != body.value.keyAlg { continue; }
      if !Verifies(v.h, v.check, x) { continue; }
      if r.Some? {
        return None, MultipleGenesis;
      }
      r := Some(x);
    }
    NoMoreGeneses(v);
  }

  type ParentIndex = map<Digest, seq<Record>>

  function ChildrenIn(index: ParentIndex, head: Digest): seq<Record>
  {
    if head in index then index[head] else []
  }

  ghost function ChildrenOf(v: View, id: Digest, head: Digest, records: seq<Record>): seq<Record>
    decreases |records|
  {
    if records == [] then []
    else
      var t := ChildrenOf(v, id, head, records[..|records| - 1]);
      if IsChild(v, id, head, records[|records| - 1]) then t + [records[|records| - 1]] else t
  }

  /** Step 2: candidate rotations by parent. */
  method IndexByParent(v: View, id: Digest, records: seq<Record>) returns (index: ParentIndex)
    ensures forall head :: ChildrenIn(index, head) == ChildrenOf(v, id, head, records)
  {
    hide Verifies, ChildrenOf;
    index := map[];
    NoChildren(v, id);
    for i := 0 to |records|
      invariant forall head :: ChildrenIn(index, head) == ChildrenOf(v, id, head, records[..i])
    {
      var r := records[i];
      ChildrenStep(v, id, records, i);
      if r.kind != KIND_ROTATION || |r.refs| != 1 { continue; }
      var parent := r.refs[0];
      if !parent.IsRecord() { continue; }
      if r.author.identityId != id { continue; }
      if !Verifies(v.h, v.check, r) { continue; }
      index := index[parent.hash := ChildrenIn(index, parent.hash) + [r]];
    }
    assert records[..|records|] == records;
  }

  lemma NoChildren(v: View, id: Digest)
    ensures forall head :: ChildrenOf(v, id, head, []) == []
  {
  }

  lemma {:induction false} ChildrenStep(v: View, id: Digest, records: seq<Record>, i: nat)
    requires i < |records|
    ensures forall head :: ChildrenOf(v, id, head, records[..i + 1])
                        == ChildrenOf(v, id, head, records[..i])
                           + (if IsChild(v, id, head, records[i]) then [records[i]] else [])
  {
    hide IsChild;
    var p := records[..i + 1];
    assert p[..i] == records[..i] && p[i] == records[i];
  }

  /** Only the indexed children matter for the choice at a state. */
  lemma {:induction false} ListsOfChildren(v: View, s: IdentityState, records: seq<Record>)
    ensures var kids := ChildrenOf(v, s.identityId, s.head, records);
      Signing(v, s, kids) == Signing(v, s, records) && Recovery(v, s, kids) == Recovery(v, s, records)
    decreases |records|
  {
    if records != [] {
      var p, x := records[..|records| - 1], records[|records| - 1];
      ListsOfChildren(v, s, p);
      ListsOfAppend(v, s, p, [x]);
      ListsOfAppend(v, s, ChildrenOf(v, s.identityId, s.head, p), [x]);
      assert records == p + [x];
      ListsOfStranger(v, s, x);
    }
  }

  lemma ListsOfStranger(v: View, s: IdentityState, x: Record)
    ensures !IsChild(v, s.identityId, s.head, x) ==> Signing(v, s, [x]) == [] && Recovery(v, s, [x]) == []
  {
    hide ParseRotation, Verifies;
  }

  ghost predicate AllChildren(v: View, id: Digest, head: Digest, kids: seq<Record>)
  {
    forall i :: 0 <= i < |kids| ==> IsChild(v, id, head, kids[i])
  }

  /** Sort the children of the head into the two authorisation classes. */
  method Classify(v: View, s: IdentityState, children: seq<Record>)
    returns (signing: seq<Candidate>, recovery: seq<Candidate>)
    requires AllChildren(v, s.identityId, s.head, children)
    ensures signing == Signing(v, s, children) && recovery == Recovery(v, s, children)
  {
    hide ParseRotation, IsChild, Signing, Recovery, Id;
    signing, recovery := [], [];
    var rest := children;
    while rest != []
      invariant AllChildren(v, s.identityId, s.head, rest)
      invariant Signing(v, s, children) == signing + Signing(v, s, rest)
      invariant Recovery(v, s, children) == recovery + Recovery(v, s, rest)
      decreases |rest|
    {
      var child := rest[0];
      ListsStep(v, s, rest);
      rest := rest[1..];
      var body := ReadRotation(child);
      if body.None? { continue; }
      if s.IsSigningKey(child.sigAlg, child.author.signingKey) {
        signing := signing + [Candidate(Id(v.h, child), body.value)];
      } else if s.IsRecoveryKey(child.sigAlg, child.author.signingKey) {
        recovery := recovery + [Candidate(Id(v.h, child), body.value)];
      }
    }
    NoLists(v, s);
  }

  lemma NoLists(v: View, s: IdentityState)
    ensures Signing(v, s, []) == [] && Recovery(v, s, []) == []
  {
  }

  lemma ListsStep(v: View, s: IdentityState, rest: seq<Record>)
    requires rest != []
    ensures IsSigning(v, s, rest[0]) ==> Signing(v, s, rest) == [CandidateOf(v, rest[0])] + Signing(v, s, rest[1..])
    ensures !IsSigning(v, s, rest[0]) ==> Signing(v, s, rest) == Signing(v, s, rest[1..])
    ensures IsRecovery(v, s, rest[0]) ==> Recovery(v, s, rest) == [CandidateOf(v, rest[0])] + Recovery(v, s, rest[1..])
    ensures !IsRecovery(v, s, rest[0]) ==> Recovery(v, s, rest) == Recovery(v, s, rest[1..])
  {
    hide ParseRotation, IsChild;
  }

  lemma {:induction false} ChildrenAreChildren(v: View, id: Digest, head: Digest, records: seq<Record>)
    ensures AllChildren(v, id, head, ChildrenOf(v, id, head, records))
    decreases |records|
  {
    hide IsChild;
    if records != [] {
      ChildrenAreChildren(v, id, head, records[..|records| - 1]);
    }
  }

  lemma {:induction false} WalkEnds(v: View, s: IdentityState, records: seq<Record>, rank: Digest -> nat, k: nat)
    requires Ranked(v.h, records, rank) && Choose(v, Walk(v, s, records, k), records).None?
    ensures Walk(v, s, records, k) == Walk(v, s, records, |records|)
  {
    hide Choose, Walk, Remaining, Ranked;
    RemainingShrinks(v.h, records, rank, rank(s.head), rank(s.head));
    WalkStops(v, s, records, rank, |records|);
    if k <= |records| {
      WalkSplits(v, s, records, k, |records| - k);
      WalkStaysPut(v, Walk(v, s, records, k), records, |records| - k);
    } else {
      WalkSplits(v, s, records, |records|, k - |records|);
      WalkStaysPut(v, Walk(v, s, records, |records|), records, k - |records|);
    }
  }

  /** The whole of `verify_chain`. It returns the specified state, which no
      supplied rotation can extend. */
  method Run(v: View, records: seq<Record>, ghost rank: Digest -> nat) returns (r: ChainResult)
    requires Ranked(v.h, records, rank)
    ensures r == VerifyChain(v, records)
    ensures r.Verified? ==> forall x :: x in records ==> !IsSigning(v, r.state, x) && !IsRecovery(v, r.state, x)
  {
    hide ParseRotation, Walk, Signing, Recovery, ChildrenOf, IsChild, Remaining, Id, IsGenesis, Ranked;
    var g, e := FindGenesis(v, records);
    if g.None? {
      return Rejected(e);
    }
    assert g.value == Geneses(v, records)[0];
    var body := ParseRotation(g.value).value;
    var id := Id(v.h, g.value);
    var index := IndexByParent(v, id, records);
    var s := IdentityState(id, body.key, body.keyAlg, body.recovery, body.contestWindow, id, 0);
    ghost var start := s;
    ghost var k := 0;
    WalkStart(v, s, records);
    while true
      invariant s == Walk(v, start, records, k) && s.identityId == id
      decreases Remaining(v.h, records, rank, rank(s.head))
    {
      var children := ChildrenIn(index, s.head);
      ChildrenAreChildren(v, id, s.head, records);
      ListsOfChildren(v, s, records);
      var signing, recovery := Classify(v, s, children);
      var chosen: Option<Candidate>;
      if s.contestWindow == 0 {
        chosen := Lowest(signing + recovery);
      } else {
        var finals := Finals(v.observed, v.now, s.contestWindow, signing);
        if finals != [] {
          chosen := Lowest(finals);
        } else if recovery != [] {
          chosen := Lowest(recovery);
        } else {
          chosen := Lowest(signing);
        }
      }
      assert chosen == Choose(v, s, records);
      if chosen.None? {
        NoChoiceNoChild(v, s, records);
        WalkEnds(v, start, records, rank, k);
        return Verified(s);
      }
      NextStep(v, start, records, k);
      StepShrinks(v, s, records, rank);
      k := k + 1;
      var c := chosen.value;
      s := s.(signingKey := c.body.key, keyAlg := c.body.keyAlg, recovery := c.body.recovery,
              contestWindow := c.body.contestWindow, head := c.id, depth := s.depth + 1);
    }
  }

  lemma {:induction false} StepShrinks(v: View, s: IdentityState, records: seq<Record>, rank: Digest -> nat)
    requires Ranked(v.h, records, rank) && Choose(v, s, records).Some?
    ensures Remaining(v.h, records, rank, rank(Choose(v, s, records).value.id))
          < Remaining(v.h, records, rank, rank(s.head))
  {
    hide Choose, Remaining, Id, IsSigning, IsRecovery, ParseRotation;
    var r := ChosenRecord(v, s, records);
    RemainingShrinks(v.h, records, rank, rank(s.head), rank(Choose(v, s, records).value.id));
  }
}
