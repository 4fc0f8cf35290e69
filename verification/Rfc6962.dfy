/** Chunk trees stated in the terms of section 2.1 of RFC 6962. */
module Rfc6962 {
  import opened Wrappers
  import opened Bytes
  import opened Blob

  // ------------------------------------------------------------------
  // The tree hash
  // ------------------------------------------------------------------

  /** The largest power of two below `n`, looked for from `k` upwards. */
  function Largest(n: nat, k: nat): (r: nat)
    requires 1 <= k < n
    ensures k <= r < n <= 2 * r
    decreases n - k
  {
    if 2 * k < n then Largest(n, 2 * k) else k
  }

  /** MTH(D[n]): a single entry is hashed after a zero byte; otherwise the hashes
      of the first k entries and of the others, k being the largest power of two
      below n, are hashed after a one byte. */
  function TreeHash(h: Hash, d: seq<seq<byte>>): Digest
    requires d != []
    decreases |d|
  {
    if |d| == 1 then h([0x00] + d[0])
    else
      var k := Largest(|d|, 1);
      h([0x01] + TreeHash(h, d[..k]) + TreeHash(h, d[k..]))
  }

  lemma {:induction false} LargestHalves(n: nat, k: nat)
    requires 1 <= k && 2 * k < n
    ensures Largest(n, 2 * k) == 2 * Largest((n + 1) / 2, k)
    decreases n - k
  {
    if 4 * k < n { LargestHalves(n, 2 * k); }
  }

  lemma {:induction false} SplitIsLargest(n: nat)
    requires n >= 2
    ensures SplitPoint(n) == Largest(n, 1)
  {
    if n > 2 {
      SplitIsLargest((n + 1) / 2);
      LargestHalves(n, 1);
    }
  }

  lemma {:induction false} HashesOfSlices(h: Hash, d: seq<seq<byte>>, k: nat)
    requires k <= |d|
    ensures LeafHashes(h, d)[..k] == LeafHashes(h, d[..k]) && LeafHashes(h, d)[k..] == LeafHashes(h, d[k..])
  {
  }

  lemma {:induction false} TreeHashIs(h: Hash, d: seq<seq<byte>>)
    requires d != []
    ensures MerkleTreeHash(h, LeafHashes(h, d)) == TreeHash(h, d)
    decreases |d|
  {
    if |d| > 1 {
      var k := Largest(|d|, 1);
      SplitIsLargest(|d|);
      HashesOfSlices(h, d, k);
      TreeHashIs(h, d[..k]);
      TreeHashIs(h, d[k..]);
    }
  }

  /** The chunks of a blob: as many as there are begun mebibytes, each the next
      2^20 bytes or what is left. */
  lemma {:induction false} ChunksAre(bytes: seq<byte>)
    ensures |Chunks(bytes)| == (|bytes| + 0xf_ffff) / 0x10_0000
    ensures forall i :: 0 <= i < |Chunks(bytes)| ==>
      Chunks(bytes)[i] == bytes[i * 0x10_0000..Until(i, |bytes|)]
    decreases |bytes|
  {
    if |bytes| > 0x10_0000 {
      var rest := bytes[0x10_0000..];
      ChunksAre(rest);
      var c := Chunks(bytes);
      forall i | 0 <= i < |c|
        ensures c[i] == bytes[i * 0x10_0000..Until(i, |bytes|)]
      {
        if i > 0 {
          assert c[i] == Chunks(rest)[i - 1];
          LaterSlice(bytes, i);
        }
      }
    }
  }

  lemma {:induction false} LaterSlice(bytes: seq<byte>, i: nat)
    requires i > 0 && i * 0x10_0000 < |bytes|
    ensures var rest := bytes[0x10_0000..];
      0 <= (i - 1) * 0x10_0000 < |rest|
      && rest[(i - 1) * 0x10_0000..Until(i - 1, |rest|)] == bytes[i * 0x10_0000..Until(i, |bytes|)]
  {
    var rest := bytes[0x10_0000..];
    var from, to := (i - 1) * 0x10_0000, Until(i - 1, |rest|);
    assert from + 0x10_0000 == i * 0x10_0000 && to + 0x10_0000 == Until(i, |bytes|);
  }

  /** Where chunk `i` of `size` bytes ends. */
  function Until(i: int, size: nat): (r: int)
    ensures 0 <= i * 0x10_0000 < size ==> i * 0x10_0000 <= r <= size
  {
    if (i + 1) * 0x10_0000 <= size then (i + 1) * 0x10_0000 else size
  }

  /** The root of a blob's tree is the tree hash of its chunks; an empty blob has
      none. */
  lemma {:induction false} BlobRoot(h: Hash, bytes: seq<byte>)
    ensures TreeRoot(h, FromBytes(h, bytes)) == if bytes == [] then None else Some(TreeHash(h, Chunks(bytes)))
    ensures bytes != [] ==> Chunks(bytes) != []
  {
    if bytes != [] {
      RootIsMerkleTreeHash(h, FromBytes(h, bytes).leaves);
      TreeHashIs(h, Chunks(bytes));
    }
  }

  // ------------------------------------------------------------------
  // Audit paths
  // ------------------------------------------------------------------

  /** PATH(m, D[n]) of section 2.1.1. */
  function AuditPath(h: Hash, m: nat, d: seq<seq<byte>>): seq<Digest>
    requires m < |d|
    decreases |d|
  {
    if |d| == 1 then []
    else
      var k := Largest(|d|, 1);
      if m < k then AuditPath(h, m, d[..k]) + [TreeHash(h, d[k..])]
      else AuditPath(h, m - k, d[k..]) + [TreeHash(h, d[..k])]
  }

  /** The root that a leaf hash and an audit path lead to, in a tree of `n`
      entries: its last hash belongs to the other half. */
  function Rebuilt(h: Hash, leaf: Digest, m: nat, n: nat, path: seq<Digest>): Option<Digest>
    requires m < n
    decreases n
  {
    if n == 1 then (if path == [] then Some(leaf) else None)
    else if path == [] then None
    else
      var k, last := Largest(n, 1), |path| - 1;
      if m < k then
        var left :- Rebuilt(h, leaf, m, k, path[..last]);
        Some(h([0x01] + left + path[last]))
      else
        var right :- Rebuilt(h, leaf, m - k, n - k, path[..last]);
        Some(h([0x01] + path[last] + right))
  }

  lemma {:induction false} LargestOfHalf(n: nat)
    requires n > 2
    ensures Largest(n, 1) % 2 == 0 && Largest(n, 1) / 2 == Largest((n + 1) / 2, 1)
  {
    LargestHalves(n, 1);
  }

  /** The input of the hash above a node and its sibling. */
  function Above(cur: nat, node: Digest, sib: Digest): seq<byte>
  {
    if cur % 2 == 0 then [0x01] + node + sib else [0x01] + sib + node
  }

  /** A half that was rebuilt, joined with the hash of the other one. */
  function Joined(h: Hash, left: bool, half: Option<Digest>, other: Digest): Option<Digest>
  {
    if half.None? then None else Some(h(if left then [0x01] + half.value + other else [0x01] + other + half.value))
  }

  lemma {:induction false} RebuiltStep(h: Hash, leaf: Digest, m: nat, n: nat, front: seq<Digest>, last: Digest)
    requires m < n && n >= 2
    ensures var k := Largest(n, 1);
      Rebuilt(h, leaf, m, n, front + [last])
      == Joined(h, m < k, if m < k then Rebuilt(h, leaf, m, k, front) else Rebuilt(h, leaf, m - k, n - k, front), last)
  {
    var path := front + [last];
    assert path[..|path| - 1] == front;
  }

  lemma RebuiltEnds(h: Hash, leaf: Digest, m: nat, n: nat)
    requires m < n
    ensures Rebuilt(h, leaf, m, n, []) == if n == 1 then Some(leaf) else None
    ensures n == 1 ==> forall path :: path != [] ==> Rebuilt(h, leaf, m, n, path) == None
  {
  }

  /** One level up: the first hash of a path belongs to the sibling, if the node
      has one. */
  function Raised(h: Hash, leaf: Digest, m: nat, n: nat, path: seq<Digest>): Option<Digest>
    requires m < n && n >= 2
  {
    if Sibling(m) >= n then Rebuilt(h, leaf, m / 2, (n + 1) / 2, path)
    else if path == [] then None
    else Rebuilt(h, h(Above(m, leaf, path[0])), m / 2, (n + 1) / 2, path[1..])
  }

  lemma {:induction false} RaisedLeft(h: Hash, leaf: Digest, m: nat, n: nat, front: seq<Digest>, last: Digest)
    requires n > 2 && m < Largest(n, 1) && Largest(n, 1) >= 2
    ensures Raised(h, leaf, m, n, front + [last]) == Joined(h, true, Raised(h, leaf, m, Largest(n, 1), front), last)
  {
    hide Rebuilt, Largest, Joined, Above;
    LargestOfHalf(n);
    var path, up := front + [last], (n + 1) / 2;
    if front == [] {
      assert path[1..] == [];
      RebuiltEnds(h, h(Above(m, leaf, path[0])), m / 2, up);
      NoHalf(h, true, last);
    } else {
      assert path[1..] == front[1..] + [last] && path[0] == front[0];
      RebuiltStep(h, h(Above(m, leaf, path[0])), m / 2, up, front[1..], last);
    }
  }

  lemma NoHalf(h: Hash, left: bool, last: Digest)
    ensures Joined(h, left, None, last) == None
  {
  }

  /** Both halves shrink alike. */
  lemma {:induction false} Shifted(m: nat, n: nat, k: nat)
    requires k % 2 == 0 && k <= m < n
    ensures (m - k) / 2 == m / 2 - k / 2 && (n - k + 1) / 2 == (n + 1) / 2 - k / 2
    ensures Sibling(m - k) >= n - k <==> Sibling(m) >= n
    ensures forall x, y :: Above(m - k, x, y) == Above(m, x, y)
  {
    assert (m - k) % 2 == m % 2;
  }

  lemma {:induction false} RaisedRight(h: Hash, leaf: Digest, m: nat, n: nat, front: seq<Digest>, last: Digest)
    requires n > 2 && Largest(n, 1) <= m < n && n - Largest(n, 1) >= 2
    ensures var k := Largest(n, 1);
      Raised(h, leaf, m, n, front + [last]) == Joined(h, false, Raised(h, leaf, m - k, n - k, front), last)
  {
    hide Rebuilt, Largest, Joined, Above, Sibling;
    LargestOfHalf(n);
    var k := Largest(n, 1);
    var path, up := front + [last], (n + 1) / 2;
    Shifted(m, n, k);
    if Sibling(m) >= n {
      RebuiltStep(h, leaf, m / 2, up, front, last);
    } else if front == [] {
      assert path[1..] == [];
      RebuiltEnds(h, h(Above(m, leaf, path[0])), m / 2, up);
      NoHalf(h, false, last);
    } else {
      assert path[1..] == front[1..] + [last] && path[0] == front[0];
      RebuiltStep(h, h(Above(m, leaf, path[0])), m / 2, up, front[1..], last);
    }
  }

  /** A lone last leaf has no sibling on the way to the top. */
  lemma {:induction false} RaisedLone(h: Hash, leaf: Digest, n: nat, front: seq<Digest>, last: Digest)
    requires n > 2 && n - Largest(n, 1) == 1
    ensures Raised(h, leaf, n - 1, n, front + [last]) == Joined(h, false, Rebuilt(h, leaf, 0, 1, front), last)
  {
    LargestOfHalf(n);
    hide Rebuilt, Largest, Joined;
    RebuiltStep(h, leaf, (n - 1) / 2, (n + 1) / 2, front, last);
  }

  lemma {:induction false} RaisedPair(h: Hash, leaf: Digest, m: nat, front: seq<Digest>, last: Digest)
    requires m < 2
    ensures Raised(h, leaf, m, 2, front + [last]) == Joined(h, m < 1, Rebuilt(h, leaf, 0, 1, front), last)
  {
    var path := front + [last];
    if front == [] {
      assert path[1..] == [];
    } else {
      assert path[1..] != [];
    }
  }

  lemma LargestFacts(n: nat)
    requires n >= 2
    ensures n == 2 ==> Largest(n, 1) == 1
    ensures n > 2 ==> Largest(n, 1) >= 2 && Largest(n, 1) % 2 == 0
  {
    if n > 2 { LargestOfHalf(n); }
  }

  /** Rebuilding from the top is rebuilding from the bottom. */
  lemma {:induction false} RebuiltFromBelow(h: Hash, leaf: Digest, m: nat, n: nat, path: seq<Digest>)
    requires m < n && n >= 2
    ensures Rebuilt(h, leaf, m, n, path) == Raised(h, leaf, m, n, path)
    decreases n
  {
    hide *;
    if path == [] {
      RaisedNothing(h, leaf, m, n);
    } else {
      LargestFacts(n);
      var k, front, last := Largest(n, 1), path[..|path| - 1], path[|path| - 1];
      assert path == front + [last];
      RebuiltStep(h, leaf, m, n, front, last);
      if n == 2 {
        RaisedPair(h, leaf, m, front, last);
      } else if m < k {
        RebuiltFromBelow(h, leaf, m, k, front);
        RaisedLeft(h, leaf, m, n, front, last);
      } else if n - k == 1 {
        RaisedLone(h, leaf, n, front, last);
      } else {
        RebuiltFromBelow(h, leaf, m - k, n - k, front);
        RaisedRight(h, leaf, m, n, front, last);
      }
    }
  }

  lemma {:induction false} RaisedNothing(h: Hash, leaf: Digest, m: nat, n: nat)
    requires m < n && n >= 2
    ensures Rebuilt(h, leaf, m, n, []) == None && Raised(h, leaf, m, n, []) == None
  {
    hide Rebuilt;
    RebuiltEnds(h, leaf, m, n);
    RebuiltEnds(h, leaf, m / 2, (n + 1) / 2);
  }

  lemma {:induction false} ClimbRebuilds(h: Hash, leaf: Digest, m: nat, n: nat, path: seq<Digest>)
    requires m < n
    ensures Climb(h, leaf, n, m, path) == Rebuilt(h, leaf, m, n, path)
    decreases n
  {
    if n >= 2 {
      hide Rebuilt;
      RebuiltFromBelow(h, leaf, m, n, path);
      if Sibling(m) >= n {
        ClimbRebuilds(h, leaf, m / 2, (n + 1) / 2, path);
      } else if path != [] {
        assert Join(m, leaf, path[0]) == Above(m, leaf, path[0]);
        ClimbRebuilds(h, h(Above(m, leaf, path[0])), m / 2, (n + 1) / 2, path[1..]);
      }
    }
  }

  /** Verification accepts a chunk exactly when its leaf hash and the proof, taken
      as an audit path, lead to the root. */
  lemma {:induction false} VerifyRebuilds(h: Hash, root: Digest, n: nat, index: nat, chunk: seq<byte>, proof: seq<Digest>)
    ensures Verify(h, root, n, index, chunk, proof)
       <==> index < n && Rebuilt(h, h([0x00] + chunk), index, n, proof) == Some(root)
  {
    if index < n { ClimbRebuilds(h, h([0x00] + chunk), index, n, proof); }
  }

  /** Audit paths over leaf hashes. */
  function LevelPath(h: Hash, m: nat, level: seq<Digest>): seq<Digest>
    requires m < |level|
    decreases |level|
  {
    if |level| == 1 then []
    else
      var k := Largest(|level|, 1);
      if m < k then LevelPath(h, m, level[..k]) + [MerkleTreeHash(h, level[k..])]
      else LevelPath(h, m - k, level[k..]) + [MerkleTreeHash(h, level[..k])]
  }

  function Lowest(m: nat, level: seq<Digest>): seq<Digest>
  {
    if Sibling(m) < |level| then [level[Sibling(m)]] else []
  }

  lemma LevelPathStep(h: Hash, m: nat, level: seq<Digest>)
    requires m < |level| && |level| >= 2
    ensures var k := Largest(|level|, 1);
      LevelPath(h, m, level)
      == if m < k then LevelPath(h, m, level[..k]) + [MerkleTreeHash(h, level[k..])]
         else LevelPath(h, m - k, level[k..]) + [MerkleTreeHash(h, level[..k])]
  {
    hide MerkleTreeHash;
  }

  /** One level up, for a position in a level. */
  ghost predicate FromBelow(h: Hash, m: nat, level: seq<Digest>)
    requires m < |level|
  {
    LevelPath(h, m, level) == Lowest(m, level) + LevelPath(h, m / 2, Reduce(h, level))
  }

  lemma FromBelowIs(h: Hash, m: nat, level: seq<Digest>)
    requires m < |level|
    ensures FromBelow(h, m, level) <==> LevelPath(h, m, level) == Lowest(m, level) + LevelPath(h, m / 2, Reduce(h, level))
  {
    hide LevelPath, Lowest, Reduce;
  }

  lemma Assembled(path: seq<Digest>, up: seq<Digest>, low: seq<Digest>, half: seq<Digest>, upHalf: seq<Digest>, other: Digest)
    requires path == half + [other] && up == upHalf + [other] && half == low + upHalf
    ensures path == low + up
  {
  }

  lemma {:induction false} PathLeft(h: Hash, m: nat, level: seq<Digest>, k: nat)
    requires |level| > 2 && k == Largest(|level|, 1) && m < k && FromBelow(h, m, level[..k])
    ensures FromBelow(h, m, level)
  {
    hide *;
    var next, a, b := Reduce(h, level), level[..k], level[k..];
    LargestOfHalf(|level|);
    SplitIsLargest(|level|);
    ReduceHalves(h, level, k);
    LowestOfHalf(m, level, k);
    LevelPathStep(h, m, level);
    LevelPathStep(h, m / 2, next);
    ReduceKeepsTreeHash(h, b);
    FromBelowIs(h, m, a);
    FromBelowIs(h, m, level);
    Assembled(LevelPath(h, m, level), LevelPath(h, m / 2, next), Lowest(m, level), LevelPath(h, m, a),
              LevelPath(h, m / 2, next[..k / 2]), MerkleTreeHash(h, b));
  }

  lemma {:induction false} PathRight(h: Hash, m: nat, level: seq<Digest>, k: nat)
    requires |level| > 2 && k == Largest(|level|, 1) && k <= m < |level| && FromBelow(h, m - k, level[k..])
    ensures FromBelow(h, m, level)
  {
    hide *;
    var next, a, b := Reduce(h, level), level[..k], level[k..];
    LargestOfHalf(|level|);
    SplitIsLargest(|level|);
    ReduceHalves(h, level, k);
    LowestOfHalf(m, level, k);
    LevelPathStep(h, m, level);
    LevelPathStep(h, m / 2, next);
    ReduceKeepsTreeHash(h, a);
    FromBelowIs(h, m - k, b);
    FromBelowIs(h, m, level);
    Assembled(LevelPath(h, m, level), LevelPath(h, m / 2, next), Lowest(m, level), LevelPath(h, m - k, b),
              LevelPath(h, m / 2 - k / 2, next[k / 2..]), MerkleTreeHash(h, a));
  }

  lemma {:induction false} PathFromBelow(h: Hash, m: nat, level: seq<Digest>)
    requires m < |level|
    ensures FromBelow(h, m, level)
    decreases |level|
  {
    var n := |level|;
    if n == 1 {
      OneLeaf(h, level);
    } else if n == 2 {
      PathOfTwo(h, m, level);
    } else {
      hide *;
      var k := Largest(n, 1);
      if m < k {
        PathFromBelow(h, m, level[..k]);
        PathLeft(h, m, level, k);
      } else {
        PathFromBelow(h, m - k, level[k..]);
        PathRight(h, m, level, k);
      }
    }
  }

  lemma LowestOfHalf(m: nat, level: seq<Digest>, k: nat)
    requires m < |level| && 0 < k < |level| && k % 2 == 0
    ensures m < k ==> Lowest(m, level[..k]) == Lowest(m, level)
    ensures m >= k ==> Lowest(m - k, level[k..]) == Lowest(m, level)
    ensures m >= k ==> (m - k) / 2 == m / 2 - k / 2
    ensures m == k == |level| - 1 ==> Lowest(m, level) == []
  {
    hide Sibling;
    SiblingOfHalf(m, k);
  }

  lemma SiblingOfHalf(m: nat, k: nat)
    requires k % 2 == 0
    ensures m < k ==> Sibling(m) < k
    ensures m >= k ==> Sibling(m - k) + k == Sibling(m) && (m - k) / 2 == m / 2 - k / 2
    ensures m == k ==> Sibling(m) == k + 1
  {
    var j := k / 2;
    assert k == 2 * j;
  }

  lemma PathOfTwo(h: Hash, m: nat, level: seq<Digest>)
    requires m < 2 == |level|
    ensures LevelPath(h, m, level) == Lowest(m, level) + LevelPath(h, m / 2, Reduce(h, level))
  {
    hide Reduce, MerkleTreeHash;
    TwoLeaves(h, level);
    assert Largest(2, 1) == 1;
  }

  lemma TwoLeaves(h: Hash, level: seq<Digest>)
    requires |level| == 2
    ensures MerkleTreeHash(h, level[..1]) == level[0] && MerkleTreeHash(h, level[1..]) == level[1]
    ensures |Reduce(h, level)| == 1
  {
  }

  lemma OneLeaf(h: Hash, level: seq<Digest>)
    requires |level| == 1
    ensures Reduce(h, level) == level
  {
  }

  lemma {:induction false} SiblingsAreThePath(h: Hash, m: nat, level: seq<Digest>)
    requires m < |level|
    ensures Siblings(h, level, m) == LevelPath(h, m, level)
    decreases |level|
  {
    if |level| >= 2 {
      hide LevelPath, Reduce;
      PathFromBelow(h, m, level);
      SiblingsAreThePath(h, m / 2, Reduce(h, level));
    }
  }

  lemma {:induction false} PathOfHashes(h: Hash, m: nat, d: seq<seq<byte>>)
    requires m < |d|
    ensures LevelPath(h, m, LeafHashes(h, d)) == AuditPath(h, m, d)
    decreases |d|
  {
    hide MerkleTreeHash, TreeHash, LeafHash;
    if |d| > 1 {
      var k := Largest(|d|, 1);
      HashesOfSlices(h, d, k);
      TreeHashIs(h, d[..k]);
      TreeHashIs(h, d[k..]);
      if m < k { PathOfHashes(h, m, d[..k]); } else { PathOfHashes(h, m - k, d[k..]); }
    }
  }

  /** The proof made for a chunk is its audit path. */
  lemma {:induction false} ProofIsAuditPath(h: Hash, bytes: seq<byte>, index: nat)
    ensures Prove(h, FromBytes(h, bytes), index)
         == if index < |Chunks(bytes)| then Some(AuditPath(h, index, Chunks(bytes))) else None
  {
    if index < |Chunks(bytes)| {
      SiblingsAreThePath(h, index, LeafHashes(h, Chunks(bytes)));
      PathOfHashes(h, index, Chunks(bytes));
    }
  }
}
