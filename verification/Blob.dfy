/** Chunk trees (`blob.rs`), over any hash from byte strings to 32 bytes. */
module Blob {
  import opened Wrappers
  import opened Bytes

  const CHUNK_SIZE: nat := 0x10_0000

  type Hash = seq<byte> -> Digest

  function LeafInput(chunk: seq<byte>): seq<byte> { [0x00] + chunk }

  function NodeInput(left: Digest, right: Digest): seq<byte> { [0x01] + left + right }

  function LeafHash(h: Hash, chunk: seq<byte>): Digest { h(LeafInput(chunk)) }

  function NodeHash(h: Hash, left: Digest, right: Digest): Digest { h(NodeInput(left, right)) }

  // ------------------------------------------------------------------
  // Specification
  // ------------------------------------------------------------------

  /** One level up: neighbours are paired, an odd last node moves up as it is. */
  function Reduce(h: Hash, level: seq<Digest>): (next: seq<Digest>)
    ensures |next| == (|level| + 1) / 2
  {
    if |level| < 2 then level
    else [NodeHash(h, level[0], level[1])] + Reduce(h, level[2..])
  }

  function Root(h: Hash, level: seq<Digest>): Digest
    requires level != []
    decreases |level|
  {
    if |level| == 1 then level[0] else Root(h, Reduce(h, level))
  }

  /** The largest power of two below `n`. */
  function SplitPoint(n: nat): (k: nat)
    requires n >= 2
    ensures 1 <= k < n <= 2 * k
  {
    if n == 2 then 1 else 2 * SplitPoint((n + 1) / 2)
  }

  /** The Merkle tree hash of section 2.1 of RFC 6962 over given leaf hashes. */
  function MerkleTreeHash(h: Hash, leaves: seq<Digest>): Digest
    requires leaves != []
    decreases |leaves|
  {
    if |leaves| == 1 then leaves[0]
    else
      var k := SplitPoint(|leaves|);
      NodeHash(h, MerkleTreeHash(h, leaves[..k]), MerkleTreeHash(h, leaves[k..]))
  }

  function Sibling(cur: nat): nat { if cur % 2 == 0 then cur + 1 else cur - 1 }

  /** The sibling hashes on the way from node `cur` to the root. */
  function Siblings(h: Hash, level: seq<Digest>, cur: nat): seq<Digest>
    requires cur < |level|
    decreases |level|
  {
    if |level| == 1 then []
    else
      var rest := Siblings(h, Reduce(h, level), cur / 2);
      if Sibling(cur) < |level| then [level[Sibling(cur)]] + rest else rest
  }

  function Join(cur: nat, node: Digest, sib: Digest): seq<byte>
  {
    if cur % 2 == 0 then NodeInput(node, sib) else NodeInput(sib, node)
  }

  /** The root a verifier computes from a node, its position in a level of
      `len` nodes and a proof that must be used up exactly. */
  function Climb(h: Hash, node: Digest, len: nat, cur: nat, proof: seq<Digest>): Option<Digest>
    decreases len
  {
    if len <= 1 then (if proof == [] then Some(node) else None)
    else if Sibling(cur) < len then
      if proof == [] then None
      else Climb(h, h(Join(cur, node, proof[0])), (len + 1) / 2, cur / 2, proof[1..])
    else Climb(h, node, (len + 1) / 2, cur / 2, proof)
  }

  function Chunks(bytes: seq<byte>): seq<seq<byte>>
  {
    if bytes == [] then []
    else if |bytes| <= CHUNK_SIZE then [bytes]
    else [bytes[..CHUNK_SIZE]] + Chunks(bytes[CHUNK_SIZE..])
  }

  function LeafHashes(h: Hash, chunks: seq<seq<byte>>): (r: seq<Digest>)
    ensures |r| == |chunks|
    ensures forall i :: 0 <= i < |chunks| ==> r[i] == LeafHash(h, chunks[i])
  {
    if chunks == [] then [] else [LeafHash(h, chunks[0])] + LeafHashes(h, chunks[1..])
  }

  /** A blob's leaf hashes and its size. */
  datatype ChunkTree = ChunkTree(leaves: seq<Digest>, size: nat)

  function FromBytes(h: Hash, bytes: seq<byte>): ChunkTree
  {
    ChunkTree(LeafHashes(h, Chunks(bytes)), |bytes|)
  }

  function TreeRoot(h: Hash, t: ChunkTree): Option<Digest>
  {
    if t.leaves == [] then None else Some(Root(h, t.leaves))
  }

  function Prove(h: Hash, t: ChunkTree, index: nat): Option<seq<Digest>>
  {
    if index >= |t.leaves| then None else Some(Siblings(h, t.leaves, index))
  }

  predicate Verify(h: Hash, root: Digest, n: nat, index: nat, chunk: seq<byte>, proof: seq<Digest>)
  {
    index < n && Climb(h, LeafHash(h, chunk), n, index, proof) == Some(root)
  }

  // ------------------------------------------------------------------
  // The reduction is the RFC 6962 tree
  // ------------------------------------------------------------------

  lemma {:induction false} ReducePair(h: Hash, x: Digest, y: Digest, rest: seq<Digest>)
    ensures Reduce(h, [x, y] + rest) == [NodeHash(h, x, y)] + Reduce(h, rest)
  {
    hide NodeHash;
    assert ([x, y] + rest)[2..] == rest;
  }

  lemma TwoFirst(a: seq<Digest>, b: seq<Digest>)
    requires |a| >= 2
    ensures a == [a[0], a[1]] + a[2..] && a + b == [a[0], a[1]] + (a[2..] + b)
  {
  }

  lemma {:induction false} ReduceAppend(h: Hash, a: seq<Digest>, b: seq<Digest>)
    requires |a| % 2 == 0
    ensures Reduce(h, a + b) == Reduce(h, a) + Reduce(h, b)
    decreases |a|
  {
    if a == [] {
      assert a + b == b;
    } else {
      hide *;
      var x, y, rest := a[0], a[1], a[2..];
      ReduceAppend(h, rest, b);
      ReducePair(h, x, y, rest);
      ReducePair(h, x, y, rest + b);
      TwoFirst(a, b);
      Regroup(NodeHash(h, x, y), Reduce(h, rest), Reduce(h, b));
    }
  }

  lemma Regroup(n: Digest, p: seq<Digest>, q: seq<Digest>)
    ensures [n] + (p + q) == [n] + p + q
  {
  }

  /** Reducing one level does not change the RFC 6962 tree hash. */
  lemma {:induction false} ReduceKeepsTreeHash(h: Hash, level: seq<Digest>)
    requires level != []
    ensures MerkleTreeHash(h, Reduce(h, level)) == MerkleTreeHash(h, level)
    decreases |level|
  {
    hide NodeHash;
    if |level| > 2 {
      hide *;
      var k := SplitPoint(|level|);
      ReduceHalves(h, level, k);
      ReduceKeepsTreeHash(h, level[..k]);
      ReduceKeepsTreeHash(h, level[k..]);
      SplitTreeHash(h, level);
      SplitTreeHash(h, Reduce(h, level));
    }
  }

  /** The parts on both sides of the split are reduced separately. */
  lemma {:induction false} ReduceHalves(h: Hash, level: seq<Digest>, k: nat)
    requires |level| > 2 && k == SplitPoint(|level|)
    ensures var next := Reduce(h, level);
      SplitPoint(|next|) == k / 2
      && next[..k / 2] == Reduce(h, level[..k]) && next[k / 2..] == Reduce(h, level[k..])
  {
    hide NodeHash, Reduce;
    var a, b := level[..k], level[k..];
    assert level == a + b;
    assert k % 2 == 0;
    ReduceAppend(h, a, b);
  }

  lemma {:induction false} SplitTreeHash(h: Hash, leaves: seq<Digest>)
    requires |leaves| > 1
    ensures var k := SplitPoint(|leaves|);
      MerkleTreeHash(h, leaves) == NodeHash(h, MerkleTreeHash(h, leaves[..k]), MerkleTreeHash(h, leaves[k..]))
  {
    hide NodeHash;
  }

  /** Pairing with odd-node promotion and splitting at the largest power of two
      build the same tree, for every non-empty list of leaves. */
  lemma {:induction false} RootIsMerkleTreeHash(h: Hash, level: seq<Digest>)
    requires level != []
    ensures Root(h, level) == MerkleTreeHash(h, level)
    decreases |level|
  {
    if |level| > 1 {
      RootIsMerkleTreeHash(h, Reduce(h, level));
      ReduceKeepsTreeHash(h, level);
    }
  }

  // ------------------------------------------------------------------
  // Proofs
  // ------------------------------------------------------------------

  lemma {:induction false} ReduceAt(h: Hash, level: seq<Digest>, cur: nat)
    requires cur < |level|
    ensures Reduce(h, level)[cur / 2]
         == if |level| > 1 && Sibling(cur) < |level| then h(Join(cur, level[cur], level[Sibling(cur)])) else level[cur]
  {
    if |level| >= 2 && cur >= 2 {
      ReduceAt(h, level[2..], cur - 2);
      assert level[2..][cur - 2] == level[cur];
    }
  }

  lemma {:induction false} ClimbSiblings(h: Hash, level: seq<Digest>, cur: nat)
    requires cur < |level|
    ensures Climb(h, level[cur], |level|, cur, Siblings(h, level, cur)) == Some(Root(h, level))
    decreases |level|
  {
    if |level| > 1 {
      ReduceAt(h, level, cur);
      ClimbSiblings(h, Reduce(h, level), cur / 2);
    }
  }

  /** Completeness: the proof made for chunk `index` verifies that chunk against
      the tree's root and chunk count. */
  lemma {:induction false} ProofsVerify(h: Hash, bytes: seq<byte>, index: nat)
    requires index < |Chunks(bytes)|
    ensures var t := FromBytes(h, bytes);
      Prove(h, t, index).Some? && TreeRoot(h, t).Some?
      && Verify(h, TreeRoot(h, t).value, |t.leaves|, index, Chunks(bytes)[index], Prove(h, t, index).value)
  {
    ClimbSiblings(h, FromBytes(h, bytes).leaves, index);
  }

  function Pow2(k: nat): nat { if k == 0 then 1 else 2 * Pow2(k - 1) }

  /** A tree of at most 2^k leaves needs at most k hashes per proof. */
  lemma {:induction false} ProofLength(h: Hash, level: seq<Digest>, cur: nat, k: nat)
    requires cur < |level| <= Pow2(k)
    ensures |Siblings(h, level, cur)| <= k
    decreases |level|
  {
    if |level| > 1 {
      ProofLength(h, Reduce(h, level), cur / 2, k - 1);
    }
  }

  datatype Inputs = Inputs(claimed: seq<byte>, truth: seq<byte>)

  /** Two inputs to compare when a claimed path reaches the true root: `p` is
      the claimed input of the hash at node `cur`, `q` the true one. The search
      goes up until the hashes agree on different inputs. */
  function FindCollision(h: Hash, level: seq<Digest>, cur: nat, p: seq<byte>, q: seq<byte>, proof: seq<Digest>)
    : Inputs
    requires cur < |level|
    decreases |level|
  {
    if (h(p) == h(q) && p != q) || |level| == 1 then Inputs(p, q)
    else if Sibling(cur) < |level| && proof != [] then
      FindCollision(h, Reduce(h, level), cur / 2,
                    Join(cur, h(p), proof[0]), Join(cur, h(q), level[Sibling(cur)]), proof[1..])
    else FindCollision(h, Reduce(h, level), cur / 2, p, q, proof)
  }

  predicate Collides(h: Hash, pair: Inputs)
  {
    pair.claimed != pair.truth && h(pair.claimed) == h(pair.truth)
  }

  lemma {:induction false} JoinInjective(cur: nat, a: Digest, b: Digest, c: Digest, d: Digest)
    requires Join(cur, a, b) == Join(cur, c, d)
    ensures a == c && b == d
  {
    var x, y := Join(cur, a, b), Join(cur, c, d);
    assert x[1..33] == if cur % 2 == 0 then a else b;
    assert y[1..33] == if cur % 2 == 0 then c else d;
    assert x[33..] == if cur % 2 == 0 then b else a;
    assert y[33..] == if cur % 2 == 0 then d else c;
  }

  lemma {:induction false} ClimbIsUnique(h: Hash, level: seq<Digest>, cur: nat, p: seq<byte>, q: seq<byte>,
                                         proof: seq<Digest>)
    requires cur < |level| && h(q) == level[cur]
    requires Climb(h, h(p), |level|, cur, proof) == Some(Root(h, level))
    ensures (p == q && proof == Siblings(h, level, cur)) || Collides(h, FindCollision(h, level, cur, p, q, proof))
    decreases |level|
  {
    if (h(p) == h(q) && p != q) || |level| == 1 {
    } else {
      var next := Reduce(h, level);
      ReduceAt(h, level, cur);
      if Sibling(cur) < |level| {
        var p', q' := Join(cur, h(p), proof[0]), Join(cur, h(q), level[Sibling(cur)]);
        ClimbIsUnique(h, next, cur / 2, p', q', proof[1..]);
        if p' == q' {
          JoinInjective(cur, h(p), proof[0], h(q), level[Sibling(cur)]);
        }
      } else {
        ClimbIsUnique(h, next, cur / 2, p, q, proof);
      }
    }
  }

  /** Soundness: against the true root and chunk count, a verifier accepts only
      the true chunk with the one true proof, or else the function
      `FindCollision` turns what it accepted into two different inputs with the
      same hash. */
  lemma {:induction false} AcceptedIsTrueOrCollides(h: Hash, bytes: seq<byte>, root: Digest, index: nat,
                                                    chunk: seq<byte>, proof: seq<Digest>)
    requires var t := FromBytes(h, bytes);
      TreeRoot(h, t) == Some(root) && Verify(h, root, |t.leaves|, index, chunk, proof)
    ensures index < |Chunks(bytes)|
    ensures var t := FromBytes(h, bytes); var truth := Chunks(bytes)[index];
      (chunk == truth && Prove(h, t, index) == Some(proof))
      || Collides(h, FindCollision(h, t.leaves, index, LeafInput(chunk), LeafInput(truth), proof))
  {
    var truth := Chunks(bytes)[index];
    ClimbIsUnique(h, FromBytes(h, bytes).leaves, index, LeafInput(chunk), LeafInput(truth), proof);
    assert LeafInput(chunk)[1..] == chunk && LeafInput(truth)[1..] == truth;
  }

  // ------------------------------------------------------------------
  // Chunking
  // ------------------------------------------------------------------

  /** Whole chunks at the front do not influence how the rest is cut. */
  lemma {:induction false} ChunksAppend(a: seq<byte>, b: seq<byte>)
    requires |a| % CHUNK_SIZE == 0
    ensures Chunks(a + b) == Chunks(a) + Chunks(b)
    decreases |a|
  {
    if a == [] {
      assert a + b == b;
    } else {
      var t := a[CHUNK_SIZE..];
      ChunksAppend(t, b);
      assert (a + b)[..CHUNK_SIZE] == a[..CHUNK_SIZE];
      assert (a + b)[CHUNK_SIZE..] == t + b;
      if t == [] {
        assert a == a[..CHUNK_SIZE];
        assert t + b == b;
        if b == [] { assert a + b == a; }
      }
    }
  }

  lemma {:induction false} LeafHashesAppend(h: Hash, a: seq<seq<byte>>, b: seq<seq<byte>>)
    ensures LeafHashes(h, a + b) == LeafHashes(h, a) + LeafHashes(h, b)
  {
  }

  function Concat(pieces: seq<seq<byte>>): seq<byte>
  {
    if pieces == [] then [] else pieces[0] + Concat(pieces[1..])
  }

  /** Cutting a blob into chunks loses nothing; every chunk but the last is full,
      and the last one is exactly when the size is a multiple of the chunk size. */
  lemma {:induction false} ChunksShape(bytes: seq<byte>)
    ensures var c := Chunks(bytes);
      Concat(c) == bytes
      && (forall i :: 0 <= i < |c| - 1 ==> |c[i]| == CHUNK_SIZE)
      && (bytes != [] ==> c != [] && (|c[|c| - 1]| == CHUNK_SIZE <==> |bytes| % CHUNK_SIZE == 0))
      && (|bytes| > CHUNK_SIZE ==> |c| > 1)
    decreases |bytes|
  {
    if |bytes| > CHUNK_SIZE {
      var head, t := bytes[..CHUNK_SIZE], bytes[CHUNK_SIZE..];
      ChunksShape(t);
      assert bytes == head + t;
    }
  }
}
