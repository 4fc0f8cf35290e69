/** `blob.rs` and the `BlobHasher` of the WebAssembly bindings, as they run. */
module BlobImpl {
  import opened Wrappers
  import opened Bytes
  import opened Blob

  // ------------------------------------------------------------------
  // Trees and proofs
  // ------------------------------------------------------------------

  method ReduceLevel(h: Hash, level: seq<Digest>) returns (next: seq<Digest>)
    ensures next == Reduce(h, level)
  {
    hide *;
    next := [];
    var i := 0;
    NothingReduced(h, level);
    while i + 1 < |level|
      invariant 0 <= i <= |level|
      invariant Reduce(h, level) == next + Reduce(h, level[i..])
    {
      ReduceFrom(h, level, i, next);
      next := next + [NodeHash(h, level[i], level[i + 1])];
      i := i + 2;
    }
    LastOrNone(h, level, i);
    if i < |level| {
      next := next + [level[i]];
    }
  }

  lemma NothingReduced(h: Hash, level: seq<Digest>)
    ensures [] + Reduce(h, level[0..]) == Reduce(h, level)
  {
    hide Reduce;
    assert level[0..] == level;
  }

  lemma {:induction false} ReduceFrom(h: Hash, level: seq<Digest>, i: nat, next: seq<Digest>)
    requires i + 1 < |level|
    ensures next + Reduce(h, level[i..])
         == next + [NodeHash(h, level[i], level[i + 1])] + Reduce(h, level[i + 2..])
  {
    hide NodeHash, Reduce;
    assert level[i..] == [level[i], level[i + 1]] + level[i + 2..];
    ReducePair(h, level[i], level[i + 1], level[i + 2..]);
  }

  lemma LastOrNone(h: Hash, level: seq<Digest>, i: nat)
    requires i <= |level| <= i + 1
    ensures Reduce(h, level[i..]) == if i < |level| then [level[i]] else []
  {
  }

  /** The root of a tree is the RFC 6962 tree hash of its leaves. */
  method ComputeRoot(h: Hash, t: ChunkTree) returns (r: Option<Digest>)
    ensures r == TreeRoot(h, t)
    ensures r == if t.leaves == [] then None else Some(MerkleTreeHash(h, t.leaves))
  {
    if t.leaves == [] {
      return None;
    }
    var level := t.leaves;
    while |level| > 1
      invariant level != [] && Root(h, level) == Root(h, t.leaves)
      decreases |level|
    {
      level := ReduceLevel(h, level);
    }
    RootIsMerkleTreeHash(h, t.leaves);
    r := Some(level[0]);
  }

  method ComputeProof(h: Hash, t: ChunkTree, index: nat) returns (r: Option<seq<Digest>>)
    ensures r == Prove(h, t, index)
  {
    if index >= |t.leaves| {
      return None;
    }
    var proof: seq<Digest> := [];
    var level: seq<Digest> := t.leaves;
    var cur: nat := index;
    while |level| > 1
      invariant cur < |level|
      invariant Siblings(h, t.leaves, index) == proof + Siblings(h, level, cur)
      decreases |level|
    {
      var sibling := Sibling(cur);
      if sibling < |level| {
        proof := proof + [level[sibling]];
      }
      cur := cur / 2;
      level := ReduceLevel(h, level);
    }
    assert proof + [] == proof;
    r := Some(proof);
  }

  method VerifyChunk(h: Hash, root: Digest, n: nat, index: nat, chunk: seq<byte>, proof: seq<Digest>)
    returns (ok: bool)
    ensures ok == Verify(h, root, n, index, chunk, proof)
  {
    if index >= n {
      return false;
    }
    var node: Digest := LeafHash(h, chunk);
    var len: nat, cur: nat, used: nat := n, index, 0;
    assert proof[0..] == proof;
    while len > 1
      invariant used <= |proof|
      invariant Climb(h, LeafHash(h, chunk), n, index, proof) == Climb(h, node, len, cur, proof[used..])
      decreases len
    {
      var sibling := Sibling(cur);
      if sibling < len {
        if used == |proof| {
          return false;
        }
        var sib := proof[used];
        assert proof[used..][1..] == proof[used + 1..];
        used := used + 1;
        node := if cur % 2 == 0 then NodeHash(h, node, sib) else NodeHash(h, sib, node);
      }
      cur := cur / 2;
      len := (len + 1) / 2;
    }
    ok := used == |proof| && node == root;
  }

  // ------------------------------------------------------------------
  // Streaming
  // ------------------------------------------------------------------

  /** What the next read call does besides delivering bytes. */
  datatype ReadEvent = Interrupted | Failed | Short(n: nat)

  datatype ReadResult = Got(n: nat) | WasInterrupted | Broke

  /** A reader over `data` that misbehaves as its script says: it may deliver
      fewer bytes than asked for, be interrupted, or fail. */
  class Reader {
    var data: seq<byte>
    var script: seq<ReadEvent>

    constructor (data: seq<byte>, script: seq<ReadEvent>)
      ensures this.data == data && this.script == script
    {
      this.data := data;
      this.script := script;
    }

    /** Read into `buf[from..]`; 0 bytes mean the end of the data. */
    method Read(buf: array<byte>, from: nat) returns (r: ReadResult)
      requires from < buf.Length
      modifies this, buf
      ensures r.WasInterrupted? ==> old(script) != [] && script == old(script)[1..]
      ensures r.Broke? ==> Failed in old(script)
      ensures !r.Got? ==> data == old(data) && buf[..] == old(buf[..])
      ensures r.Got? ==>
        r.n <= |old(data)| && from + r.n <= buf.Length && (r.n == 0 <==> old(data) == [])
        && data == old(data)[r.n..]
        && buf[..from + r.n] == old(buf[..from]) + old(data)[..r.n]
      ensures |script| <= |old(script)| && forall e :: e in script ==> e in old(script)
    {
      var n := if buf.Length - from <= |data| then buf.Length - from else |data|;
      if script != [] {
        var event := script[0];
        script := script[1..];
        if event.Interrupted? { return WasInterrupted; }
        if event.Failed? { return Broke; }
        n := if 0 < event.n < n then event.n else n;
      }
      forall i | 0 <= i < n { buf[from + i] := data[i]; }
      data := data[n..];
      r := Got(n);
    }
  }

  function Min(a: nat, b: nat): nat { if a <= b then a else b }

  /** Fill `buf` from the front until it is full or the data ends, whatever the
      reads deliver. Only a failing read makes it fail. */
  method FillBuf(reader: Reader, buf: array<byte>) returns (r: Option<nat>)
    modifies reader, buf
    ensures r.None? ==> Failed in old(reader.script)
    ensures r.Some? ==>
      r.value == Min(buf.Length, |old(reader.data)|)
      && buf[..r.value] == old(reader.data)[..r.value] && reader.data == old(reader.data)[r.value..]
    ensures forall e :: e in reader.script ==> e in old(reader.script)
  {
    var filled := 0;
    while filled < buf.Length
      invariant filled <= buf.Length && filled <= |old(reader.data)|
      invariant buf[..filled] == old(reader.data)[..filled] && reader.data == old(reader.data)[filled..]
      invariant forall e :: e in reader.script ==> e in old(reader.script)
      decreases |reader.script| + buf.Length - filled
    {
      var got := reader.Read(buf, filled);
      match got
      case Broke => return None;
      case WasInterrupted =>
      case Got(n) =>
        if n == 0 { break; }
        filled := filled + n;
    }
    r := Some(filled);
  }

  lemma NoChunks(h: Hash)
    ensures LeafHashes(h, Chunks([])) == []
  {
  }

  lemma {:induction false} NextChunk(h: Hash, data: seq<byte>, n: nat)
    requires 0 < n == Min(CHUNK_SIZE, |data|)
    ensures LeafHashes(h, Chunks(data)) == [LeafHash(h, data[..n])] + LeafHashes(h, Chunks(data[n..]))
  {
    if n == |data| { assert data[..n] == data; }
  }

  /** `ChunkTree::build`: over any schedule of short and interrupted reads the
      result is the tree of the whole data; only a failing read prevents it. */
  method Build(h: Hash, reader: Reader) returns (r: Option<ChunkTree>)
    modifies reader
    ensures r.None? ==> Failed in old(reader.script)
    ensures r.Some? ==> r.value == FromBytes(h, old(reader.data))
  {
    hide Chunks, LeafHashes;
    var leaves: seq<Digest> := [];
    var size := 0;
    var buf := new byte[CHUNK_SIZE];
    ghost var data := reader.data;
    assert leaves + LeafHashes(h, Chunks(data)) == LeafHashes(h, Chunks(data));
    while true
      invariant size + |reader.data| == |data| && fresh(buf)
      invariant LeafHashes(h, Chunks(data)) == leaves + LeafHashes(h, Chunks(reader.data))
      invariant forall e :: e in reader.script ==> e in old(reader.script)
      decreases |data| - size
    {
      ghost var left := reader.data;
      var n := FillBuf(reader, buf);
      if n.None? { return None; }
      if n.value == 0 { break; }
      NextChunk(h, left, n.value);
      leaves := leaves + [LeafHash(h, buf[..n.value])];
      size := size + n.value;
      if n.value < CHUNK_SIZE { break; }
    }
    NoChunks(h);
    r := Some(ChunkTree(leaves, size));
  }

  // ------------------------------------------------------------------
  // The incremental hasher
  // ------------------------------------------------------------------

  class BlobHasher {
    const h: Hash
    var fed: seq<byte>        // what the running BLAKE3 state has absorbed
    var leaves: seq<Digest>
    var pending: seq<byte>
    var size: nat
    var finished: bool
    var root: Option<Digest>

    /** While open: the leaves cover the whole chunks fed so far and the rest
        is pending. Once finished: everything agrees with the one-shot tree. */
    ghost predicate Valid()
      reads this
    {
      size == |fed|
      && (if finished
          then leaves == FromBytes(h, fed).leaves && root == TreeRoot(h, FromBytes(h, fed))
          else |pending| < CHUNK_SIZE && |pending| <= |fed| && fed[|fed| - |pending|..] == pending
               && (|fed| - |pending|) % CHUNK_SIZE == 0
               && leaves == LeafHashes(h, Chunks(fed[..|fed| - |pending|])))
    }

    constructor (h: Hash)
      ensures Valid() && !finished && fed == [] && this.h == h
    {
      this.h := h;
      fed, leaves, pending, size, finished, root := [], [], [], 0, false, None;
    }

    method Update(bytes: seq<byte>) returns (ok: bool)
      requires Valid()
      modifies this
      ensures Valid() && finished == old(finished) && ok == !finished
      ensures fed == if ok then old(fed) + bytes else old(fed)
    {
      if finished {
        return false;
      }
      hide Chunks, LeafHashes, LeafHash;
      ghost var whole := fed[..|fed| - |pending|];
      assert fed == whole + pending;
      fed := fed + bytes;
      size := size + |bytes|;
      var rest := bytes;
      assert whole + pending + bytes == whole + (pending + rest);
      while rest != []
        invariant !finished && fed == old(fed) + bytes && size == |fed| && |pending| < CHUNK_SIZE
        invariant fed == whole + (pending + rest)
        invariant |whole| % CHUNK_SIZE == 0 && leaves == LeafHashes(h, Chunks(whole))
        decreases |rest|
      {
        rest, whole := Absorb(rest, whole);
      }
      assert pending + rest == pending;
      assert fed[..|fed| - |pending|] == whole;
      ok := true;
    }

    /** One turn of the update loop: top up the pending chunk, and hash it when it
        is full. */
    method Absorb(rest: seq<byte>, ghost whole: seq<byte>) returns (left: seq<byte>, ghost covered: seq<byte>)
      requires rest != [] && |pending| < CHUNK_SIZE
      requires |whole| % CHUNK_SIZE == 0 && leaves == LeafHashes(h, Chunks(whole))
      modifies this`leaves, this`pending
      ensures |left| < |rest| && |pending| < CHUNK_SIZE
      ensures covered + (pending + left) == whole + (old(pending) + rest)
      ensures |covered| % CHUNK_SIZE == 0 && leaves == LeafHashes(h, Chunks(covered))
    {
      hide Chunks, LeafHashes, LeafHash;
      var take := Min(CHUNK_SIZE - |pending|, |rest|);
      Refill(whole, pending, rest, take);
      covered := whole;
      pending := pending + rest[..take];
      left := rest[take..];
      if |pending| == CHUNK_SIZE {
        leaves := leaves + [LeafHash(h, pending)];
        ChunkLeaf(h, whole, pending);
        covered := whole + pending;
        pending := [];
      }
    }

    method Finalize() returns (ok: bool)
      requires Valid()
      modifies this
      ensures Valid() && finished && ok == !old(finished) && fed == old(fed)
    {
      if finished {
        return false;
      }
      ghost var whole := fed[..|fed| - |pending|];
      assert fed == whole + pending;
      if pending != [] {
        leaves := leaves + [LeafHash(h, pending)];
        ChunkLeaf(h, whole, pending);
        pending := [];
      } else {
        assert fed == whole;
      }
      var level: seq<Digest> := leaves;
      if level == [] {
        root := None;
      } else {
        while |level| > 1
          invariant level != [] && Root(h, level) == Root(h, leaves)
          decreases |level|
          modifies {}
        {
          level := ReduceLevel(h, level);
        }
        root := Some(level[0]);
      }
      finished := true;
      ok := true;
    }
  }

  lemma Refill(whole: seq<byte>, pending: seq<byte>, rest: seq<byte>, take: nat)
    requires take <= |rest|
    ensures whole + (pending + rest) == whole + (pending + rest[..take] + rest[take..])
    ensures whole + (pending + rest) == whole + (pending + rest[..take]) + ([] + rest[take..])
  {
    assert rest == rest[..take] + rest[take..];
  }

  lemma ChunkLeaf(h: Hash, whole: seq<byte>, last: seq<byte>)
    requires |whole| % CHUNK_SIZE == 0 && 0 < |last| <= CHUNK_SIZE
    ensures LeafHashes(h, Chunks(whole + last)) == LeafHashes(h, Chunks(whole)) + [LeafHash(h, last)]
  {
    ChunksAppend(whole, last);
    LeafHashesAppend(h, Chunks(whole), [last]);
  }

  lemma ConcatStep(fed: seq<byte>, rest: seq<seq<byte>>)
    requires rest != []
    ensures fed + Concat(rest) == fed + rest[0] + Concat(rest[1..])
  {
  }

  /** Any way of cutting a blob into updates gives the one-shot result. */
  method HashPieces(h: Hash, pieces: seq<seq<byte>>) returns (hasher: BlobHasher)
    ensures hasher.finished && hasher.fed == Concat(pieces)
    ensures var t := FromBytes(h, Concat(pieces));
      hasher.leaves == t.leaves && hasher.size == t.size && hasher.root == TreeRoot(h, t)
  {
    hide Chunks, LeafHashes, Root;
    hasher := new BlobHasher(h);
    var rest := pieces;
    assert [] + Concat(pieces) == Concat(pieces);
    while rest != []
      invariant hasher.Valid() && !hasher.finished && fresh(hasher) && hasher.h == h
      invariant Concat(pieces) == hasher.fed + Concat(rest)
      decreases |rest|
    {
      ConcatStep(hasher.fed, rest);
      var ok := hasher.Update(rest[0]);
      rest := rest[1..];
    }
    assert hasher.fed + Concat([]) == hasher.fed;
    var ok := hasher.Finalize();
  }
}
