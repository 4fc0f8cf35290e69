/** The relay's codec and the kernel's agree: same bytes written, same bytes
    accepted, same values. */
module FrameCodecProofs {
  import opened Wrappers
  import opened Bytes
  import opened FrameCodec
  import Kernel = Codec
  import CodecProofs

  lemma {:induction false} LiftHasNoNegatives(v: Value)
    ensures NoNegatives(Lift(v))
    decreases v
  {
    match v
    case Array(items) => LiftAllHasNoNegatives(items);
    case Map(pairs) => LiftPairsHaveNoNegatives(pairs);
    case _ =>
  }

  lemma {:induction false} LiftAllHasNoNegatives(items: seq<Value>)
    ensures NoNegativesAll(LiftAll(items))
    decreases items
  {
    if items != [] {
      LiftHasNoNegatives(items[0]);
      LiftAllHasNoNegatives(items[1..]);
      assert LiftAll(items)[1..] == LiftAll(items[1..]);
    }
  }

  lemma {:induction false} LiftPairsHaveNoNegatives(pairs: seq<Pair>)
    ensures NoNegativesEntries(LiftPairs(pairs))
    decreases pairs
  {
    if pairs != [] {
      assert pairs[0].key < pairs[0] && pairs[0].val < pairs[0];
      LiftHasNoNegatives(pairs[0].key);
      LiftHasNoNegatives(pairs[0].val);
      LiftPairsHaveNoNegatives(pairs[1..]);
      assert LiftPairs(pairs)[1..] == LiftPairs(pairs[1..]);
    }
  }

  lemma {:induction false} LiftInjective(v: Value, w: Value)
    requires Lift(v) == Lift(w)
    ensures v == w
    decreases v
  {
    match v
    case Array(items) => LiftAllInjective(items, w.items);
    case Map(pairs) => LiftPairsInjective(pairs, w.pairs);
    case _ =>
  }

  lemma {:induction false} LiftAllInjective(xs: seq<Value>, ys: seq<Value>)
    requires LiftAll(xs) == LiftAll(ys)
    ensures xs == ys
    decreases xs
  {
    if xs != [] {
      assert |LiftAll(ys)| == |xs|;
      assert LiftAll(xs)[0] == Lift(xs[0]) && LiftAll(ys)[0] == Lift(ys[0]);
      assert LiftAll(xs)[1..] == LiftAll(xs[1..]) && LiftAll(ys)[1..] == LiftAll(ys[1..]);
      LiftInjective(xs[0], ys[0]);
      LiftAllInjective(xs[1..], ys[1..]);
      assert xs == [xs[0]] + xs[1..] && ys == [ys[0]] + ys[1..];
    }
  }

  lemma {:induction false} LiftPairsInjective(xs: seq<Pair>, ys: seq<Pair>)
    requires LiftPairs(xs) == LiftPairs(ys)
    ensures xs == ys
    decreases xs
  {
    if xs != [] {
      assert |LiftPairs(ys)| == |xs|;
      assert xs[0].key < xs[0] && xs[0].val < xs[0];
      assert LiftPairs(xs)[0] == Kernel.Entry(Lift(xs[0].key), Lift(xs[0].val));
      assert LiftPairs(ys)[0] == Kernel.Entry(Lift(ys[0].key), Lift(ys[0].val));
      assert LiftPairs(xs)[1..] == LiftPairs(xs[1..]) && LiftPairs(ys)[1..] == LiftPairs(ys[1..]);
      LiftInjective(xs[0].key, ys[0].key);
      LiftInjective(xs[0].val, ys[0].val);
      LiftPairsInjective(xs[1..], ys[1..]);
      assert xs == [xs[0]] + xs[1..] && ys == [ys[0]] + ys[1..];
    }
  }

  // ------------------------------------------------------------------
  // Writers
  // ------------------------------------------------------------------

  /** Where the kernel's encoder succeeds, the frame encoder writes the same
      bytes. */
  lemma {:induction false} WritersAgree(v: Value)
    requires Kernel.Encoding(Lift(v)).ok
    ensures Encoding(v) == Kernel.Encoding(Lift(v)).bytes
    decreases v
  {
    match v
    case Array(items) => WritersAgreeOnItems(items);
    case Map(pairs) =>
      hide Kernel.Head, Kernel.Flatten, SortByKey;
      WritersAgreeOnPairs(pairs);
    case _ =>
  }

  lemma {:induction false} WritersAgreeOnItems(items: seq<Value>)
    requires Kernel.EncodingAll(LiftAll(items)).ok
    ensures EncodingAll(items) == Kernel.EncodingAll(LiftAll(items)).bytes
    decreases items
  {
    if items != [] {
      assert LiftAll(items)[1..] == LiftAll(items[1..]);
      WritersAgree(items[0]);
      WritersAgreeOnItems(items[1..]);
    }
  }

  lemma {:induction false} WritersAgreeOnPairs(pairs: seq<Pair>)
    requires Kernel.EncodedPairs(LiftPairs(pairs)).Some?
    ensures EncodedPairs(pairs) == Kernel.EncodedPairs(LiftPairs(pairs)).value
    decreases pairs
  {
    hide Kernel.Encoding, Encoding;
    if pairs != [] {
      assert pairs[0].key < pairs[0] && pairs[0].val < pairs[0];
      assert LiftPairs(pairs)[1..] == LiftPairs(pairs[1..]);
      WritersAgree(pairs[0].key);
      WritersAgree(pairs[0].val);
      WritersAgreeOnPairs(pairs[1..]);
    }
  }

  // ------------------------------------------------------------------
  // Readers: what the frame decoder accepts
  // ------------------------------------------------------------------

  /** What the frame reader reads, the kernel's reader reads too, given room for
      its depth. */
  lemma {:induction false} KernelReads(s: seq<byte>, depth: nat, limit: nat)
    requires Parse(s).Some? && depth + Kernel.Depth(Lift(Parse(s).value.value)) <= limit
    ensures Kernel.Parse(s, depth, limit)
         == Some(Kernel.Parsed(Lift(Parse(s).value.value), Parse(s).value.used))
    decreases |s|, 1
  {
    hide Kernel.ReadArg, Kernel.DecodeText, ParseItems, ParsePairs, Kernel.ParseItems, Kernel.ParseEntries;
    var t, low := s[1..], s[0] % 32;
    if s[0] / 32 == 4 {
      var a := Kernel.ReadLength(t, low).value;
      KernelReadsItems(t[a.used..], a.value, depth + 1, limit);
    } else if s[0] / 32 == 5 {
      var a := Kernel.ReadLength(t, low).value;
      KernelReadsPairs(t[a.used..], a.value, None, depth + 1, limit);
    }
  }

  lemma {:induction false} KernelReadsItems(s: seq<byte>, count: nat, depth: nat, limit: nat)
    requires ParseItems(s, count).Some?
    requires depth + Kernel.DepthAll(LiftAll(ParseItems(s, count).value.value)) <= limit + 1
    ensures Kernel.ParseItems(s, count, depth, limit)
         == Some(Kernel.Parsed(LiftAll(ParseItems(s, count).value.value), ParseItems(s, count).value.used))
    decreases |s|, 2
  {
    hide Parse, Kernel.Parse, Kernel.Depth, Lift;
    if count > 0 {
      var h := Parse(s).value;
      var t := ParseItems(s[h.used..], count - 1).value;
      var all := LiftAll(ParseItems(s, count).value.value);
      assert ([h.value] + t.value)[1..] == t.value;
      assert all == [Lift(h.value)] + LiftAll(t.value);
      assert all[1..] == LiftAll(t.value);
      KernelReads(s, depth, limit);
      KernelReadsItems(s[h.used..], count - 1, depth, limit);
      CodecProofs.ParseItemsUnfold(s, Lift(h.value), LiftAll(t.value), h.used, t.used, depth, limit);
    }
  }

  /** The first pair of an accepted map and what follows it. */
  lemma {:induction false} PairsFold(s: seq<byte>, count: nat, prev: Option<seq<byte>>)
    returns (k: Kernel.Parsed<Value>, v: Kernel.Parsed<Value>, t: Kernel.Parsed<seq<Pair>>)
    requires count > 0 && ParsePairs(s, count, prev).Some?
    ensures k.used + v.used + t.used <= |s| && k.used >= 1
    ensures Parse(s) == Some(k) && (prev.Some? ==> LexLess(prev.value, s[..k.used]))
    ensures Parse(s[k.used..]) == Some(v)
    ensures ParsePairs(s[k.used + v.used..], count - 1, Some(s[..k.used])) == Some(t)
    ensures |t.value| == count - 1
    ensures ParsePairs(s, count, prev)
         == Some(Kernel.Parsed([Pair(k.value, v.value)] + t.value, k.used + v.used + t.used))
  {
    hide Parse, LexLess;
    k := Parse(s).value;
    v := Parse(s[k.used..]).value;
    t := ParsePairs(s[k.used + v.used..], count - 1, Some(s[..k.used])).value;
  }

  lemma {:induction false} PairsUnfold(s: seq<byte>, prev: Option<seq<byte>>, k: Kernel.Parsed<Value>,
                                       v: Kernel.Parsed<Value>, t: Kernel.Parsed<seq<Pair>>)
    requires k.used + v.used + t.used <= |s|
    requires Parse(s) == Some(k) && (prev.Some? ==> LexLess(prev.value, s[..k.used]))
    requires Parse(s[k.used..]) == Some(v)
    requires ParsePairs(s[k.used + v.used..], |t.value|, Some(s[..k.used])) == Some(t)
    ensures ParsePairs(s, |t.value| + 1, prev)
         == Some(Kernel.Parsed([Pair(k.value, v.value)] + t.value, k.used + v.used + t.used))
  {
    hide Parse, LexLess;
  }

  /** A lifted list of pairs is the lifted head before the lifted tail. */
  lemma {:induction false} LiftCons(p: Pair, ps: seq<Pair>)
    ensures var x := Kernel.Entry(Lift(p.key), Lift(p.val));
      LiftPairs([p] + ps) == [x] + LiftPairs(ps)
      && 1 + Kernel.Depth(x.key) <= Kernel.DepthEntries([x] + LiftPairs(ps))
      && 1 + Kernel.Depth(x.val) <= Kernel.DepthEntries([x] + LiftPairs(ps))
      && Kernel.DepthEntries(LiftPairs(ps)) <= Kernel.DepthEntries([x] + LiftPairs(ps))
      && (NoNegativesEntries([x] + LiftPairs(ps))
          <==> NoNegatives(x.key) && NoNegatives(x.val) && NoNegativesEntries(LiftPairs(ps)))
  {
    hide Lift, Kernel.Depth, NoNegatives;
    assert ([p] + ps)[1..] == ps;
    var x := Kernel.Entry(Lift(p.key), Lift(p.val));
    assert ([x] + LiftPairs(ps))[1..] == LiftPairs(ps);
  }

  lemma {:induction false} NoMorePairs(s: seq<byte>, prev: Option<seq<byte>>, depth: nat, limit: nat)
    ensures ParsePairs(s, 0, prev) == Some(Kernel.Parsed([], 0)) && LiftPairs([]) == []
    ensures Kernel.ParseEntries(s, 0, prev, depth, limit) == Some(Kernel.Parsed([], 0))
  {
  }

  lemma {:induction false} KernelReadsPairs(s: seq<byte>, count: nat, prev: Option<seq<byte>>, depth: nat, limit: nat)
    requires ParsePairs(s, count, prev).Some?
    requires depth + Kernel.DepthEntries(LiftPairs(ParsePairs(s, count, prev).value.value)) <= limit + 1
    ensures Kernel.ParseEntries(s, count, prev, depth, limit)
         == Some(Kernel.Parsed(LiftPairs(ParsePairs(s, count, prev).value.value), ParsePairs(s, count, prev).value.used))
    decreases |s|, 2
  {
    hide *;
    NoMorePairs(s, prev, depth, limit);
    if count > 0 {
      var k, v, t := PairsFold(s, count, prev);
      LiftCons(Pair(k.value, v.value), t.value);
      KernelReads(s, depth, limit);
      KernelReads(s[k.used..], depth, limit);
      KernelReadsPairs(s[k.used + v.used..], count - 1, Some(s[..k.used]), depth, limit);
      CodecProofs.ParseEntriesUnfold(s, prev, Kernel.Entry(Lift(k.value), Lift(v.value)), LiftPairs(t.value),
                                     k.used, v.used, t.used, depth, limit);
    }
  }

  // ------------------------------------------------------------------
  // Readers: what the kernel's decoder accepts
  // ------------------------------------------------------------------

  /** `p` and `q` hold the same value in the two representations. */
  ghost predicate SameValue(p: Option<Kernel.Parsed<Value>>, q: Option<Kernel.Parsed<Kernel.Value>>)
  {
    p.Some? && q.Some? && Lift(p.value.value) == q.value.value && p.value.used == q.value.used
  }

  ghost predicate SameItems(p: Option<Kernel.Parsed<seq<Value>>>, q: Option<Kernel.Parsed<seq<Kernel.Value>>>)
  {
    p.Some? && q.Some? && LiftAll(p.value.value) == q.value.value && p.value.used == q.value.used
  }

  ghost predicate SamePairs(p: Option<Kernel.Parsed<seq<Pair>>>, q: Option<Kernel.Parsed<seq<Kernel.Entry>>>)
  {
    p.Some? && q.Some? && LiftPairs(p.value.value) == q.value.value && p.value.used == q.value.used
  }

  /** What the kernel's reader reads without meeting a negative integer, the
      frame reader reads too. */
  lemma {:induction false} FrameReads(s: seq<byte>, depth: nat, limit: nat)
    requires Kernel.Parse(s, depth, limit).Some? && NoNegatives(Kernel.Parse(s, depth, limit).value.value)
    ensures SameValue(Parse(s), Kernel.Parse(s, depth, limit))
    decreases |s|, 1
  {
    hide Kernel.ReadArg, Kernel.DecodeText, ParseItems, ParsePairs, Kernel.ParseItems, Kernel.ParseEntries;
    var t, low := s[1..], s[0] % 32;
    if s[0] / 32 == 4 {
      var a := Kernel.ReadLength(t, low).value;
      FrameReadsItems(t[a.used..], a.value, depth + 1, limit);
    } else if s[0] / 32 == 5 {
      var a := Kernel.ReadLength(t, low).value;
      FrameReadsPairs(t[a.used..], a.value, None, depth + 1, limit);
    }
  }

  lemma {:induction false} FrameReadsItems(s: seq<byte>, count: nat, depth: nat, limit: nat)
    requires Kernel.ParseItems(s, count, depth, limit).Some?
    requires NoNegativesAll(Kernel.ParseItems(s, count, depth, limit).value.value)
    ensures SameItems(ParseItems(s, count), Kernel.ParseItems(s, count, depth, limit))
    decreases |s|, 2
  {
    hide Parse, Kernel.Parse, Lift, NoNegatives;
    if count > 0 {
      var h := Kernel.Parse(s, depth, limit).value;
      var t := Kernel.ParseItems(s[h.used..], count - 1, depth, limit).value;
      assert ([h.value] + t.value)[1..] == t.value;
      FrameReads(s, depth, limit);
      FrameReadsItems(s[h.used..], count - 1, depth, limit);
      var x, xs := Parse(s).value.value, ParseItems(s[h.used..], count - 1).value.value;
      assert ([x] + xs)[1..] == xs;
    }
  }

  lemma {:induction false} NoNegativesCons(x: Kernel.Entry, xs: seq<Kernel.Entry>)
    ensures NoNegativesEntries([x] + xs) <==> NoNegatives(x.key) && NoNegatives(x.val) && NoNegativesEntries(xs)
  {
    hide NoNegatives;
    assert ([x] + xs)[1..] == xs;
  }

  lemma {:induction false} SameFacts(p: Option<Kernel.Parsed<Value>>, q: Option<Kernel.Parsed<Kernel.Value>>,
                                     ps: Option<Kernel.Parsed<seq<Pair>>>, qs: Option<Kernel.Parsed<seq<Kernel.Entry>>>)
    ensures SameValue(p, q) ==>
      p.Some? && q.Some? && Lift(p.value.value) == q.value.value && p.value.used == q.value.used
    ensures SamePairs(ps, qs) <==>
      ps.Some? && qs.Some? && LiftPairs(ps.value.value) == qs.value.value && ps.value.used == qs.value.used
  {
  }

  lemma {:induction false} FrameReadsPairs(s: seq<byte>, count: nat, prev: Option<seq<byte>>, depth: nat, limit: nat)
    requires Kernel.ParseEntries(s, count, prev, depth, limit).Some?
    requires NoNegativesEntries(Kernel.ParseEntries(s, count, prev, depth, limit).value.value)
    ensures SamePairs(ParsePairs(s, count, prev), Kernel.ParseEntries(s, count, prev, depth, limit))
    decreases |s|, 2
  {
    hide *;
    var p, q := ParsePairs(s, count, prev), Kernel.ParseEntries(s, count, prev, depth, limit);
    if count == 0 {
      NoMorePairs(s, prev, depth, limit);
      SameFacts(None, None, p, q);
    } else {
      var k, v, t := CodecProofs.ParseEntriesFold(s, count, prev, depth, limit);
      var s', s'' := s[k.used..], s[k.used + v.used..];
      NoNegativesCons(Kernel.Entry(k.value, v.value), t.value);
      FrameReads(s, depth, limit);
      FrameReads(s', depth, limit);
      FrameReadsPairs(s'', count - 1, Some(s[..k.used]), depth, limit);
      var ps := ParsePairs(s'', count - 1, Some(s[..k.used]));
      SameFacts(Parse(s), Some(k), ps, Some(t));
      SameFacts(Parse(s'), Some(v), p, q);
      PairsUnfold(s, prev, Parse(s).value, Parse(s').value, ps.value);
      LiftCons(Pair(Parse(s).value.value, Parse(s').value.value), ps.value.value);
    }
  }

  // ------------------------------------------------------------------
  // Main results
  // ------------------------------------------------------------------

  /** Up to depth 64 the frame decoder accepts exactly what the kernel's decoder
      accepts without negative integers, and reads the same value. */
  lemma {:induction false} ReadersAgree(b: seq<byte>)
    ensures (Decode(b).Some? && Kernel.Depth(Lift(Decode(b).value)) <= Kernel.MAX_DEPTH)
       <==> (Kernel.Decode(b).Some? && NoNegatives(Kernel.Decode(b).value))
    ensures Decode(b).Some? && Kernel.Decode(b).Some? ==> Lift(Decode(b).value) == Kernel.Decode(b).value
  {
    hide Parse, Kernel.Parse, Lift, Kernel.Depth, NoNegatives;
    if Decode(b).Some? {
      var v := Lift(Decode(b).value);
      LiftHasNoNegatives(Decode(b).value);
      if Kernel.Depth(v) <= Kernel.MAX_DEPTH {
        KernelReads(b, 0, Kernel.MAX_DEPTH);
      } else if Kernel.Decode(b).Some? {
        // The kernel's value is as deep as the frame's: both encode to `b`.
        DecodedIsCanonical(b);
        CodecProofs.DecodeThenEncode(b);
        CodecProofs.CanonicalEncodingInjective(v, Kernel.Decode(b).value);
      }
    }
    if Kernel.Decode(b).Some? && NoNegatives(Kernel.Decode(b).value) {
      FrameReads(b, 0, Kernel.MAX_DEPTH);
      CodecProofs.DecodeThenEncode(b);
    }
  }

  lemma {:induction false} DecodedIsCanonical(b: seq<byte>)
    requires Decode(b).Some?
    ensures IsCanonical(Decode(b).value) && Kernel.Encode(Lift(Decode(b).value)) == Some(b)
  {
    hide Parse, Kernel.Parse, Lift, Kernel.Depth, Kernel.Encoding;
    var v := Decode(b).value;
    var limit := Kernel.Depth(Lift(v));
    KernelReads(b, 0, limit);
    CodecProofs.EncodeParsed(b, 0, limit);
    assert b[..|b|] == b;
  }

  /** Strictness, at any depth: accepted bytes are the one encoding of the value
      they decode to. */
  lemma {:induction false} DecodeThenEncode(b: seq<byte>)
    requires Decode(b).Some?
    ensures Encoding(Decode(b).value) == b && IsCanonical(Decode(b).value)
  {
    hide Parse, Lift, Encoding, Kernel.Encoding;
    DecodedIsCanonical(b);
    WritersAgree(Decode(b).value);
  }

  /** The exact domain of the round trip: the encoder's output is read back as
      the value it was given exactly when every map has its keys unique and in
      order. */
  lemma {:induction false} EncodeThenDecode(v: Value)
    ensures Decode(Encoding(v)) == Some(v) <==> IsCanonical(v)
  {
    hide Parse, Kernel.Parse, Lift, Encoding, Kernel.Encoding, NoNegatives, Kernel.Depth;
    if Decode(Encoding(v)) == Some(v) {
      DecodeThenEncode(Encoding(v));
    }
    if IsCanonical(v) {
      CodecProofs.CanonicalEncodes(Lift(v));
      CodecProofs.CanonicalOfCanonical(Lift(v));
      DecodeOfEncoded(v, v);
    }
  }

  /** Encoding any value whose maps have unique keys and reading it back only
      puts its maps in order. */
  lemma {:induction false} DecodeOfEncoded(v: Value, c: Value)
    requires Kernel.Encode(Lift(v)).Some? && Lift(c) == Kernel.Canonical(Lift(v))
    ensures Decode(Encoding(v)) == Some(c)
  {
    hide Parse, Kernel.Parse, Lift, Encoding, Kernel.Encoding, NoNegatives, Kernel.Depth, Kernel.Canonical;
    var w, limit := Lift(c), Kernel.Depth(Lift(c));
    CodecProofs.CanonicalIsCanonical(Lift(v));
    CodecProofs.CanonicalKeepsEncoding(Lift(v));
    CodecProofs.DecodeOfCanonical(w, limit);
    WritersAgree(v);
    var b := Encoding(v);
    LiftHasNoNegatives(c);
    FrameReads(b, 0, limit);
    LiftInjective(Decode(b).value, c);
  }
}
