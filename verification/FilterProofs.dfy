/** Reading a filter undoes writing it, in whatever order the pairs arrive and whatever
    unknown pairs stand among them. */
module FilterProofs {
  import opened Wrappers
  import opened Bytes
  import opened FrameCodec
  import opened Filters

  lemma {:induction false} UintsRoundTrip(xs: seq<u64>)
    ensures Uints(UintValues(xs)) == Some(xs)
  {
    if xs != [] {
      UintsRoundTrip(xs[1..]);
      assert UintValues(xs)[1..] == UintValues(xs[1..]);
      assert xs == [xs[0]] + xs[1..];
    }
  }

  lemma {:induction false} UintsExact(items: seq<Value>)
    requires Uints(items).Some?
    ensures UintValues(Uints(items).value) == items
  {
    if items != [] {
      UintsExact(items[1..]);
      assert Uints(items).value[1..] == Uints(items[1..]).value;
      assert items == [items[0]] + items[1..];
    }
  }

  lemma {:induction false} DigestsRoundTrip(xs: seq<Digest>)
    ensures Digests(DigestValues(xs)) == Some(xs)
  {
    if xs != [] {
      DigestsRoundTrip(xs[1..]);
      assert DigestValues(xs)[1..] == DigestValues(xs[1..]);
      assert xs == [xs[0]] + xs[1..];
    }
  }

  lemma {:induction false} DigestsExact(items: seq<Value>)
    requires Digests(items).Some?
    ensures DigestValues(Digests(items).value) == items
  {
    if items != [] {
      DigestsExact(items[1..]);
      assert Digests(items).value[1..] == Digests(items[1..]).value;
      assert items == [items[0]] + items[1..];
    }
  }

  /** The list readers accept exactly what the list writers write. */
  lemma {:induction false} ListsExact(v: Value, xs: Option<Vec<u64>>, ds: Option<Vec<Digest>>)
    ensures xs.Some? ==> (UintList(v) == xs <==> UintListValue(xs) == Some(v))
    ensures ds.Some? ==> (DigestList(v) == ds <==> DigestListValue(ds) == Some(v))
  {
    hide Uints, UintValues, Digests, DigestValues;
    if xs.Some? { UintsRoundTrip(xs.value); }
    if ds.Some? { DigestsRoundTrip(ds.value); }
    if v.Array? {
      if Uints(v.items).Some? { UintsExact(v.items); }
      if Digests(v.items).Some? { DigestsExact(v.items); }
    }
  }

  // ------------------------------------------------------------------
  // One pair
  // ------------------------------------------------------------------

  predicate Known(p: Pair) { KeyOf(p.key).Some? }

  /** A pair says what the filter says, or its key is unknown. */
  predicate Fits(f: Filter, p: Pair)
  {
    Known(p) ==> FieldValue(f, KeyOf(p.key).value) == Some(p.val)
  }

  ghost predicate SameElsewhere(f: Filter, g: Filter, key: Key)
  {
    forall k :: k != key ==> FieldValue(f, k) == FieldValue(g, k)
  }

  /** Assigning a pair succeeds exactly when its value is one the field can
      take, and changes that field only. */
  lemma {:induction false} AssignFits(f: Filter, p: Pair, h: Filter)
    ensures !Known(p) ==> Assign(f, p) == Some(f)
    ensures Known(p) && Assign(f, p).Some? ==>
      Fits(Assign(f, p).value, p) && SameElsewhere(f, Assign(f, p).value, KeyOf(p.key).value)
    ensures Known(p) && Fits(h, p) ==> Assign(f, p).Some?
  {
    hide UintList, DigestList, UintListValue, DigestListValue, KeyOf;
    var g := Assign(f, p);
    if g.Some? {
      ListsExact(p.val, g.value.kinds, g.value.authors);
      ListsExact(p.val, None, g.value.refs);
      ListsExact(p.val, None, g.value.ids);
    }
    ListsExact(p.val, h.kinds, h.authors);
    ListsExact(p.val, None, h.refs);
    ListsExact(p.val, None, h.ids);
    NoValueNoList(h);
  }

  lemma {:induction false} NoValueNoList(f: Filter)
    ensures UintListValue(f.kinds).Some? <==> f.kinds.Some?
    ensures DigestListValue(f.authors).Some? <==> f.authors.Some?
    ensures DigestListValue(f.refs).Some? <==> f.refs.Some?
    ensures DigestListValue(f.ids).Some? <==> f.ids.Some?
  {
  }

  /** A filter is no more than the values of its fields. */
  lemma {:induction false} FieldsDecide(f: Filter, g: Filter)
    requires forall k :: FieldValue(f, k) == FieldValue(g, k)
    ensures f == g
  {
    hide UintValues, DigestValues;
    assert FieldValue(f, Kinds) == FieldValue(g, Kinds) && FieldValue(f, Authors) == FieldValue(g, Authors);
    assert FieldValue(f, Refs) == FieldValue(g, Refs) && FieldValue(f, Ids) == FieldValue(g, Ids);
    assert FieldValue(f, Since) == FieldValue(g, Since) && FieldValue(f, Limit) == FieldValue(g, Limit);
    if f.kinds.Some? && g.kinds.Some? { UintsRoundTrip(f.kinds.value); UintsRoundTrip(g.kinds.value); }
    if f.authors.Some? && g.authors.Some? { DigestsRoundTrip(f.authors.value); DigestsRoundTrip(g.authors.value); }
    if f.refs.Some? && g.refs.Some? { DigestsRoundTrip(f.refs.value); DigestsRoundTrip(g.refs.value); }
    if f.ids.Some? && g.ids.Some? { DigestsRoundTrip(f.ids.value); DigestsRoundTrip(g.ids.value); }
  }

  // ------------------------------------------------------------------
  // All pairs
  // ------------------------------------------------------------------

  predicate HasKey(pairs: seq<Pair>, key: Key)
  {
    exists i :: 0 <= i < |pairs| && KeyOf(pairs[i].key) == Some(key)
  }

  predicate DistinctTextKeys(pairs: seq<Pair>)
  {
    forall i, j :: 0 <= i < j < |pairs| ==> pairs[i].key != pairs[j].key
  }

  /** The pairs and the filter say the same. */
  ghost predicate Describes(pairs: seq<Pair>, f: Filter)
  {
    && (forall i :: 0 <= i < |pairs| ==> Fits(f, pairs[i]))
    && (forall k :: FieldValue(f, k).Some? ==> HasKey(pairs, k))
  }

  lemma {:induction false} HasKeyStep(pairs: seq<Pair>, key: Key)
    requires pairs != []
    ensures HasKey(pairs, key) <==> KeyOf(pairs[0].key) == Some(key) || HasKey(pairs[1..], key)
  {
    hide KeyOf;
    var rest := pairs[1..];
    if HasKey(rest, key) {
      var i :| 0 <= i < |rest| && KeyOf(rest[i].key) == Some(key);
      assert KeyOf(pairs[i + 1].key) == Some(key);
    }
    if HasKey(pairs, key) && KeyOf(pairs[0].key) != Some(key) {
      var i :| 0 <= i < |pairs| && KeyOf(pairs[i].key) == Some(key);
      assert KeyOf(rest[i - 1].key) == Some(key);
    }
  }

  lemma {:induction false} AssignDescribed(g: Filter, pairs: seq<Pair>, f: Filter)
    requires forall i :: 0 <= i < |pairs| ==> Fits(f, pairs[i])
    requires forall k :: FieldValue(g, k) == FieldValue(f, k) || HasKey(pairs, k)
    ensures AssignAll(g, pairs) == Some(f)
    decreases |pairs|
  {
    hide FieldValue, Assign, HasKey;
    if pairs == [] {
      assert forall k :: !HasKey([], k) by { NoKeys(); }
      FieldsDecide(g, f);
    } else {
      var p, rest := pairs[0], pairs[1..];
      AssignFits(g, p, f);
      var g' := Assign(g, p).value;
      forall k
        ensures FieldValue(g', k) == FieldValue(f, k) || HasKey(rest, k)
      {
        HasKeyStep(pairs, k);
      }
      AssignDescribed(g', rest, f);
    }
  }

  lemma NoKeys()
    ensures forall k :: !HasKey([], k)
  {
  }

  lemma {:induction false} AssignLeaves(g: Filter, pairs: seq<Pair>, k: Key)
    requires AssignAll(g, pairs).Some? && !HasKey(pairs, k)
    ensures FieldValue(AssignAll(g, pairs).value, k) == FieldValue(g, k)
    decreases |pairs|
  {
    hide FieldValue, Assign, HasKey;
    if pairs != [] {
      HasKeyStep(pairs, k);
      AssignFits(g, pairs[0], g);
      AssignLeaves(Assign(g, pairs[0]).value, pairs[1..], k);
    }
  }

  lemma {:induction false} NoOtherKey(pairs: seq<Pair>, k: Key)
    requires pairs != [] && DistinctTextKeys(pairs) && KeyOf(pairs[0].key) == Some(k)
    ensures !HasKey(pairs[1..], k)
  {
    hide KeyOf;
    var rest := pairs[1..];
    if HasKey(rest, k) {
      var i :| 0 <= i < |rest| && KeyOf(rest[i].key) == Some(k);
      assert pairs[0].key != pairs[i + 1].key;
      KeyOfName(k, rest[i].key);
      KeyOfName(k, pairs[0].key);
    }
  }

  lemma {:induction false} AssignedFits(g: Filter, pairs: seq<Pair>)
    requires AssignAll(g, pairs).Some? && DistinctTextKeys(pairs)
    ensures forall i :: 0 <= i < |pairs| ==> Fits(AssignAll(g, pairs).value, pairs[i])
    decreases |pairs|
  {
    hide FieldValue, Assign;
    if pairs != [] {
      var p, rest := pairs[0], pairs[1..];
      var f := AssignAll(g, pairs).value;
      AssignFits(g, p, g);
      AssignedFits(Assign(g, p).value, rest);
      if Known(p) {
        NoOtherKey(pairs, KeyOf(p.key).value);
        AssignLeaves(Assign(g, p).value, rest, KeyOf(p.key).value);
      }
      forall i | 0 <= i < |pairs|
        ensures Fits(f, pairs[i])
      {
        if i > 0 { assert rest[i - 1] == pairs[i]; }
      }
    }
  }

  /** Reading a map of distinct keys, exactly: it gives the one filter that says
      what the map's known keys say, and nothing else. */
  lemma {:induction false} ReadsExactly(pairs: Vec<Pair>, f: Filter)
    requires DistinctTextKeys(pairs)
    ensures FromValue(Map(pairs)) == Some(f) <==> Describes(pairs, f)
  {
    hide Assign, HasKey, AssignAll;
    DefaultFields();
    if Describes(pairs, f) {
      AssignDescribed(DEFAULT, pairs, f);
    }
    if FromValue(Map(pairs)) == Some(f) {
      AssignedFits(DEFAULT, pairs);
      forall k | FieldValue(f, k).Some?
        ensures HasKey(pairs, k)
      {
        if !HasKey(pairs, k) { AssignLeaves(DEFAULT, pairs, k); }
      }
    }
  }

  lemma DefaultFields()
    ensures forall k :: FieldValue(DEFAULT, k) == None
  {
  }

  // ------------------------------------------------------------------
  // The pairs a filter writes
  // ------------------------------------------------------------------

  lemma {:induction false} PresentMembers(f: Filter, keys: seq<Key>)
    ensures forall p :: p in PresentPairs(f, keys) <==> Known(p) && KeyOf(p.key).value in keys && Fits(f, p)
  {
    hide FieldValue, KeyOf, KeyName;
    if keys != [] {
      PresentMembers(f, keys[1..]);
      assert keys == [keys[0]] + keys[1..];
      forall v
        ensures KeyOf(v) == Some(keys[0]) <==> v == Text(KeyName(keys[0]))
      {
        KeyOfName(keys[0], v);
      }
    }
  }

  lemma {:induction false} PresentDistinct(f: Filter, keys: seq<Key>)
    requires forall i, j :: 0 <= i < j < |keys| ==> keys[i] != keys[j]
    ensures DistinctTextKeys(PresentPairs(f, keys))
  {
    hide FieldValue, KeyOf, KeyName;
    if keys != [] {
      PresentDistinct(f, keys[1..]);
      PresentMembers(f, keys[1..]);
      var t := PresentPairs(f, keys[1..]);
      forall i | 0 <= i < |t|
        ensures t[i].key != Text(KeyName(keys[0]))
      {
        assert t[i] in t;
        KeyOfName(keys[0], t[i].key);
      }
    }
  }

  lemma AllKeys()
    ensures forall k :: k in KEYS
    ensures forall i, j :: 0 <= i < j < |KEYS| ==> KEYS[i] != KEYS[j]
  {
    assert KEYS[0] == Kinds && KEYS[1] == Authors && KEYS[2] == Refs && KEYS[3] == Ids && KEYS[4] == Since && KEYS[5] == Limit;
    forall k ensures k in KEYS {
      match k
      case Kinds =>
      case Authors =>
      case Refs =>
      case Ids =>
      case Since =>
      case Limit =>
    }
  }

  /** Written and read back, a filter is itself: in whatever order the pairs
      come, and whatever unknown pairs come along. */
  lemma {:induction false} ReadsWritten(f: Filter, pairs: Vec<Pair>)
    requires forall p :: p in PresentPairs(f, KEYS) <==> p in pairs && Known(p)
    ensures FromValue(Map(pairs)) == Some(f)
  {
    hide FieldValue, Assign, PresentPairs, AssignAll, KeyOf, KeyName;
    AllKeys();
    PresentMembers(f, KEYS);
    DefaultFields();
    forall i | 0 <= i < |pairs|
      ensures Fits(f, pairs[i])
    {
      assert pairs[i] in pairs;
    }
    forall k | FieldValue(f, k).Some?
      ensures HasKey(pairs, k)
    {
      var p := Pair(Text(KeyName(k)), FieldValue(f, k).value);
      KeyOfName(k, p.key);
      assert p in PresentPairs(f, KEYS);
      assert p in pairs;
    }
    AssignDescribed(DEFAULT, pairs, f);
  }

  /** `from_value(to_value(f)) = f`. */
  lemma {:induction false} FilterRoundTrip(f: Filter)
    ensures FromValue(ToValue(f)) == Some(f)
  {
    hide FieldValue, Assign, AssignAll, KeyOf, PresentPairs;
    AllKeys();
    PresentMembers(f, KEYS);
    ReadsWritten(f, PresentPairs(f, KEYS));
  }
}
