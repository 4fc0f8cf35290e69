/** Records in JSON (`record.rs`): rendered from the envelope's value, and parsed
    back through its canonical bytes. The JSON form is thus as strict as the
    CBOR form: it yields only records that survive the binary wire form, and
    carries exactly those of them whose body is fit for JSON. */
module RecordJson {
  import opened Wrappers
  import opened Bytes
  import opened Codec
  import opened CodecProofs
  import opened Record
  import opened Json
  import opened JsonProofs

  /** `Record::to_json`. */
  function RecordToJson(r: Record, debug: Value -> string): string
  {
    ToJson(ToValue(r, true), debug)
  }

  /** `Record::from_json`. */
  function RecordFromJson(s: string): Option<Record>
  {
    var v :- FromJson(s);
    var b :- Encode(v);
    FromCbor(b)
  }

  // ------------------------------------------------------------------
  // Which envelopes JSON can carry
  // ------------------------------------------------------------------

  lemma {:induction false} JsonableEach(entries: seq<Entry>)
    ensures EntriesJsonable(entries)
       <==> forall i :: 0 <= i < |entries| ==> KeyType(entries[i].key) && Jsonable(entries[i].val)
    decreases entries
  {
    hide Jsonable, KeyType;
    if entries != [] {
      var t := entries[1..];
      JsonableEach(t);
      if EntriesJsonable(entries) {
        forall i | 0 <= i < |entries|
          ensures KeyType(entries[i].key) && Jsonable(entries[i].val)
        {
          if i > 0 { assert entries[i] == t[i - 1]; }
        }
      } else if KeyType(entries[0].key) && Jsonable(entries[0].val) {
        var i :| 0 <= i < |t| && !(KeyType(t[i].key) && Jsonable(t[i].val));
        assert entries[i + 1] == t[i];
      }
    }
  }

  lemma {:induction false} RefValuesJsonable(refs: seq<Ref>)
    ensures AllJsonable(RefValues(refs))
  {
    if refs != [] {
      RefValuesJsonable(refs[1..]);
      assert RefValues(refs)[1..] == RefValues(refs[1..]);
      PairJsonable(Uint(refs[0].refType), Value.Bytes(refs[0].hash));
    }
  }

  lemma PairJsonable(a: Value, b: Value)
    requires Jsonable(a) && Jsonable(b)
    ensures Jsonable(Array([a, b]))
  {
    hide Jsonable;
    assert [a, b][1..] == [b] && [b][1..] == [];
    assert AllJsonable([b]);
    assert AllJsonable([a, b]);
    ArrayJsonable([a, b]);
  }

  lemma ArrayJsonable(items: Vec<Value>)
    ensures Jsonable(Array(items)) <==> AllJsonable(items)
  {
  }

  lemma MapJsonable(entries: Vec<Entry>)
    ensures Jsonable(Map(entries)) <==> EntriesJsonable(entries) && DifferentKeys(entries)
  {
  }

  /** An envelope is fit for JSON exactly when its body is. */
  lemma {:induction false} EnvelopeJsonable(r: Record)
    ensures Jsonable(ToValue(r, true)) <==> Jsonable(r.body)
  {
    var es := ToValue(r, true).entries;
    RefValuesJsonable(r.refs);
    ArrayJsonable(RefValues(r.refs));
    PairJsonable(Value.Bytes(r.author.identityId), Value.Bytes(r.author.signingKey));
    ScalarsJsonable(r);
    hide Jsonable, RefValues, FromI64;
    JsonableEach(es);
    MapJsonable(es);
    assert forall i :: 0 <= i < 7 ==> es[i].key == Uint(i + 1);
    assert es[4].val == r.body;
  }

  lemma ScalarsJsonable(r: Record)
    ensures Jsonable(Uint(r.kind)) && Jsonable(FromI64(r.createdAt)) && Jsonable(Uint(r.sigAlg)) && Jsonable(Value.Bytes(r.sig))
  {
  }

  // ------------------------------------------------------------------
  // Putting a value in canonical order keeps it fit for JSON
  // ------------------------------------------------------------------

  lemma {:induction false} CanonicalStaysJsonable(v: Value)
    requires Jsonable(v) && Encode(v).Some?
    ensures Jsonable(Canonical(v))
    decreases v
  {
    match v
    case Array(items) =>
      ItemsStayJsonable(items);
    case Map(entries) =>
      hide Canonical, Encoding;
      EntriesStayJsonable(entries);
      CanonicalKeepsEncoding(v);
      CanonicalIsCanonical(v);
      CanonicalEntriesDiffer(entries);
    case _ =>
  }

  lemma {:induction false} ItemsStayJsonable(items: seq<Value>)
    requires AllJsonable(items) && EncodingAll(items).ok
    ensures AllJsonable(CanonicalAll(items))
    decreases items
  {
    if items != [] {
      CanonicalStaysJsonable(items[0]);
      ItemsStayJsonable(items[1..]);
      assert CanonicalAll(items)[1..] == CanonicalAll(items[1..]);
    }
  }

  ghost predicate Fit(e: Entry) { KeyType(e.key) && Jsonable(e.val) }

  lemma {:induction false} EntriesStayJsonable(entries: Vec<Entry>)
    requires Jsonable(Map(entries)) && Encode(Map(entries)).Some?
    ensures forall i :: 0 <= i < |entries| ==> Fit(CanonicalEntries(entries)[i].val)
    decreases entries, 1
  {
    PartsEncode(entries);
    EachStaysJsonable(entries);
  }

  lemma PartsEncode(entries: Vec<Entry>)
    requires Encode(Map(entries)).Some?
    ensures EncodedPairs(entries).Some?
  {
  }

  lemma {:induction false} EachStaysJsonable(entries: seq<Entry>)
    requires EntriesJsonable(entries) && EncodedPairs(entries).Some?
    ensures forall i :: 0 <= i < |entries| ==> Fit(CanonicalEntries(entries)[i].val)
    decreases entries, 0
  {
    hide Fit;
    if entries != [] {
      assert entries[0].key < entries[0] && entries[0].val < entries[0];
      CanonicalStaysJsonable(entries[0].val);
      EachStaysJsonable(entries[1..]);
      assert CanonicalEntries(entries)[1..] == CanonicalEntries(entries[1..]);
      KeyStays(entries[0]);
      forall i | 0 <= i < |entries|
        ensures Fit(CanonicalEntries(entries)[i].val)
      {
        if i > 0 { assert Fit(CanonicalEntries(entries[1..])[i - 1].val); }
      }
    }
  }

  lemma KeyStays(e: Entry)
    requires KeyType(e.key) && Jsonable(Canonical(e.val))
    ensures Fit(Entry(Canonical(e.key), Canonical(e.val)))
  {
  }

  lemma {:induction false} CanonicalEntriesDiffer(entries: Vec<Entry>)
    requires IsCanonical(Canonical(Map(entries)))
    requires forall i :: 0 <= i < |entries| ==> Fit(CanonicalEntries(entries)[i].val)
    ensures Jsonable(Canonical(Map(entries)))
  {
    hide Encoding, SortByKey, CanonicalEntries, LexLess, Jsonable, KeyType, EntriesCanonical;
    var c := CanonicalEntries(entries);
    var sorted := SortByKey(c);
    var p: Vec<Entry> := Payloads(sorted);
    SortMembers(c);
    CanonicalMapIs(entries);
    forall i | 0 <= i < |p|
      ensures KeyType(p[i].key) && Jsonable(p[i].val)
    {
      assert sorted[i] in sorted && sorted[i] in c;
      var j :| 0 <= j < |c| && c[j] == sorted[i];
      assert Fit(c[j].val);
    }
    JsonableEach(p);
    var xs := KeyedByEncoding(p);
    forall i, j | 0 <= i < j < |p|
      ensures p[i].key != p[j].key
    {
      assert LexLess(xs[i].key, xs[j].key);
      LexIrreflexive(xs[i].key);
    }
    MapJsonable(p);
  }

  lemma CanonicalMapIs(entries: Vec<Entry>)
    ensures var p := Payloads(SortByKey(CanonicalEntries(entries)));
      Canonical(Map(entries)) == Map(p)
      && (IsCanonical(Map(p)) ==> StrictlyAscending(KeyedByEncoding(p)))
  {
    hide Encoding, SortByKey, CanonicalEntries, EntriesCanonical;
  }

  // ------------------------------------------------------------------
  // Main results
  // ------------------------------------------------------------------

  /** A record comes back from its JSON form exactly when it survives the binary
      wire form and its body is fit for JSON. */
  lemma {:induction false} RecordJsonRoundTrip(r: Record, debug: Value -> string)
    requires ToCbor(r).Some?
    ensures RecordFromJson(RecordToJson(r, debug)) == Some(r) <==> WireFit(r) && Jsonable(r.body)
  {
    hide Jsonable, ToJson, FromJson, ToValue, IsCanonical, Depth, Encode, FromCbor, Canonical;
    var v := ToValue(r, true);
    EnvelopeJsonable(r);
    EnvelopeCanonical(r, true);
    ToCborThenFromCbor(r);
    if WireFit(r) && Jsonable(r.body) {
      JsonRoundTrip(v, debug);
    }
    if RecordFromJson(RecordToJson(r, debug)) == Some(r) {
      var w := FromJson(ToJson(v, debug)).value;
      AcceptedRoundTrips(ToJson(v, debug), debug);
      FromCborThenToCbor(Encode(w).value);
      OneEncodingPerValue([], [], v, w);
      CanonicalStaysJsonable(w);
      CanonicalOfCanonical(v);
    }
  }

  /** JSON brings in nothing the binary form would not: what is accepted survives
      the wire, and is fit for JSON again. */
  lemma {:induction false} JsonIsAsStrict(s: string, debug: Value -> string)
    requires RecordFromJson(s).Some?
    ensures var r := RecordFromJson(s).value;
      ToCbor(r).Some? && FromCbor(ToCbor(r).value) == Some(r)
      && RecordFromJson(RecordToJson(r, debug)) == Some(r)
  {
    hide Jsonable, ToJson, FromJson, ToValue, IsCanonical, Depth, Encode, FromCbor, Canonical;
    var r := RecordFromJson(s).value;
    var w := FromJson(s).value;
    AcceptedRoundTrips(s, debug);
    FromCborThenToCbor(Encode(w).value);
    EnvelopeJsonable(r);
    EnvelopeCanonical(r, true);
    OneEncodingPerValue([], [], ToValue(r, true), w);
    CanonicalStaysJsonable(w);
    CanonicalOfCanonical(ToValue(r, true));
    RecordJsonRoundTrip(r, debug);
  }
}
