/** The record builder, whose setters fill fields before signing, and the parser
    that collects references in a loop. */
module RecordImpl {
  import opened Wrappers
  import opened Bytes
  import opened Codec
  import opened CodecImpl
  import opened Record
  import CodecProofs
  import RecordWire
  import Blob

  class RecordBuilder {
    var kind: u64
    var createdAt: i64
    var refs: Vec<Ref>
    var body: Value

    constructor (kind: u64)
      ensures this.kind == kind && createdAt == 0 && refs == [] && body == Map([])
    {
      this.kind, createdAt, refs, body := kind, 0, [], Map([]);
    }

    method SetCreatedAt(t: i64)
      modifies this`createdAt
      ensures createdAt == t
    {
      createdAt := t;
    }

    method AddRef(r: Ref)
      requires |refs| + 1 < U64_SIZE
      modifies this`refs
      ensures refs == old(refs) + [r]
    {
      refs := refs + [r];
    }

    method SetBody(b: Value)
      modifies this`body
      ensures body == b
    {
      body := b;
    }

    /** Any record this hands out carries the builder's fields and the signature
        of its prefixed id, verifies under the signer's key and has a wire form. */
    method Sign(h: Blob.Hash, ghost check: SigCheck, kp: Keypair, identity: Digest) returns (r: Option<Record>)
      requires Sound(check, kp)
      ensures r == SignAs(h, kind, createdAt, refs, body, kp, identity)
      ensures r.Some? <==> body.Map? && Encode(body).Some?
      ensures r.Some? ==>
        Verifies(h, check, r.value) && ToCbor(r.value).Some?
        && r.value.kind == kind && r.value.createdAt == createdAt && r.value.refs == refs
        && Encode(r.value.body) == Encode(body) && r.value.author == IdentityRef(identity, kp.publicKey)
      ensures r.Some? ==> Encode(r.value.body).Some? && r.value.sig == kp.sign(RecordWire.Message(h, r.value))
    {
      hide RecordWire.Message;
      if SignAs(h, kind, createdAt, refs, body, kp, identity).Some? {
        RecordWire.SignedAs(h, kind, createdAt, refs, body, kp, identity);
      }
      SignedRecords(h, check, kind, createdAt, refs, body, kp, identity);
      CodecProofs.CanonicalKeepsEncoding(body);
      if !body.Map? {
        return None;
      }
      var record := Unsigned(kind, createdAt, refs, body, kp, identity);
      var bytes := EncodeCanonical(ToValue(record, false));
      if bytes.None? {
        return None;
      }
      record := record.(sig := kp.sign(RECORD_SIG_PREFIX + h(bytes.value)));
      r := Some(record);
    }
  }

  ghost function Collected(refs: seq<Ref>, rest: Option<seq<Ref>>): Option<seq<Ref>>
  {
    if rest.None? then None else Some(refs + rest.value)
  }

  lemma {:induction false} CollectStep(refs: seq<Ref>, rest: seq<Value>)
    requires rest != []
    ensures Collected(refs, ParseRefs(rest))
         == var x := RefFromValue(rest[0]);
            if x.None? then None else Collected(refs + [x.value], ParseRefs(rest[1..]))
  {
    hide RefFromValue;
    var x, t := RefFromValue(rest[0]), ParseRefs(rest[1..]);
    if x.Some? && t.Some? {
      assert refs + ([x.value] + t.value) == refs + [x.value] + t.value;
    }
  }

  lemma CollectStart(all: Option<seq<Ref>>)
    ensures Collected([], all) == all
  {
    if all.Some? { assert [] + all.value == all.value; }
  }

  method CollectRefs(arr: seq<Value>) returns (r: Option<seq<Ref>>)
    ensures r == ParseRefs(arr)
  {
    hide RefFromValue;
    var refs: seq<Ref> := [];
    var rest := arr;
    CollectStart(ParseRefs(arr));
    while rest != []
      invariant ParseRefs(arr) == Collected(refs, ParseRefs(rest))
      decreases |rest|
    {
      CollectStep(refs, rest);
      var ref := RefFromValue(rest[0]);
      if ref.None? {
        return None;
      }
      refs := refs + [ref.value];
      rest := rest[1..];
    }
    assert refs + [] == refs;
    r := Some(refs);
  }

  /** `from_cbor`: bytes it accepts are the canonical bytes of the record. */
  method ReadRecord(b: seq<byte>) returns (r: Option<Record>)
    ensures r == FromCbor(b)
    ensures r.Some? ==> ToCbor(r.value) == Some(b)
  {
    if FromCbor(b).Some? { FromCborThenToCbor(b); }
    hide Encode, ToCbor, ToValue, Decode, ParseRefs, IdentityRefFromValue;
    var v := DecodeCanonical(b);
    if v.None? || !v.value.Map? || |v.value.entries| != 7 {
      return None;
    }
    var m := v.value.entries;
    for i := 0 to 7
      invariant forall j :: 0 <= j < i ==> m[j].key.AsUint() == Some(j + 1)
    {
      if m[i].key.AsUint() != Some(i + 1) {
        return None;
      }
    }
    var kind, author, createdAt := m[0].val.AsUint(), IdentityRefFromValue(m[1].val), m[2].val.AsI64();
    if kind.None? || author.None? || createdAt.None? || !m[3].val.Array? {
      return None;
    }
    var refs := CollectRefs(m[3].val.items);
    if refs.None? || !m[4].val.Map? {
      return None;
    }
    var sigAlg, sig := m[5].val.AsUint(), m[6].val.AsBytes();
    if sigAlg.None? || sig.None? {
      return None;
    }
    r := Some(Record(kind.value, author.value, createdAt.value, refs.value, m[4].val, sigAlg.value, sig.value));
  }
}
