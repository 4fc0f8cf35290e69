/** The frames of the `/sync` protocol (`frames.rs`): their CBOR form, and
    reading them back. */
module Frames {
  import opened Wrappers
  import opened Bytes
  import opened FrameCodec
  import opened Filters
  import Utf8
  import Kernel = Codec

  datatype ClientFrame =
    | Req(subId: Kernel.Str, filter: Filter)
    | Close(subId: Kernel.Str)
    | Pub(record: Vec<byte>, nonce: Option<u64>)

  datatype RelayFrame =
    | Rec(subId: Kernel.Str, seqno: u64, record: Vec<byte>)
    | Eose(subId: Kernel.Str)
    | Ok(id: Digest, accepted: bool, reason: Kernel.Str)
    | Closed(subId: Kernel.Str, reason: Kernel.Str)

  const MAX_SUB_ID_BYTES: nat := 64

  datatype Tag = TagReq | TagClose | TagPub | TagRec | TagEose | TagOk | TagClosed

  function TagName(t: Tag): Kernel.Str
  {
    match t
    case TagReq => Kernel.Name("REQ")
    case TagClose => Kernel.Name("CLOSE")
    case TagPub => Kernel.Name("PUB")
    case TagRec => Kernel.Name("REC")
    case TagEose => Kernel.Name("EOSE")
    case TagOk => Kernel.Name("OK")
    case TagClosed => Kernel.Name("CLOSED")
  }

  function TagOf(v: Value): Option<Tag>
  {
    var t :- v.AsText();
    if t == "REQ" then Some(TagReq)
    else if t == "CLOSE" then Some(TagClose)
    else if t == "PUB" then Some(TagPub)
    else if t == "REC" then Some(TagRec)
    else if t == "EOSE" then Some(TagEose)
    else if t == "OK" then Some(TagOk)
    else if t == "CLOSED" then Some(TagClosed)
    else None
  }

  lemma {:induction false} TagOfName(t: Tag, v: Value)
    ensures TagOf(v) == Some(t) <==> v == Text(TagName(t))
  {
    hide Utf8.Encode;
    // The names differ in length or in one of their first characters.
    assert |"REQ"| == 3 && |"CLOSE"| == 5 && |"EOSE"| == 4 && |"OK"| == 2 && |"CLOSED"| == 6;
    assert "PUB"[0] == 'P' && "REC"[2] == 'C' && "REQ"[2] == 'Q';
  }

  predicate ShortSubId(s: Kernel.Str) { |Utf8.Encode(s)| <= MAX_SUB_ID_BYTES }

  function ReadSubId(v: Value): Option<Kernel.Str>
  {
    var s :- v.AsText();
    if ShortSubId(s) then Some(s) else None
  }

  // ------------------------------------------------------------------
  // Client frames
  // ------------------------------------------------------------------

  function NonceValue(nonce: Option<u64>): Value
  {
    if nonce.Some? then Uint(nonce.value) else Null
  }

  function NonceOf(v: Value): Option<Option<u64>>
  {
    match v
    case Null => Some(None)
    case Uint(n) => Some(Some(n))
    case _ => None
  }

  function ClientValue(f: ClientFrame): Value
  {
    match f
    case Req(subId, filter) => Array([Text(TagName(TagReq)), Text(subId), ToValue(filter)])
    case Close(subId) => Array([Text(TagName(TagClose)), Text(subId)])
    case Pub(record, nonce) => Array([Text(TagName(TagPub)), Value.Bytes(record), NonceValue(nonce)])
  }

  function EncodeClient(f: ClientFrame): seq<byte> { Encoding(ClientValue(f)) }

  function ReqOf(items: seq<Value>): Option<ClientFrame>
  {
    if |items| != 3 then None
    else
      var subId :- ReadSubId(items[1]);
      var filter :- FromValue(items[2]);
      Some(Req(subId, filter))
  }

  function CloseOf(items: seq<Value>): Option<ClientFrame>
  {
    if |items| != 2 then None
    else
      var subId :- ReadSubId(items[1]);
      Some(Close(subId))
  }

  function PubOf(items: seq<Value>): Option<ClientFrame>
  {
    if |items| != 3 then None
    else
      var record :- items[1].AsBytes();
      var nonce :- NonceOf(items[2]);
      Some(Pub(record, nonce))
  }

  function ClientOf(v: Value): Option<ClientFrame>
  {
    var items :- v.AsArray();
    if items == [] then None
    else
      match TagOf(items[0])
      case Some(TagReq) => ReqOf(items)
      case Some(TagClose) => CloseOf(items)
      case Some(TagPub) => PubOf(items)
      case _ => None
  }

  function DecodeClient(b: seq<byte>): Option<ClientFrame>
  {
    var v :- Decode(b);
    ClientOf(v)
  }

  // ------------------------------------------------------------------
  // Relay frames
  // ------------------------------------------------------------------

  function RelayValue(f: RelayFrame): Value
  {
    match f
    case Rec(subId, seqno, record) =>
      Array([Text(TagName(TagRec)), Text(subId), Uint(seqno), Value.Bytes(record)])
    case Eose(subId) => Array([Text(TagName(TagEose)), Text(subId)])
    case Ok(id, accepted, reason) =>
      Array([Text(TagName(TagOk)), Value.Bytes(id), Bool(accepted), Text(reason)])
    case Closed(subId, reason) => Array([Text(TagName(TagClosed)), Text(subId), Text(reason)])
  }

  function EncodeRelay(f: RelayFrame): seq<byte> { Encoding(RelayValue(f)) }

  function RecOf(items: seq<Value>): Option<RelayFrame>
  {
    if |items| != 4 then None
    else
      var subId :- ReadSubId(items[1]);
      var seqno :- items[2].AsUint();
      var record :- items[3].AsBytes();
      Some(Rec(subId, seqno, record))
  }

  function EoseOf(items: seq<Value>): Option<RelayFrame>
  {
    if |items| != 2 then None
    else
      var subId :- ReadSubId(items[1]);
      Some(Eose(subId))
  }

  function OkOf(items: seq<Value>): Option<RelayFrame>
  {
    if |items| != 4 then None
    else
      var id :- items[1].AsBytes32();
      if !items[2].Bool? then None
      else
        var reason :- items[3].AsText();
        Some(Ok(id, items[2].f, reason))
  }

  function ClosedOf(items: seq<Value>): Option<RelayFrame>
  {
    if |items| != 3 then None
    else
      var subId :- ReadSubId(items[1]);
      var reason :- items[2].AsText();
      Some(Closed(subId, reason))
  }

  function RelayOf(v: Value): Option<RelayFrame>
  {
    var items :- v.AsArray();
    if items == [] then None
    else
      match TagOf(items[0])
      case Some(TagRec) => RecOf(items)
      case Some(TagEose) => EoseOf(items)
      case Some(TagOk) => OkOf(items)
      case Some(TagClosed) => ClosedOf(items)
      case _ => None
  }

  function DecodeRelay(b: seq<byte>): Option<RelayFrame>
  {
    var v :- Decode(b);
    RelayOf(v)
  }
}
