/** Bundles (`bundle.rs`): the item scanner, the salvaging importer and the
    exporter, as functions on byte strings. */
module Bundle {
  import opened Wrappers
  import opened Bytes
  import opened Codec
  import opened Record
  import opened Blob
  import Utf8

  /** "EVMS" and format version 1. */
  const MAGIC: seq<byte> := [0x45, 0x56, 0x4d, 0x53, 0x01]

  const PART_SPLIT_THRESHOLD: nat := 0x100_0000

  const ITEM_STRING_LIMIT: nat := 0x400_0000

  // ------------------------------------------------------------------
  // The item scanner
  // ------------------------------------------------------------------

  /** A head byte with its argument, whatever its width. */
  datatype RawHead = RawHead(major: nat, arg: u64, used: nat)

  function ReadHead(s: seq<byte>): (r: Option<RawHead>)
    ensures r.Some? ==> 1 <= r.value.used <= |s|
  {
    if s == [] then None
    else
      var major, additional := s[0] / 32, s[0] % 32;
      if additional < 24 then Some(RawHead(major, additional, 1))
      else if additional > 27 then None
      else
        var width := if additional == 24 then 1 else if additional == 25 then 2 else if additional == 26 then 4 else 8;
        if |s| < 1 + width then None
        else
          Pow256Values();
          Some(RawHead(major, FromBigEndian(s[1..1 + width]), 1 + width))
  }

  /** What one head does to the bytes read and to the stack of counts of items
      still expected, `depth` counts being on the stack. */
  datatype Effect = Skip(n: nat) | Push(count: nat) | Refuse

  function HeadEffect(head: RawHead, depth: nat): Effect
  {
    if head.major == 0 || head.major == 1 || head.major == 7 then Skip(0)
    else if head.major == 2 || head.major == 3 then
      if head.arg > ITEM_STRING_LIMIT then Refuse else Skip(head.arg)
    else if head.major == 4 then
      if depth >= 64 then Refuse else Push(head.arg)
    else if head.major == 5 then
      if depth >= 64 || 2 * head.arg >= U64_SIZE then Refuse else Push(2 * head.arg)
    else Refuse
  }

  /** How many bytes it takes to complete every item the stack expects. */
  function Scan(s: seq<byte>, stack: seq<nat>): (r: Option<nat>)
    ensures r.Some? ==> r.value <= |s|
    decreases |s|, |stack|
  {
    if stack == [] then Some(0)
    else
      var last := |stack| - 1;
      if stack[last] == 0 then Scan(s, stack[..last])
      else
        var head :- ReadHead(s);
        var rest := stack[..last] + [stack[last] - 1];
        match HeadEffect(head, |stack|)
        case Refuse => None
        case Skip(n) =>
          if head.used + n > |s| then None
          else
            var r :- Scan(s[head.used + n..], rest);
            Some(head.used + n + r)
        case Push(count) =>
          var r :- Scan(s[head.used..], rest + [count]);
          Some(head.used + r)
  }

  datatype ItemRead = Eof | Unreadable | Item(n: nat)

  /** `read_item`: the length of the item at the front of the stream. */
  function ReadItem(s: seq<byte>): (r: ItemRead)
    ensures r.Item? ==> 1 <= r.n <= |s|
  {
    if s == [] then Eof
    else
      var n := Scan(s, [1]);
      if n.None? then Unreadable else Item(n.value)
  }

  // ------------------------------------------------------------------
  // Import
  // ------------------------------------------------------------------

  datatype Report =
    | UnreadableItem | AfterEnd | Undecodable | NotAnArray | NotHdrFirst | DuplicateHdr | UnknownTag
    | BadRecordItem | InvalidRecord | BadBlobItem | BlobHashMismatch | PartedHashMismatch
    | BadPartItem | PartNotContiguous | PartNotFirst | BadEndItem | EndCountMismatch

  datatype BlobItem = BlobItem(id: Digest, content: seq<byte>)

  datatype Pending = Pending(id: Digest, next: nat, content: seq<byte>)

  /** Everything the importer keeps, sinks included. */
  datatype ImportState = ImportState(
    records: seq<Record>, blobs: seq<BlobItem>, skipped: seq<Report>,
    seenRecords: set<Digest>, seenBlobs: set<Digest>, nRecords: nat, nBlobs: nat,
    pending: Option<Pending>, first: bool, ended: bool)

  const START: ImportState := ImportState([], [], [], {}, {}, 0, 0, None, true, false)

  datatype ImportResult = ImportResult(records: seq<Record>, blobs: seq<BlobItem>, skipped: seq<Report>, truncated: bool)

  function Report1(st: ImportState, r: Report): ImportState { st.(skipped := st.skipped + [r]) }

  function EmitBlob(st: ImportState, id: Digest, content: seq<byte>): ImportState
  {
    if id in st.seenBlobs then st
    else st.(seenBlobs := st.seenBlobs + {id}, nBlobs := st.nBlobs + 1, blobs := st.blobs + [BlobItem(id, content)])
  }

  /** `flush_parts`: finish the parted blob in progress, if any. */
  function Flush(h: Hash, st: ImportState): ImportState
  {
    if st.pending.None? then st
    else
      var p, done := st.pending.value, st.(pending := None);
      if h(p.content) == p.id then EmitBlob(done, p.id, p.content) else Report1(done, PartedHashMismatch)
  }

  function Element(arr: seq<Value>, i: nat): Option<Value> { if i < |arr| then Some(arr[i]) else None }

  function BytesAt(arr: seq<Value>, i: nat): Option<Vec<byte>>
  {
    var v :- Element(arr, i);
    v.AsBytes()
  }

  function UintAt(arr: seq<Value>, i: nat): Option<u64>
  {
    var v :- Element(arr, i);
    v.AsUint()
  }

  function Tag(arr: seq<Value>): string
  {
    if arr != [] && arr[0].Text? then arr[0].s else ""
  }

  function StepRecord(h: Hash, check: SigCheck, st: ImportState, arr: seq<Value>): ImportState
  {
    var bytes := BytesAt(arr, 1);
    if bytes.None? then Report1(st, BadRecordItem)
    else
      var r := FromCbor(bytes.value);
      if r.None? || !Verifies(h, check, r.value) then Report1(st, InvalidRecord)
      else
        var id := Id(h, r.value);
        if id in st.seenRecords then st
        else st.(seenRecords := st.seenRecords + {id}, nRecords := st.nRecords + 1, records := st.records + [r.value])
  }

  function StepBlob(h: Hash, st: ImportState, arr: seq<Value>): ImportState
  {
    var id, content := BytesAt(arr, 1), BytesAt(arr, 2);
    if id.None? || content.None? || |id.value| != 32 then Report1(st, BadBlobItem)
    else if h(content.value) != id.value then Report1(st, BlobHashMismatch)
    else EmitBlob(st, id.value, content.value)
  }

  /** One part of a parted blob; a part shorter than a chunk is the last. */
  function StepPart(h: Hash, st: ImportState, arr: seq<Value>): ImportState
  {
    var id, index, part := BytesAt(arr, 1), UintAt(arr, 2), BytesAt(arr, 3);
    if id.None? || index.None? || part.None? || |id.value| != 32 then Report1(st, BadPartItem)
    else if st.pending.Some? then
      var p := st.pending.value;
      if p.id == id.value && p.next == index.value then
        var more := st.(pending := Some(Pending(p.id, p.next + 1, p.content + part.value)));
        if |part.value| < CHUNK_SIZE then Flush(h, more) else more
      else Flush(h, Report1(st, PartNotContiguous))
    else if index.value == 0 then
      var more := st.(pending := Some(Pending(id.value, 1, part.value)));
      if |part.value| < CHUNK_SIZE then Flush(h, more) else more
    else Report1(st, PartNotFirst)
  }

  function StepEnd(st: ImportState, arr: seq<Value>): ImportState
  {
    var done := st.(ended := true);
    var rc, bc := UintAt(arr, 1), UintAt(arr, 2);
    if rc.None? || bc.None? then Report1(done, BadEndItem)
    else if rc.value != st.nRecords || bc.value != st.nBlobs then Report1(done, EndCountMismatch)
    else done
  }

  function StepTagged(h: Hash, check: SigCheck, st: ImportState, arr: seq<Value>): ImportState
  {
    var tag := Tag(arr);
    if tag == "hdr" then Report1(st, DuplicateHdr)
    else if tag == "r" then StepRecord(h, check, Flush(h, st), arr)
    else if tag == "b" then StepBlob(h, Flush(h, st), arr)
    else if tag == "bp" then StepPart(h, st, arr)
    else if tag == "end" then StepEnd(Flush(h, st), arr)
    else Report1(st, UnknownTag)
  }

  /** What one item, decoded or not, does to the import. */
  function Step(h: Hash, check: SigCheck, st: ImportState, value: Option<Value>): ImportState
  {
    if st.ended then Report1(st, AfterEnd)
    else if value.None? then Report1(st, Undecodable)
    else if !value.value.Array? then Report1(st, NotAnArray)
    else
      var arr := value.value.items;
      if st.first then
        var st' := st.(first := false);
        if Tag(arr) == "hdr" then st' else StepTagged(h, check, Report1(st', NotHdrFirst), arr)
      else StepTagged(h, check, st, arr)
  }

  function Loop(h: Hash, check: SigCheck, s: seq<byte>, st: ImportState): ImportState
    decreases |s|
  {
    match ReadItem(s)
    case Eof => st
    case Unreadable => Report1(st, UnreadableItem)
    case Item(n) => Loop(h, check, s[n..], Step(h, check, st, Decode(s[..n])))
  }

  function Result(st: ImportState): ImportResult { ImportResult(st.records, st.blobs, st.skipped, !st.ended) }

  /** `Bundle::import`: an error only for a bad magic. */
  function Import(h: Hash, check: SigCheck, s: seq<byte>): Option<ImportResult>
  {
    if |s| < 5 || s[..5] != MAGIC then None
    else Some(Result(Flush(h, Loop(h, check, s[5..], START))))
  }

  // ------------------------------------------------------------------
  // Export
  // ------------------------------------------------------------------

  /** Short tags as text values. */
  function TagText(tag: string): Value
    requires |tag| <= 3 && forall i :: 0 <= i < |tag| ==> tag[i] < 128 as char
  {
    TagSize(tag);
    Text(tag)
  }

  lemma {:induction false} TagSize(tag: string)
    requires forall i :: 0 <= i < |tag| ==> tag[i] < 128 as char
    ensures |Utf8.Encode(tag)| == |tag|
  {
    if tag != [] { TagSize(tag[1..]); }
  }

  function HdrItem(): Value { Array([TagText("hdr"), Map([])]) }

  function RecordItem(bytes: Vec<byte>): Value { Array([TagText("r"), Bytes(bytes)]) }

  function WholeBlobItem(id: Digest, content: Vec<byte>): Value { Array([TagText("b"), Bytes(id), Bytes(content)]) }

  function PartItem(id: Digest, index: u64, part: Vec<byte>): Value
  {
    Array([TagText("bp"), Bytes(id), Uint(index), Bytes(part)])
  }

  function EndItem(nRecords: u64, nBlobs: u64): Value { Array([TagText("end"), Uint(nRecords), Uint(nBlobs)]) }

  /** A blob handed to the exporter. */
  datatype Input = Input(id: Digest, content: Vec<byte>)

  /** First occurrences, in order. */
  function Distinct(blobs: seq<Input>, seen: set<Digest>): (d: seq<Input>)
    ensures |d| <= |blobs|
  {
    if blobs == [] then []
    else if blobs[0].id in seen then Distinct(blobs[1..], seen)
    else [blobs[0]] + Distinct(blobs[1..], seen + {blobs[0].id})
  }

  function PartItems(id: Digest, index: nat, parts: seq<seq<byte>>): seq<Value>
    requires index + |parts| < U64_SIZE && forall i :: 0 <= i < |parts| ==> |parts[i]| <= CHUNK_SIZE
    decreases |parts|
  {
    if parts == [] then [] else [PartItem(id, index, parts[0])] + PartItems(id, index + 1, parts[1..])
  }

  predicate Parted(b: Input) { |b.content| > PART_SPLIT_THRESHOLD }

  lemma {:induction false} ChunkSizes(content: seq<byte>)
    ensures forall i :: 0 <= i < |Chunks(content)| ==> 0 < |Chunks(content)[i]| <= CHUNK_SIZE
    ensures |Chunks(content)| <= |content|
    decreases |content|
  {
    if |content| > CHUNK_SIZE { ChunkSizes(content[CHUNK_SIZE..]); }
  }

  function BlobItems(b: Input): seq<Value>
  {
    ChunkSizes(b.content);
    if Parted(b) then PartItems(b.id, 0, Chunks(b.content)) else [WholeBlobItem(b.id, b.content)]
  }

  function AllBlobItems(blobs: seq<Input>): seq<Value>
  {
    if blobs == [] then [] else BlobItems(blobs[0]) + AllBlobItems(blobs[1..])
  }

  /** Records the source can hold: the envelope encodes, to bytes that fit a
      vector. */
  predicate Exportable(r: Record) { ToCbor(r).Some? && |ToCbor(r).value| < U64_SIZE }

  function RecordItems(records: seq<Record>): (r: seq<Value>)
    requires forall i :: 0 <= i < |records| ==> Exportable(records[i])
    ensures |r| == |records|
  {
    if records == [] then []
    else
      assert Exportable(records[0]);
      [RecordItem(ToCbor(records[0]).value)] + RecordItems(records[1..])
  }

  function ItemBytes(items: seq<Value>): seq<byte>
  {
    if items == [] then [] else Encoding(items[0]).bytes + ItemBytes(items[1..])
  }

  function ExportItems(records: Vec<Record>, blobs: Vec<Input>): seq<Value>
    requires forall i :: 0 <= i < |records| ==> Exportable(records[i])
  {
    var distinct := Distinct(blobs, {});
    [HdrItem()] + RecordItems(records) + AllBlobItems(distinct) + [EndItem(|records|, |distinct|)]
  }

  /** `Bundle::export`: an error only for a blob that does not hash to its id. */
  function Export(h: Hash, records: Vec<Record>, blobs: Vec<Input>): Option<seq<byte>>
    requires forall i :: 0 <= i < |records| ==> Exportable(records[i])
  {
    if exists b :: b in blobs && h(b.content) != b.id then None
    else Some(MAGIC + ItemBytes(ExportItems(records, blobs)))
  }
}
