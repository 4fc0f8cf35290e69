/** What an export writes, octet by octet: the magic, the items with their tags, and
    the parts into which a long blob is cut. */
module BundleWire {
  import opened Wrappers
  import opened Bytes
  import opened Codec
  import opened Record
  import opened Blob
  import opened Bundle
  import opened Rfc8949
  import Rfc6962
  import RecordWire
  import Utf8

  function StringBytes(b: Vec<byte>): seq<byte> { ShortHead(2, |b|) + b }

  /** ["hdr", {}] */
  const HEADER: seq<byte> := [0x82, 0x63, 0x68, 0x64, 0x72, 0xa0]

  /** ["r", record] */
  function RecordBytes(record: Vec<byte>): seq<byte> { [0x82, 0x61, 0x72] + StringBytes(record) }

  /** ["b", id, content] */
  function WholeBytes(id: Digest, content: Vec<byte>): seq<byte>
  {
    [0x83, 0x61, 0x62, 0x58, 0x20] + id + StringBytes(content)
  }

  /** ["bp", id, index, part] */
  function PartBytes(id: Digest, index: u64, part: Vec<byte>): seq<byte>
  {
    [0x84, 0x62, 0x62, 0x70, 0x58, 0x20] + id + ShortHead(0, index) + StringBytes(part)
  }

  /** ["end", records, blobs] */
  function EndBytes(records: u64, blobs: u64): seq<byte>
  {
    [0x83, 0x63, 0x65, 0x6e, 0x64] + ShortHead(0, records) + ShortHead(0, blobs)
  }

  /** The parts of a content from the one with this index on: slices of one MiB,
      the last one with what is left. */
  function PartsBytes(id: Digest, content: Vec<byte>, index: nat): seq<byte>
    decreases |content| - index
  {
    if index * 0x10_0000 >= |content| then []
    else
      var end := if (index + 1) * 0x10_0000 < |content| then (index + 1) * 0x10_0000 else |content|;
      PartBytes(id, index, content[index * 0x10_0000..end]) + PartsBytes(id, content, index + 1)
  }

  /** A blob: whole up to 16 MiB, in parts from there on. */
  function BlobBytes(b: Input): seq<byte>
  {
    if |b.content| > 0x100_0000 then PartsBytes(b.id, b.content, 0) else WholeBytes(b.id, b.content)
  }

  predicate SeenBefore(blobs: seq<Input>, i: nat)
    requires i < |blobs|
  {
    exists j :: 0 <= j < i && blobs[j].id == blobs[i].id
  }

  /** The blobs from `i` on, but none whose id came before. */
  function BlobsBytes(blobs: seq<Input>, i: nat): seq<byte>
    requires i <= |blobs|
    decreases |blobs| - i
  {
    if i == |blobs| then []
    else (if SeenBefore(blobs, i) then [] else BlobBytes(blobs[i])) + BlobsBytes(blobs, i + 1)
  }

  function RecordsBytes(records: seq<Record>): seq<byte>
    requires forall i :: 0 <= i < |records| ==> Exportable(records[i])
  {
    if records == [] then []
    else
      assert Exportable(records[0]);
      RecordBytes(ToCbor(records[0]).value) + RecordsBytes(records[1..])
  }

  function Ids(blobs: seq<Input>): set<Digest> { set i | 0 <= i < |blobs| :: blobs[i].id }

  // ------------------------------------------------------------------
  // Items
  // ------------------------------------------------------------------

  lemma TagsAre()
    ensures Encode(TagText("hdr")) == Some([0x63, 0x68, 0x64, 0x72])
    ensures Encode(TagText("r")) == Some([0x61, 0x72])
    ensures Encode(TagText("b")) == Some([0x61, 0x62])
    ensures Encode(TagText("bp")) == Some([0x62, 0x62, 0x70])
    ensures Encode(TagText("end")) == Some([0x63, 0x65, 0x6e, 0x64])
  {
    hide *;
    assert [0x63] + [0x68, 0x64, 0x72] == [0x63, 0x68, 0x64, 0x72];
    TagIs("hdr", [0x68, 0x64, 0x72]);
    assert [0x61] + [0x72] == [0x61, 0x72];
    TagIs("r", [0x72]);
    assert [0x61] + [0x62] == [0x61, 0x62];
    TagIs("b", [0x62]);
    assert [0x62] + [0x62, 0x70] == [0x62, 0x62, 0x70];
    TagIs("bp", [0x62, 0x70]);
    assert [0x63] + [0x65, 0x6e, 0x64] == [0x63, 0x65, 0x6e, 0x64];
    TagIs("end", [0x65, 0x6e, 0x64]);
  }

  lemma {:induction false} TagIs(tag: string, octets: seq<byte>)
    requires 0 < |tag| == |octets| <= 3 && forall i :: 0 <= i < |tag| ==> tag[i] as int == octets[i] < 0x80
    ensures Encode(TagText(tag)) == Some([0x60 + |tag|] + octets)
  {
    hide Encode, Utf8.Encode, Ascii;
    AsciiOctets(tag, octets);
    AsciiIsUtf8(tag);
    EncodedAs(TagText(tag));
  }

  /** Arrays of a tag and up to three values that are not maps. */
  lemma {:induction false} ArrayIs(items: Vec<Value>)
    requires |items| < 24 && InOrder(items).Some?
    ensures Encode(Array(items)) == Some([0x80 + |items|] + InOrder(items).value)
    ensures Encoding(Array(items)).bytes == [0x80 + |items|] + InOrder(items).value
  {
    hide InOrder, Encoding;
    EncodedAs(Array(items));
  }

  lemma {:induction false} Two(a: Value, b: Value)
    requires Encode(a).Some? && Encode(b).Some?
    ensures Encoding(Array([a, b])).bytes == [0x82] + Encode(a).value + Encode(b).value
  {
    hide *;
    RecordWire.NothingInOrder();
    InOrderCons(b, []);
    InOrderCons(a, [b]);
    assert [a] + [b] == [a, b] && [b] + [] == [b];
    ArrayIs([a, b]);
    RecordWire.TwoItems([0x82], Encode(a).value, [], Encode(b).value);
    assert [] + Encode(b).value == Encode(b).value;
    assert [0x82] + Encode(a).value + [] == [0x82] + Encode(a).value;
  }

  lemma {:induction false} Three(a: Value, b: Value, c: Value)
    requires Encode(a).Some? && Encode(b).Some? && Encode(c).Some?
    ensures Encoding(Array([a, b, c])).bytes == [0x83] + Encode(a).value + Encode(b).value + Encode(c).value
  {
    hide *;
    RecordWire.NothingInOrder();
    InOrderCons(c, []);
    InOrderCons(b, [c]);
    InOrderCons(a, [b, c]);
    assert [a] + [b, c] == [a, b, c] && [b] + [c] == [b, c] && [c] + [] == [c];
    ArrayIs([a, b, c]);
    Joined([0x83], Encode(a).value, Encode(b).value, Encode(c).value, []);
    assert [0x83] + Encode(a).value + Encode(b).value + Encode(c).value + []
        == [0x83] + Encode(a).value + Encode(b).value + Encode(c).value;
    assert Encode(c).value + ([] + []) == Encode(c).value + [];
  }

  lemma {:induction false} Four(a: Value, b: Value, c: Value, d: Value)
    requires Encode(a).Some? && Encode(b).Some? && Encode(c).Some? && Encode(d).Some?
    ensures Encoding(Array([a, b, c, d])).bytes
         == [0x84] + Encode(a).value + Encode(b).value + Encode(c).value + Encode(d).value
  {
    hide *;
    RecordWire.NothingInOrder();
    InOrderCons(d, []);
    InOrderCons(c, [d]);
    InOrderCons(b, [c, d]);
    InOrderCons(a, [b, c, d]);
    assert [a] + [b, c, d] == [a, b, c, d] && [b] + [c, d] == [b, c, d] && [c] + [d] == [c, d] && [d] + [] == [d];
    ArrayIs([a, b, c, d]);
    Joined([0x84], Encode(a).value, Encode(b).value, Encode(c).value, Encode(d).value);
  }

  lemma Joined(h: seq<byte>, a: seq<byte>, b: seq<byte>, c: seq<byte>, d: seq<byte>)
    ensures h + (a + (b + (c + (d + [])))) == h + a + b + c + d
  {
  }

  lemma {:induction false} HeaderIs()
    ensures Encoding(HdrItem()).bytes == HEADER
  {
    hide Encoding, TagText;
    TagsAre();
    EmptyMap();
    Two(TagText("hdr"), Map([]));
    assert [0x82] + [0x63, 0x68, 0x64, 0x72] + [0xa0] == HEADER;
  }

  lemma {:induction false} RecordItemIs(record: Vec<byte>)
    ensures Encoding(RecordItem(record)).bytes == RecordBytes(record)
  {
    hide Encoding, ShortHead, TagText;
    TagsAre();
    EncodedAs(Bytes(record));
    Two(TagText("r"), Bytes(record));
    assert [0x82] + [0x61, 0x72] == [0x82, 0x61, 0x72];
  }

  lemma {:induction false} EndIs(n: u64, m: u64)
    ensures Encoding(EndItem(n, m)).bytes == EndBytes(n, m)
  {
    hide Encoding, ShortHead, TagText;
    TagsAre();
    EncodedAs(Uint(n));
    EncodedAs(Uint(m));
    Three(TagText("end"), Uint(n), Uint(m));
    assert [0x83] + [0x63, 0x65, 0x6e, 0x64] == [0x83, 0x63, 0x65, 0x6e, 0x64];
  }

  lemma {:induction false} EmptyMap()
    ensures Encode(Map([])) == Some([0xa0])
  {
    var none: Vec<Entry> := [];
    assert ShortHead(5, 0) == [0xa0];
    hide Encode, ShortHead;
    RecordWire.NothingListed();
    ListedAs(none, none);
    assert [0xa0] + [] == [0xa0];
  }

  lemma {:induction false} WholeIs(id: Digest, content: Vec<byte>)
    ensures Encoding(WholeBlobItem(id, content)).bytes == WholeBytes(id, content)
  {
    DigestEncoded(id);
    hide Encoding, ShortHead, TagText;
    TagsAre();
    EncodedAs(Bytes(content));
    Three(TagText("b"), Bytes(id), Bytes(content));
    Front([0x83], [0x61, 0x62], id);
    assert [0x83] + [0x61, 0x62] + [0x58, 0x20] == [0x83, 0x61, 0x62, 0x58, 0x20];
  }

  lemma {:induction false} PartIs(id: Digest, content: Vec<byte>, index: u64)
    ensures Encoding(PartItem(id, index, content)).bytes == PartBytes(id, index, content)
  {
    DigestEncoded(id);
    hide Encoding, ShortHead, TagText;
    TagsAre();
    EncodedAs(Bytes(content));
    EncodedAs(Uint(index));
    Four(TagText("bp"), Bytes(id), Uint(index), Bytes(content));
    Front([0x84], [0x62, 0x62, 0x70], id);
    assert [0x84] + [0x62, 0x62, 0x70] + [0x58, 0x20] == [0x84, 0x62, 0x62, 0x70, 0x58, 0x20];
  }

  lemma DigestEncoded(id: Digest)
    ensures Encode(Bytes(id)) == Some([0x58, 0x20] + id)
  {
    assert ShortHead(2, 32) == [0x58, 0x20];
    hide Encoding, ShortHead;
    EncodedAs(Bytes(id));
  }

  lemma Front(h: seq<byte>, tag: seq<byte>, id: seq<byte>)
    ensures h + tag + ([0x58, 0x20] + id) == h + tag + [0x58, 0x20] + id
  {
  }

  // ------------------------------------------------------------------
  // Lists of items
  // ------------------------------------------------------------------

  lemma {:induction false} ItemBytesAppend(a: seq<Value>, b: seq<Value>)
    ensures ItemBytes(a + b) == ItemBytes(a) + ItemBytes(b)
  {
    hide Encoding;
    if a == [] {
      assert a + b == b;
    } else {
      assert (a + b)[1..] == a[1..] + b;
      ItemBytesAppend(a[1..], b);
    }
  }

  lemma ItemBytesCons(v: Value, rest: seq<Value>)
    ensures ItemBytes([v] + rest) == Encoding(v).bytes + ItemBytes(rest)
    ensures ItemBytes([v]) == Encoding(v).bytes
  {
    hide Encoding;
    assert ([v] + rest)[1..] == rest;
  }

  lemma {:induction false} RecordsWritten(records: seq<Record>)
    requires forall i :: 0 <= i < |records| ==> Exportable(records[i])
    ensures ItemBytes(RecordItems(records)) == RecordsBytes(records)
  {
    hide Encoding, RecordBytes, Exportable, RecordItem;
    if records != [] {
      assert Exportable(records[0]);
      RecordsWritten(records[1..]);
      Fits(records[0]);
      RecordItemIs(ToCbor(records[0]).value);
      ItemBytesCons(RecordItem(ToCbor(records[0]).value), RecordItems(records[1..]));
    }
  }

  lemma Fits(r: Record)
    requires Exportable(r)
    ensures ToCbor(r).Some? && |ToCbor(r).value| < U64_SIZE
  {
    hide ToCbor;
  }

  lemma {:induction false} PartsWritten(id: Digest, content: Vec<byte>, k: nat)
    requires k <= |Chunks(content)| < U64_SIZE && forall i :: 0 <= i < |Chunks(content)| ==> |Chunks(content)[i]| <= CHUNK_SIZE
    ensures ItemBytes(PartItems(id, k, Chunks(content)[k..])) == PartsBytes(id, content, k)
    decreases |Chunks(content)| - k
  {
    hide Encoding, PartBytes, Chunks, PartItem;
    Rfc6962.ChunksAre(content);
    var c := Chunks(content);
    if k < |c| {
      var rest := c[k..];
      assert rest[0] == c[k] && rest[1..] == c[k + 1..];
      PartsWritten(id, content, k + 1);
      PartIs(id, c[k], k);
      ItemBytesCons(PartItem(id, k, c[k]), PartItems(id, k + 1, rest[1..]));
    }
  }

  lemma {:induction false} BlobWritten(b: Input)
    ensures ItemBytes(BlobItems(b)) == BlobBytes(b)
  {
    hide Encoding, PartsBytes, WholeBytes, Chunks, PartItems;
    ChunkSizes(b.content);
    if |b.content| > 0x100_0000 {
      PartsWritten(b.id, b.content, 0);
      assert Chunks(b.content)[0..] == Chunks(b.content);
    } else {
      WholeIs(b.id, b.content);
      ItemBytesCons(WholeBlobItem(b.id, b.content), []);
    }
  }

  /** The first blob of a list, then the others. */
  lemma {:induction false} FirstBlob(b: Input, rest: seq<Input>, seen: set<Digest>)
    ensures var d, all := Distinct(rest, seen + {b.id}), Distinct([b] + rest, seen);
      && (b.id in seen ==> all == Distinct(rest, seen))
      && (b.id !in seen ==> |all| == 1 + |d| && ItemBytes(AllBlobItems(all)) == BlobBytes(b) + ItemBytes(AllBlobItems(d)))
  {
    hide BlobItems, BlobBytes, ItemBytes;
    assert ([b] + rest)[1..] == rest;
    var d := Distinct(rest, seen + {b.id});
    assert ([b] + d)[1..] == d;
    BlobWritten(b);
    ItemBytesAppend(BlobItems(b), AllBlobItems(d));
  }

  /** What comes after the first `i` blobs. */
  lemma {:induction false} BlobsWritten(blobs: seq<Input>, i: nat)
    requires i <= |blobs|
    ensures ItemBytes(AllBlobItems(Distinct(blobs[i..], Ids(blobs[..i])))) == BlobsBytes(blobs, i)
    ensures |Distinct(blobs[i..], Ids(blobs[..i]))| == |Ids(blobs)| - |Ids(blobs[..i])|
    decreases |blobs| - i
  {
    if i == |blobs| {
      assert blobs[..i] == blobs;
    } else {
      hide BlobBytes, ItemBytes, AllBlobItems, Distinct, Ids, SeenBefore;
      BlobsWritten(blobs, i + 1);
      assert blobs[i..] == [blobs[i]] + blobs[i + 1..];
      OneMoreId(blobs, i);
      FirstBlob(blobs[i], blobs[i + 1..], Ids(blobs[..i]));
      if SeenBefore(blobs, i) { assert Ids(blobs[..i + 1]) == Ids(blobs[..i]); }
    }
  }

  lemma {:induction false} OneMoreId(blobs: seq<Input>, i: nat)
    requires i < |blobs|
    ensures Ids(blobs[..i + 1]) == Ids(blobs[..i]) + {blobs[i].id}
    ensures SeenBefore(blobs, i) <==> blobs[i].id in Ids(blobs[..i])
  {
    var a, b := blobs[..i], blobs[..i + 1];
    assert forall j :: 0 <= j < i ==> a[j] == blobs[j] && b[j] == blobs[j];
    assert b[i] == blobs[i];
    forall d
      ensures d in Ids(b) <==> d in Ids(a) || d == blobs[i].id
    {
      if d in Ids(a) {
        var j :| 0 <= j < |a| && a[j].id == d;
        assert b[j].id == d;
      }
      if d in Ids(b) {
        var j :| 0 <= j < |b| && b[j].id == d;
        if j < i { assert a[j].id == d; }
      }
    }
  }

  /** An export is the magic, the header, every record in order, each blob once
      where it first occurs, and an end item with the number of records and of
      different blob ids. It fails if and only if some content does not hash to
      its id. */
  lemma {:induction false} ExportWritten(h: Hash, records: Vec<Record>, blobs: Vec<Input>)
    requires forall i :: 0 <= i < |records| ==> Exportable(records[i])
    ensures |Ids(blobs)| < U64_SIZE
    ensures Export(h, records, blobs)
         == if exists i :: 0 <= i < |blobs| && h(blobs[i].content) != blobs[i].id then None
            else Some([0x45, 0x56, 0x4d, 0x53, 0x01] + HEADER + RecordsBytes(records) + BlobsBytes(blobs, 0)
                      + EndBytes(|records|, |Ids(blobs)|))
  {
    hide Encoding, Exportable, RecordItems, AllBlobItems, RecordsBytes, BlobsBytes, EndBytes, ItemBytes, Distinct, HdrItem, EndItem;
    assert blobs[..0] == [] && blobs[0..] == blobs && Ids([]) == {};
    BlobsWritten(blobs, 0);
    RecordsWritten(records);
    var distinct := Distinct(blobs, {});
    assert |distinct| == |Ids(blobs)|;
    var r, b, e := RecordItems(records), AllBlobItems(distinct), EndItem(|records|, |distinct|);
    HeaderIs();
    EndIs(|records|, |distinct|);
    ItemBytesAppend([HdrItem()] + r + b, [e]);
    ItemBytesAppend([HdrItem()] + r, b);
    ItemBytesAppend([HdrItem()], r);
    ItemBytesCons(HdrItem(), []);
    ItemBytesCons(e, []);
    FivePieces(MAGIC, HEADER, RecordsBytes(records), BlobsBytes(blobs, 0), EndBytes(|records|, |distinct|));
    if exists x :: x in blobs && h(x.content) != x.id {
      var x :| x in blobs && h(x.content) != x.id;
      var i :| 0 <= i < |blobs| && blobs[i] == x;
    }
  }

  lemma FivePieces(m: seq<byte>, a: seq<byte>, b: seq<byte>, c: seq<byte>, d: seq<byte>)
    ensures m + (a + b + c + d) == m + a + b + c + d
  {
  }
}
