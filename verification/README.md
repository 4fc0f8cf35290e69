# Evermesh: protocol model and proofs

A Dafny model of the consensus-critical parts of Evermesh: the kernel's canonical
CBOR and JSON codec, chunk trees, signed records, the identity rotation log and
the bundle container, and the relay's frames, filters, store, subscription
protocol, gossip and rate limiter. `dafny verify dfyconfig.toml` checks the whole
project.

Each component has a specification in functions (`Codec`, `Json`, `Blob`,
`Record`, `Identity`, `Bundle`, `FrameCodec`, `Filters`, `Frames`, `Store`,
`Rate`) or as a machine of interleaved steps (`Sync`, `Gossip`); theorems about
it (modules ending in `Proofs`, and `BundleRoundTrip`, `IdentityBuild`,
`IdentityFinality`, `RecordJson`, `SyncOrder`); and, where the program changes
buffers, positions, tables or registries step by step, the same loops as methods
and classes proved against it (modules ending in `Impl`).

A second description of each component uses none of those functions: the
standards it follows, and its inputs and outputs field by field and octet by
octet (`Rfc8949`, `Rfc3629`, `Rfc6962`, `Rfc8259`, `JsonWire`, `RecordWire`,
`IdentityWire`, `BundleWire`, `FrameWire`), and what it does stated over whole
inputs and runs (`ActiveBranch`, `Salvage`, `Retrieval`, `Delivery`,
`RateExact`). The two descriptions are proved to agree.

What the theorems say, in short:

- **Codec.** Encoder and decoder are inverse to each other on exactly the values
  in canonical order at most 64 levels deep; every accepted byte string is the
  only one for its value; encoded keys ascend bytewise, and no other order is
  accepted (section 4.2.1 of RFC 8949).
- **JSON.** A value survives JSON if and only if it meets three conditions on its
  keys, its integers and its depth. The parser reads every text of its grammar,
  with any white space and any escapes, as what it means, and accepts nothing
  else.
- **Chunk trees.** The level-by-level root is the tree hash of section 2.1 of RFC
  6962; proofs are complete, and sound up to a hash collision that a function
  computes. Streaming gives the same tree under any schedule of reads.
- **Records.** Which records survive the wire, which signing can produce, that
  the id commits to everything but the signature, and that nothing verifies that
  was not signed.
- **Identity log.** Which branch is active, as a rule over records and ids that
  `verify_chain` follows exactly; order independence, exactly when repetitions matter,
  termination, certified maximal paths, theft recovery, agreement of verifiers
  over time, and the exact condition under which a final choice is for ever.
- **Bundles.** Round trip with its exact conditions, which blobs survive it,
  safety on arbitrary bytes, exactly what a damaged item costs, and salvage of
  prefixes.
- **Relay.** The second codec agrees with the first; frames and filters survive
  the wire; the SQL store refines the plain filter; subscriptions have no gap in
  any interleaving and see stored records, EOSE and live records in this order;
  flooding ends, is bounded and converges on any topology; the token bucket keeps
  its bound and refuses nothing that it has room for.

Assumptions that are parameters, never axioms: BLAKE3 is any function from byte
strings to 32 bytes (no injectivity: where it matters a collision is the
alternative conclusion), signature checking is any predicate, a key pair is
`Sound` when the predicate accepts what it signs, proof of work is any predicate
of id and nonce. UTF-8 is modelled concretely. Errors are modelled as acceptance
and rejection, without their messages. A vector or string has fewer than 2^64
bytes. `u64` and `i64` bounds, clamping and saturation are explicit.

Where code and comments differ, the model follows the code:

- `into_canonical`'s comment says a key that fails to encode sorts under an empty
  buffer; the code keeps the bytes written before the failure
  (`codec.rs:220-227`).
- Specification 001 gives the signature prefix 17 bytes; the constant
  `evermesh:record:v1` has 18.
- `sign_as` accepts reference types above 1, which `from_cbor` refuses
  (`Record.SignedRecords`).
- The same genesis given twice is an error (`IdentityBuild.GenesisTwice`), so
  `verify_chain` does not depend on the order of its input but does depend on
  repetitions: exactly on whether the genesis is repeated
  (`IdentityProofs.RepetitionsMatter`).
- A final signing rotation can still lose to a sibling of lower id that becomes
  final later (`IdentityFinality.FinalChoiceCanBeOvertaken`; exactly when, in
  `FinalChoiceIsForever`).
- Export declares how many records it was given while import counts distinct ids,
  and a second parted blob after one of exact chunk-multiple size is lost; both
  are among the exact conditions of `BundleRoundTrip.ExportThenImport`, and
  `ImportedBlobs` says which blobs come back in any case.
- A damaged item costs one report, except that an array of unknown tag, or a
  record or blob item that fails, also uses up the place of the header when no
  array came before; `Salvage.FirstArrayDamaged` counts the reports then.
- The store clamps kinds to the signed range, so kinds from 2^63 - 1 upwards are
  confused with each other. `StoreProofs.QueryMatches` says exactly when a query
  is not affected. Pruning holds a record against the least of the overrides
  that clamp to its kind, so it can be pruned too early (`PrunedTooEarly`) or
  kept too long (`KeptTooLong`); `PrunesExactly` says for which configurations
  and kinds neither happens.
- Delivery to a subscriber is at least once, not exactly once
  (`SyncOrder.SentTwiceExactly` says which records are sent twice).
- The rate limiter reads its clock before it takes its lock, so attempts can take
  effect out of order. However small the disorder, some run then breaks the
  bound that holds in order (`RateProofs.OutOfOrderOvergrants`);
  `RateProofs.GrantsBounded` is the bound for every order.

## Model

| member | source | states |
|---|---|---|
| `CodecProofs.EncodeThenDecode` | crates/evermesh-kernel/src/codec.rs:327-494 | whatever encodes decodes to its canonical form, and exactly when no node is deeper than 64 |
| `CodecProofs.DecodeThenEncode` | crates/evermesh-kernel/src/codec.rs:327-494 | accepted bytes are the encoding of the value they decode to; that value has unique, ascending keys in every map and depth at most 64 |
| `CodecProofs.OneEncodingPerValue` | crates/evermesh-kernel/src/codec.rs:206-494 | two accepted byte strings with one value are equal; two values share an encoding if and only if they differ only in the order of map entries |
| `CodecProofs.CanonicalEncodingInjective` | crates/evermesh-kernel/src/codec.rs:258-331 | canonical values with the same encoding are equal, at any depth |
| `CodecProofs.ParseEncoded` | crates/evermesh-kernel/src/codec.rs:414-479 | the parser, at any depth and before any further bytes, reads a canonical value back and stops where its encoding stops |
| `CodecProofs.EncodeParsed` | crates/evermesh-kernel/src/codec.rs:414-479 | what the parser accepts from the front of any input is canonical, within the depth limit, and encodes to exactly the bytes read |
| `CodecProofs.CanonicalKeepsEncoding` | crates/evermesh-kernel/src/codec.rs:206-233 | `into_canonical` changes neither the encoding of a value nor whether it encodes, as its comment promises |
| `CodecProofs.CanonicalIsCanonical` | crates/evermesh-kernel/src/codec.rs:206-233 | `into_canonical` of an encodable value has the shape the decoder produces |
| `CodecProofs.CanonicalOfCanonical` | crates/evermesh-kernel/src/codec.rs:206-233 | the decoder's own output is left as it is |
| `CodecProofs.CanonicalIdempotent` | crates/evermesh-kernel/src/codec.rs:206-233 | applying `into_canonical` twice is applying it once |
| `CodecProofs.CanonicalKeepsDepth` | crates/evermesh-kernel/src/codec.rs:206-233 | reordering does not change the depth of a value |
| `CodecProofs.HeadRead` | crates/evermesh-kernel/src/codec.rs:239-256 | a head followed by anything is read back as its major type and argument |
| `CodecProofs.HeadWrite` | crates/evermesh-kernel/src/codec.rs:364-399 | an accepted argument was in shortest form: writing the head again gives the bytes read |
| `CodecProofs.PairsOf` | crates/evermesh-kernel/src/codec.rs:301-309 | a map encodes its entries if and only if every key and value encodes |
| `CodecProofs.MapEncodesExactly` | crates/evermesh-kernel/src/codec.rs:301-322 | a map encodes if and only if its keys and values do and no two keys are the same up to the order of map entries within them |
| `CodecImpl.WriteHead` | crates/evermesh-kernel/src/codec.rs:239-256 | pushes the head onto the output buffer |
| `CodecImpl.EncodeValue` | crates/evermesh-kernel/src/codec.rs:258-296 | appends what the encoding function says, also the partial output of a failure |
| `CodecImpl.EncodeItems` | crates/evermesh-kernel/src/codec.rs:279-285 | the array loop, stopping at the first item that fails |
| `CodecImpl.EncodePairs` | crates/evermesh-kernel/src/codec.rs:301-309 | the loop that encodes each key and value into its own buffer |
| `CodecImpl.EncodeMap` | crates/evermesh-kernel/src/codec.rs:301-322 | sorts by key bytes, refuses neighbours with equal keys before writing anything, then writes |
| `CodecImpl.EncodeCanonical` | crates/evermesh-kernel/src/codec.rs:327-331 | the whole encoder refines the encoding function |
| `CodecImpl.ReadExact` | crates/evermesh-kernel/src/codec.rs:345-350 | takes n bytes or leaves the position alone |
| `CodecImpl.ReadArgument` | crates/evermesh-kernel/src/codec.rs:364-399 | the argument of a head, shortest form only |
| `CodecImpl.ReadLengthArgument` | crates/evermesh-kernel/src/codec.rs:404-412 | a length never exceeds what remains of the input |
| `CodecImpl.ParseValue` | crates/evermesh-kernel/src/codec.rs:414-479 | the recursive descent over a shared position agrees with the parse function |
| `CodecImpl.ParseArrayItems` | crates/evermesh-kernel/src/codec.rs:435-442 | the array loop |
| `CodecImpl.ParseMapEntries` | crates/evermesh-kernel/src/codec.rs:443-464 | the map loop, with key order checked on the bytes just read |
| `CodecImpl.DecodeCanonical` | crates/evermesh-kernel/src/codec.rs:487-494 | refines the decoder; what it accepts encodes back to its input |
| `JsonProofs.JsonRoundTrip` | crates/evermesh-kernel/src/codec.rs:681-969 | `from_json(to_json(v))` is `v` if and only if map keys are different integers, byte strings or texts, integers in value position are at least the least i64, and depth is at most 64 |
| `JsonProofs.AcceptedRoundTrips` | crates/evermesh-kernel/src/codec.rs:932-969 | everything `from_json` accepts is such a value, so it comes back from its own JSON form |
| `JsonProofs.JsonInjective` | crates/evermesh-kernel/src/codec.rs:633-685 | different such values have different JSON forms |
| `JsonProofs.KeyRead` | crates/evermesh-kernel/src/codec.rs:558-611 | every key comes back from its string: integers as integers, and texts that look like integers or carry a prefix as texts |
| `JsonProofs.TextStringRead` | crates/evermesh-kernel/src/codec.rs:544-550 | the `txt:` mark keeps texts apart from byte strings |
| `JsonProofs.HexStringRead` | crates/evermesh-kernel/src/codec.rs:500-540 | byte strings come back from their lower-case hexadecimal form |
| `JsonProofs.EscapedRead` | crates/evermesh-kernel/src/codec.rs:613-631 | every escaped string is read back by the string parser, whatever follows its closing quote |
| `JsonProofs.NumberRead` | crates/evermesh-kernel/src/codec.rs:830-876 | rendered integers are read back up to what follows them |
| `JsonProofs.AcceptedIsCarried` | crates/evermesh-kernel/src/codec.rs:878-951 | depth, key types, key uniqueness and integer range of whatever the parser accepts |
| `JsonImpl.PushEscaped` | crates/evermesh-kernel/src/codec.rs:613-631 | the escaping loop |
| `JsonImpl.ValueToJson` | crates/evermesh-kernel/src/codec.rs:633-674 | the renderer appends the JSON form, commas included |
| `JsonImpl.Parser.TakeHex4` | crates/evermesh-kernel/src/codec.rs:741-753 | four hexadecimal digits of either case |
| `JsonImpl.Parser.TakeString` | crates/evermesh-kernel/src/codec.rs:759-813 | string literals with all escapes; lone surrogates and raw control characters are refused |
| `JsonImpl.Parser.TakeNumber` | crates/evermesh-kernel/src/codec.rs:830-876 | integers only, no leading zero, no negative zero, in range |
| `JsonImpl.Parser.TakeArray` | crates/evermesh-kernel/src/codec.rs:878-900 | the array loop |
| `JsonImpl.Parser.TakeObject` | crates/evermesh-kernel/src/codec.rs:902-930 | the object loop, with its duplicate-key check |
| `JsonImpl.Parser.TakeValue` | crates/evermesh-kernel/src/codec.rs:932-951 | the recursive descent over the character iterator |
| `JsonImpl.RenderJson` | crates/evermesh-kernel/src/codec.rs:681-685 | the whole renderer |
| `JsonImpl.ParseJson` | crates/evermesh-kernel/src/codec.rs:961-969 | the whole parser; what it returns comes back from its own JSON form |
| `Blob.RootIsMerkleTreeHash` | crates/evermesh-kernel/src/blob.rs:87-150 | level-by-level reduction with promotion gives the root of the recursive tree of section 2.1 of RFC 6962, for every non-empty list of leaves |
| `Blob.ReduceKeepsTreeHash` | crates/evermesh-kernel/src/blob.rs:87-98 | one reduction leaves that tree hash unchanged |
| `Blob.ProofsVerify` | crates/evermesh-kernel/src/blob.rs:171-236 | completeness: every proof made for a chunk of a blob is accepted for that chunk |
| `Blob.AcceptedIsTrueOrCollides` | crates/evermesh-kernel/src/blob.rs:199-236 | soundness: against the true root and count only the true chunk with the one true proof is accepted, or two different inputs with equal hash are computed from what was accepted |
| `Blob.ClimbIsUnique` | crates/evermesh-kernel/src/blob.rs:207-236 | at every level of the tree a path that reaches the root is the true one or exhibits a collision |
| `Blob.ProofLength` | crates/evermesh-kernel/src/blob.rs:171-194 | a tree of at most 2^k leaves needs at most k hashes per proof |
| `Blob.ChunksShape` | crates/evermesh-kernel/src/blob.rs:131-137 | chunks lose nothing, all but the last are full, and the last is full exactly for multiples of the chunk size |
| `Blob.ChunksAppend` | crates/evermesh-kernel/src/blob.rs:131-137 | whole chunks at the front do not influence how the rest is cut |
| `BlobImpl.ReduceLevel` | crates/evermesh-kernel/src/blob.rs:87-98 | pairs left to right and promotes the odd node |
| `BlobImpl.ComputeRoot` | crates/evermesh-kernel/src/blob.rs:141-150 | the reduction loop computes the RFC 6962 tree hash |
| `BlobImpl.ComputeProof` | crates/evermesh-kernel/src/blob.rs:171-194 | the proof loop collects the sibling of each node on the way up |
| `BlobImpl.VerifyChunk` | crates/evermesh-kernel/src/blob.rs:199-236 | the verification loop over index, level length and proof position |
| `BlobImpl.FillBuf` | crates/evermesh-kernel/src/blob.rs:71-82 | fills the buffer from the front whatever short or interrupted reads occur |
| `BlobImpl.Build` | crates/evermesh-kernel/src/blob.rs:112-128 | over any schedule of reads the tree is that of the whole data |
| `BlobImpl.BlobHasher.Update` | crates/evermesh-wasm/src/lib.rs:396-416 | any piece may be fed until finalized; leaves cover the whole chunks so far |
| `BlobImpl.BlobHasher.Finalize` | crates/evermesh-wasm/src/lib.rs:420-449 | leaves, size and root are those of the one-shot tree |
| `BlobImpl.HashPieces` | crates/evermesh-wasm/src/lib.rs:396-449 | any split of a blob into updates gives the leaves, size and root of the one-shot tree |
| `Rfc8949.BytewiseOrder` | crates/evermesh-kernel/src/codec.rs:301-322 | the comparison that keys are sorted and checked by is the bytewise order: less at the first octet that differs, or a proper prefix |
| `Rfc8949.HeadIs` | crates/evermesh-kernel/src/codec.rs:239-256 | the octets of every head, spelled out by the range of its argument |
| `Rfc8949.EncodedAs` | crates/evermesh-kernel/src/codec.rs:258-296 | what every value but a map is encoded as, head and content |
| `Rfc8949.MapListed` | crates/evermesh-kernel/src/codec.rs:301-322 | an encodable map is its head and all its entries, each encoded key greater than the one before at the first octet where they differ, or extending it |
| `Rfc8949.ListedAs` | crates/evermesh-kernel/src/codec.rs:301-322 | and any permutation of its entries that ascends so is what is written |
| `Rfc8949.OnlyAscendingAccepted` | crates/evermesh-kernel/src/codec.rs:443-464 | a map whose entries are listed in some order is accepted if and only if every key ascends from the one before and the depth allows it |
| `Rfc3629.Octets` | crates/evermesh-kernel/src/codec.rs:274-278 | the one to four octets of every character, bit by bit |
| `Rfc3629.OneByOne` | crates/evermesh-kernel/src/codec.rs:274-278 | a text is encoded character by character |
| `Rfc6962.BlobRoot` | crates/evermesh-kernel/src/blob.rs:50-150 | the root of a blob is the recursive tree hash over its chunks, written out: a leaf is the hash of 00 and the chunk, a node that of 01, left and right, split at the largest power of two below the size |
| `Rfc6962.ChunksAre` | crates/evermesh-kernel/src/blob.rs:131-137 | chunk i is the slice of 2^20 bytes from i * 2^20, or what is left of it |
| `Rfc6962.VerifyRebuilds` | crates/evermesh-kernel/src/blob.rs:199-236 | a proof is accepted if and only if rebuilding the root from the hash of 00 and the chunk, by recursion over the same splits, gives the root |
| `Rfc6962.ProofIsAuditPath` | crates/evermesh-kernel/src/blob.rs:171-194 | the proof made for a chunk is its audit path, root hashes of the other halves from the leaf upwards |
| `Rfc8259.StringRead` | crates/evermesh-kernel/src/codec.rs:759-813 | every string literal is read as the characters it spells: as themselves, by letter, by code unit or by surrogate pair |
| `Rfc8259.StringSpelt` | crates/evermesh-kernel/src/codec.rs:759-813 | and every string that is read was spelled by such a literal |
| `Rfc8259.NumberReadAs` | crates/evermesh-kernel/src/codec.rs:830-876 | every decimal integer, with or without sign, is read as the number it spells, or refused when out of range |
| `Rfc8259.TextParsed` | crates/evermesh-kernel/src/codec.rs:728-969 | every JSON text built from literals, integers, strings, arrays and objects with any white space the grammar allows is read as what it means, or refused if that is too deep, out of range or repeats a key |
| `Rfc8259.OnlyTextsAccepted` | crates/evermesh-kernel/src/codec.rs:728-969 | nothing else is accepted: an accepted input is such a text, and its value what the text means |
| `Rfc8259.StringMeans` | crates/evermesh-kernel/src/codec.rs:690-698 | `hex:` is followed by two lower-case digits for each octet; `txt:` is dropped; other strings stand for themselves |
| `Rfc8259.KeyMeans` | crates/evermesh-kernel/src/codec.rs:558-588 | a key is an integer exactly if it is spelled as one within range |
| `JsonWire.RenderedAs` | crates/evermesh-kernel/src/codec.rs:500-674 | what is rendered: no white space, integers without leading zeros, the shortest escape of every character, marks exactly where they are needed |
| `Record.FromCborThenToCbor` | crates/evermesh-kernel/src/record.rs:187-281 | bytes that parse to a record are its own canonical bytes; its body is a canonical map at most 63 deep and its references are of known type |
| `Record.ToCborThenFromCbor` | crates/evermesh-kernel/src/record.rs:187-281 | a record with a wire form comes back from it if and only if those conditions hold |
| `Record.SignedRecords` | crates/evermesh-kernel/src/record.rs:387-414 | signing succeeds exactly for an encodable map body; the result verifies and survives the wire if and only if the body is at most 63 deep and references are of known type |
| `Record.IdCommits` | crates/evermesh-kernel/src/record.rs:187-213 | the id does not depend on the signature, and two records with one id agree on everything else or exhibit a hash collision |
| `Record.FromValueExact` | crates/evermesh-kernel/src/record.rs:228-281 | only the value built from a record parses to it |
| `Record.FromValueOfRecord` | crates/evermesh-kernel/src/record.rs:187-281 | a record's own value parses back exactly when its body is a map and its references are of known type |
| `Record.EnvelopeCanonical` | crates/evermesh-kernel/src/record.rs:187-204 | the envelope is in canonical form exactly when the body is, and one level deeper than it |
| `Record.EnvelopeEncodes` | crates/evermesh-kernel/src/record.rs:187-221 | the envelope encodes exactly when the body does |
| `Record.RefFromValue` | crates/evermesh-kernel/src/record.rs:58-80 | an accepted reference is the one its value was built from, of type 0 or 1 |
| `Record.IdentityRefFromValue` | crates/evermesh-kernel/src/record.rs:100-127 | an accepted author is the one its value was built from |
| `RecordWire.EnvelopeIs` | crates/evermesh-kernel/src/record.rs:187-221 | the octets of the envelope, signed and unsigned, field by field under the keys 1 to 7 |
| `RecordWire.IdIs` | crates/evermesh-kernel/src/record.rs:206-213 | the id is the hash of the octets of the envelope without its signature |
| `RecordWire.VerifiesIs` | crates/evermesh-kernel/src/record.rs:286-310 | a record verifies if and only if its algorithm is 1, its key has 32 octets, its signature 64, and the check accepts the signature for the 18 octets of the prefix followed by that hash |
| `RecordWire.SignedAs` | crates/evermesh-kernel/src/record.rs:387-414 | what signing returns carries the given fields, the canonical body, and the signature of exactly that message |
| `RecordWire.NoForgery` | crates/evermesh-kernel/src/record.rs:286-310 | if under a key the check accepts only messages of records in a set, a record verifies under that key only if it agrees with one of them in everything but the signature, or two different envelopes with one hash are at hand |
| `RecordImpl.RecordBuilder.AddRef` | crates/evermesh-kernel/src/record.rs:366-369 | appends one reference |
| `RecordImpl.RecordBuilder.Sign` | crates/evermesh-kernel/src/record.rs:387-414 | the finished record carries the builder's fields, a body with the same encoding and the signature of its prefixed id, verifies, and has a wire form |
| `RecordImpl.CollectRefs` | crates/evermesh-kernel/src/record.rs:255-258 | the loop that pushes references |
| `RecordImpl.ReadRecord` | crates/evermesh-kernel/src/record.rs:223-281 | refines the parser; what it accepts has its input as canonical bytes |
| `RecordJson.RecordJsonRoundTrip` | crates/evermesh-kernel/src/record.rs:313-327 | a record comes back from JSON if and only if it survives the binary wire and its body is fit for JSON |
| `RecordJson.JsonIsAsStrict` | crates/evermesh-kernel/src/record.rs:319-327 | what JSON brings in survives the binary wire and JSON again |
| `IdentityProofs.OrderIndependence` | crates/evermesh-kernel/src/identity.rs:230-377 | every permutation of the records gives the same state or the same error, when records with one id have one signed content |
| `IdentityProofs.RepetitionsMatter` | crates/evermesh-kernel/src/identity.rs:230-377 | two inputs made of the same records, repeated and ordered in any way, give the same answer if and only if the genesis occurs once in both or in neither |
| `IdentityProofs.RepeatedGenesisFails` | crates/evermesh-kernel/src/identity.rs:253-255 | an input in which a valid genesis occurs more than once is refused |
| `IdentityBuild.GenesisTwice` | crates/evermesh-kernel/src/identity.rs:230-257 | a genesis made by any key pair verifies on its own and is refused when given twice |
| `IdentityProofs.CertifiedMaximalPath` | crates/evermesh-kernel/src/identity.rs:230-377 | the state is the end of a chain from the one genesis in which every link verifies, names its predecessor and is signed by a signing or recovery key of the state before; no supplied rotation extends it; its depth is the number of links and at most the number of rotations with a parent that are ranked above the genesis |
| `IdentityProofs.WalkStops` | crates/evermesh-kernel/src/identity.rs:292-376 | when the parent links of rotations are acyclic the walk ends, after at most as many steps as there are rotations with a parent ranked above its start |
| `IdentityProofs.TheftRecovery` | crates/evermesh-kernel/src/identity.rs:344-364 | where the walk meets a window, a recovery child and no final signing child, adding non-final signing siblings and whole branches below signing children changes nothing |
| `IdentityProofs.HarmlessAdditions` | crates/evermesh-kernel/src/identity.rs:292-376 | records that change no choice along the walk leave the result as it is |
| `IdentityFinality.FinalPathIsStable` | crates/evermesh-kernel/src/identity.rs:310-364 | a path of final signing children of lowest id is walked again at every later time and with any added recovery children |
| `IdentityFinality.FinalChoiceIsForever` | crates/evermesh-kernel/src/identity.rs:344-364 | over any supplied records: where a final signing child is followed, it is followed at every later time if and only if no signing sibling of lower id can still become final |
| `IdentityFinality.FinalChoiceCanBeOvertaken` | crates/evermesh-kernel/src/identity.rs:230-377 | for any genesis with a window that can close and any two signing siblings after it, times of arrival under which `verify_chain` first follows the final one and later the other |
| `IdentityBuild.MadeSiblings` | crates/evermesh-kernel/src/identity.rs:175-223 | the holder of any key pair can make such a genesis and siblings |
| `IdentityFinality.NoWindowNoClock` | crates/evermesh-kernel/src/identity.rs:310-364 | where every window declared is 0 or at least 2^63 - 1, the result depends neither on the clock nor on times of arrival |
| `IdentityFinality.VerifiersConverge` | crates/evermesh-kernel/src/identity.rs:226-234 | two verifiers that have held the same records longer than every window that can close verify the same state, in whatever order and whenever they received them, and at every later time |
| `IdentityFinality.SameFinalitySameChain` | crates/evermesh-kernel/src/identity.rs:292-376 | times of arrival matter only through which rotations are final under the windows declared |
| `IdentityFinality.HugeWindowNeverCloses` | crates/evermesh-kernel/src/identity.rs:310-338 | a window of 2^63 - 1 seconds or more never closes |
| `IdentityFinality.FinalStaysFinal` | crates/evermesh-kernel/src/identity.rs:310-338 | finality is kept as the clock advances |
| `IdentityBuild.BodyRoundTrip` | crates/evermesh-kernel/src/identity.rs:67-135 | a rotation body encodes and is parsed back after signing put its keys in order |
| `IdentityBuild.GenesisVerifies` | crates/evermesh-kernel/src/identity.rs:175-194 | a genesis record can always be made, and alone verifies to its own id, key, recovery keys and window |
| `IdentityBuild.RotationIsRecognised` | crates/evermesh-kernel/src/identity.rs:199-223 | a rotation is recognised as signing or recovery exactly when its signer holds the current signing key or a recovery key |
| `IdentityBuild.RotationAdvances` | crates/evermesh-kernel/src/identity.rs:199-376 | a rotation by such a signer moves a settled chain on to the keys and window it declares |
| `ActiveBranch.WalkFollowsRule` | crates/evermesh-kernel/src/identity.rs:292-376 | at every state the walk passes it follows the record of least id, in bytewise order, among all authorised children when the window is 0, and otherwise among the final signing children if there are any, else the recovery children, else the signing children; to the state that record declares; it stays where no child is authorised |
| `ActiveBranch.ActiveBranchExactly` | crates/evermesh-kernel/src/identity.rs:230-377 | given one genesis, `verify_chain` returns a state if and only if that state ends the branch which this rule selects link by link |
| `ActiveBranch.NoGenesisNoState` | crates/evermesh-kernel/src/identity.rs:235-259 | no genesis is reported if and only if there is none, and a state is returned only if there is exactly one, supplied once |
| `ActiveBranch.GenesisIs` | crates/evermesh-kernel/src/identity.rs:235-252 | which records are a genesis: kind 1, no references, an identity of 32 zeros, verified, and signed by the key and algorithm that the body declares |
| `ActiveBranch.AuthorisedIs` | crates/evermesh-kernel/src/identity.rs:262-309 | which records are signing and recovery children of a state, over their fields |
| `ActiveBranch.FinalIs` | crates/evermesh-kernel/src/identity.rs:310-338 | when a child is final: observed more than the window ago, never for windows of 2^63 - 1 or more |
| `IdentityWire.BodyReadsExactly` | crates/evermesh-kernel/src/identity.rs:90-135 | a body parses to a rotation if and only if the first values under the four keys are those of the rotation |
| `IdentityWire.BodyWritten` | crates/evermesh-kernel/src/identity.rs:67-87 | the octets of a rotation body |
| `IdentityWire.GenesisMade` | crates/evermesh-kernel/src/identity.rs:175-194 | the fields, octets and signature of a genesis record |
| `IdentityWire.RotationMade` | crates/evermesh-kernel/src/identity.rs:199-223 | the fields, octets and signature of a rotation record |
| `IdentityImpl.CollectKeys` | crates/evermesh-kernel/src/identity.rs:112-128 | the loop that pushes recovery keys |
| `IdentityImpl.ReadRotation` | crates/evermesh-kernel/src/identity.rs:90-135 | the whole parser of rotation bodies |
| `IdentityImpl.FindGenesis` | crates/evermesh-kernel/src/identity.rs:235-259 | returns the one valid genesis, or tells none from several |
| `IdentityImpl.IndexByParent` | crates/evermesh-kernel/src/identity.rs:262-280 | every parent is mapped to its verified rotations of this identity, in input order |
| `IdentityImpl.Classify` | crates/evermesh-kernel/src/identity.rs:296-309 | children are sorted into signing and recovery candidates |
| `IdentityImpl.Run` | crates/evermesh-kernel/src/identity.rs:230-377 | the walk that updates the state in place; no supplied rotation extends what it returns |
| `BundleRoundTrip.ExportThenImport` | crates/evermesh-kernel/src/bundle.rs:40-344 | importing an export returns the records in order and the blobs by first occurrence, with no report and not truncated, if and only if every record can be carried, ids are distinct, and no parted blob of exact chunk-multiple size is directly followed by a parted blob |
| `BundleRoundTrip.ImportedBlobs` | crates/evermesh-kernel/src/bundle.rs:40-344 | the blobs an import of an export returns, whatever the records: by first occurrence, without each parted blob directly after a surviving one of exact chunk-multiple size; none when some record is too long to be read, and only then is the import truncated |
| `BundleRoundTrip.PartedLost` | crates/evermesh-kernel/src/bundle.rs:252-309 | the items of the second of two such parted blobs finish the first, cause reports and change nothing else: that blob is lost |
| `BundleProofs.ImportIsSafe` | crates/evermesh-kernel/src/bundle.rs:126-344 | on any bytes: emitted records verify, emitted blobs hash to their ids, no id twice |
| `BundleProofs.LoopSane` | crates/evermesh-kernel/src/bundle.rs:167-335 | at every moment of an import the same holds, and the counters equal the emitted counts |
| `BundleProofs.TruncationKeepsPrefix` | crates/evermesh-kernel/src/bundle.rs:126-344 | the records imported from a prefix of a stream are a prefix of those imported from the whole |
| `BundleProofs.ReadItemOfEncoding` | crates/evermesh-kernel/src/bundle.rs:359-433 | on the encoding of any value followed by anything the scanner returns exactly that encoding, or refuses exactly as its limits on depth, string length and count say |
| `BundleProofs.ScanEncoded` | crates/evermesh-kernel/src/bundle.rs:359-433 | at any depth of the stack the scanner passes over one encoded value and nothing else |
| `BundleProofs.ScanPrefix` | crates/evermesh-kernel/src/bundle.rs:359-433 | a complete item is read the same from a longer stream |
| `BundleProofs.ScansDepth` | crates/evermesh-kernel/src/bundle.rs:402-430 | what passes the scanner is within the depth the decoder accepts |
| `BundleProofs.LoopIsFold` | crates/evermesh-kernel/src/bundle.rs:167-335 | importing a stream of encoded items is processing the items one by one |
| `Salvage.DamagedItemSkipped` | crates/evermesh-kernel/src/bundle.rs:176-334 | after any items without an end item, an item that cannot be decoded, is no array or bears no known tag, followed by any bytes, costs one report: records, blobs and the truncated flag are what they are without it |
| `Salvage.FailedItemSkipped` | crates/evermesh-kernel/src/bundle.rs:203-251 | likewise a record or blob item that fails its checks; it ends the collecting of parts as such an item does, so blobs and reports are those without it where no parts are being collected, and those after that flush in any case |
| `Salvage.FirstArrayDamaged` | crates/evermesh-kernel/src/bundle.rs:186-202 | when no array came before, exactly how many reports a damaged array costs, everything else being what it is without it |
| `Salvage.ImportedRecords` | crates/evermesh-kernel/src/bundle.rs:126-344 | from any stream come the records of its items that decode and verify, before the first end item, each id once and in order; truncated if and only if there is no end item |
| `Salvage.ImportedBlob` | crates/evermesh-kernel/src/bundle.rs:225-251 | every whole-blob item before the first end item whose content hashes to its id is among the blobs returned |
| `Salvage.ItemsRead` | crates/evermesh-kernel/src/bundle.rs:359-433 | the scanner returns exactly the data item at the front, measured by recursion over heads, strings and members up to 63 containers deep |
| `BundleWire.ExportWritten` | crates/evermesh-kernel/src/bundle.rs:40-100 | the octets of an export: magic, header, records in order, each blob where its id first occurs, whole or in parts of 2^20 octets, and the end item with its two counts |
| `BundleImpl.ReadOneItem` | crates/evermesh-kernel/src/bundle.rs:359-433 | the stack machine over the input, one item per call |
| `BundleImpl.ReadRawHead` | crates/evermesh-kernel/src/bundle.rs:373-400 | one head with its argument bytes |
| `BundleImpl.Importer.TakeRecord` | crates/evermesh-kernel/src/bundle.rs:203-224 | a record item: parse, verify, emit once |
| `BundleImpl.Importer.TakeBlob` | crates/evermesh-kernel/src/bundle.rs:225-251 | a blob item: hash, emit once |
| `BundleImpl.Importer.TakePart` | crates/evermesh-kernel/src/bundle.rs:252-309 | the parted-blob state machine |
| `BundleImpl.Importer.FlushParts` | crates/evermesh-kernel/src/bundle.rs:149-165 | a finished parted blob is emitted if it hashes to its id |
| `BundleImpl.Importer.TakeItem` | crates/evermesh-kernel/src/bundle.rs:176-334 | one turn of the import loop |
| `BundleImpl.ImportStreaming` | crates/evermesh-kernel/src/bundle.rs:126-344 | the whole import, with its safety |
| `BundleImpl.WriteBlobs` | crates/evermesh-kernel/src/bundle.rs:61-91 | hash check, deduplication and splitting into parts |
| `BundleImpl.ExportBundle` | crates/evermesh-kernel/src/bundle.rs:40-100 | the whole export |
| `FrameCodecProofs.ReadersAgree` | crates/evermesh-relay/src/frames.rs:293-369 | at depth at most 64 the frame decoder accepts exactly the inputs the kernel's decoder accepts without negative integers, with the same value |
| `FrameCodecProofs.WritersAgree` | crates/evermesh-relay/src/frames.rs:134-198 | where the kernel's encoder succeeds the frame encoder writes the same bytes |
| `FrameCodecProofs.KernelReads` | crates/evermesh-relay/src/frames.rs:293-360 | what the frame reader reads from the front of any input the kernel's parser reads too, given room for its depth |
| `FrameCodecProofs.FrameReads` | crates/evermesh-relay/src/frames.rs:293-360 | what the kernel's parser reads without a negative integer the frame reader reads too |
| `FrameCodecProofs.DecodeThenEncode` | crates/evermesh-relay/src/frames.rs:157-369 | accepted bytes are the one encoding of their value, at any depth |
| `FrameCodecProofs.EncodeThenDecode` | crates/evermesh-relay/src/frames.rs:157-369 | a value comes back from its encoding if and only if every map has unique, ascending keys |
| `FrameCodecImpl.AppendValue` | crates/evermesh-relay/src/frames.rs:157-198 | the encoder over its buffer |
| `FrameCodecImpl.EncodeEach` | crates/evermesh-relay/src/frames.rs:180-189 | keys and values of a map, each encoded on its own |
| `FrameCodecImpl.Reader.ReadBytes` | crates/evermesh-relay/src/frames.rs:230-235 | takes n bytes or leaves the position alone |
| `FrameCodecImpl.Reader.ReadLength` | crates/evermesh-relay/src/frames.rs:239-280 | lengths and integers in shortest form |
| `FrameCodecImpl.Reader.CheckedLength` | crates/evermesh-relay/src/frames.rs:239-290 | a claimed length never exceeds what remains |
| `FrameCodecImpl.DecodeValue` | crates/evermesh-relay/src/frames.rs:293-360 | the recursive reader agrees with the parse function |
| `FrameCodecImpl.DecodePairs` | crates/evermesh-relay/src/frames.rs:327-347 | the map loop; key order is looked at after the value is read |
| `FrameCodecImpl.DecodeComplete` | crates/evermesh-relay/src/frames.rs:362-369 | the whole decoder; what it accepts encodes back to its input |
| `FramesProofs.ClientRoundTrip` | crates/evermesh-relay/src/frames.rs:413-488 | client frames come back from the wire if and only if their subscription id has at most 64 bytes |
| `FramesProofs.ClientDecodeThenEncode` | crates/evermesh-relay/src/frames.rs:413-488 | accepted client frames encode back to their bytes if and only if a filter in them has no unknown keys |
| `FramesProofs.RelayRoundTrip` | crates/evermesh-relay/src/frames.rs:490-597 | relay frames come back from the wire if and only if their subscription id has at most 64 bytes |
| `FramesProofs.RelayDecodeThenEncode` | crates/evermesh-relay/src/frames.rs:490-597 | accepted relay frames encode back to exactly their bytes |
| `FrameWire.ClientWritten` | crates/evermesh-relay/src/frames.rs:463-488 | the octets of every client frame |
| `FrameWire.RelayWritten` | crates/evermesh-relay/src/frames.rs:563-597 | the octets of every relay frame |
| `FilterProofs.FilterRoundTrip` | crates/evermesh-relay/src/filter.rs:58-112 | `from_value(to_value(f))` is `f` |
| `FilterProofs.ReadsWritten` | crates/evermesh-relay/src/filter.rs:58-112 | also with the pairs in any order and unknown pairs among them |
| `FilterProofs.ReadsExactly` | crates/evermesh-relay/src/filter.rs:58-75 | a map of distinct keys reads as the one filter that says what its known keys say, and nothing else |
| `FilterProofs.AssignFits` | crates/evermesh-relay/src/filter.rs:61-73 | one pair sets one field, to exactly the value it holds, or is refused |
| `FilterProofs.ListsExact` | crates/evermesh-relay/src/filter.rs:157-163 | the list parsers accept exactly what the list writers write |
| `FrameWire.FilterWritten` | crates/evermesh-relay/src/filter.rs:79-112 | the octets of every filter |
| `Filters.ReadFilter` | crates/evermesh-relay/src/filter.rs:58-75 | the loop over the map |
| `Filters.AssignPair` | crates/evermesh-relay/src/filter.rs:62-72 | one turn of that loop |
| `Filters.WriteFilter` | crates/evermesh-relay/src/filter.rs:79-112 | the six pushes |
| `StoreProofs.QueryMatches` | crates/evermesh-relay/src/store.rs:176-246 | the query returns the first `limit` records the filter matches, newest first, if and only if it returns no record of a clashing kind; for every limit, if and only if the store holds none that the rest of the filter accepts |
| `StoreProofs.NewestExactly` | crates/evermesh-relay/src/store.rs:228-245 | what that means: matching rows in descending sequence, and one is left out only when the list is full of newer ones |
| `StoreProofs.SelectsExactly` | crates/evermesh-relay/src/store.rs:60-65 | SQL and filter differ on a record if and only if its unlisted kind and a listed one are both at least 2^63 - 1 and nothing else rejects it |
| `StoreProofs.ClashExample` | crates/evermesh-relay/src/store.rs:121-246 | a record of an unlisted kind that a query by kind returns after its insertion |
| `StoreProofs.LimitClampHarmless` | crates/evermesh-relay/src/store.rs:228-230 | clamping the limit never cuts anything off |
| `StoreProofs.SequencesNeverReused` | crates/evermesh-relay/src/store.rs:121-165 | over every run of insertions and prunings the sequences assigned are consecutive after the last one ever assigned, so none is reused, and every row left carries one of them |
| `StoreProofs.InsertKeeps` | crates/evermesh-relay/src/store.rs:121-165 | inserting is idempotent by id and appends at most one row |
| `StoreProofs.PruneKeepsWindow` | crates/evermesh-relay/src/store.rs:260-287 | pruning keeps exactly the records within the retention window of their kind, when the kinds stored pass the test of `PrunesExactly` |
| `StoreProofs.PrunesExactly` | crates/evermesh-relay/src/config.rs:85-91 | the delete statements agree with `retention_days_for_kind` on a kind, for every record and time, if and only if no override clamps to that kind or the least of those that do is the retention of the kind |
| `StoreProofs.PrunesByLeast` | crates/evermesh-relay/src/store.rs:260-317 | a record is pruned exactly when it is older than the least of the overrides that clamp to its kind, or than the default if there are none |
| `StoreProofs.LowKindsFollow` | crates/evermesh-relay/src/store.rs:60-65 | kinds below 2^63 - 1 always agree |
| `StoreProofs.PrunedTooEarly` | crates/evermesh-relay/src/store.rs:268-274 | a record pruned before its time because of a clashing override |
| `StoreProofs.KeptTooLong` | crates/evermesh-relay/src/store.rs:296-317 | a record kept beyond its time because an override reaches its kind |
| `Retrieval.MatchesExactly` | crates/evermesh-relay/src/filter.rs:114-154 | which records a filter matches, condition by condition over list positions |
| `Retrieval.QueryExactly` | crates/evermesh-relay/src/store.rs:176-246 | a query returns the newest rows that the filter finds, newest first, up to its limit or the default, where kinds from 2^63 - 1 on count as one |
| `Retrieval.PrunesWhenRunOut` | crates/evermesh-relay/src/store.rs:260-317 | a record is pruned if and only if some retention for its column has run out, or there is none and the default has |
| `Retrieval.PruneExactly` | crates/evermesh-relay/src/store.rs:260-287 | pruning removes those rows and no others, keeps the order and frees no sequence |
| `StoreImpl.ClausesHold` | crates/evermesh-relay/src/store.rs:192-226 | the WHERE clause built from a filter selects what the filter says, references through the second table included |
| `StoreImpl.EmptyListSelectsNothing` | crates/evermesh-relay/src/store.rs:183-189 | the early return for empty lists is what the query would give |
| `StoreImpl.StatementsTogether` | crates/evermesh-relay/src/store.rs:268-277 | the per-kind statements and the default statement together remove what the clamped retention rule says |
| `StoreImpl.RecordStore.InsertRecord` | crates/evermesh-relay/src/store.rs:121-165 | both tables change as one insertion, or not at all |
| `StoreImpl.RecordStore.QueryRecords` | crates/evermesh-relay/src/store.rs:176-246 | the statement built step by step returns the specified rows |
| `StoreImpl.RecordStore.MaxSeq` | crates/evermesh-relay/src/store.rs:249-253 | the highest stored sequence, 0 for an empty store |
| `StoreImpl.RecordStore.PruneExpired` | crates/evermesh-relay/src/store.rs:260-287 | the tables become the pruned store and the count is the number of rows removed |
| `StoreImpl.RecordStore.DeleteDefaultExpired` | crates/evermesh-relay/src/store.rs:296-317 | the default statement, with and without overrides |
| `SyncProofs.SubscriptionsHaveNoGap` | crates/evermesh-relay/src/sync.rs:46-162 | in every interleaving: a subscription whose backfill succeeded within its limit, on a connection that never lagged, was sent every stored match or has it queued, or the record is committed and not yet broadcast; and only committed records the filter accepts are sent, live at most once |
| `SyncProofs.QuietMeansComplete` | crates/evermesh-relay/src/sync.rs:46-162 | with nothing pending or queued such a subscription was sent every stored match |
| `SyncProofs.CatchesUp` | crates/evermesh-relay/src/sync.rs:46-80 | from every reachable state the broadcasts and receives already due complete the delivery |
| `SyncOrder.SentTwiceExactly` | crates/evermesh-relay/src/sync.rs:46-162 | a record in the answer to a REQ is later sent live for that subscription only if the filter matches it and it was queued for the connection or not yet broadcast when the query was answered; while the subscription stays open without lag it then is, by the time nothing is pending or queued |
| `SyncOrder.SentTwiceInTheEnd` | crates/evermesh-relay/src/sync.rs:46-162 | from every such state the broadcasts and receives already due lead there |
| `SyncProofs.SentTwice` | crates/evermesh-relay/src/sync.rs:124-162 | a run in which one record is sent both in the backfill and live |
| `SyncOrder.BackfillThenEoseThenLive` | crates/evermesh-relay/src/sync.rs:124-162 | in every interleaving a subscription is sent stored records newest first, then EOSE, then live records only, all under its filter (section 1 of specification 006) |
| `Delivery.NoGapSinceReq` | crates/evermesh-relay/src/sync.rs:46-162 | in every run: after a REQ whose filter finds no more rows than its limit when it is answered, every record the relay then holds that the filter wants was sent for the subscription since the REQ, or is queued, or still to be broadcast, while the subscription is neither closed nor replaced and the connection does not lag after the answer |
| `Delivery.SentInTheEnd` | crates/evermesh-relay/src/sync.rs:46-162 | from every such answer broadcasts and receives alone lead to a state in which all of them have been sent |
| `Delivery.NothingElseSent` | crates/evermesh-relay/src/sync.rs:46-162 | whatever a subscription is sent since its REQ was published in that run and is found (in the answer) or wanted (live) by its filter, nothing live twice, with one EOSE between the two |
| `Delivery.AnswerExactly` | crates/evermesh-relay/src/sync.rs:133-161 | a REQ is answered with the newest rows its filter finds, then EOSE; EOSE alone when the query fails |
| `Delivery.SilentAfterClose` | crates/evermesh-relay/src/sync.rs:105-107 | after a CLOSE nothing is sent for the subscription until it is opened again |
| `SyncProofs.StepGapFree` | crates/evermesh-relay/src/sync.rs:46-162 | every step keeps the no-gap property |
| `SyncProofs.StepKeepsInv` | crates/evermesh-relay/src/sync.rs:46-162 | every step keeps queues duplicate-free and made of committed, broadcast records |
| `SyncProofs.StepTruthful` | crates/evermesh-relay/src/sync.rs:320-338 | every step sends only committed records the filter accepts, and a record live at most once per subscription id |
| `SyncProofs.AnswerIsWhole` | crates/evermesh-relay/src/sync.rs:131-148 | a backfill within its limit holds every stored match |
| `SyncImpl.Connection.Register` | crates/evermesh-relay/src/sync.rs:131 | a REQ replaces the subscription of its id before the query |
| `SyncImpl.Connection.Answer` | crates/evermesh-relay/src/sync.rs:133-161 | the frames that leave: one for each of the newest rows found, with its sequence and bytes, then EOSE; EOSE alone when the query fails |
| `SyncImpl.Connection.CloseSub` | crates/evermesh-relay/src/sync.rs:105-107 | CLOSE removes one subscription |
| `SyncImpl.Connection.DeliverLive` | crates/evermesh-relay/src/sync.rs:320-338 | exactly one frame with the sequence and bytes of the record for each open subscription that wants it, and none for others |
| `SyncImpl.Relay.HandlePub` | crates/evermesh-relay/src/sync.rs:169-318 | a publication is stored and broadcast only if it decodes, verifies, carries enough work and is within its rate; the rate is charged only after the other checks; the new row has the id, kind, author and reference hashes of the decoded record, its bytes, the time of receipt and the next sequence, and a known id changes nothing |
| `SyncImpl.Relay.IngestFromPeer` | crates/evermesh-relay/src/gossip.rs:114-168 | a peer record is verified like a publication, without work or rate checks, and stored and broadcast as the same row |
| `SyncImpl.Relay.Accept` | crates/evermesh-relay/src/sync.rs:242-291 | storing and broadcasting one verified record: exactly how table and broadcasts change, and everything stored or broadcast stays described by the record its bytes decode to |
| `GossipProofs.BroadcastsOnce` | crates/evermesh-relay/src/gossip.rs:154-166 | in every run no relay broadcasts a record twice |
| `GossipProofs.MessagesBounded` | crates/evermesh-relay/src/gossip.rs:63-168 | a finite set of publications causes at most two messages per link, relay and record, on any topology |
| `GossipProofs.FloodingTerminates` | crates/evermesh-relay/src/gossip.rs:63-168 | no run of deliveries and broadcasts is longer than a number fixed at its start |
| `GossipProofs.ReachesQuiescence` | crates/evermesh-relay/src/gossip.rs:63-168 | every state leads to one with nothing left to do |
| `GossipProofs.StuckIsQuiescent` | crates/evermesh-relay/src/gossip.rs:76-107 | as long as something is pending or under way a step is possible |
| `GossipProofs.LinkConverges` | crates/evermesh-relay/src/gossip.rs:63-168 | in every quiescent state a record accepted at the server after the subscription is up is stored at the client; one accepted at the client while it forwards is stored at the server or was turned down |
| `GossipProofs.PathConverges` | crates/evermesh-relay/src/gossip.rs:63-168 | and so along every path of subscriptions on which each client has, or is about to get, what its server has of the record |
| `GossipProofs.BackfillCatchesUp` | crates/evermesh-relay/src/gossip.rs:68-88 | after an uncut backfill the client has, or is about to get, what the server has, and everything the server stores reaches it |
| `RateProofs.GrantsBounded` | crates/evermesh-relay/src/rate.rs:49-77 | whatever order attempts take effect in and whatever others do, an identity is granted at most limit + (to - from + r) * limit / 60 in any interval, where r is by how much the clock of its attempts jumps back in all |
| `RateProofs.InOrderRewindsNothing` | crates/evermesh-relay/src/rate.rs:49-77 | r is 0 if and only if the attempts take effect in order of time |
| `RateProofs.SpacedNeverRefused` | crates/evermesh-relay/src/rate.rs:49-77 | attempts at least 60 / limit seconds apart are never refused |
| `RateProofs.Independent` | crates/evermesh-relay/src/rate.rs:53-58 | other identities' attempts never change an outcome |
| `RateProofs.OutOfOrderOvergrants` | crates/evermesh-relay/src/rate.rs:53-63 | for every limit and every d > 0 some run whose clock jumps back by d in all breaks the bound without r |
| `RateProofs.BoundNeedsOrder` | crates/evermesh-relay/src/rate.rs:53-63 | all runs that jump back by at most d keep that bound if and only if d is 0 |
| `RateProofs.ZeroAllowsAll` | crates/evermesh-relay/src/rate.rs:50-52 | a limit of 0 turns the limiter off |
| `RateExact.GrantedExactly` | crates/evermesh-relay/src/rate.rs:49-77 | an attempt is granted if and only if, counted from any earlier attempt of the same identity, one more grant stays within limit plus what flowed in while its clock moved forward; in any order of effect, whatever others do |
| `Rate.RateLimiter.Check` | crates/evermesh-relay/src/rate.rs:49-70 | one attempt refills and charges the bucket of its own identity only |

## Left out

- BLAKE3, Ed25519, randomness, key files and clocks: parameters or inputs of the model.
- SQLite, axum, tokio and WebSocket machinery: the statements' meaning, the tables, the broadcast queues and the steps of the tasks remain; I/O failures other than a failing query, a failing read and a full sequence counter do not.
- Error values and messages, their order, and logging.
- Memory use and allocation limits, among them the scanner's promise to keep memory bounded by one item.
- `CodecProofs.EncodeThenDecode`: states acceptance only; a process out of stack or memory at great depth is not modelled.
- `IdentityImpl.Run`: termination assumes parent links without cycles, which the hash rules out in practice; the method asks for a rank that grows along the links.
- `IdentityProofs.TheftRecovery`: assumes, as the order-independence theorem does, that records with one id have one signed content.
- `StoreImpl.RecordStore.PruneExpired`: times are unbounded integers, so overflow of `now - days * 86400` is not modelled.
- `Rate.RateLimiter.Check`: uses real numbers, so floating-point rounding is not modelled.
- `SyncProofs.SubscriptionsHaveNoGap`: says nothing about connections that lagged, failed queries or backfills cut by their limit, where gaps are part of the design.
- `GossipProofs.LinkConverges`: without lag, disconnects or pruning, and for records every relay can insert.
- Reconnection with backoff in gossip, and the peer list.
- Proof of work (`pow.rs`), the relay's information page, blob routes and HTTP range parsing: small single-function facts.
- `crates/evermesh-kernel/src/kinds/` and `dmtap_pub.rs`: body builders per kind and a bridge to another crate would only add easy members.
- `hash_stream` and the other bindings of `evermesh-wasm`: they convert arguments and call the kernel.
- Debug formatting of map keys JSON has no form for: a parameter of the renderer.
- The gateway, desktop and web applications.
