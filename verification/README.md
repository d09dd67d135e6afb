# A verified model of the container image library's core

The library copies container images between registries, local storage and other places. This
project models the parts of it whose correctness is hardest to see from the code, and proves what
they promise for every input, every interleaving and every run:

- `LayerIdentity`, `LayerCommit` — the containers-storage destination. Many goroutines queue layers;
  one of them at a time commits consecutive layers and releases the lock around each commit.
  `LayerCommit` is a step system with the lock, the queue, `currentIndex`, `indexToStorageID` and a
  program counter per goroutine, followed by the sequential pass of `CommitWithOptions`.
  `LayerIdentity` has the trusted identity of a layer, the chain ID and the image ID.
- `BlobPipeline`, `CopyLayers` — the copy pipeline (validate, decrypt, compress or decompress,
  encrypt), what it records in the blob info cache, and the fan-out over the layers of an image.
- `BufferedReader`, `ChunkSplit`, `BodyReader` — the streaming readers of the docker transport: a
  goroutine and a caller that exchange buffers over channels, a splitter of one body into chunk
  streams, and a body reader that reconnects.
- `ContentRange`, `WwwAuthenticate` — two header parsers, against a grammar and a printer
  (section 14.4 of RFC 9110; section 2.1 of RFC 7235 with section 3.2.6 of RFC 7230).
- `MimeTypes`, `Schema1`, `FormatPlan`, `ClonePlan`, `Lookaside` — edits of media types and layer
  lists, the in-place clean-up of schema1 manifests, the planning of manifest formats and of
  clones in multi-platform images, and signature files.

`dafny verify dfyconfig.toml` checks everything.

## What is assumed

The outside world appears as parameters with stated laws.

- Hashing is a function `H` (or `digest`); where a result needs it, it is collision-free
  (`Ideal`, `CollisionFree`). Compression and encryption are functions too; compressed data is
  detected as such and decompresses to the original (`RoundTrips`). An ordinary image ID is the
  digest of a config, which is a JSON value and does not start with "@" (`NamesConfig`).
- The layer store creates a layer with the requested ID, or can not do it yet, or fails. A blob
  digest has one DiffID, so recording it again repeats the value; that holds as long as no layer is
  compressed twice (see below). Data for a layer index is recorded before the layer is queued, and
  `queueOrCommit` calls have pairwise distinct indices.
- DiffIDs are needed only to convert a schema1 image (copy/single.go:212,
  internal/image/docker_schema1.go:102-104, internal/image/docker_schema2.go:155-157,
  internal/image/oci.go:138-140), and schema1 layers are not encrypted (`NeededForOrdinaryLayers`).
  `CopiedDiffIDIsRightIff` and `EncryptedBlobInCache` show what `copyLayer` would do otherwise.
- A destination's `PutBlob` returns the true digest of the stream when it was given none (`Honest`).
- The body of a partial response has the bytes that its Content-Range names (`Honest`), and the
  clock does not go back.
- Strings are sequences of octets; Dafny's `char` stands for an octet.

## What turned out not to hold

- The cache treats a digest that is recorded as somebody's uncompressed digest as uncompressed
  itself. For a blob that is compressed twice that is wrong: `DoublyCompressedBlobMisleads` shows it,
  `AnswersTrulyExactlyIf` and, for whole runs, `RunAnswersTrulyIff` say exactly when the answers are
  true; `EveryRunAnswersTruly` and `ConcurrentCopiesAreRight` prove them true over runs whose layers
  are compressed at most once.
- The body reader's comment says that responses which end before the end of the blob are refused;
  one with an unknown complete length (`*`) is accepted. `UnknownLengthMayEndEarly` shows a blob cut
  short; `CompleteIffLengthIsStated` says which responses are certain to reach the end, and
  `CompleteAtEOF` that after such a response the whole blob is delivered.
- Chain IDs collide if a base layer's DiffID is itself a chain ID (`ChainIDsCollide`).
  `ChainIDsAgreeIff` says exactly when two stacks share a storage ID, without any assumption on them.
- Two images with different configs share an image ID as soon as their layers use the same TOCs
  (`ConfigIsNotIdentified`); `ImageIDsAgreeIff` says exactly when two images share one.
- The "internal inconsistency" of `computeID` is reachable for a schema1 image with an empty layer
  whose blob the caller never handed over (`ForgottenEmptyLayer`): committing an empty layer does not
  need its identity, `computeID` does. `CommittedImageHasID` is the exact condition.
- Splitting a body goes wrong for a chunk of length 2^63 or more (`LongChunkIsEmpty`), for a distance
  of 2^63 or more before a chunk (`LongSkipIsNotDone`), and for a chunk after one that goes to the end
  (`EarlierChunkIsNotRefused`). `SplitIsExactIff` is the exact condition on the chunks and the length
  of the body.
- The identity of a layer is not always stable. When a layer that is compressed twice is committed,
  its uncompressed digest is recorded as its own DiffID, and a layer with that digest as its blob has
  another identity afterwards (`TwiceCompressedLayerIsUnstable`); `RecordingKeepsIdentityIff` says
  exactly which records keep an identity.

## Model

| member | source | states |
|---|---|---|
| LayerIdentity.TrustedIdentity | storage/storage_dest.go:731-777 | in terms of the three maps: a DiffID of the index wins over a TOC digest of the index, and both over the DiffID of the blob; the TOC digest is reported in any case, the blob digest exactly if its DiffID is the one of the layer; nothing is found exactly if neither the index nor the blob is known |
| LayerIdentity.IdentityIsStable | storage/storage_dest.go:732-742 | an identity once found keeps its kind, DiffID and TOC digest when more blobs become known |
| LayerIdentity.RecordingKeepsIdentityIff | storage/storage_dest.go:756-771 | recording any DiffID for any blob keeps an identity if and only if that does not come from this very blob and another DiffID alone |
| LayerIdentity.TwiceCompressedLayerIsUnstable | storage/storage_dest.go:1254-1257 | committing a layer that is compressed twice changes the identity of a layer with the inner blob |
| LayerIdentity.ChainIDsAgreeIff | storage/storage_dest.go:1056-1072 | for all stacks: two have one storage ID if and only if their non-empty layers have the same identity components in the same order, or one comes from the other by collapsing its lower layers into a base whose DiffID is their chain ID |
| LayerIdentity.ChainIDsIdentifyStacks | storage/storage_dest.go:1056-1072 | corollary: for bases that are not themselves a digest of "parent+component", equal storage IDs mean equal components |
| LayerIdentity.ComponentsIdentifyLayers | storage/storage_dest.go:1059-1067 | components are equal if and only if the kind of identity and its value are |
| LayerIdentity.ChainIDsCollide | storage/storage_dest.go:1069-1072 | a base DiffID that is a chain ID makes a one-layer and a two-layer stack share an ID |
| LayerIdentity.ChainFromComponents | storage/storage_dest.go:951-972 | the chain ID is a function of the non-empty layers' components; empty layers are transparent |
| LayerIdentity.TocInputInjective | storage/storage_dest.go:837-850 | the "\|"-terminated input string determines the list of optional TOC digests |
| LayerIdentity.UsedTocsFrom | storage/storage_dest.go:839-850 | the list has the TOC digest exactly of the layers identified by one, and exists exactly if every layer has an identity |
| LayerIdentity.ImageIDsAgreeIff | storage/storage_dest.go:783-860 | for schema1, schema2 and OCI images: IDs agree if and only if both images are ordinary with one ordinary ID, or use the same TOCs in the same places |
| LayerIdentity.ConfigIsNotIdentified | storage/storage_dest.go:852-859 | images with different configs share an ID as soon as their layers use the same TOCs |
| LayerIdentity.DiffIDsOfKnownLayers | storage/storage_dest.go:790-811 | for known layers the loop over a schema1 image never fails, and ends without DiffIDs exactly if a non-empty layer is identified by its TOC |
| LayerIdentity.DiffIDsAreInOrder | storage/storage_dest.go:793-811 | the DiffIDs collected for a schema1 image are the ones of exactly its non-empty layers, root layer first |
| LayerIdentity.OrdinaryImageID | storage/storage_dest.go:793-853 | the ID of an image without TOC-identified layers: for schema1 the digest of the config made from these DiffIDs, for schema2 and OCI the config digest, otherwise random |
| LayerIdentity.TocImageID | storage/storage_dest.go:837-859 | the ID of an image with a TOC-identified layer is the digest of "@With TOC:" and the list of TOC digests |
| LayerIdentity.InconsistentIff | storage/storage_dest.go:783-860 | per kind of manifest, when the layers are known: never inconsistent for schema2 and OCI; for schema1 exactly if an ordinary ID exists and the blob of an empty layer is unknown; a random ID exactly if a layer has no DiffID |
| LayerCommit.InvKept | storage/storage_dest.go:905-933 | every action of every goroutine keeps the invariant, and no committed ID changes |
| LayerCommit.SafeInEveryRun | storage/storage_dest.go:886-961 | in every interleaving at most one goroutine is in the commit loop, the committed indices are an initial segment, nothing is committed twice, and "previous layer not committed yet" does not happen |
| LayerCommit.NoLayerLost | storage/storage_dest.go:905-933 | when all calls have returned without failure or deferral, currentIndex is the least index never queued and every lower one is committed |
| LayerCommit.NeverStuck | storage/storage_dest.go:905-933 | while a call has not returned, some goroutine can take a step |
| LayerCommit.EveryCallReturns | storage/storage_dest.go:905-933 | however scheduled, n calls take at most 19n steps, so every call returns |
| LayerCommit.RunKeepsInv | storage/storage_dest.go:886-933 | the invariant holds at the end of every run, and IDs are only added |
| LayerCommit.RightIDIsStable | storage/storage_dest.go:732-742 | recording more data never changes the ID of a queued layer |
| LayerCommit.IdentifyIsRight | storage/storage_dest.go:974-1036 | a layer whose identity is known and permitted by the config gets the ID its identity gives; it is deferred exactly while a known DiffID can not be compared yet, and refused for a true reason, never the internal error about a TOC |
| LayerCommit.CheckDecides | storage/storage_dest.go:1007-1034 | a known DiffID passes if and only if the config is there and lists no DiffIDs at all, or the same one at this index; it is deferred exactly without a config, and each rejection has exactly its case |
| LayerCommit.OneVerdict | storage/storage_dest.go:974-1034 | a layer is permitted, deferred or refused for one reason only |
| LayerCommit.StepIDs | storage/storage_dest.go:946-1053 | a step adds at most the ID of the layer being committed, and it is the right one |
| LayerCommit.RightIDsAreChainIDs | storage/storage_dest.go:951-972 | the IDs written layer by layer are the chain IDs of the prefixes of the image |
| LayerCommit.StorageDestination.CommitLayer | storage/storage_dest.go:946-1053 | which outcome a commit has, exactly: committed (with the right ID) if and only if the identity is known, the config permits it and the store has the layer; when it is deferred, and when each error is returned |
| LayerCommit.CommitMakesProgress | storage/storage_dest.go:1452-1462 | one iteration of the final pass extends the committed prefix or leaves it as it was |
| LayerCommit.StorageDestination.CommitWithOptions | storage/storage_dest.go:1452-1471 | ends with all layers committed, each permitted by the config, and the chain ID of the image as the last ID; it fails only because of a layer that is unknown, refused, deferred or not stored, and so not if all layers could be committed from the start; a missing previous layer is never met |
| LayerCommit.RunHandsOver | storage/storage_dest.go:1452-1462 | every run of the concurrent phase, with gaps, leaves a state from which the final pass can start |
| LayerCommit.SchedulingDoesNotMatter | storage/storage_dest.go:886-961 | two copies with the same layer identities store the image under the same IDs, however they were scheduled |
| LayerCommit.CommittedImageHasID | storage/storage_dest.go:796-843 | after the final pass the "internal inconsistency" is returned if and only if the image is a schema1 one with DiffIDs for all layers and an empty layer whose blob is unknown |
| LayerCommit.ForgottenEmptyLayer | storage/storage_dest.go:839-843 | a schema1 image with all layers committed for which it is returned |
| BlobPipeline.DigestingReader.Read | copy/digesting_reader.go:43-62 | EOF is reported exactly if everything read has the expected digest; a mismatch is an error and is remembered |
| BlobPipeline.Drain | copy/digesting_reader.go:20-62 | a consumer that reads to the end sees EOF exactly for the expected content, and then all of it |
| BlobPipeline.SourceStream.DecryptionStep | copy/encryption.go:36-68 | decrypts exactly encrypted layers with a key configured, and then clears the digest; the errors exactly |
| BlobPipeline.SourceStream.CompressionStep | copy/compression.go:110-305 | the content is compressed with the format asked for or gzip, recompressed if another format was asked for, decompressed, or left alone with its digest, each exactly when the destination, the detected format and the media type demand it; it fails exactly if the content can not be decompressed |
| BlobPipeline.ChoiceIsAsConfigured | copy/compression.go:110-305 | the operation chosen for any blob, and what it makes of the content, are the ones that the configuration demands, stated by the detected format only |
| BlobPipeline.SourceStream.EncryptionStep | copy/encryption.go:86-120 | encrypts exactly when asked to and the source is not encrypted, and then clears the digest; the error exactly |
| BlobPipeline.BuildPipeline | copy/blob.go:45-84 | the built stream delivers what the three steps make of the source, with a digest exactly if that is the source unchanged; the error, if any, is the first that applies |
| BlobPipeline.RecordedPairsAreTrue | copy/compression.go:334-361 | whichever operation is chosen, the second digest of a recorded pair names the uncompressed content of the blob the first names |
| BlobPipeline.RecordedPairsArePlain | copy/compression.go:334-361 | a copy of a blob that is compressed at most once records as uncompressed only content that is not compressed |
| BlobPipeline.RecordValidatedDigestData | copy/compression.go:321-362 | the cache gets the pairs of the operation, and none from a run that encrypts or decrypts |
| BlobPipeline.BlobInfoCache.RecordDigestUncompressedPair | pkg/blobinfocache/memory/memory.go:93-107 | both maps of the cache have this pair and are otherwise as before |
| BlobPipeline.RecordingKeepsSound | pkg/blobinfocache/memory/memory.go:93-107 | recording true pairs, in any number and order, keeps every pair in the cache true |
| BlobPipeline.RecordingReplacesNothing | pkg/blobinfocache/memory/memory.go:96-99 | with a collision-free digest no record replaces a different one |
| BlobPipeline.EveryRunIsSound | copy/compression.go:321-362 | however the records of any number of copies are interleaved, the cache is sound at the end and nothing recorded on the way was lost |
| BlobPipeline.AnswersTrulyExactlyIf | pkg/blobinfocache/memory/memory.go:75-86 | all answers of a sound cache are true if and only if no content known only as uncompressed is itself compressed |
| BlobPipeline.DoublyCompressedBlobMisleads | pkg/blobinfocache/memory/memory.go:79-84 | copying a blob that was compressed twice to a destination that wants no compression makes the cache answer wrongly about the inner blob |
| BlobPipeline.RecordingKeepsTruthful | pkg/blobinfocache/memory/memory.go:93-107 | recording true pairs with plain second members keeps the cache truthful |
| BlobPipeline.EveryRunAnswersTruly | pkg/blobinfocache/memory/memory.go:68-86 | over every interleaving of copies of blobs compressed at most once, the cache answers truly at every moment |
| BlobPipeline.RunAnswersTrulyIff | pkg/blobinfocache/memory/memory.go:68-107 | after any run of true records the cache answers truly if and only if every digest recorded as uncompressed and not as a blob names content that is not compressed |
| BlobPipeline.CopyBlobFromStream | copy/blob.go:19-144 | records only true pairs of validated sources and nothing when encrypting or decrypting; reports the digest the destination saved what was delivered under, and the DiffID of the decrypted source; fails exactly, and with the first error, if the pipeline can not be built, the destination does not save, the source read to the end is wrong, or a given digest is not kept |
| BlobPipeline.CopyInFull | copy/single.go:844-890 | a DiffID that had to be computed is the one of the validated, decrypted source; it is recorded if nothing is to be encrypted or decrypted, and nothing at all is by a run that encrypts or decrypts |
| BlobPipeline.CopyLayer | copy/single.go:715-891 | a layer that is to be encrypted or decrypted, or whose DiffID is needed and unknown, is always copied from the source; otherwise it is the reused one, else the partially pulled one, else copied; only true pairs are recorded, the DiffID is the one the cache knew or that of the decrypted source, and it fails exactly if that copy does |
| BlobPipeline.CopiedDiffIDIsRight | copy/single.go:715-888 | on every path the DiffID of a layer is exactly the one of the decrypted source, as long as the cache told the truth about the blob and did not answer for one to be decrypted; then it is the answer |
| BlobPipeline.CopiedDiffIDIsRightIff | copy/single.go:715-888 | for every outcome: the DiffID is right if and only if it is not the case that the layer is to be decrypted and the cache had an answer |
| BlobPipeline.EncryptedBlobInCache | copy/single.go:715-725 | an input to the look-up with a wrong DiffID: an encrypted blob that was copied before under an ordinary type; it needs a source with encrypted types for which DiffIDs are needed |
| CopyLayers.LayersToEncrypt | copy/single.go:490-509 | the chosen layers, with negative indices counted from the end and an empty list meaning all; fails exactly if an index is out of range |
| CopyLayers.CopyLayerHelper | copy/single.go:469-487 | one goroutine's work: the foreign-layer cases, or one layer's copy with what it reports and records, and exactly when it fails |
| CopyLayers.CopyAll | copy/single.go:468-530 | the loop over the layers, one copy after the other in any order: entry i is a right result for layer i given what the cache answered, an error exactly if that copy fails; the cache stays as trustworthy as it was |
| CopyLayers.Collect | copy/single.go:533-545 | the results in layer order, or the error of the first layer that failed |
| CopyLayers.CopyImageLayers | copy/single.go:436-552 | with sequential copies in any order: the i-th digest is the one under which the destination has layer i, encrypted if that was chosen; where DiffIDs are needed for ordinary layers only, the i-th DiffID is exactly that of the i-th source layer if the cache could be trusted and no layer is compressed twice; it fails exactly for an index out of range or a layer that fails |
| CopyLayers.ConcurrentCopiesAreRight | copy/single.go:468-530 | in every interleaving of all goroutines' look-ups and records and of the destination's records: the cache stays sound and as trustworthy as it was, and every finished copy has the right digest and, where DiffIDs are needed for ordinary layers only, exactly the right DiffID; otherwise it is right unless the cache answered for a layer to be decrypted |
| BufferedReader.StepTurnsRing | docker/docker_image_src.go:759-842 | buffers go round in a fixed cyclic order, which turns only when the caller sends one back |
| BufferedReader.InvStep | docker/docker_image_src.go:759-842 | every action keeps: no buffer lost or shared, delivered plus buffered plus unread bytes are the stream, the EOF marker comes last |
| BufferedReader.DeliversTheStream | docker/docker_image_src.go:781-813 | in every interleaving the caller has a prefix of the stream, all of it when told EOF, and the buffers in all places number nBuffers |
| BufferedReader.EachReadFits | docker/docker_image_src.go:781-813 | a Read call returns once, with at least one and at most as many bytes as it has room for, or with EOF |
| BufferedReader.SendsNeverBlock | docker/docker_image_src.go:765-786 | no send on either channel ever finds it full |
| BufferedReader.NeverDeadlocks | docker/docker_image_src.go:797-813 | while a Read call is in progress some process can move, and the caller never receives from a closed empty channel |
| BufferedReader.StepLowersRank | docker/docker_image_src.go:759-842 | every action other than a new call lowers a rank |
| BufferedReader.EveryCallReturns | docker/docker_image_src.go:815-820 | between two calls only boundedly many actions happen |
| ContentRange.ParseDecimalInString | docker/body_reader.go:68-81 | the value of the maximal digit run and its end, or nothing without digits or above 2^63 - 1 |
| ContentRange.ParseContentRange | docker/body_reader.go:92-136 | the method agrees with the parsing function, and refuses a missing or repeated header |
| ContentRange.ParseIffDenotes | docker/body_reader.go:92-136 | a header is accepted with a range if and only if it is "bytes D-D/D" or "bytes D-D/*" with numerals for just these values |
| ContentRange.ParsesWellFormed | docker/body_reader.go:102-135 | every well-formed header is parsed to what it denotes |
| ContentRange.ParsedIsWellFormed | docker/body_reader.go:102-135 | every accepted header is well-formed, with nothing trailing |
| ContentRange.RoundTrip | docker/body_reader.go:92-136 | parsing a printed range gives it back if and only if its numbers are below 2^63 |
| BodyReader.PartialResponse | docker/body_reader.go:176-183 | a response has a range if and only if its single header denotes one, and just that one |
| BodyReader.AcceptedRange | docker/body_reader.go:176-194 | a response is accepted exactly if it starts at the offset and a stated length ends it |
| BodyReader.BodyReader.Reconnect | docker/body_reader.go:157-201 | after an accepted response the bytes continue without gap or repeat and the retry is paid for by progress or time; otherwise there is no connection |
| BodyReader.BodyReader.Read | docker/body_reader.go:139-207 | the bytes handed out are the first offset bytes of the blob; each outcome exactly; a reconnect happens exactly if the connection was aborted, it is the first one or there was a mebibyte of progress or a minute since the last one, and the range fits |
| BodyReader.BodyReader.ReconnectsAreBounded | docker/body_reader.go:220-243 | reconnects number at most 1 + offset/1048576 + milliseconds since the first one/60000 |
| BodyReader.BodyReader.CompleteAtEOF | docker/body_reader.go:145-148 | at EOF the whole blob was handed out if the last accepted response stated the length, or there was none, whatever happened before |
| BodyReader.CompleteIffLengthIsStated | docker/body_reader.go:184-187 | an accepted response is certain to reach the end of the blob if and only if its Content-Range states the complete length; with "*" it is just as honest about a longer blob |
| BodyReader.UnknownLengthMayEndEarly | docker/body_reader.go:184-187 | with an unknown length a blob of three bytes can end after two |
| ChunkSplit.PartStream.Read | docker/docker_image_src.go:850-852 | the bytes returned are the next ones of the stream, and the body advances by as many |
| ChunkSplit.PartStream.Close | docker/docker_image_src.go:854-863 | closing leaves the body just behind the stream's part |
| ChunkSplit.Skip | docker/docker_image_src.go:288-293 | skipping advances the body by what a reader limited to the int64 conversion of the distance delivers |
| ChunkSplit.Offer | docker/docker_image_src.go:295-309 | the consumer gets the first bytes of what the stream offers, and the body ends up behind all of it however little was read |
| ChunkSplit.Advance | docker/docker_image_src.go:283-310 | one iteration moves the body and the offset counter as the specification says, wrap-around included |
| ChunkSplit.Split | docker/docker_image_src.go:275-312 | for chunks of any sizes the streams are the specified ones, independent of how much their consumers read |
| ChunkSplit.FittingChunk | docker/docker_image_src.go:288-310 | a chunk with sizes below 2^63 is offered exactly, and the body is behind it afterwards |
| ChunkSplit.SplitIsExactIff | docker/docker_image_src.go:275-312 | for chunks of any sizes in any order: all streams offer body[offset, offset+length) clipped to the body, and the first chunk that starts too early is refused, if and only if a guard holds of each chunk (on sizes, skips below or above 2^63 and the wrapped counter) |
| ChunkSplit.ChunkIsServedIff | docker/docker_image_src.go:283-310 | a chunk in its place is offered right exactly if its guard holds |
| ChunkSplit.RefusedIff | docker/docker_image_src.go:284-287 | a chunk that starts too early is refused exactly if its guard holds, that is unless the uint64 counter wrapped |
| ChunkSplit.SplitIsExact | docker/docker_image_src.go:275-312 | for bodies of any length, the special case of sizes below 2^63 and an until-EOF chunk only in last place: always exact |
| ChunkSplit.LongChunkIsEmpty | docker/docker_image_src.go:296-300 | a chunk of length 2^63 is offered as empty |
| ChunkSplit.LongSkipIsNotDone | docker/docker_image_src.go:288-293 | a distance of 2^63 is not skipped, and a chunk behind the end gets the first byte of the body |
| ChunkSplit.EarlierChunkIsNotRefused | docker/docker_image_src.go:284-310 | after an until-EOF chunk the counter wraps, and a chunk that starts too early is not refused |
| MimeTypes.FindSetFinds | manifest/common.go:31-40 | the set found is in the table and has the type; if none is found, no set has it |
| MimeTypes.VariantStaysInSet | manifest/common.go:50-79 | with disjoint sets the variant found is in the type's own set |
| MimeTypes.EditGivesVariant | manifest/common.go:50-118 | an edit gives the variant of the type's set for what is asked for, fails exactly if that is missing or unsupported, and keeps the type if nothing is asked for |
| MimeTypes.UnknownTypeIsKept | manifest/common.go:50-118 | a type in no set can only be kept; anything else fails |
| MimeTypes.OciEdits | manifest/oci.go:108-119 | for both kinds of OCI layers: the suffix becomes the one of what is asked for, of none, gzip and zstd |
| MimeTypes.Schema1Edits | manifest/docker_schema1.go:146-153 | a schema1 layer can be uncompressed or gzip and nothing else |
| MimeTypes.EditsStayInSet | manifest/common.go:87-118 | no successful sequence of edits leaves the original set |
| MimeTypes.LastEditDecides | manifest/common.go:87-118 | a successful sequence of edits gives what its last effective edit alone gives |
| MimeTypes.OciSetsAreDisjoint | manifest/oci.go:108-119 | the OCI table meets the assumption of disjoint sets |
| MimeTypes.EncryptsLayerTypes | manifest/oci.go:168-181 | exactly the three layer types with any suffixes other than "encrypted" can be encrypted, by appending that suffix |
| MimeTypes.DecryptsSuffixedTypes | manifest/oci.go:185-192 | decrypting gives d exactly for d followed by "+encrypted" |
| MimeTypes.DecryptUndoesEncrypt | manifest/oci.go:168-192 | decrypting an encrypted type restores it, and an encrypted type is not encrypted again |
| MimeTypes.EncryptUndoesDecrypt | manifest/oci.go:168-192 | encrypting a decrypted type again restores it whenever it succeeds at all |
| MimeTypes.EditedIff | manifest/oci.go:136-157 | a layer edit decrypts, then changes the compression, then encrypts, and succeeds exactly if each part does |
| MimeTypes.OCI1.UpdateLayerInfos | manifest/oci.go:130-164 | succeeds exactly if the count fits and every media type can be edited; then the layers are the given blobs in order with the edited types |
| MimeTypes.OCI1.UpdateAndReadBack | manifest/oci.go:97-164 | after a successful update the layers read back are the given ones in order |
| MimeTypes.CryptoRoundTrip | manifest/oci.go:136-157 | encrypting and then decrypting a layer restores its media type |
| Schema1.ValidIDIff | manifest/docker_schema1.go:230-239 | a valid ID has exactly 64 lower-case hexadecimal digits |
| Schema1.KeepLastsPicks | manifest/docker_schema1.go:217-226 | the pure run compression keeps exactly the subsequence at the last positions of the runs |
| Schema1.LastsAreExact | manifest/docker_schema1.go:217-226 | those positions are exactly the ones at which a run ends |
| Schema1.LastsIncrease | manifest/docker_schema1.go:217-226 | and they are in increasing order |
| Schema1.FixedIsChain | manifest/docker_schema1.go:196-228 | the kept entries have distinct IDs, each one's parent is the next, and the base has none |
| Schema1.Manifest.CheckIDs | manifest/docker_schema1.go:198-216 | accepts exactly if all IDs are valid, the base has no parent and equal IDs are next to each other |
| Schema1.Manifest.FixEntry | manifest/docker_schema1.go:219-225 | one iteration on all three lists: an entry followed by one with its ID is removed, another one must name the next as its parent |
| Schema1.Manifest.RemoveRepeats | manifest/docker_schema1.go:218-226 | the backwards loop over three lists refines the pure run compression of each, and succeeds exactly if the parents are linked |
| Schema1.Manifest.FixManifestLayers | manifest/docker_schema1.go:196-228 | succeeds if and only if the manifest is fixable; all three lists are then the same subsequence, and the history is a chain |
| Schema1.Manifest.LayerInfos | manifest/docker_schema1.go:135-144 | the layers in reverse order, with their emptiness |
| Schema1.Manifest.UpdateLayerInfos | manifest/docker_schema1.go:156-177 | succeeds exactly if the count fits and no edit is unsupported; then the digests are stored in reverse order |
| Schema1.Manifest.UpdateAndReadBack | manifest/docker_schema1.go:135-177 | after a successful update the layers read back are the given ones in order, with their emptiness unchanged |
| WwwAuthenticate.TokenCharacters | docker/wwwauthenticate.go:33-62 | the token characters are the ones that section 3.2.6 of RFC 7230 lists |
| WwwAuthenticate.SpaceCharacters | docker/wwwauthenticate.go:54-56 | the spaces are tab, line feed, carriage return and space |
| WwwAuthenticate.SkipSpace | docker/wwwauthenticate.go:122-130 | removes exactly the longest prefix of spaces |
| WwwAuthenticate.ExpectToken | docker/wwwauthenticate.go:132-140 | splits off exactly the longest prefix of token characters |
| WwwAuthenticate.ExpectTokenOrQuoted | docker/wwwauthenticate.go:142-175 | the loops agree with the recursive meaning of a quoted string with escapes |
| WwwAuthenticate.UnquoteSlowly | docker/wwwauthenticate.go:152-171 | the scratch buffer of one octet less than the string is never overrun, and holds the unescaped value |
| WwwAuthenticate.ParseValueAndParams | docker/wwwauthenticate.go:93-120 | terminates on every input and agrees with the recursive parser |
| WwwAuthenticate.ParamIff | docker/wwwauthenticate.go:103-117 | one parameter and a rest are found exactly where the grammar has them: white space, a name, "=", a token or a quoted string, white space |
| WwwAuthenticate.ReadsIffIsParams | docker/wwwauthenticate.go:101-118 | the list of parameters read is exactly the one the grammar finds, up to the first comma without a parameter behind it |
| WwwAuthenticate.ChallengeMeans | docker/wwwauthenticate.go:93-120 | every header means the lower-case longest token at its start and the parameters that the grammar finds in the rest |
| WwwAuthenticate.BodyOfQuoted | docker/wwwauthenticate.go:146-174 | what is unquoted stands between two quotes, with a backslash before every quote and backslash inside |
| WwwAuthenticate.UnquoteEscapes | docker/wwwauthenticate.go:147-174 | unquoting undoes escaping, for every value and whatever follows |
| WwwAuthenticate.RoundTrip | docker/wwwauthenticate.go:93-120 | parsing a printed challenge gives the lower-cased scheme and the parameters up to the first empty value, later ones winning |
| WwwAuthenticate.ExactRoundTrip | docker/wwwauthenticate.go:93-120 | with distinct lower-case names and non-empty values exactly the printed parameters come back |
| ClonePlan.PlatformCompressionMap | copy/multiple.go:73-89 | the platforms of the listed instances, each with exactly the algorithms that some instance of it offers; fails exactly if an instance is unknown |
| ClonePlan.AddVariant | copy/multiple.go:142-153 | one iteration adds one clone for a missing variant and its algorithm to the set |
| ClonePlan.AddClones | copy/multiple.go:139-154 | after one instance its platform has every requested algorithm, with one clone for each that was missing |
| ClonePlan.TracksClone | copy/multiple.go:142-153 | planning a clone and adding its algorithm to the shared set keeps one clone per missing variant |
| ClonePlan.PrepareInstanceCopies | copy/multiple.go:102-157 | every selected instance (all of them under CopyAllImages) gets one copy in list order; each present platform and requested algorithm gets one clone if not offered and none otherwise; the error cases exactly |
| Lookaside.FirstPath | docker/registries_d.go:301 | an example of a path |
| Lookaside.PathsAreDistinct | docker/registries_d.go:296-303 | signatures of different digests or numbers have different paths |
| Lookaside.ReadsWhatIsHeld | docker/docker_image_src.go:516-533 | reading returns what the files hold in order, or fails with 128 signatures or more |
| Lookaside.Location.PutSignatures | docker/docker_image_dest.go:635-674 | afterwards the files hold exactly these signatures up to the first gap, other files are unchanged, and the delete loop terminates |
| Lookaside.Location.GetSignatures | docker/docker_image_src.go:509-535 | the loop agrees with the recursive reading of numbered files |
| Lookaside.Location.PutThenGet | docker/docker_image_dest.go:645-671 | 1 to 127 signatures written are read back in order, whatever files existed before |
| FormatPlan.FirstsAreDistinct | copy/manifest.go:42-48 | an ordered set has every appended element once, the first one first |
| FormatPlan.OrderedSet.Append | copy/manifest.go:43-48 | list and set stay in step with the history of appended elements |
| FormatPlan.FiltersAreRequirements | copy/manifest.go:89-97 | the filters let through exactly OCI manifests for encryption, any for gzip, and OCI manifests for the zstd kinds |
| FormatPlan.UnknownTypeIsSchema1 | internal/manifest/manifest.go:144-169 | a known type is kept and any other is taken for signed schema1 |
| FormatPlan.SupportedTypes | copy/manifest.go:81-99 | the destination's types, never none, and exactly those that pass the filters |
| FormatPlan.RefusalIsNotInternal | copy/manifest.go:100-147 | with no usable type the error is no internal one, and the reason it gives is true |
| FormatPlan.PlanIsRight | copy/manifest.go:155-199 | the candidates are the usable types, each once, the source type first if usable, and conversion is flagged exactly if it is not |
| FormatPlan.DetermineManifestConversion | copy/manifest.go:73-200 | succeeds exactly if a type is usable, with a right plan; none of the five internal errors is reachable |

## Left out

- HTTP requests, authentication tokens, TLS, JSON and YAML, progress bars, logging and error texts.
- `createNewLayer` and the store: a commit gets a layer, nothing yet, or an error from a parameter.
- The look-up of a forgotten blob inside `commitLayer` is a `RecordBlob` action before the identity is looked up (in the concurrent phase) or the `found` parameter (in the final pass); its own store look-ups are not modelled. The config of an image is read in the same step as the identity, as nothing writes it while layers are committed.
- How a schema1 config is made from DiffIDs: it is a function of them that may fail.
- Compressor names and TOC pairs in the blob info cache, known locations, and the persistent caches.
- Annotations, sizes and compression edits of uploaded and reused blobs.
- How a destination finds a reusable blob or does a partial pull: their reported digests are parameters. What it records in the cache itself is part of `ConcurrentCopiesAreRight` only.
- CopyLayers.CopyAll: copies one layer after the other; `ConcurrentCopiesAreRight` is about interleaved copies. The semaphore and cancellation are not modelled.
- BlobPipeline.SourceStream.CompressionStep: the compression edit, annotations and compressor names that it also reports, which describe the upload and do not change it.
- BlobPipeline.RecordValidatedDigestData: the compressor names and TOC pairs that it also records.
- ChunkSplit.SplitIsExactIff: is for bodies of fewer than 2^63 bytes; in a longer one a stream at a wrong place could by chance have the right bytes.
- Early `Close`, zero-length reads and non-EOF errors of the buffered network reader.
- Read errors of the body while it is split into chunks, and `handle206Response` for multipart responses.
- The sorting of OS features in the comparable form of a platform: a platform is given in that form.
- I/O errors of signature files; which digest algorithms exist (a digest is well-formed if its parts can not be confused).
- Schema2 manifests, whose layer updates are like OCI ones without encryption, and conversions between formats.
- The choice of a manifest list format, which is similar to the modelled choice and simpler.
