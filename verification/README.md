# Verification of the CAS data path of the Xet storage server

This Dafny 4.11 project models how the server turns raw bytes into chunks, a xorb, a shard and an index entry, and how
the index leads back to the same bytes. `dafny verify dfyconfig.toml` checks all of it.

The parts follow the program:

- `Chunking`, `Compression`, `NodeText` and `Merkle`: content-defined chunking in its one-shot and streaming forms, byte
  grouping and the compression schemes, and the Merkle hash with variable fan-out.
- `XorbFormat`, `XorbVerify`, `XorbProperties`, `XorbAcceptance`, `XorbBuilder`, `XorbRoundTrip`, `SelfCheck`: the xorb
  container, its two verifiers and what exactly they accept, its builder and what the builder's self-check catches.
- `ShardFormat`, `ShardSections`, `ShardParser`, `ShardBuilder`: the shard container.
- `Planner`, `Reconstruction`, `Validation`, `Index`, `Rebuild`: planning, rebuilding a file, admitting a shard to the
  index, and rebuilding the index at start-up. `PlanMeaning`, `RebuildMeaning` and `ValidationMeaning` say of the tables
  and the stored bytes alone when each of the first three succeeds and with what.
- `Conversion` and `EndToEnd`: the conversion of a raw blob, and the theorem that what it stores validates, registers and
  reconstructs to the original bytes.
- `Scheduler` and `Protocol`: two state machines over atomic steps, for the conversion queue and for the life of an object
  through uploads, conversions, downloads, crashes and restarts.
- `Upload`: a client's upload and the download that follows, as a run of `Protocol`.
- `Limits`: runs that convert an object, inputs beyond the limits, and what becomes of them.
- `Multipart`: part sizes and the part loop of multipart uploads.

Loops and classes of the program are methods and classes here. Each is proved equal to a function of its inputs or its old
state, and the theorems are about those functions.

Conventions:

- The hash functions, LZ4 and GearHash are parameters (`Primitives.Env`, `Chunking.Gear`). LZ4 is assumed to be undone by
  decompression, to announce the size in its first four bytes, and to grow by at most n/255 + 20 bytes. GearHash is assumed
  to match inside its window.
- Collision freedom is never assumed of a whole hash function. It is a hypothesis about the finitely many strings that are
  hashed in the statement at hand, in the lemma that needs it.
- Errors are one value, `Err`; messages are not kept. 32-bit and 64-bit registers that may wrap are written with `Wrap32`
  and `Wrap64`, as in a release build; `OffsetsNeverWrap` shows that conversions within the default limit never get there.
- Shard ids and OIDs are 32-byte hashes. Storage is three maps (raw blobs, xorbs, shards) with atomic writes.
- Shard records keep the reserved fields that the program skips, so that parsing and rendering are inverse to each other on
  all bytes. Nothing else depends on these fields.

Results where the code and what one expects of it differ:

- From 4 GiB on, conversion loses objects. The self-check never looks at the unpacked offsets
  (`src/format/xorb.rs:289-322`), and the 32-bit totals of the shard wrap (`src/conversion/mod.rs:271`, `:361`). A
  compressible object of at least 2^32 bytes, in at most 100,000 chunks and below 4 GiB serialised, is registered and its
  raw blob deleted; the planner then refuses the wrapped total for ever (`src/reconstruction_plan.rs:182-190`).
  `ConversionOutcome` gives the exact condition, `OverlargeObjectIsLost` the run and `OverlargeObjectExists` an input. The
  configuration admits such limits (`src/config.rs:551-570`); the default of 512 MiB, and every limit below 4 GiB, excludes
  the case.
- The in-memory verifier slices out of range on fewer than seven bytes (`src/format/xorb.rs:271-273`). `VerifyMemory` has a
  `Panicked` outcome for it. Its only caller is the builder, which always passes a footer; `NeverPanics` shows that the case
  is not reached.
- Streaming and one-shot chunking agree over all splits exactly when the search window of a full chunk is not empty.
  `EmptyWindowDiffers` gives an input for the boundary case. The one configuration that can be built, the default, has a
  window that is not empty.
- A built xorb is reported by the file verifier as built exactly when the footer ident does not recur after the footer
  start; idents inside payloads are harmless. `IdentMayRecur` gives an input where it recurs.
- The comment that says chunks are typically about 64 KB at most (`src/conversion/mod.rs:233-235`) is off: the maximum is
  128 KiB. The buffer bound it argues for holds all the same.

## Model

| member | source | states |
|---|---|---|
| Chunking.PieceSizes | src/chunking/cdc.rs:86-144 | no piece is empty or longer than the larger of the maximum and the minimum size (the maximum, in the one configuration there is), and every piece but the last has at least the minimum size |
| Chunking.PiecesCoverInput | src/chunking/cdc.rs:86-144 | the pieces, concatenated in order, are the input |
| Chunking.PieceCount | src/chunking/cdc.rs:86-144 | minimum size times (number of pieces - 1) is less than the input length |
| Chunking.PiecesEndAtMatches | src/chunking/cdc.rs:86-144 | every piece ends where the first GearHash match behind its skipped prefix says, raised to the minimum size; without a match it has the maximum size or takes the rest |
| Chunking.DrainedEndAtMatches | src/chunking/cdc.rs:289-338 | every piece that streaming emits early has a full window behind its start and ends by the same rule |
| Chunking.LocatedExact | src/chunking/cdc.rs:132-139 | each chunk starts where the chunks before it end |
| Chunking.Chunker.ChunkData | src/chunking/cdc.rs:86-144 | the one-shot chunker returns offsets and sizes of exactly these pieces and leaves the rolling state at zero |
| Chunking.StreamingChunker.NextBlock | src/chunking/cdc.rs:201-209 | a block emits the chunks that are settled, in order, keeps the rest buffered, and fewer than the maximum chunk size stays buffered |
| Chunking.StreamingChunker.DrainCompleteChunks | src/chunking/cdc.rs:289-338 | the draining loop emits exactly the settled prefix of the buffer with running offsets |
| Chunking.StreamingChunker.Finalize | src/chunking/cdc.rs:211-273 | flushing chunks the remaining buffer like the one-shot chunker, offset by what was emitted before |
| Chunking.DrainIsPrefix | src/chunking/cdc.rs:289-338 | what is emitted before the end is known does not depend on the bytes that follow |
| Chunking.StreamingEqualsOneShot | src/chunking/cdc.rs:159-343 | for every input and every split into blocks, streaming emits the pieces of the whole input |
| Chunking.StreamingExactlyWhenWindowNonEmpty | src/chunking/cdc.rs:311-320 | over all splits, streaming agrees with the one-shot form exactly when the search window of a full chunk is not empty |
| Chunking.ChunkBlocks | src/chunking/cdc.rs:201-273 | a whole streaming run returns the located pieces of the concatenated blocks |
| Compression.RegroupSplit | src/format/compression.rs:36-166 | regrouping undoes byte grouping for every length |
| Compression.SplitRegroup | src/format/compression.rs:36-166 | byte grouping undoes regrouping for every length, so it is a bijection |
| Compression.SplitIsGrouping | src/format/compression.rs:36-85 | grouping moves each byte behind the bytes with a smaller position modulo four, in order; the position is an explicit formula |
| Compression.RegroupIsUngrouping | src/format/compression.rs:87-166 | regrouping gives exactly the one string of which its input is the grouping |
| Compression.SplitBytes | src/format/compression.rs:36-85 | the four column loops build the grouped string |
| Compression.RegroupBytes | src/format/compression.rs:87-166 | the four scatter loops put each byte back in place; a wrong length is an error |
| Compression.DecompressUndoesCompress | src/format/compression.rs:168-243 | for all three schemes decompression returns the original, or an error exactly when LZ4 is used beyond the 16 MiB limit |
| Compression.DecompressExact | src/format/compression.rs:180-243 | for each scheme, exactly which payloads decompress to exactly which bytes, size prefix and 16 MiB limit included |
| Compression.CompressedForms | src/format/compression.rs:168-178 | what each scheme stores: the bytes, their LZ4 form, or the LZ4 form of their grouping |
| Compression.DecompressedSize | src/format/compression.rs:180-216 | a successful decompression has the announced size, whatever the payload |
| Compression.CompressedLenBounded | src/xorb_reader.rs:9-20 | what is compressed stays within the bound the reader enforces |
| NodeText.GroupTextInjective | src/hash/merkle_tree.rs:38-50 | two groups of nodes with the same hashed text are the same group |
| NodeText.NodeLineReads | src/hash/merkle_tree.rs:38-50 | a line reads as 64 hexadecimal digits of the hash, a separator, the decimal size and a line end |
| Merkle.NextMergeCut | src/hash/merkle_tree.rs:18-33 | the bounded scan finds the first natural cut, never fewer than three nodes unless fewer remain, never more than nine |
| Merkle.LevelMergesGroups | src/hash/merkle_tree.rs:57-82 | the groups partition a level in order and each becomes one node |
| Merkle.NextCutNaturally | src/hash/merkle_tree.rs:18-33 | with more than two nodes left, a group ends at its first node from the third on whose hash is divisible by four, and otherwise at nine nodes or the end |
| Merkle.GroupsCutNaturally | src/hash/merkle_tree.rs:57-82 | so does every group of a level, starting where the groups before it end |
| Merkle.LevelCutNaturally | src/hash/merkle_tree.rs:38-82 | each node of the level above is the hash of the text of such a group, with its total size |
| Merkle.FileHashIsKeyedTop | src/hash/merkle_tree.rs:97-107 | the file hash is the hash of the single top node keyed with the zero salt, and the zero hash without chunks |
| Merkle.Level | src/hash/merkle_tree.rs:57-82 | a level shrinks to at most a third, rounded up, and never to nothing |
| Merkle.LevelConservesSize | src/hash/merkle_tree.rs:38-82 | total size is conserved from level to level |
| Merkle.UpConservesSize | src/hash/merkle_tree.rs:57-82 | total size is conserved over any number of levels |
| Merkle.RootConservesSize | src/hash/merkle_tree.rs:57-82 | the single node at the top has the total size of the leaves |
| Merkle.AggregatedNodeHash | src/hash/merkle_tree.rs:57-82 | the in-place level loop terminates with the root |
| Merkle.RootBinds | src/hash/merkle_tree.rs:57-93 | without collisions among the hashed texts, and with node hashes apart from leaf hashes and zero, equal roots come from equal leaf lists, even of different depth |
| XorbFormat.HeaderRoundTrip | src/format/xorb.rs:24-72 | a chunk header is read back exactly when both lengths fit three bytes |
| XorbFormat.ParsedHeader | src/format/xorb.rs:43-72 | whatever header parses re-serialises to the same eight bytes |
| XorbFormat.HeaderRead | src/format/xorb.rs:43-72 | exactly which eight bytes are a header, and what each of them says |
| XorbFormat.FooterParserExact | src/format/xorb.rs:116-230 | the footer parser accepts exactly the byte strings that start with the serialisation of a well-sized footer |
| XorbFormat.FooterLength | src/format/xorb.rs:90-100 | a footer takes 60 bytes and 40 per chunk |
| XorbFormat.FooterLayout | src/format/xorb.rs:102-143 | the idents, the count and the xorb hash stand at these offsets of a footer |
| XorbFormat.FooterEntries | src/format/xorb.rs:116-143 | hash, boundary and unpacked offset of each chunk stand at these offsets, little endian |
| XorbVerify.SearchIdentBackwards | src/format/xorb.rs:268-285 | the backward search finds the last position of the ident |
| XorbVerify.LastIdentIsLast | src/format/xorb.rs:268-285 | that position holds the ident and no later one does |
| XorbVerify.VerifyXorb | src/format/xorb.rs:263-334 | the in-memory verifier accepts exactly files whose located footer matches every region hash and the root; under seven bytes it panics |
| XorbVerify.VerifyXorbFile | src/format/xorb.rs:353-566 | the file verifier accepts exactly when the footer ends the file, every region is header plus payload with the declared hash and prefix-sum offset, the regions end at the footer, and the root matches |
| XorbAcceptance.MemoryVerifierExact | src/format/xorb.rs:263-334 | the in-memory verifier accepts exactly the files whose last ident starts a footer that describes leading regions: hashes, boundaries and root, said of the regions themselves |
| XorbAcceptance.FileVerifierExact | src/format/xorb.rs:353-566 | the file verifier accepts exactly the concatenations of framed regions and a footer of theirs, and reports the starts, lengths and totals of those regions |
| XorbProperties.FileVerifierRefinesMemoryVerifier | src/format/xorb.rs:263-566 | every file the bounded-window verifier accepts is accepted by the in-memory one |
| XorbProperties.VerifiedChunksTile | src/format/xorb.rs:439-566 | accepted regions tile the bytes before the footer, each is eight bytes plus its payload, and unpacked starts are prefix sums |
| XorbProperties.AcceptedFileIsRegionsAndFooter | src/format/xorb.rs:353-546 | an accepted file is its regions followed by its serialised footer, byte for byte |
| XorbProperties.SameHashSameFile | src/api/xorb.rs:155-161 | two accepted files with the same xorb hash are the same bytes, without collisions among the strings hashed for them |
| XorbBuilder.Builder.AddChunk | src/format/xorb_builder.rs:71-116 | a chunk is appended with header, hash and 32-bit running offsets |
| XorbBuilder.Builder.Build | src/format/xorb_builder.rs:118-167 | the result is the chunks and their footer, and is returned exactly when the in-memory verifier accepts it |
| XorbRoundTrip.HeaderIsWritten | src/format/xorb_builder.rs:71-116 | under the format limits the header of each written chunk carries its true lengths at its offset |
| XorbRoundTrip.BuiltXorbVerifies | src/format/xorb.rs:378-546 | a built xorb is reported with the builder's starts, lengths and totals exactly when the ident does not recur after the footer start |
| SelfCheck.SelfCheckExact | src/format/xorb_builder.rs:118-167 | the builder's self-check accepts a built xorb exactly when it has at most 100,000 chunks and serialises below 2^32 bytes: it catches every overflow of the count and of the boundaries |
| SelfCheck.AcceptedFits | src/format/xorb.rs:263-334 | below 4 GiB of raw bytes, an accepted self-check means that every limit of the formats is met |
| SelfCheck.NeverPanics | src/format/xorb_builder.rs:157-158 | the self-check never sees fewer than seven bytes, so its backward search stays in range |
| Limits.IdentMayRecur | src/format/xorb.rs:268-285 | the ident may recur in the footer of a xorb within the limits, and then the report differs from what was built |
| ShardFormat.WordsExact | src/format/shard.rs:168-335 | 48-byte records and their fields determine each other |
| ShardFormat.LookupExact | src/format/shard.rs:338-372 | 68-byte lookup records and their fields determine each other |
| ShardFormat.FileHeaderLayout | src/format/shard.rs:174-214 | the fields of a file header stand at these offsets |
| ShardFormat.SegmentLayout | src/format/shard.rs:216-256 | the fields of a segment stand at these offsets |
| ShardFormat.XorbHeaderLayout | src/format/shard.rs:258-298 | the fields of a xorb header stand at these offsets |
| ShardFormat.XorbChunkLayout | src/format/shard.rs:300-335 | the fields of a chunk entry stand at these offsets |
| ShardFormat.LookupLayout | src/format/shard.rs:338-372 | the fields of a lookup stand at these offsets |
| ShardFormat.FooterRoundTrip | src/format/shard.rs:82-148 | the 208-byte footer is read back as written |
| ShardFormat.FooterRoundTripBack | src/format/shard.rs:82-148 | every 208 bytes are the serialisation of the footer they read as |
| ShardFormat.FooterLayout | src/format/shard.rs:82-148 | the words, the key and the totals stand at these offsets of the footer |
| ShardSections.SectionExact | src/format/shard.rs:656-724 | a section parses to its tables exactly when it is their rendering and the header counts share out the entries |
| ShardSections.ReadSection | src/format/shard.rs:656-752 | the cursor loop with its fit checks computes the section parse |
| ShardParser.ParserExact | src/format/shard.rs:431-635 | the parser accepts exactly the renderings of well-formed shards: sections cover every byte once, counts are the declared ones, re-rendering reproduces the input |
| ShardParser.ParseShard | src/format/shard.rs:431-635 | the step-by-step parser computes that function |
| ShardBuilder.Builder.AddXorb | src/format/shard_builder.rs:102-154 | chunk entries and raw hashes are added together with consecutive lookups, or not at all when their numbers differ |
| ShardBuilder.Builder.Build | src/format/shard_builder.rs:167-338 | the sections are written in order with the declared offsets, and returned only if the parser accepts them |
| ShardBuilder.FooterDeclares | src/format/shard_builder.rs:167-338 | the footer declares every section where it is, with its count, and absent sections as absent |
| ShardBuilder.FooterTotals | src/format/shard_builder.rs:259-267 | bytes on disk and bytes in xorbs are the sums over the xorbs, materialised bytes the sum over the segments of the files |
| ShardBuilder.SectionsAreThere | src/format/shard_builder.rs:167-338 | header, files, xorbs, lookups and footer follow one another and make up the bytes |
| ShardBuilder.FileRecords | src/format/shard_builder.rs:167-338 | each file is its header and its segments in order, at a record number that is the sum over the files before |
| ShardBuilder.XorbRecords | src/format/shard_builder.rs:167-338 | each xorb is its header and its chunks in order, at a record number that is the sum over the xorbs before |
| ShardBuilder.ShardRoundTrip | src/format/shard_builder.rs:126-338 | for all contents with counts below 2^32, empty files and xorbs included, parsing gives back every record in order, so the self-check cannot fail |
| ShardBuilder.FilesSurvive | src/format/shard_builder.rs:167-338 | whatever overflows in the xorb tables, if the bytes parse the files come back as added |
| Planner.XorbRangesMeaning | src/reconstruction_plan.rs:76-100 | the offset map holds exactly the xorbs of the shard with their ranges in the chunk table |
| Planner.RawHashesMeaning | src/reconstruction_plan.rs:102-111 | the lookup map holds exactly the raw hashes of the lookup table |
| Planner.PlanSegment | src/reconstruction_plan.rs:116-195 | a segment plans exactly when its range lies in a known xorb, every chunk has a raw hash and the bytes sum to the declared total; the result is that slice |
| Planner.BuildFileChunkPlan | src/reconstruction_plan.rs:25-205 | a plan exists exactly on well-formed tables and is the concatenation of the segments' slices |
| PlanMeaning.PlanExistsExactly | src/reconstruction_plan.rs:25-205 | a plan exists exactly when the tables share out their entries, no xorb and no lookup repeats, the file has this hash, and each segment takes looked-up chunks of a known xorb that sum to its size |
| PlanMeaning.PlanIsInOrder | src/reconstruction_plan.rs:113-203 | chunk j of segment i comes after the chunks of the segments before, and is the entry and the raw hash that the tables hold for it |
| Planner.PlanTotal | src/reconstruction_plan.rs:113-203 | the plan's total is both the sum of its chunks and the sum its segments declare |
| Planner.FileRangesTile | src/format/shard.rs:656-692 | in a parsed shard the files' segment ranges are consecutive and use up the segment table |
| Reconstruction.ExtractedLength | src/xorb_reader.rs:28-112 | an extracted chunk has the expected length |
| RebuildMeaning.ExtractExact | src/xorb_reader.rs:28-112 | a chunk is extracted exactly when a header with its lengths stands at its offset, header and payload have the expected hash, and the payload decompresses to it |
| RebuildMeaning.FetchAllExact | src/reconstruction_io.rs:138-192 | the fetched chunks are exactly those, one for each planned chunk |
| RebuildMeaning.AcceptedForms | src/reconstruction_io.rs:203-219 | the accepted hashes of a file are its SHA-256, its keyed BLAKE3 and the keyed top of its Merkle tree, and no others |
| RebuildMeaning.RebuildExact | src/reconstruction_io.rs:109-225 | a file is rebuilt to exactly the concatenation of planned chunks that have an accepted hash |
| RebuildMeaning.MissingOrDamaged | src/reconstruction_io.rs:138-192 | the first chunk that cannot be fetched decides: a missing xorb makes the reference stale, a damaged one makes it fail |
| RebuildMeaning.ShardTrouble | src/reconstruction_io.rs:134-137 | a missing shard makes a reference stale, one that does not parse or plan makes it fail |
| RebuildMeaning.WrongHashFails | src/reconstruction_io.rs:203-219 | chunks that are all there but have no accepted hash make it fail |
| Reconstruction.FetchChunks | src/reconstruction_io.rs:138-192 | the loop fetches the planned chunks in order; output and leaves are those of the chunks; the first failure decides |
| Reconstruction.ReconstructRef | src/reconstruction_io.rs:109-225 | one reference gives the planned bytes if an accepted hash form matches, else a stale or a hard failure |
| Reconstruction.ReconstructFile | src/reconstruction_io.rs:66-107 | references are tried in order; the first that works wins, otherwise the first failure that is not staleness |
| RebuildMeaning.FirstWorkingWins | src/reconstruction_io.rs:66-107 | the first reference that rebuilds decides the answer, whatever precedes it |
| RebuildMeaning.NoneWorks | src/reconstruction_io.rs:101-106 | if none rebuilds, the answer is stale exactly when all are, and a failure otherwise |
| Reconstruction.ServedIffSomeRefWorks | src/reconstruction_io.rs:66-107 | a file is rebuilt exactly when some reference works, and with its bytes |
| Reconstruction.RebuiltIsGenuine | src/reconstruction_io.rs:203-219 | whatever is rebuilt has one of the three accepted hashes of the target |
| Reconstruction.RebuiltLength | src/reconstruction_io.rs:134-224 | a rebuilt file has exactly the size its segments declare |
| Reconstruction.RebuildStable | src/reconstruction_io.rs:134-224 | a rebuild that works gives the same bytes when more xorbs are stored |
| Index.MetadataIndex.RegisterVerifiedShard | src/index.rs:83-141 | all sizes are checked first; a rejected registration changes nothing, an accepted one adds references without duplicates and chunk locations, last one winning |
| Index.CheckSizes | src/index.rs:93-116 | the size check fails exactly when a hash has two sizes inside the registration or against the index |
| Index.AcceptedExactly | src/index.rs:93-117 | a registration is accepted exactly when its files agree in size with one another and with every known reference, and otherwise changes nothing |
| Index.KnownRefsStayFirst | src/index.rs:119-131 | the known references of a hash stay in front, in their order |
| Index.RegisterKeepsIndexOk | src/index.rs:83-141 | all references of a hash stay distinct and of one size |
| Index.RegisteredContents | src/index.rs:118-138 | reference sets and chunk keys grow by exactly those of the registration |
| Index.LastLocationWins | src/index.rs:132-138 | a chunk is located where the last added mapping of its hash says |
| Index.RegisterTwice | src/index.rs:83-141 | registering again is accepted and changes nothing |
| Index.FoldSucceedsIffConsistent | src/index.rs:204-324 | a fold over shards has no failure exactly when all validate and no two of them give a file hash two sizes |
| Index.OrderDoesNotMatter | src/index.rs:204-324 | the same shards in any order give the same outcome, reference sets and chunk keys |
| Rebuild.RebuildFromStorage | src/index.rs:204-324 | the batched rebuild is the plain fold over the listed shards, and is Ok(n) exactly when the listing did not break off and all n listed shards were indexed |
| Rebuild.NextBatch | src/index.rs:220-241 | a batch is the next at most ten keys, and an error of the listing ends it |
| Rebuild.ListingOrderDoesNotMatter | src/index.rs:204-324 | stored shards listed in another order or repeatedly give the same outcome and contents |
| Rebuild.RebuiltIndexIsSound | src/index.rs:204-324 | whatever was listed and however much of it failed, every reference in the rebuilt index rebuilds its file at its size and every chunk location holds a chunk with that raw hash |
| Validation.ValidateXorbs | src/shard_validation.rs:40-183 | the xorb loop succeeds exactly when no xorb repeats, every entry agrees with the verified stored xorb, and no chunk entry is left over |
| Validation.ValidateFile | src/shard_validation.rs:188-296 | a file passes exactly when reconstruction from the shard works, and its size is that of the rebuilt bytes |
| Validation.AlwaysInVerifiedXorb | src/shard_validation.rs:209-224 | after the xorb loop, a planned chunk always lies in a verified xorb: those two error branches are never taken |
| Validation.ValidateShardForIndex | src/shard_validation.rs:25-313 | the result lists every declared file with its rebuilt size, and exactly the lookups of chunks that some file uses |
| ValidationMeaning.ValidatesExactly | src/shard_validation.rs:25-313 | a shard passes exactly when its xorb entries are stored as said, without repetition or rest, and each file rebuilds from its planned chunks |
| ValidationMeaning.RegisteredFiles | src/shard_validation.rs:187-296 | every declared file is registered, in order, with the length of what it rebuilds to |
| ValidationMeaning.RegisteredLookups | src/shard_validation.rs:297-307 | the registered mappings are those of exactly the lookups whose chunk some file uses, in table order and as often as in the table |
| ValidationMeaning.EveryUsedLookupIsRegistered | src/shard_validation.rs:272-307 | every lookup of a chunk in the plan of any file is registered |
| ValidationMeaning.ReportedTotals | src/format/xorb.rs:439-566 | the totals a verified xorb is reported with are the sums over its chunks |
| Validation.RegisteredFilesAreSound | src/shard_validation.rs:187-296 | every registered file rebuilds through its reference to bytes of the registered size with an accepted hash, while shard and xorbs stay stored |
| Validation.RegisteredChunksAreSound | src/shard_validation.rs:298-312 | every registered chunk location holds, in its verified xorb, a chunk whose raw hash is the key |
| Validation.ValidateStable | src/shard_validation.rs:25-313 | a valid shard stays valid, with the same registration, when more xorbs are stored |
| Conversion.PackBlocks | src/conversion/mod.rs:204-313 | for every way the reads cut the blob, the byte buffer stays in step with the chunker, stays under 10 MiB, ends empty, and builder and tables receive the pieces of the whole blob |
| Conversion.PackChunks | src/conversion/mod.rs:244-280 | each emitted chunk is taken off the front of the buffer and recorded with its hashes, start and length |
| Conversion.PiecesFit | src/conversion/mod.rs:204-306 | up to 8192 x 100,000 bytes every count, length and offset fits its field, and at the default limit there are at most 65,536 chunks |
| Conversion.OffsetsNeverWrap | src/conversion/mod.rs:270-302 | at the default 512 MiB limit the running 32-bit offsets are the true ones at every chunk |
| Conversion.SerializedGrowth | src/format/xorb_builder.rs:92-108 | serialised chunks exceed the raw bytes by at most a 255th and 28 bytes per chunk |
| Conversion.BuildShard | src/conversion/mod.rs:344-393 | the shard has one xorb, one file and one segment over all chunks |
| Conversion.ConversionPipeline.Publish | src/conversion/mod.rs:395-429 | store the shard, register it, and delete the raw blob only after the index accepted |
| Conversion.ConversionPipeline.Convert | src/conversion/mod.rs:140-444 | storage, index and outcome after a conversion, for every failing check |
| EndToEnd.SameRegistration | src/conversion/mod.rs:399-421 | validating what a conversion stored gives exactly the registration the conversion made itself |
| EndToEnd.StoredRebuilds | src/reconstruction_io.rs:109-225 | for every object below 4 GiB whose xorb passes the self-check, the stored shard parses and its file rebuilds exactly the original bytes |
| EndToEnd.EveryFormIsServed | src/hash/merkle_tree.rs:97-107 | a stored file declared under any of the three hash forms, the Xet hash included, validates, registers and rebuilds to its bytes |
| EndToEnd.ConversionIsFaithful | src/conversion/mod.rs:204-421 | for every object below 4 GiB whose xorb passes the self-check, empty ones included: the stored shard parses, validates to the conversion's registration, and the registered reference rebuilds the original bytes |
| EndToEnd.FileIsPlanned | src/reconstruction_plan.rs:182-190 | the planner accepts the file of a conversion exactly when its total did not wrap |
| EndToEnd.LargeNeverRebuilds | src/reconstruction_plan.rs:182-190 | from 4 GiB on, whatever is stored, the conversion's reference is refused by the planner |
| EndToEnd.RebuiltTotalIsWrapped | src/conversion/mod.rs:271-373 | what rebuilds through a conversion's shard has the 32-bit total as its size, however many chunks there are |
| EndToEnd.ConversionOutcome | src/conversion/mod.rs:140-444 | for every size: a failed conversion keeps raw blobs and index; a successful one was enabled and within the sizes, adds one xorb and one shard, registers, deletes as configured, and its reference rebuilds the object exactly when that is below 4 GiB |
| EndToEnd.RefusedConversion | src/conversion/mod.rs:140-190 | disabled, without a blob, or with one below the minimum or above the maximum, a conversion is not ok and changes neither storage nor index |
| EndToEnd.ConversionTotals | src/format/shard_builder.rs:259-267 | the footer of a conversion's shard carries the packed and the raw size of the object |
| EndToEnd.ConversionSucceeds | src/conversion/mod.rs:140-444 | over all storages, a conversion succeeds exactly when it is enabled, the blob is there and within the configured sizes, has at most 100,000 chunks and serialises below 2^32 bytes, and the index accepts its registration |
| Scheduler.StepKeepsInv | src/conversion/converting_oids.rs:119-255 | every atomic step of callers, workers and shutdown keeps the invariant |
| Scheduler.TrackedIsDisjointUnion | src/conversion/converting_oids.rs:180-222 | until shutdown clears it, every tracked OID is held exactly once by a caller in flight, the channel or a worker, and no other OID is held |
| Scheduler.NoDoubleConversion | src/conversion/converting_oids.rs:119-176 | no OID is converted by two workers at once or queued while it is converted |
| Scheduler.AcceptedIsConserved | src/conversion/converting_oids.rs:119-222 | the queue is bounded and first in first out, there are as many workers as configured, and every accepted OID is queued, in hand or finished |
| Scheduler.NothingAcceptedAfterShutdown | src/conversion/converting_oids.rs:232-255 | once the sender is taken nothing is accepted |
| Scheduler.CallIsAccepted | src/conversion/converting_oids.rs:180-209 | an undisturbed call on an open scheduler with room, for an OID that is not tracked, ends with the OID tracked, queued last and accepted |
| Scheduler.DuplicateChangesNothing | src/conversion/converting_oids.rs:184-189 | an undisturbed call for a tracked OID changes nothing |
| Scheduler.FullQueueChangesNothing | src/conversion/converting_oids.rs:210-217 | an undisturbed call that finds the queue full leaves everything as it was |
| Scheduler.WorkerTurn | src/conversion/converting_oids.rs:126-174 | a waiting worker takes the oldest queued OID, finishes it, untracks it and waits again |
| Scheduler.ClosedRefusesCalls | src/conversion/converting_oids.rs:180-183 | a call after shutdown began changes nothing |
| Scheduler.WorkersLiveUntilShutdown | src/conversion/converting_oids.rs:119-176 | while the sender is there, all configured workers live |
| Protocol.StepKeepsInv | src/conversion/mod.rs:329-429 | every step of uploads, conversions, downloads, crashes and restarts keeps every stored object and every file of an acknowledged shard available and every stored shard valid, given that nothing written over an occupied key and no two stored files collide and that no object of 4 GiB or more is converted |
| Protocol.XorbWriteKeeps | src/api/xorb.rs:155-185 | writing a verified xorb over one with the same hash changes nothing |
| Protocol.WrittenShardValid | src/conversion/mod.rs:395-400 | the shard a conversion writes passes validation |
| Protocol.RegisteredIsRecoverable | src/conversion/mod.rs:405-429 | after registration the index and the storage lead to the object without its raw blob |
| Protocol.RestartServes | src/index.rs:204-324 | after a successful rebuild every object declared by a stored shard is rebuilt through the index |
| Protocol.RebuildFailsOnlyOnCollision | src/index.rs:204-324 | over valid shards, listed completely in any order, a rebuild fails only if two stored files collide |
| Protocol.RegisteredShardsAreServed | src/index.rs:287-318 | however incomplete a rebuild is, every file of a shard that was registered is served |
| Protocol.StoredShardsAreValid | src/api/shard.rs:206-238 | in every reachable state every stored shard passes validation, so a rebuild there fails only on a collision |
| Protocol.NoObjectIsLost | src/api/lfs.rs:279-311 | in every reachable state that is up, an object ever stored has its raw blob or is rebuilt to the stored bytes, or to others with an accepted hash of the same OID if there is such a collision |
| Protocol.NoUploadedFileIsLost | src/api/shard.rs:206-242 | in every reachable state that is up, restarts included, every file of a shard whose upload was acknowledged is rebuilt through the index to bytes with an accepted hash |
| Protocol.ClientStepsTakeEffect | src/api/shard.rs:224-238 | what a client uploads is stored, and every file of a shard that the index accepts is acknowledged and referenced |
| Protocol.OwedDownloadsAreServed | src/api/lfs.rs:279-311 | a download of an object stored raw, or of a file of a shard acknowledged, before it was asked for never fails, though the blob may vanish between its steps; what is served has an accepted hash and, for a raw upload, is the stored bytes unless these collide with others |
| Protocol.RestartComesUp | src/index.rs:204-324 | a restart brings the server up on the same storage with a sound index, whatever the rebuild found |
| Protocol.RawIsServed | src/api/lfs.rs:279-299 | an undisturbed download of a raw blob is answered with it |
| Protocol.IndexIsAsked | src/api/lfs.rs:300-311 | without a raw blob, an undisturbed download is answered from the references in the index |
| Protocol.UnknownIsNotFound | src/api/lfs.rs:300-316 | an object neither stored raw nor in the index is answered as not found |
| Upload.UploadedFileIsServed | src/api/shard.rs:206-242 | whatever the server holds: the xorb and the shard of a file within the format limits that it does not know are accepted step by step, and an undisturbed download by any of the three hash forms then serves the bytes of the file |
| Limits.AdmittedObjectIsKept | src/conversion/mod.rs:140-444 | below 4 GiB, the run that stores, converts and deletes an admitted object takes place and leaves it rebuildable to its bytes |
| Protocol.LimitBelow4GiBIsBenign | src/conversion/mod.rs:187-190 | a configured size limit below 4 GiB excludes the conversions that lose objects |
| Limits.OverlargeObjectIsLost | src/conversion/mod.rs:271-429 | every object of 4 GiB or more that the settings admit and whose xorb passes the self-check is lost: a run stores, converts and deletes it, and no reference rebuilds it |
| Limits.OverlargeObjectExists | src/format/xorb.rs:289-322 | such an object exists: 4 GiB of zeros with an LZ4 that shrinks them |
| Multipart.PartSizeSuffices | src/storage/s3.rs:525-537 | the part size covers the file in 10,000 parts and is the least that does beyond 8 MiB |
| Multipart.MultipartUpload | src/storage/s3.rs:423-537 | every file from one byte to 5 TiB is tiled by at most 10,000 consecutive parts; all others give an error |

## Left out

- HTTP routing, authentication, metrics, rate limits, readiness and configuration parsing: plumbing without state of its own.
- Temporary files, disk quotas, fsync, path confinement, retries and delays: a read or write either happens or fails.
- Failing storage calls inside `Convert`: the method models storage that answers; `Protocol` lets every conversion stop after any step.
- Downloads that fail because storage fails: `Protocol` reads succeed, so such errors are not among its failed downloads.
- Several servers on one storage, and rebuilds whose listing breaks off or whose reads fail: `Protocol` restarts one server after a complete listing; for other rebuilds `RebuiltIndexIsSound` and `RegisteredShardsAreServed` say what they leave.
- The internals of BLAKE3, SHA-256, GearHash and LZ4: parameters with the stated facts.
- Streaming hashers: a whole-file hash is the hash of the concatenation.
- Reading a xorb or shard in pieces through a file handle, and the per-file cache of downloaded xorbs: the model reads from the stored byte string.
- Parallel validation of a batch of shards at start-up: results are awaited in key order, which is the order modelled.
- Several validations of shards against storage that changes meanwhile: `ValidateStable` covers added xorbs, and nothing deletes any.
- Overflow of the 64-bit sizes inside Merkle nodes: sizes are unbounded there; the program's sizes come from files.
- Hex encoding and case of OIDs and keys: hashes are compared as bytes.
- The scheduler's counters and metrics: they are updated apart from the channel and say nothing exact.
- Counting of already known chunks during a conversion: a statistic that changes nothing stored.
- S3 requests, listing pages and aborting uploads: only the part arithmetic and the part loop are modelled.
- The Hub, its database and the web interface: not part of this model.
- Conversion.PiecesFit: stated up to 819,200,000 bytes, 100,000 chunks of the minimum size, where no self-check is needed; beyond that `SelfCheckExact` decides.
- Chunking.StreamingExactlyWhenWindowNonEmpty: excludes configurations whose skipped prefix is longer than the maximum chunk, where the streaming chunker slices out of range.
- ShardBuilder.ShardRoundTrip: assumes that the rendered shard is shorter than 2^64 bytes, which no storage exceeds.
- Protocol.NoObjectIsLost: leaves open the case that two byte strings have an accepted hash of one OID, since the program cannot tell them apart.
- Conversion.BuildShard: takes the tables of the packing loop as given; `PackBlocks` proves what they hold.
