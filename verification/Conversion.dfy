/** Converting a raw blob: chunk, hash and pack it, then store, register and delete in order. */
module Conversion {
  import opened Bytes
  import opened Primitives
  import opened Chunking
  import opened Compression
  import opened XorbFormat
  import opened XorbVerify
  import opened XorbBuilder
  import opened XorbRoundTrip
  import opened ShardFormat
  import opened ShardParser
  import SB = ShardBuilder
  import opened Reconstruction
  import opened Index

  const BLOCK_SIZE: nat := 1024 * 1024

  datatype Settings = Settings(enabled: bool, scheme: Scheme, deleteRaw: bool, minSize: nat, maxSize: nat)

  const DEFAULT_SETTINGS: Settings := Settings(true, Scheme.Lz4, true, 65536, 512 * 1024 * 1024)

  // ----- what is written for a sequence of raw chunks -----

  function EntryFor(env: Env, scheme: Scheme, raws: seq<Bytes>, i: nat): SB.ChunkEntry
    requires i < |raws|
  {
    SB.ChunkEntry(env.DataHash(Serialized(env, scheme, raws[i])), Wrap32(Offset(SerializedAll(env, scheme, raws), i)),
                  Wrap32(|raws[i]|))
  }

  function EntriesFor(env: Env, scheme: Scheme, raws: seq<Bytes>): (entries: seq<SB.ChunkEntry>)
    ensures |entries| == |raws|
  {
    seq(|raws|, i requires 0 <= i < |raws| => EntryFor(env, scheme, raws, i))
  }

  function RawHashesFor(env: Env, raws: seq<Bytes>): (hashes: seq<Hash>)
    ensures |hashes| == |raws|
  {
    seq(|raws|, i requires 0 <= i < |raws| => env.DataHash(raws[i]))
  }

  /** One xorb with all chunks, and one file made of one segment that spans it. */
  function ContentsFor(env: Env, scheme: Scheme, oid: Hash, raws: seq<Bytes>): SB.Contents {
    var xorb := BuildResultFor(env, scheme, raws);
    var entry := SB.XorbEntry(xorb.xorbHash, Wrap32(xorb.totalUncompressed), Wrap32(xorb.totalCompressed),
                              EntriesFor(env, scheme, raws));
    var segment := SB.FileSegment(xorb.xorbHash, 0, 0, Wrap32(|raws|), Wrap32(|Flatten(raws)|));
    SB.Contents([SB.FileEntry(oid, [segment])], [entry], SB.LookupsFor(xorb.xorbHash, RawHashesFor(env, raws)))
  }

  function ChunkMappingsFor(env: Env, xorbHash: Hash, raws: seq<Bytes>): (chunks: seq<ChunkMapping>)
    ensures |chunks| == |raws|
  {
    seq(|raws|, i requires 0 <= i < |raws| => ChunkMapping(env.DataHash(raws[i]), xorbHash, Wrap32(i)))
  }

  /** The shard is stored under the data hash of its bytes. */
  function ShardIdFor(env: Env, scheme: Scheme, oid: Hash, raws: seq<Bytes>): Hash {
    env.DataHash(SB.BuildBytes(ContentsFor(env, scheme, oid, raws)))
  }

  function RegistrationFor(env: Env, scheme: Scheme, oid: Hash, raws: seq<Bytes>, rawSize: nat): Registration {
    var xorb := BuildResultFor(env, scheme, raws);
    Registration(ShardIdFor(env, scheme, oid, raws), [FileMapping(oid, 0, rawSize)],
                 ChunkMappingsFor(env, xorb.xorbHash, raws))
  }

  // ----- no 32-bit offset overflows -----

  /** Growth of the first `n` chunks by headers and compression. */
  lemma {:induction false} SerializedGrowth(env: Env, scheme: Scheme, raws: seq<Bytes>, n: nat)
    requires LawfulLz4(env) && n <= |raws|
    ensures Offset(SerializedAll(env, scheme, raws), n) <= Offset(raws, n) + Offset(raws, n) / 255 + 28 * n
  {
    hide Compress, Flatten, Offset, Serialized, LawfulLz4;
    var regions := SerializedAll(env, scheme, raws);
    if n > 0 {
      SerializedGrowth(env, scheme, raws, n - 1);
      OffsetStep(regions, n - 1);
      OffsetStep(raws, n - 1);
      RegionGrowth(env, scheme, raws[n - 1]);
      GrowthStep(Offset(regions, n - 1), Offset(raws, n - 1), n - 1, |regions[n - 1]|, |raws[n - 1]|);
    } else {
      OffsetZero(regions);
      OffsetZero(raws);
    }
  }

  lemma RegionGrowth(env: Env, scheme: Scheme, raw: Bytes)
    requires LawfulLz4(env)
    ensures |Serialized(env, scheme, raw)| <= |raw| + |raw| / 255 + 28
  {
    hide Compress, LawfulLz4;
    CompressedLenBounded(env, scheme, raw);
    SerializedLength(env, scheme, raw);
  }

  lemma GrowthStep(packed: nat, raw: nat, n: nat, region: nat, len: nat)
    requires packed <= raw + raw / 255 + 28 * n && region <= len + len / 255 + 28
    ensures packed + region <= (raw + len) + (raw + len) / 255 + 28 * (n + 1)
  {
  }

  lemma SerializedLength(env: Env, scheme: Scheme, raw: Bytes)
    ensures |Serialized(env, scheme, raw)| == 8 + |Compress(env, scheme, raw)|
  {
    hide Compress;
  }

  /** At most 100,000 minimal chunks, which is more than the default size limit allows. */
  const SAFE_SIZE: nat := 8192 * MAX_CHUNKS_PER_XORB

  /** Up to the safe size every count, length and offset fits its field. */
  lemma PiecesFit(env: Env, scheme: Scheme, g: Gear, data: Bytes)
    requires LawfulLz4(env) && Lawful(g) && |data| <= SAFE_SIZE
    ensures Fits(env, scheme, Pieces(g, DEFAULT_CONFIG, data))
    ensures |data| <= DEFAULT_SETTINGS.maxSize ==> |Pieces(g, DEFAULT_CONFIG, data)| <= 65_536
  {
    hide Pieces, Compress, Flatten, Offset, SerializedAll, LawfulLz4, Lawful;
    var raws := Pieces(g, DEFAULT_CONFIG, data);
    PiecesCoverInput(g, DEFAULT_CONFIG, data);
    PieceCountBound(g, data);
    forall i | 0 <= i < |raws|
      ensures |raws[i]| < U24 && |Compress(env, scheme, raws[i])| < U24
    {
      PieceFits(env, scheme, g, data, i);
    }
    OffsetEnd(SerializedAll(env, scheme, raws), |raws|);
    OffsetEnd(raws, |raws|);
    SerializedGrowth(env, scheme, raws, |raws|);
  }

  lemma PieceFits(env: Env, scheme: Scheme, g: Gear, data: Bytes, i: nat)
    requires LawfulLz4(env) && Lawful(g) && i < |Pieces(g, DEFAULT_CONFIG, data)|
    ensures var raw := Pieces(g, DEFAULT_CONFIG, data)[i];
            |raw| < U24 && |Compress(env, scheme, raw)| < U24
  {
    hide Pieces, Compress, LawfulLz4, Lawful;
    PieceSizes(g, DEFAULT_CONFIG, data, i);
    CompressedLenBounded(env, scheme, Pieces(g, DEFAULT_CONFIG, data)[i]);
  }

  lemma PieceCountBound(g: Gear, data: Bytes)
    requires Lawful(g)
    ensures |data| <= SAFE_SIZE ==> |Pieces(g, DEFAULT_CONFIG, data)| <= MAX_CHUNKS_PER_XORB
    ensures |data| <= DEFAULT_SETTINGS.maxSize ==> |Pieces(g, DEFAULT_CONFIG, data)| <= 65_536
  {
    if data != [] {
      PieceCount(g, DEFAULT_CONFIG, data);
    }
  }

  /** At the default limit the running offsets of the conversion and of the builder never wrap. */
  lemma OffsetsNeverWrap(env: Env, scheme: Scheme, g: Gear, data: Bytes, i: nat)
    requires LawfulLz4(env) && Lawful(g) && |data| <= DEFAULT_SETTINGS.maxSize && i <= |Pieces(g, DEFAULT_CONFIG, data)|
    ensures var raws := Pieces(g, DEFAULT_CONFIG, data);
            && Offset(SerializedAll(env, scheme, raws), i) < U32
            && Offset(raws, i) < U32
            && Wrap32(Offset(SerializedAll(env, scheme, raws), i)) == Offset(SerializedAll(env, scheme, raws), i)
            && Wrap32(Offset(raws, i)) == Offset(raws, i)
  {
    hide Pieces, Compress, Flatten, Offset, SerializedAll, Wrap32;
    var raws := Pieces(g, DEFAULT_CONFIG, data);
    PiecesFit(env, scheme, g, data);
    OffsetEnd(SerializedAll(env, scheme, raws), i);
    OffsetEnd(raws, i);
    WrapExact(Offset(SerializedAll(env, scheme, raws), i));
    WrapExact(Offset(raws, i));
  }

  // ----- the packing loop -----

  /** The variables of the loop: bytes not yet assigned to a chunk, the tables so far and the running offsets. */
  datatype Packing = Packing(buf: Bytes, entries: seq<SB.ChunkEntry>, rawHashes: seq<Hash>, numChunks: nat,
                             xorbOffset: u32, cumulative: u32)

  ghost predicate Packs(env: Env, scheme: Scheme, raws: seq<Bytes>, p: Packing) {
    && p.entries == EntriesFor(env, scheme, raws) && p.rawHashes == RawHashesFor(env, raws) && p.numChunks == |raws|
    && p.xorbOffset == Wrap32(|Flatten(SerializedAll(env, scheme, raws))|)
    && p.cumulative == Wrap32(|Flatten(raws)|)
  }

  lemma NothingPacked(env: Env, scheme: Scheme)
    ensures Packs(env, scheme, [], Packing([], [], [], 0, 0, 0))
  {
  }

  lemma EntriesSnoc(env: Env, scheme: Scheme, raws: seq<Bytes>, raw: Bytes)
    ensures EntriesFor(env, scheme, raws + [raw])
         == EntriesFor(env, scheme, raws)
            + [SB.ChunkEntry(env.DataHash(Serialized(env, scheme, raw)),
                             Wrap32(|Flatten(SerializedAll(env, scheme, raws))|), Wrap32(|raw|))]
    ensures RawHashesFor(env, raws + [raw]) == RawHashesFor(env, raws) + [env.DataHash(raw)]
  {
    hide Serialized, SerializedAll, Offset, Flatten, Wrap32;
    var regions, s := SerializedAll(env, scheme, raws), Serialized(env, scheme, raw);
    SerializedSnoc(env, scheme, raws, raw);
    forall i | 0 <= i <= |raws|
      ensures Offset(regions + [s], i) == Offset(regions, i)
    {
      OffsetOfPrefix(regions, [s], i);
    }
    OffsetEnd(regions, |raws|);
  }

  lemma PacksSnoc(env: Env, scheme: Scheme, raws: seq<Bytes>, raw: Bytes, p: Packing, buf: Bytes)
    requires Packs(env, scheme, raws, p)
    ensures var len := Wrap32(|Compress(env, scheme, raw)|);
            var entry := SB.ChunkEntry(env.DataHash(Serialized(env, scheme, raw)), p.xorbOffset, Wrap32(|raw|));
            Packs(env, scheme, raws + [raw],
                  Packing(buf, p.entries + [entry], p.rawHashes + [env.DataHash(raw)], p.numChunks + 1,
                          Wrap32(p.xorbOffset + 8 + len), Wrap32(p.cumulative + Wrap32(|raw|))))
  {
    hide Serialized, SerializedAll, Flatten, Wrap32, Compress, EntriesFor, RawHashesFor;
    EntriesSnoc(env, scheme, raws, raw);
    SerializedSnoc(env, scheme, raws, raw);
    FlattenSnoc(SerializedAll(env, scheme, raws), Serialized(env, scheme, raw));
    FlattenSnoc(raws, raw);
    SerializedLength(env, scheme, raw);
    var packed, len := |Flatten(SerializedAll(env, scheme, raws))|, |Compress(env, scheme, raw)|;
    WrapAdd(p.xorbOffset + 8, len);
    WrapAdd(packed, 8 + len);
    WrapAdd(|Flatten(raws)|, Wrap32(|raw|));
    WrapAdd(|Flatten(raws)|, |raw|);
  }

  lemma NextPiece(pieces: seq<Bytes>, i: nat, rest: Bytes)
    requires i < |pieces|
    ensures var buf := Flatten(pieces[i..]) + rest;
            && |pieces[i]| <= |buf| && buf[..|pieces[i]|] == pieces[i]
            && buf[|pieces[i]|..] == Flatten(pieces[i + 1..]) + rest
    ensures pieces[..i + 1] == pieces[..i] + [pieces[i]]
  {
    assert pieces[i..][0] == pieces[i] && pieces[i..][1..] == pieces[i + 1..];
    Assoc(pieces[i], Flatten(pieces[i + 1..]), rest);
    SplitConcat(pieces[i], Flatten(pieces[i + 1..]) + rest);
  }

  /** Emitted chunks are taken off the front of the buffer, hashed and added to the builder. */
  method PackChunks(builder: Builder, p: Packing, chunks: seq<Chunk>, ghost pieces: seq<Bytes>, ghost offset: nat,
                    ghost rest: Bytes)
    returns (p': Packing)
    requires builder.Valid() && Packs(builder.env, builder.scheme, builder.raws, p)
    requires chunks == Located(pieces, offset) && p.buf == Flatten(pieces) + rest
    modifies builder
    ensures builder.Valid() && builder.raws == old(builder.raws) + pieces
    ensures Packs(builder.env, builder.scheme, builder.raws, p') && p'.buf == rest
  {
    hide Packs, Flatten, Located, Serialized, Compress, Wrap32;
    p' := p;
    LocatedCount(pieces, offset);
    NoPieces(pieces, rest);
    assert old(builder.raws) + pieces[..0] == old(builder.raws);
    for i := 0 to |chunks|
      invariant builder.Valid() && builder.raws == old(builder.raws) + pieces[..i]
      invariant Packs(builder.env, builder.scheme, builder.raws, p') && p'.buf == Flatten(pieces[i..]) + rest
    {
      LocatedExact(pieces, offset, i);
      NextPiece(pieces, i, rest);
      var size := chunks[i].size;
      var chunkData := p'.buf[..size];
      PacksSnoc(builder.env, builder.scheme, builder.raws, chunkData, p', p'.buf[size..]);
      Assoc(old(builder.raws), pieces[..i], [pieces[i]]);
      var chunkHash := builder.env.DataHash(chunkData);
      var serializedHash, compressedLen := builder.AddChunk(chunkData);
      p' := Packing(p'.buf[size..],
                    p'.entries + [SB.ChunkEntry(serializedHash, p'.xorbOffset, Wrap32(size))],
                    p'.rawHashes + [chunkHash],
                    p'.numChunks + 1,
                    Wrap32(p'.xorbOffset + 8 + compressedLen),
                    Wrap32(p'.cumulative + Wrap32(size)));
    }
  }

  lemma NoPieces(pieces: seq<Bytes>, rest: Bytes)
    ensures pieces[0..] == pieces && pieces[..|pieces|] == pieces
    ensures Flatten(pieces[|pieces|..]) + rest == rest
  {
  }

  lemma {:induction false} DrainCovers(g: Gear, cfg: Config, buffer: Bytes)
    requires Lawful(g) && 0 < cfg.minChunk && cfg.Skip() <= cfg.maxChunk
    ensures var d := Drain(g, cfg, buffer); Flatten(d.pieces) + d.rest == buffer
    decreases |buffer|
  {
    hide StreamCut, Lawful;
    if Ready(cfg, buffer) {
      var n := StreamCut(g, cfg, buffer);
      DrainCovers(g, cfg, buffer[n..]);
      var d := Drain(g, cfg, buffer[n..]);
      assert Drain(g, cfg, buffer).pieces[1..] == d.pieces;
      Assoc(buffer[..n], Flatten(d.pieces), d.rest);
      assert buffer == buffer[..n] + buffer[n..];
    }
  }

  /** What each read may return: a non-empty block no longer than the read buffer. */
  predicate IsBlock(b: Bytes) { 0 < |b| <= BLOCK_SIZE }

  /**
   * The read loop. The byte buffer stays in step with the chunker's own, it never reaches 10 MiB and is empty at the
   * end; whatever the reads return, the builder receives the pieces of the whole input.
   */
  method PackBlocks(env: Env, scheme: Scheme, gear: Gear, blocks: seq<Bytes>) returns (builder: Builder, p: Packing)
    requires Lawful(gear) && forall i | 0 <= i < |blocks| :: IsBlock(blocks[i])
    ensures fresh(builder) && builder.Valid() && builder.env == env && builder.scheme == scheme
    ensures builder.raws == Pieces(gear, DEFAULT_CONFIG, Flatten(blocks))
    ensures Packs(env, scheme, builder.raws, p) && p.buf == []
  {
    hide Packs, Flatten, Located, Pieces, Drain, Streamed;
    builder := new Builder(env, scheme);
    var chunker := new StreamingChunker(gear, DEFAULT_CONFIG);
    p := Packing([], [], [], 0, 0, 0);
    NothingPacked(env, scheme);
    NothingStreamed(gear, blocks);
    for i := 0 to |blocks|
      invariant builder.Valid() && chunker.Valid() && builder.env == env && builder.scheme == scheme
      invariant fresh(builder) && fresh(chunker) && chunker.gear == gear && chunker.config == DEFAULT_CONFIG
      invariant Packs(env, scheme, builder.raws, p) && p.buf == chunker.buffer && !Ready(DEFAULT_CONFIG, p.buf)
      invariant builder.raws + Streamed(gear, DEFAULT_CONFIG, p.buf, blocks[i..])
                == Streamed(gear, DEFAULT_CONFIG, [], blocks)
    {
      assert IsBlock(blocks[i]);
      ghost var d := Drain(gear, DEFAULT_CONFIG, p.buf + blocks[i]);
      StreamedStep(gear, DEFAULT_CONFIG, builder.raws, p.buf, blocks, i);
      DrainCovers(gear, DEFAULT_CONFIG, p.buf + blocks[i]);
      PacksAnyBuf(env, scheme, builder.raws, p, p.buf + blocks[i]);
      p := p.(buf := p.buf + blocks[i]);
      assert |p.buf| < 10 * 1024 * 1024;
      ghost var offset := chunker.totalOffset;
      var newChunks := chunker.NextBlock(blocks[i]);
      p := PackChunks(builder, p, newChunks, d.pieces, offset, d.rest);
    }
    p := Finish(builder, chunker, p);
    StreamingEqualsOneShot(gear, DEFAULT_CONFIG, [], blocks);
    assert [] + Flatten(blocks) == Flatten(blocks);
  }

  method Finish(builder: Builder, chunker: StreamingChunker, p: Packing) returns (p': Packing)
    requires builder.Valid() && chunker.Valid() && p.buf == chunker.buffer
    requires Packs(builder.env, builder.scheme, builder.raws, p)
    modifies builder, chunker
    ensures builder.Valid() && Packs(builder.env, builder.scheme, builder.raws, p') && p'.buf == []
    ensures builder.raws == old(builder.raws) + Pieces(chunker.gear, chunker.config, p.buf)
  {
    hide Packs, Flatten, Located, Pieces;
    ghost var offset, pieces := chunker.totalOffset, Pieces(chunker.gear, chunker.config, p.buf);
    PiecesCoverInput(chunker.gear, chunker.config, p.buf);
    assert Flatten(pieces) + [] == p.buf;
    var remaining := chunker.Finalize();
    p' := PackChunks(builder, p, remaining, pieces, offset, []);
  }

  lemma PacksAnyBuf(env: Env, scheme: Scheme, raws: seq<Bytes>, p: Packing, buf: Bytes)
    ensures Packs(env, scheme, raws, p.(buf := buf)) <==> Packs(env, scheme, raws, p)
  {
  }

  lemma NothingStreamed(gear: Gear, blocks: seq<Bytes>)
    requires Lawful(gear)
    ensures blocks[0..] == blocks && !Ready(DEFAULT_CONFIG, [])
    ensures [] + Streamed(gear, DEFAULT_CONFIG, [], blocks) == Streamed(gear, DEFAULT_CONFIG, [], blocks)
    ensures forall buffer ::
              Streamed(gear, DEFAULT_CONFIG, buffer, blocks[|blocks|..]) == Pieces(gear, DEFAULT_CONFIG, buffer)
  {
  }

  // ----- the conversion -----

  /** A xorb already stored under its hash is left alone. */
  function StoreXorb(st: Storage, h: Hash, data: Bytes): Storage {
    if h in st.xorbs then st else st.(xorbs := st.xorbs[h := data])
  }

  function StoreShard(st: Storage, id: Hash, data: Bytes): Storage { st.(shards := st.shards[id := data]) }

  function DropRaw(st: Storage, oid: Hash): Storage { st.(raw := st.raw - {oid}) }

  predicate Convertible(settings: Settings, st: Storage, oid: Hash) {
    settings.enabled && oid in st.raw && settings.minSize <= |st.raw[oid]| <= settings.maxSize
  }

  datatype Effect = Effect(ok: bool, storage: Storage, index: IndexState)

  /** Store the shard, register it and drop the raw blob; a rejected registration keeps the blob. */
  function Published(env: Env, settings: Settings, oid: Hash, raws: seq<Bytes>, size: nat, st: Storage,
                     idx: IndexState): Effect {
    var shard := SB.BuildBytes(ContentsFor(env, settings.scheme, oid, raws));
    var reg := RegistrationFor(env, settings.scheme, oid, raws, size);
    if Parse(shard).Err? then Effect(false, st, idx)
    else
      var st2 := StoreShard(st, env.DataHash(shard), shard);
      if !Accepts(idx, reg) then Effect(false, st2, idx)
      else Effect(true, if settings.deleteRaw then DropRaw(st2, oid) else st2, Register(idx, reg))
  }

  /** The storage and index a conversion leaves; every failure leaves what was stored before it. */
  function Converted(env: Env, g: Gear, settings: Settings, oid: Hash, st: Storage, idx: IndexState): Effect
    requires Lawful(g)
  {
    if !Convertible(settings, st, oid) then Effect(false, st, idx)
    else
      var raws := Pieces(g, DEFAULT_CONFIG, st.raw[oid]);
      var xorb := BuildResultFor(env, settings.scheme, raws);
      if VerifyMemory(env, xorb.data) != Accepted then Effect(false, st, idx)
      else Published(env, settings, oid, raws, |st.raw[oid]|, StoreXorb(st, xorb.xorbHash, xorb.data), idx)
  }

  class ConversionPipeline {
    const env: Env
    const gear: Gear
    const settings: Settings
    const index: MetadataIndex
    var storage: Storage

    constructor (env: Env, gear: Gear, settings: Settings, index: MetadataIndex, storage: Storage)
      ensures this.env == env && this.gear == gear && this.settings == settings && this.index == index
              && this.storage == storage
    {
      this.env, this.gear, this.settings, this.index, this.storage := env, gear, settings, index, storage;
    }

    /** `blocks` are what the reads of the raw blob return. */
    method Convert(oid: Hash, blocks: seq<Bytes>) returns (ok: bool)
      requires Lawful(gear) && forall i | 0 <= i < |blocks| :: IsBlock(blocks[i])
      requires oid in storage.raw ==> Flatten(blocks) == storage.raw[oid]
      modifies this, index
      ensures Effect(ok, storage, index.State())
              == Converted(env, gear, settings, oid, old(storage), old(index.State()))
    {
      hide Pieces, VerifyMemory, Flatten, Packs, BuildResultFor, Lawful, Published;
      if !settings.enabled || oid !in storage.raw {
        return false;
      }
      var rawSize := |storage.raw[oid]|;
      if rawSize < settings.minSize || rawSize > settings.maxSize {
        return false;
      }
      var builder, packed := PackBlocks(env, settings.scheme, gear, blocks);
      ghost var raws := builder.raws;
      BuiltBytes(env, settings.scheme, raws);
      var xorb := builder.Build();
      if xorb.Err? {
        return false;
      }
      if xorb.value.xorbHash !in storage.xorbs {
        storage := storage.(xorbs := storage.xorbs[xorb.value.xorbHash := xorb.value.data]);
      }
      ok := Publish(oid, raws, rawSize, xorb.value, packed);
    }

    method Publish(oid: Hash, ghost raws: seq<Bytes>, rawSize: nat, xorb: BuildResult, packed: Packing)
      returns (ok: bool)
      requires xorb == BuildResultFor(env, settings.scheme, raws) && Packs(env, settings.scheme, raws, packed)
      modifies this, index
      ensures Effect(ok, storage, index.State())
              == Published(env, settings, oid, raws, rawSize, old(storage), old(index.State()))
    {
      hide Parse, SB.BuildBytes, Accepts, AddFiles, AddChunks, Packs, BuildResultFor, ContentsFor, ChunkMappingsFor;
      var chunks := MapChunks(env, settings.scheme, raws, xorb.xorbHash, packed);
      var shard := BuildShard(env, settings.scheme, oid, raws, xorb, packed);
      if shard.Err? {
        return false;
      }
      var shardId := env.DataHash(shard.value);
      storage := storage.(shards := storage.shards[shardId := shard.value]);
      var reg := Registration(shardId, [FileMapping(oid, 0, rawSize)], chunks);
      assert reg == RegistrationFor(env, settings.scheme, oid, raws, rawSize);
      ok := index.RegisterVerifiedShard(reg);
      if ok && settings.deleteRaw {
        storage := storage.(raw := storage.raw - {oid});
      }
    }
  }

  method MapChunks(env: Env, scheme: Scheme, ghost raws: seq<Bytes>, xorbHash: Hash, packed: Packing)
    returns (chunks: seq<ChunkMapping>)
    requires Packs(env, scheme, raws, packed)
    ensures chunks == ChunkMappingsFor(env, xorbHash, raws)
  {
    chunks := [];
    for i := 0 to |packed.rawHashes|
      invariant chunks == ChunkMappingsFor(env, xorbHash, raws)[..i]
    {
      chunks := chunks + [ChunkMapping(packed.rawHashes[i], xorbHash, Wrap32(i))];
    }
  }

  lemma BuiltBytes(env: Env, scheme: Scheme, raws: seq<Bytes>)
    ensures BuildResultFor(env, scheme, raws).data == XorbBytes(env, scheme, raws)
  {
    hide XorbBytes, FooterFor, Sum;
  }

  /** The shard of one conversion: one xorb, one file, one segment. */
  method BuildShard(env: Env, scheme: Scheme, oid: Hash, ghost raws: seq<Bytes>, xorb: BuildResult, packed: Packing)
    returns (r: Result<Bytes>)
    requires xorb == BuildResultFor(env, scheme, raws) && Packs(env, scheme, raws, packed)
    ensures var shard := SB.BuildBytes(ContentsFor(env, scheme, oid, raws));
            r == if Parse(shard).Ok? then Ok(shard) else Err
  {
    hide Parse, SB.BuildBytes, BuildResultFor, EntriesFor, RawHashesFor, SerializedAll, SB.AllChunks, SB.LookupsFor,
         Flatten, Wrap32;
    var builder := new SB.Builder();
    var xorbIndex := builder.AddXorb(xorb.xorbHash, Wrap32(xorb.totalUncompressed), Wrap32(xorb.totalCompressed),
                                     packed.entries, packed.rawHashes);
    if xorbIndex.Err? {
      assert false;
    }
    builder.AddFile(oid, [SB.FileSegment(xorb.xorbHash, xorbIndex.value, 0, Wrap32(packed.numChunks),
                                         packed.cumulative)]);
    NoLookupsBefore(SB.LookupsFor(xorb.xorbHash, packed.rawHashes));
    assert builder.Current() == ContentsFor(env, scheme, oid, raws);
    r := builder.Build();
  }

  lemma NoLookupsBefore(lookups: seq<Lookup>)
    ensures [] + lookups == lookups
  {
  }
}
