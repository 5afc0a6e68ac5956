/** Exactly when a chunk is extracted and a file rebuilt, and how the failures differ. */
module RebuildMeaning {
  import opened Bytes
  import opened Primitives
  import opened NodeText
  import opened Merkle
  import opened Compression
  import opened XorbFormat
  import opened ShardParser
  import opened Planner
  import opened Reconstruction

  // ----- one chunk -----

  /** The number in three bytes. */
  function Three(b: Bytes, at: nat): nat
    requires at + 3 <= |b|
  {
    b[at] as nat + 0x100 * (b[at + 1] as nat) + 0x1_0000 * (b[at + 2] as nat)
  }

  function SchemeAt(b: byte): Scheme { if b == 0 then Plain else if b == 1 then Scheme.Lz4 else ByteGrouping4Lz4 }

  /**
   * At `offset` lies a header that announces `c` compressed and `len` uncompressed bytes, within the reader's limits.
   */
  predicate HeaderFits(file: Bytes, offset: nat, len: nat, c: nat) {
    && offset + 8 + c <= |file| && file[offset + 4] <= 2
    && Three(file, offset + 1) == c && Three(file, offset + 5) == len
    && len <= 131072 && c <= (if file[offset + 4] == 0 then len else len + len / 255 + 20)
  }

  /** Header and payload have the expected hash, and the payload unpacks to `out`. */
  ghost predicate ChunkIsThere(env: Env, file: Bytes, offset: nat, len: nat, hash: Hash, c: nat, out: Bytes) {
    && HeaderFits(file, offset, len, c)
    && env.dataDigest(file[offset..offset + 8 + c]) == hash
    && Decompress(env, SchemeAt(file[offset + 4]), file[offset + 8..offset + 8 + c], len) == Ok(out)
  }

  lemma HeaderAtOffset(file: Bytes, offset: nat)
    requires offset + 8 <= |file|
    ensures var h := ParseHeader(file[offset..offset + 8]);
            && (h.Ok? <==> file[offset + 4] <= 2)
            && (h.Ok? ==> && h.value.compressedLen == Three(file, offset + 1)
                          && h.value.scheme == SchemeAt(file[offset + 4])
                          && h.value.uncompressedLen == Three(file, offset + 5))
  {
    hide ParseHeader;
    HeaderRead(file[offset..offset + 8]);
  }

  /** A chunk is extracted exactly when it is there, whole, with the expected hash and length. */
  lemma ExtractExact(env: Env, file: Bytes, offset: nat, len: nat, hash: Hash, out: Bytes)
    ensures Extract(env, file, offset, len, hash) == Ok(out)
            <==> exists c: nat :: ChunkIsThere(env, file, offset, len, hash, c, out)
  {
    hide ParseHeader, Decompress, Three;
    if offset + 8 <= |file| {
      HeaderAtOffset(file, offset);
      var c := Three(file, offset + 1);
      if offset + 8 + c <= |file| {
        SliceJoin(file, offset, offset + 8, offset + 8 + c);
      }
      if Extract(env, file, offset, len, hash) == Ok(out) {
        assert ChunkIsThere(env, file, offset, len, hash, c, out);
      }
    }
  }

  /** The chunk comes from the planned xorb, and has the planned raw hash. */
  ghost predicate FetchedAs(env: Env, xorbs: map<Hash, Bytes>, p: PlannedChunk, out: Bytes) {
    && p.xorbHash in xorbs && env.dataDigest(out) == p.rawHash
    && exists c: nat :: ChunkIsThere(env, xorbs[p.xorbHash], p.byteStart, p.unpackedBytes, p.serializedHash, c, out)
  }

  /** A chunk is fetched exactly so; a missing xorb is told apart from everything else that is wrong. */
  lemma FetchExact(env: Env, xorbs: map<Hash, Bytes>, p: PlannedChunk, out: Bytes)
    ensures FetchChunk(env, xorbs, p) == Got(out) <==> FetchedAs(env, xorbs, p, out)
    ensures FetchChunk(env, xorbs, p) == Missing <==> p.xorbHash !in xorbs
  {
    hide Extract, ChunkIsThere;
    if p.xorbHash in xorbs {
      ExtractExact(env, xorbs[p.xorbHash], p.byteStart, p.unpackedBytes, p.serializedHash, out);
    }
  }

  lemma {:induction false} FetchAllExact(env: Env, xorbs: map<Hash, Bytes>, chunks: seq<PlannedChunk>, raws: seq<Bytes>)
    ensures FetchAll(env, xorbs, chunks) == Got(raws)
       <==> |raws| == |chunks| && forall i | 0 <= i < |chunks| :: FetchedAs(env, xorbs, chunks[i], raws[i])
  {
    hide FetchChunk, FetchedAs;
    if chunks != [] && raws != [] {
      FetchAllExact(env, xorbs, chunks[1..], raws[1..]);
      FetchExact(env, xorbs, chunks[0], raws[0]);
      assert raws == [raws[0]] + raws[1..];
      if |raws| == |chunks| && forall i | 0 <= i < |chunks| :: FetchedAs(env, xorbs, chunks[i], raws[i]) {
        forall i | 0 <= i < |chunks[1..]|
          ensures FetchedAs(env, xorbs, chunks[1..][i], raws[1..][i])
        {
          assert FetchedAs(env, xorbs, chunks[i + 1], raws[i + 1]);
        }
      }
      if FetchAll(env, xorbs, chunks) == Got(raws) {
        forall i | 0 <= i < |chunks|
          ensures FetchedAs(env, xorbs, chunks[i], raws[i])
        {
          if i > 0 {
            assert FetchedAs(env, xorbs, chunks[1..][i - 1], raws[1..][i - 1]);
          }
        }
      }
    }
  }

  // ----- one file -----

  /** The leaves of the chunks, in order: their raw hashes and lengths. */
  function RawLeaves(env: Env, raws: seq<Bytes>): (leaves: seq<Node>)
    ensures |leaves| == |raws|
  {
    seq(|raws|, i requires 0 <= i < |raws| => Node(env.dataDigest(raws[i]), |raws[i]|))
  }

  /** The Xet file hash: the hash of the top of the Merkle tree over the chunks, keyed with zero. */
  ghost function XetHash(env: Env, raws: seq<Bytes>): Hash {
    if raws == [] then ZERO_HASH
    else
      var leaves := RawLeaves(env, raws);
      UpNonEmpty(env, leaves, Depth(env, leaves));
      env.keyedDigest(ZERO_HASH, Up(env, leaves, Depth(env, leaves))[0].hash)
  }

  ghost predicate HasForm(env: Env, target: Hash, raws: seq<Bytes>) {
    target == env.shaDigest(Flatten(raws)) || target == env.dataDigest(Flatten(raws)) || target == XetHash(env, raws)
  }

  /** The three accepted forms: SHA-256, keyed BLAKE3 and the Xet file hash. */
  lemma AcceptedForms(env: Env, target: Hash, raws: seq<Bytes>)
    ensures HashAccepted(env, target, raws) <==> HasForm(env, target, raws)
  {
    hide Flatten, FileHash, Up, Depth;
    assert RawNodes(env, raws) == RawLeaves(env, raws);
    FileHashIsKeyedTop(env, RawLeaves(env, raws));
  }

  /** `raws` are the planned chunks, and together have an accepted hash. */
  ghost predicate RebuildsFrom(env: Env, s: Shard, xorbs: map<Hash, Bytes>, target: Hash, k: nat, raws: seq<Bytes>) {
    && Plan(s, target, Some(k)).Ok?
    && var chunks := Plan(s, target, Some(k)).value.chunks;
       && |raws| == |chunks| && (forall i | 0 <= i < |chunks| :: FetchedAs(env, xorbs, chunks[i], raws[i]))
       && HasForm(env, target, raws)
  }

  /** A file is rebuilt exactly to the concatenation of such chunks. */
  lemma RebuildExact(env: Env, s: Shard, xorbs: map<Hash, Bytes>, target: Hash, k: nat, out: Bytes)
    ensures RebuildFromShard(env, s, xorbs, target, k) == Rebuilt(out)
       <==> exists raws: seq<Bytes> :: RebuildsFrom(env, s, xorbs, target, k, raws) && out == Flatten(raws)
  {
    hide Plan, FetchAll, HashAccepted, HasForm, FetchedAs, Flatten;
    if Plan(s, target, Some(k)).Ok? {
      var chunks := Plan(s, target, Some(k)).value.chunks;
      forall raws: seq<Bytes>
        ensures FetchAll(env, xorbs, chunks) == Got(raws) && HashAccepted(env, target, raws)
           <==> RebuildsFrom(env, s, xorbs, target, k, raws)
      {
        FetchAllExact(env, xorbs, chunks, raws);
        AcceptedForms(env, target, raws);
      }
    }
  }

  // ----- missing or damaged -----

  /** Chunk `i` is the first that is not fetched. */
  ghost predicate StopsAt(env: Env, xorbs: map<Hash, Bytes>, chunks: seq<PlannedChunk>, i: nat) {
    && i < |chunks| && (forall j | 0 <= j < i :: exists out :: FetchedAs(env, xorbs, chunks[j], out))
    && forall out :: !FetchedAs(env, xorbs, chunks[i], out)
  }

  lemma GotExactly(env: Env, xorbs: map<Hash, Bytes>, p: PlannedChunk)
    ensures FetchChunk(env, xorbs, p).Got? <==> exists out :: FetchedAs(env, xorbs, p, out)
    ensures FetchChunk(env, xorbs, p).Missing? <==> p.xorbHash !in xorbs
  {
    hide FetchChunk, FetchedAs;
    FetchExact(env, xorbs, p, []);
    if FetchChunk(env, xorbs, p).Got? {
      FetchExact(env, xorbs, p, FetchChunk(env, xorbs, p).value);
    }
    forall out | FetchedAs(env, xorbs, p, out)
      ensures FetchChunk(env, xorbs, p).Got?
    {
      FetchExact(env, xorbs, p, out);
    }
  }

  lemma {:induction false} FirstTrouble(env: Env, xorbs: map<Hash, Bytes>, chunks: seq<PlannedChunk>, i: nat)
    requires i < |chunks| && (forall j | 0 <= j < i :: FetchChunk(env, xorbs, chunks[j]).Got?)
    requires !FetchChunk(env, xorbs, chunks[i]).Got?
    ensures FetchAll(env, xorbs, chunks) == if FetchChunk(env, xorbs, chunks[i]).Missing? then Missing else Bad
  {
    hide FetchChunk;
    if i > 0 {
      FirstTrouble(env, xorbs, chunks[1..], i - 1);
    }
  }

  /**
   * The first chunk that cannot be fetched decides: if its xorb is missing the reference is stale, if the xorb is there
   * but the chunk is damaged the reference has failed.
   */
  lemma MissingOrDamaged(env: Env, s: Shard, xorbs: map<Hash, Bytes>, target: Hash, k: nat, i: nat)
    requires Plan(s, target, Some(k)).Ok? && StopsAt(env, xorbs, Plan(s, target, Some(k)).value.chunks, i)
    ensures RebuildFromShard(env, s, xorbs, target, k) ==
            if Plan(s, target, Some(k)).value.chunks[i].xorbHash in xorbs then Failed else Stale
  {
    hide Plan, FetchAll, FetchChunk, HashAccepted, FetchedAs;
    var chunks := Plan(s, target, Some(k)).value.chunks;
    forall j | 0 <= j <= i
      ensures FetchChunk(env, xorbs, chunks[j]).Got? <==> exists out :: FetchedAs(env, xorbs, chunks[j], out)
      ensures FetchChunk(env, xorbs, chunks[j]).Missing? <==> chunks[j].xorbHash !in xorbs
    {
      GotExactly(env, xorbs, chunks[j]);
    }
    FirstTrouble(env, xorbs, chunks, i);
  }

  /** A missing shard is stale; one that does not parse or plan, or whose chunks have no accepted hash, has failed. */
  lemma ShardTrouble(env: Env, st: Storage, target: Hash, ref: FileRef)
    ensures ref.shardId !in st.shards ==> RebuildRef(env, st, target, ref) == Stale
    ensures ref.shardId in st.shards && Parse(st.shards[ref.shardId]).Err? ==>
            RebuildRef(env, st, target, ref) == Failed
    ensures ref.shardId in st.shards && Parse(st.shards[ref.shardId]).Ok?
            && Plan(Parse(st.shards[ref.shardId]).value, target, Some(ref.fileIndex)).Err? ==>
              RebuildRef(env, st, target, ref) == Failed
  {
    hide Parse, Plan, FetchAll, HashAccepted;
  }

  lemma WrongHashFails(env: Env, s: Shard, xorbs: map<Hash, Bytes>, target: Hash, k: nat, raws: seq<Bytes>)
    requires Plan(s, target, Some(k)).Ok? && |raws| == |Plan(s, target, Some(k)).value.chunks|
    requires forall i | 0 <= i < |raws| :: FetchedAs(env, xorbs, Plan(s, target, Some(k)).value.chunks[i], raws[i])
    requires !HasForm(env, target, raws)
    ensures RebuildFromShard(env, s, xorbs, target, k) == Failed
  {
    hide Plan, FetchAll, HashAccepted, HasForm, FetchedAs;
    FetchAllExact(env, xorbs, Plan(s, target, Some(k)).value.chunks, raws);
    AcceptedForms(env, target, raws);
  }

  // ----- all references -----

  /** The first reference that works gives the bytes. */
  lemma {:induction false} FirstWorkingWins(env: Env, st: Storage, target: Hash, refs: seq<FileRef>, i: nat)
    requires i < |refs| && RebuildRef(env, st, target, refs[i]).Rebuilt?
    requires forall j | 0 <= j < i :: !RebuildRef(env, st, target, refs[j]).Rebuilt?
    ensures RebuildFile(env, st, target, refs) == RebuildRef(env, st, target, refs[i])
  {
    hide RebuildRef;
    if i > 0 {
      FirstWorkingWins(env, st, target, refs[1..], i - 1);
    }
  }

  /** If none works, the answer is a failure when some reference failed, and staleness when all are stale. */
  lemma {:induction false} NoneWorks(env: Env, st: Storage, target: Hash, refs: seq<FileRef>)
    requires forall j | 0 <= j < |refs| :: !RebuildRef(env, st, target, refs[j]).Rebuilt?
    ensures RebuildFile(env, st, target, refs) ==
            if forall j | 0 <= j < |refs| :: RebuildRef(env, st, target, refs[j]).Stale? then Stale else Failed
  {
    hide RebuildRef;
    if refs != [] {
      forall j | 0 <= j < |refs[1..]|
        ensures !RebuildRef(env, st, target, refs[1..][j]).Rebuilt?
      {
        assert refs[1..][j] == refs[j + 1];
      }
      NoneWorks(env, st, target, refs[1..]);
      assert forall j | 0 < j < |refs| :: refs[j] == refs[1..][j - 1];
    }
  }
}
