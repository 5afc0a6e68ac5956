/** Reading verified chunks out of stored xorbs and rebuilding files from them. */
module Reconstruction {
  import opened Bytes
  import opened Primitives
  import opened NodeText
  import opened Merkle
  import opened Compression
  import opened XorbFormat
  import opened ShardParser
  import opened Planner

  const MAX_CHUNK_SIZE: nat := 64 * 1024 * 2

  /** Storage: raw blobs, xorbs and shards, each under the hash in its key. */
  datatype Storage = Storage(raw: map<Hash, Bytes>, xorbs: map<Hash, Bytes>, shards: map<Hash, Bytes>)

  datatype FileRef = FileRef(shardId: Hash, fileIndex: nat, fileSize: nat)

  // ----- one chunk -----

  /** Header and payload at `offset` are checked against the expected length and hash before decompression. */
  function Extract(env: Env, file: Bytes, offset: nat, expectedLen: nat, expectedHash: Hash): Result<Bytes> {
    var body := offset + XorbFormat.HEADER_SIZE;
    if body > |file| then Err else
    var h :- ParseHeader(file[offset..body]);
    if expectedLen > MAX_CHUNK_SIZE || h.uncompressedLen != expectedLen then Err
    else if h.compressedLen > MaxCompressedLen(h.scheme, expectedLen) || body + h.compressedLen > |file| then Err
    else if env.DataHash(file[offset..body] + file[body..body + h.compressedLen]) != expectedHash then Err
    else Decompress(env, h.scheme, file[body..body + h.compressedLen], h.uncompressedLen)
  }

  lemma ExtractedLength(env: Env, file: Bytes, offset: nat, expectedLen: nat, expectedHash: Hash)
    requires Extract(env, file, offset, expectedLen, expectedHash).Ok?
    ensures |Extract(env, file, offset, expectedLen, expectedHash).value| == expectedLen
  {
    hide ParseHeader, Decompress;
    var body := offset + XorbFormat.HEADER_SIZE;
    var h := ParseHeader(file[offset..body]).value;
    DecompressedSize(env, h.scheme, file[body..body + h.compressedLen], h.uncompressedLen);
  }

  datatype Fetched<+T> = Got(value: T) | Missing | Bad

  /** A planned chunk, from the stored xorbs; its raw hash must be the planned one. */
  function FetchChunk(env: Env, xorbs: map<Hash, Bytes>, p: PlannedChunk): Fetched<Bytes> {
    if p.xorbHash !in xorbs then Missing
    else match Extract(env, xorbs[p.xorbHash], p.byteStart, p.unpackedBytes, p.serializedHash)
      case Err => Bad
      case Ok(bytes) => if env.DataHash(bytes) != p.rawHash then Bad else Got(bytes)
  }

  function FetchAll(env: Env, xorbs: map<Hash, Bytes>, chunks: seq<PlannedChunk>): Fetched<seq<Bytes>> {
    if chunks == [] then Got([])
    else match FetchChunk(env, xorbs, chunks[0])
      case Missing => Missing
      case Bad => Bad
      case Got(bytes) =>
        match FetchAll(env, xorbs, chunks[1..])
        case Missing => Missing
        case Bad => Bad
        case Got(rest) => Got([bytes] + rest)
  }

  function RawNodes(env: Env, raws: seq<Bytes>): (nodes: seq<Node>)
    ensures |nodes| == |raws|
  {
    seq(|raws|, i requires 0 <= i < |raws| => Node(env.DataHash(raws[i]), |raws[i]|))
  }

  /** The accepted whole-file hash forms: SHA-256, keyed BLAKE3, or the Merkle file hash of the raw chunks. */
  predicate HashAccepted(env: Env, target: Hash, raws: seq<Bytes>) {
    || target == env.Sha256(Flatten(raws))
    || target == env.DataHash(Flatten(raws))
    || target == FileHash(env, RawNodes(env, raws))
  }

  /** The bytes are the chunks of a file with an accepted hash form of the target. */
  ghost predicate Genuine(env: Env, target: Hash, bytes: Bytes) {
    exists raws: seq<Bytes> :: HashAccepted(env, target, raws) && bytes == Flatten(raws)
  }

  // ----- one file through one reference -----

  datatype Rebuilt = Rebuilt(bytes: Bytes) | Stale | Failed

  /** The planned chunks of one file of a parsed shard, fetched and checked against the whole-file hash. */
  function RebuildFromShard(env: Env, s: Shard, xorbs: map<Hash, Bytes>, target: Hash, fileIndex: nat): Rebuilt {
    match Plan(s, target, Some(fileIndex))
    case Err => Failed
    case Ok(plan) =>
      match FetchAll(env, xorbs, plan.chunks)
      case Missing => Stale
      case Bad => Failed
      case Got(raws) => if HashAccepted(env, target, raws) then Rebuilt(Flatten(raws)) else Failed
  }

  function RebuildRef(env: Env, st: Storage, target: Hash, ref: FileRef): Rebuilt {
    if ref.shardId !in st.shards then Stale
    else match Parse(st.shards[ref.shardId])
      case Err => Failed
      case Ok(s) => RebuildFromShard(env, s, st.xorbs, target, ref.fileIndex)
  }

  /** The first reference that works, else the first error that is not staleness. */
  function RebuildFile(env: Env, st: Storage, target: Hash, refs: seq<FileRef>): Rebuilt {
    if refs == [] then Stale
    else
      var first := RebuildRef(env, st, target, refs[0]);
      if first.Rebuilt? then first
      else
        var rest := RebuildFile(env, st, target, refs[1..]);
        if rest.Rebuilt? || first.Stale? then rest else first
  }

  /** A file is served exactly when some reference works, and then the bytes are those of a working reference. */
  lemma {:induction false} ServedIffSomeRefWorks(env: Env, st: Storage, target: Hash, refs: seq<FileRef>)
    ensures RebuildFile(env, st, target, refs).Rebuilt?
            <==> exists r :: r in refs && RebuildRef(env, st, target, r).Rebuilt?
    ensures RebuildFile(env, st, target, refs).Rebuilt? ==>
              exists r :: r in refs && RebuildRef(env, st, target, r) == RebuildFile(env, st, target, refs)
  {
    hide RebuildRef;
    if refs != [] {
      ServedIffSomeRefWorks(env, st, target, refs[1..]);
      assert refs[0] in refs && forall r :: r in refs[1..] ==> r in refs;
      assert forall r :: r in refs ==> r == refs[0] || r in refs[1..];
    }
  }

  /** Whatever is rebuilt has one of the accepted hashes of the target. */
  lemma RebuiltIsGenuine(env: Env, s: Shard, xorbs: map<Hash, Bytes>, target: Hash, fileIndex: nat)
    requires RebuildFromShard(env, s, xorbs, target, fileIndex).Rebuilt?
    ensures Genuine(env, target, RebuildFromShard(env, s, xorbs, target, fileIndex).bytes)
  {
    hide Plan, FetchAll, HashAccepted;
    var raws := FetchAll(env, xorbs, Plan(s, target, Some(fileIndex)).value.chunks).value;
    assert HashAccepted(env, target, raws);
  }

  /** Every fetched chunk has its planned length. */
  lemma {:induction false} FetchedLength(env: Env, xorbs: map<Hash, Bytes>, chunks: seq<PlannedChunk>)
    requires FetchAll(env, xorbs, chunks).Got?
    ensures |Flatten(FetchAll(env, xorbs, chunks).value)| == UnpackedTotal(chunks)
  {
    hide Extract;
    if chunks != [] {
      var p, raws := chunks[0], FetchAll(env, xorbs, chunks).value;
      FetchedLength(env, xorbs, chunks[1..]);
      ExtractedLength(env, xorbs[p.xorbHash], p.byteStart, p.unpackedBytes, p.serializedHash);
      assert raws[1..] == FetchAll(env, xorbs, chunks[1..]).value;
    }
  }

  /** A rebuilt file has exactly the size its segments declare. */
  lemma RebuiltLength(env: Env, s: Shard, xorbs: map<Hash, Bytes>, target: Hash, fileIndex: nat)
    requires RebuildFromShard(env, s, xorbs, target, fileIndex).Rebuilt?
    ensures fileIndex < |s.fileHeaders| && FileStart(s, fileIndex + 1) <= |s.segments|
    ensures |RebuildFromShard(env, s, xorbs, target, fileIndex).bytes| == DeclaredTotal(FileSegments(s, fileIndex))
  {
    hide FetchAll, HashAccepted, SegmentsOk, PlanOf, XorbsUsable, LookupsUsable, TablesOf;
    FetchedLength(env, xorbs, Plan(s, target, Some(fileIndex)).value.chunks);
    PlanTotal(TablesOf(s), FileSegments(s, fileIndex));
  }

  /** Rebuilding only looks at the xorbs it needs: it is unaffected by xorbs that are added. */
  lemma {:induction false} FetchAllStable(env: Env, xorbs: map<Hash, Bytes>, more: map<Hash, Bytes>,
                                          chunks: seq<PlannedChunk>)
    requires forall h | h in xorbs :: h in more && more[h] == xorbs[h]
    requires FetchAll(env, xorbs, chunks).Got?
    ensures FetchAll(env, more, chunks) == FetchAll(env, xorbs, chunks)
  {
    hide Extract;
    if chunks != [] {
      FetchAllStable(env, xorbs, more, chunks[1..]);
    }
  }

  lemma RebuildStable(env: Env, s: Shard, xorbs: map<Hash, Bytes>, more: map<Hash, Bytes>, target: Hash, fileIndex: nat)
    requires forall h | h in xorbs :: h in more && more[h] == xorbs[h]
    requires RebuildFromShard(env, s, xorbs, target, fileIndex).Rebuilt?
    ensures RebuildFromShard(env, s, more, target, fileIndex) == RebuildFromShard(env, s, xorbs, target, fileIndex)
  {
    hide Plan, FetchAll, HashAccepted;
    FetchAllStable(env, xorbs, more, Plan(s, target, Some(fileIndex)).value.chunks);
  }

  // ----- the reconstruction loops -----

  /** Chunks are fetched in order; output, sizes and leaves grow together. */
  method FetchChunks(env: Env, xorbs: map<Hash, Bytes>, chunks: seq<PlannedChunk>)
    returns (r: Fetched<seq<Bytes>>, output: Bytes, nodes: seq<Node>)
    ensures r == FetchAll(env, xorbs, chunks)
    ensures r.Got? ==> output == Flatten(r.value) && nodes == RawNodes(env, r.value)
  {
    hide FetchChunk, FetchAll, Flatten, RawNodes;
    output, nodes := [], [];
    var raws: seq<Bytes> := [];
    NothingFetched(env, xorbs, chunks);
    for i := 0 to |chunks|
      invariant FetchAll(env, xorbs, chunks) == AfterFetch(raws, FetchAll(env, xorbs, chunks[i..]))
      invariant output == Flatten(raws) && nodes == RawNodes(env, raws)
    {
      FetchStep(env, xorbs, chunks, i, raws);
      var got := FetchChunk(env, xorbs, chunks[i]);
      if got.Missing? {
        return Missing, output, nodes;
      }
      if got.Bad? {
        return Bad, output, nodes;
      }
      FlattenSnoc(raws, got.value);
      RawNodesSnoc(env, raws, got.value);
      raws := raws + [got.value];
      output := output + got.value;
      nodes := nodes + [Node(env.DataHash(got.value), |got.value|)];
    }
    FetchedAll(env, xorbs, chunks, raws);
    r := Got(raws);
  }

  function AfterFetch(raws: seq<Bytes>, r: Fetched<seq<Bytes>>): Fetched<seq<Bytes>> {
    match r case Missing => Missing case Bad => Bad case Got(rest) => Got(raws + rest)
  }

  lemma NothingFetched(env: Env, xorbs: map<Hash, Bytes>, chunks: seq<PlannedChunk>)
    ensures chunks[0..] == chunks
    ensures AfterFetch([], FetchAll(env, xorbs, chunks)) == FetchAll(env, xorbs, chunks)
    ensures Flatten<byte>([]) == [] && RawNodes(env, []) == []
  {
    if FetchAll(env, xorbs, chunks).Got? {
      assert [] + FetchAll(env, xorbs, chunks).value == FetchAll(env, xorbs, chunks).value;
    }
  }

  lemma FetchStep(env: Env, xorbs: map<Hash, Bytes>, chunks: seq<PlannedChunk>, i: nat, raws: seq<Bytes>)
    requires i < |chunks|
    ensures var got := FetchChunk(env, xorbs, chunks[i]);
            var all := AfterFetch(raws, FetchAll(env, xorbs, chunks[i..]));
            && (got.Missing? ==> all == Missing)
            && (got.Bad? ==> all == Bad)
            && (got.Got? ==> all == AfterFetch(raws + [got.value], FetchAll(env, xorbs, chunks[i + 1..])))
  {
    hide FetchChunk;
    assert chunks[i..][0] == chunks[i] && chunks[i..][1..] == chunks[i + 1..];
    var got, rest := FetchChunk(env, xorbs, chunks[i]), FetchAll(env, xorbs, chunks[i + 1..]);
    if got.Got? && rest.Got? {
      Assoc(raws, [got.value], rest.value);
    }
  }

  lemma FetchedAll(env: Env, xorbs: map<Hash, Bytes>, chunks: seq<PlannedChunk>, raws: seq<Bytes>)
    ensures AfterFetch(raws, FetchAll(env, xorbs, chunks[|chunks|..])) == Got(raws)
  {
    assert raws + [] == raws;
  }

  lemma RawNodesSnoc(env: Env, raws: seq<Bytes>, raw: Bytes)
    ensures RawNodes(env, raws + [raw]) == RawNodes(env, raws) + [Node(env.DataHash(raw), |raw|)]
  {
  }

  method ReconstructRef(env: Env, st: Storage, target: Hash, ref: FileRef) returns (r: Rebuilt)
    ensures r == RebuildRef(env, st, target, ref)
  {
    hide Parse, Plan, FetchAll, Flatten, RawNodes, FileHash;
    if ref.shardId !in st.shards {
      return Stale;
    }
    var parsed := ParseShard(st.shards[ref.shardId]);
    if parsed.Err? {
      return Failed;
    }
    var plan := BuildFileChunkPlan(parsed.value, target, Some(ref.fileIndex));
    if plan.Err? {
      return Failed;
    }
    var got, output, nodes := FetchChunks(env, st.xorbs, plan.value.chunks);
    if got.Missing? {
      return Stale;
    }
    if got.Bad? {
      return Failed;
    }
    if target != env.Sha256(output) && target != env.DataHash(output) && target != FileHash(env, nodes) {
      return Failed;
    }
    r := Rebuilt(output);
  }

  method ReconstructFile(env: Env, st: Storage, target: Hash, refs: seq<FileRef>) returns (r: Rebuilt)
    ensures r == RebuildFile(env, st, target, refs)
  {
    hide RebuildRef;
    var firstError := Stale;
    assert refs[0..] == refs;
    for i := 0 to |refs|
      invariant !firstError.Rebuilt?
      invariant RebuildFile(env, st, target, refs) ==
                var rest := RebuildFile(env, st, target, refs[i..]);
                if rest.Rebuilt? || firstError.Stale? then rest else firstError
    {
      assert refs[i..][0] == refs[i] && refs[i..][1..] == refs[i + 1..];
      var attempt := ReconstructRef(env, st, target, refs[i]);
      if attempt.Rebuilt? {
        return attempt;
      }
      if attempt.Failed? && firstError.Stale? {
        firstError := attempt;
      }
    }
    r := firstError;
  }
}
