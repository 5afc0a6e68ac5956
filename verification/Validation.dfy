/** Checking a shard against the stored xorbs before it may enter the index. */
module Validation {
  import opened Bytes
  import opened Primitives
  import opened NodeText
  import opened Merkle
  import opened XorbVerify
  import opened ShardFormat
  import opened ShardParser
  import opened Planner
  import opened Reconstruction
  import opened Index

  type Xorbs = map<Hash, Bytes>

  // ----- xorb entries -----

  predicate ChunkMatches(e: XorbChunk, c: ChunkInfo) {
    e.chunkHash == c.hash && e.byteStart == c.start && e.unpackedBytes == c.unpackedLen
  }

  predicate ChunksMatch(s: Shard, start: nat, info: XorbInfo, n: nat)
    requires n <= |info.chunks| && start + n <= |s.xorbChunks|
  {
    forall k | 0 <= k < n :: ChunkMatches(s.xorbChunks[start + k], info.chunks[k])
  }

  /** What a shard says about a xorb is what the verified xorb reports. */
  predicate EntryMatches(s: Shard, i: nat, info: XorbInfo)
    requires i < |s.xorbHeaders| && XorbStart(s, i + 1) <= |s.xorbChunks|
  {
    var h := s.xorbHeaders[i];
    && info.xorbHash == h.xorbHash && |info.chunks| == h.numEntries
    && info.totalUnpacked == h.bytesInXorb && info.totalCompressed == h.bytesOnDisk
    && ChunksMatch(s, XorbStart(s, i), info, |info.chunks|)
  }

  /** The stored xorb, verified. */
  function Verified(env: Env, xorbs: Xorbs, h: Hash): Result<XorbInfo> {
    if h in xorbs then VerifyFile(env, xorbs[h]) else Err
  }

  predicate XorbValid(env: Env, xorbs: Xorbs, s: Shard, i: nat)
    requires i < |s.xorbHeaders|
  {
    && XorbStart(s, i + 1) <= |s.xorbChunks|
    && Verified(env, xorbs, s.xorbHeaders[i].xorbHash).Ok?
    && EntryMatches(s, i, Verified(env, xorbs, s.xorbHeaders[i].xorbHash).value)
  }

  predicate XorbsValid(env: Env, xorbs: Xorbs, s: Shard, n: nat)
    requires n <= |s.xorbHeaders|
  {
    XorbsUsable(s, n) && forall i | 0 <= i < n :: XorbValid(env, xorbs, s, i)
  }

  // ----- files and chunk mappings -----

  function FileResult(env: Env, xorbs: Xorbs, s: Shard, k: nat): Rebuilt
    requires k < |s.fileHeaders|
  {
    RebuildFromShard(env, s, xorbs, s.fileHeaders[k].fileHash, k)
  }

  predicate FilesValid(env: Env, xorbs: Xorbs, s: Shard, n: nat)
    requires n <= |s.fileHeaders|
  {
    forall k | 0 <= k < n :: FileResult(env, xorbs, s, k).Rebuilt?
  }

  function MappingOf(env: Env, xorbs: Xorbs, s: Shard, k: nat): FileMapping
    requires k < |s.fileHeaders| && FileResult(env, xorbs, s, k).Rebuilt?
  {
    FileMapping(s.fileHeaders[k].fileHash, k, |FileResult(env, xorbs, s, k).bytes|)
  }

  function FileMappings(env: Env, xorbs: Xorbs, s: Shard, n: nat): (files: seq<FileMapping>)
    requires n <= |s.fileHeaders| && FilesValid(env, xorbs, s, n)
    ensures |files| == n
  {
    seq(n, k requires 0 <= k < n => MappingOf(env, xorbs, s, k))
  }

  function PlanKey(p: PlannedChunk): (Hash, u32) { (p.xorbHash, p.chunkIndex) }

  function PlanKeys(chunks: seq<PlannedChunk>): set<(Hash, u32)> { set p | p in chunks :: PlanKey(p) }

  function FilePlan(s: Shard, k: nat): Result<PlannedFile>
    requires k < |s.fileHeaders|
  {
    Plan(s, s.fileHeaders[k].fileHash, Some(k))
  }

  function FileKeys(s: Shard, k: nat): set<(Hash, u32)>
    requires k < |s.fileHeaders|
  {
    match FilePlan(s, k) case Err => {} case Ok(plan) => PlanKeys(plan.chunks)
  }

  /** The chunks used by the first `n` files. */
  function UsedChunks(s: Shard, n: nat): set<(Hash, u32)>
    requires n <= |s.fileHeaders|
  {
    if n == 0 then {} else UsedChunks(s, n - 1) + FileKeys(s, n - 1)
  }

  /** Only lookups of chunks that some file uses, and so were checked, are kept. */
  function KeptLookups(lookups: seq<Lookup>, used: set<(Hash, u32)>): seq<ChunkMapping> {
    if lookups == [] then []
    else
      var l, front := lookups[|lookups| - 1], KeptLookups(lookups[..|lookups| - 1], used);
      if Key(l) in used then front + [ChunkMapping(l.chunkHash, l.xorbHash, l.chunkIndex)] else front
  }

  predicate Validates(env: Env, s: Shard, xorbs: Xorbs) {
    && XorbsValid(env, xorbs, s, |s.xorbHeaders|) && XorbStart(s, |s.xorbHeaders|) == |s.xorbChunks|
    && FilesValid(env, xorbs, s, |s.fileHeaders|)
  }

  /** A shard is accepted exactly when its xorb entries are true and every declared file rebuilds. */
  function Validate(env: Env, shardId: Hash, s: Shard, xorbs: Xorbs): Result<Registration> {
    if Validates(env, s, xorbs) then
      Ok(Registration(shardId, FileMappings(env, xorbs, s, |s.fileHeaders|),
                      KeptLookups(s.lookups, UsedChunks(s, |s.fileHeaders|))))
    else Err
  }

  // ----- soundness -----

  /** The mapping points at a chunk of a verified xorb whose raw hash is the key. */
  ghost predicate PointsAtItsChunk(env: Env, xorbs: Xorbs, c: ChunkMapping) {
    var info := Verified(env, xorbs, c.xorbHash);
    && info.Ok? && c.chunkIndex < |info.value.chunks|
    && var chunk := info.value.chunks[c.chunkIndex];
       var bytes := Extract(env, xorbs[c.xorbHash], chunk.start, chunk.unpackedLen, chunk.hash);
       bytes.Ok? && env.DataHash(bytes.value) == c.chunkHash
  }

  lemma {:induction false} KeptIsUsed(lookups: seq<Lookup>, used: set<(Hash, u32)>, c: ChunkMapping)
    requires c in KeptLookups(lookups, used)
    ensures Lookup(c.chunkHash, c.xorbHash, c.chunkIndex) in lookups && (c.xorbHash, c.chunkIndex) in used
  {
    var l, front := lookups[|lookups| - 1], lookups[..|lookups| - 1];
    if c in KeptLookups(front, used) {
      KeptIsUsed(front, used, c);
    }
  }

  lemma {:induction false} UsedByFile(s: Shard, n: nat, key: (Hash, u32)) returns (k: nat, j: nat)
    requires n <= |s.fileHeaders| && key in UsedChunks(s, n)
    ensures k < n && FilePlan(s, k).Ok? && j < |FilePlan(s, k).value.chunks|
            && PlanKey(FilePlan(s, k).value.chunks[j]) == key
  {
    hide FilePlan;
    if key in UsedChunks(s, n - 1) {
      k, j := UsedByFile(s, n - 1, key);
    } else {
      k := n - 1;
      var p :| p in FilePlan(s, k).value.chunks && PlanKey(p) == key;
      j :| 0 <= j < |FilePlan(s, k).value.chunks| && FilePlan(s, k).value.chunks[j] == p;
    }
  }

  lemma {:induction false} FetchedEach(env: Env, xorbs: Xorbs, chunks: seq<PlannedChunk>, j: nat)
    requires FetchAll(env, xorbs, chunks).Got? && j < |chunks|
    ensures FetchChunk(env, xorbs, chunks[j]).Got?
  {
    hide FetchChunk;
    if j > 0 {
      FetchedEach(env, xorbs, chunks[1..], j - 1);
    }
  }

  /** A planned chunk is taken from its segment's range. */
  ghost predicate FromTables(t: Tables, p: PlannedChunk) {
    && p.xorbHash in t.ranges && p.chunkIndex < t.ranges[p.xorbHash].1
    && t.ranges[p.xorbHash].0 + t.ranges[p.xorbHash].1 <= |t.chunks|
    && (p.xorbHash, p.chunkIndex) in t.raw && p.rawHash == t.raw[(p.xorbHash, p.chunkIndex)]
    && var e := t.chunks[t.ranges[p.xorbHash].0 + p.chunkIndex];
       p.byteStart == e.byteStart && p.unpackedBytes == e.unpackedBytes && p.serializedHash == e.chunkHash
  }

  lemma SegmentFromTables(t: Tables, seg: Segment, j: nat)
    requires SegmentPlannable(t, seg) && j < seg.chunkEnd - seg.chunkStart
    ensures FromTables(t, SegmentPlan(t, seg, seg.chunkEnd)[j])
  {
    assert ChunkPlannable(t, seg, seg.chunkStart + j);
    assert SegmentPlan(t, seg, seg.chunkEnd)[j] == ChunkPlan(t, seg, seg.chunkStart + j);
  }

  lemma {:induction false} PlannedFromTables(t: Tables, segs: seq<Segment>, j: nat)
    requires SegmentsOk(t, segs) && j < |PlanOf(t, segs)|
    ensures FromTables(t, PlanOf(t, segs)[j])
  {
    hide FromTables, SegmentPlan, UnpackedTotal;
    if segs != [] {
      assert SegmentOk(t, segs[0]);
      assert forall i | 0 <= i < |segs[1..]| :: segs[1..][i] == segs[i + 1];
      var first := |SegmentPlan(t, segs[0], segs[0].chunkEnd)|;
      if j < first {
        SegmentFromTables(t, segs[0], j);
      } else {
        PlannedFromTables(t, segs[1..], j - first);
      }
    }
  }

  lemma PlanIsFromTables(s: Shard, k: nat, j: nat)
    requires k < |s.fileHeaders| && FilePlan(s, k).Ok? && j < |FilePlan(s, k).value.chunks|
    ensures FromTables(TablesOf(s), FilePlan(s, k).value.chunks[j])
    ensures XorbsUsable(s, |s.xorbHeaders|) && LookupsUsable(s, |s.lookups|)
  {
    hide FromTables, SegmentsOk, PlanOf, XorbsUsable, LookupsUsable, TablesOf;
    PlannedFromTables(TablesOf(s), FileSegments(s, k), j);
  }

  lemma RangeOfXorb(s: Shard, h: Hash) returns (i: nat)
    requires XorbsUsable(s, |s.xorbHeaders|) && h in TablesOf(s).ranges
    ensures i < |s.xorbHeaders| && s.xorbHeaders[i].xorbHash == h
    ensures TablesOf(s).ranges[h] == (XorbStart(s, i), s.xorbHeaders[i].numEntries)
  {
    hide XorbRanges, XorbStart, RawHashes;
    XorbRangesMeaning(s, |s.xorbHeaders|);
    i :| 0 <= i < |s.xorbHeaders| && s.xorbHeaders[i].xorbHash == h;
  }

  /** A planned chunk of a validated shard is the chunk its verified xorb reports at that index. */
  ghost predicate IsReported(env: Env, xorbs: Xorbs, p: PlannedChunk) {
    var info := Verified(env, xorbs, p.xorbHash);
    && info.Ok? && p.chunkIndex < |info.value.chunks|
    && var chunk := info.value.chunks[p.chunkIndex];
       p.byteStart == chunk.start && p.unpackedBytes == chunk.unpackedLen && p.serializedHash == chunk.hash
  }

  lemma TableChunkReported(env: Env, xorbs: Xorbs, s: Shard, p: PlannedChunk)
    requires XorbsValid(env, xorbs, s, |s.xorbHeaders|) && FromTables(TablesOf(s), p)
    ensures IsReported(env, xorbs, p)
  {
    hide XorbRanges, XorbStart, RawHashes, Verified, XorbsUsable;
    var i := RangeOfXorb(s, p.xorbHash);
    assert XorbValid(env, xorbs, s, i);
    var info := Verified(env, xorbs, p.xorbHash).value;
    assert ChunkMatches(s.xorbChunks[XorbStart(s, i) + p.chunkIndex], info.chunks[p.chunkIndex]);
  }

  lemma PlannedIsReported(env: Env, xorbs: Xorbs, s: Shard, k: nat, j: nat)
    requires XorbsValid(env, xorbs, s, |s.xorbHeaders|)
    requires k < |s.fileHeaders| && FilePlan(s, k).Ok? && j < |FilePlan(s, k).value.chunks|
    ensures IsReported(env, xorbs, FilePlan(s, k).value.chunks[j])
  {
    hide FromTables, IsReported, FilePlan, XorbsValid, TablesOf;
    PlanIsFromTables(s, k, j);
    TableChunkReported(env, xorbs, s, FilePlan(s, k).value.chunks[j]);
  }

  /** The lookup of a planned chunk names its raw hash. */
  lemma LookupIsRawHash(s: Shard, l: Lookup, p: PlannedChunk)
    requires LookupsUsable(s, |s.lookups|) && FromTables(TablesOf(s), p) && l in s.lookups && Key(l) == PlanKey(p)
    ensures p.rawHash == l.chunkHash
  {
    hide XorbRanges, RawHashes, LookupsUsable;
    RawHashesMeaning(s, |s.lookups|);
    var i :| 0 <= i < |s.lookups| && s.lookups[i] == l;
  }

  /** Every registered chunk mapping points at a chunk whose raw hash is the key. */
  lemma RegisteredChunksAreSound(env: Env, shardId: Hash, s: Shard, xorbs: Xorbs, c: ChunkMapping)
    requires Validate(env, shardId, s, xorbs).Ok? && c in Validate(env, shardId, s, xorbs).value.chunks
    ensures PointsAtItsChunk(env, xorbs, c)
  {
    hide FromTables, FilePlan, XorbsValid, TablesOf, UsedChunks, KeptLookups, XorbStart, FileMappings, LookupsUsable,
         XorbsUsable;
    KeptIsUsed(s.lookups, UsedChunks(s, |s.fileHeaders|), c);
    var k, j := UsedByFile(s, |s.fileHeaders|, (c.xorbHash, c.chunkIndex));
    var p := FilePlan(s, k).value.chunks[j];
    PlannedIsReported(env, xorbs, s, k, j);
    PlanIsFromTables(s, k, j);
    LookupIsRawHash(s, Lookup(c.chunkHash, c.xorbHash, c.chunkIndex), p);
    assert FileResult(env, xorbs, s, k).Rebuilt?;
    RebuiltChunkFetched(env, xorbs, s, k, j);
    ReportedChunkPoints(env, xorbs, p, c);
  }

  lemma RebuiltChunkFetched(env: Env, xorbs: Xorbs, s: Shard, k: nat, j: nat)
    requires k < |s.fileHeaders| && FileResult(env, xorbs, s, k).Rebuilt?
    requires FilePlan(s, k).Ok? && j < |FilePlan(s, k).value.chunks|
    ensures FetchChunk(env, xorbs, FilePlan(s, k).value.chunks[j]).Got?
  {
    hide Plan, FetchAll, FetchChunk, HashAccepted;
    FetchedEach(env, xorbs, FilePlan(s, k).value.chunks, j);
  }

  lemma ReportedChunkPoints(env: Env, xorbs: Xorbs, p: PlannedChunk, c: ChunkMapping)
    requires IsReported(env, xorbs, p) && FetchChunk(env, xorbs, p).Got?
    requires p.xorbHash == c.xorbHash && p.chunkIndex == c.chunkIndex && p.rawHash == c.chunkHash
    ensures PointsAtItsChunk(env, xorbs, c)
  {
    hide Extract, VerifyFile;
  }

  /** Rebuilding through the reference gives bytes of the registered size with an accepted hash form. */
  ghost predicate RebuildsAsRegistered(env: Env, st: Storage, reg: Registration, f: FileMapping) {
    var r := RebuildRef(env, st, f.fileHash, RefOf(reg, f));
    r.Rebuilt? && |r.bytes| == f.fileSize && Genuine(env, f.fileHash, r.bytes)
  }

  /** Every declared file is registered, and rebuilds as registered while the shard and the xorbs stay stored. */
  lemma RegisteredFilesAreSound(env: Env, st: Storage, reg: Registration, s: Shard, xorbs: Xorbs, k: nat)
    requires Validate(env, reg.shardId, s, xorbs) == Ok(reg) && k < |s.fileHeaders|
    requires reg.shardId in st.shards && Parse(st.shards[reg.shardId]) == Ok(s)
    requires forall h | h in xorbs :: h in st.xorbs && st.xorbs[h] == xorbs[h]
    ensures |reg.files| == |s.fileHeaders|
    ensures reg.files[k].fileHash == s.fileHeaders[k].fileHash && reg.files[k].fileIndex == k
    ensures RebuildsAsRegistered(env, st, reg, reg.files[k])
  {
    hide Parse, RebuildFromShard, HashAccepted, XorbsValid, KeptLookups, UsedChunks, XorbStart, Flatten;
    var h := s.fileHeaders[k].fileHash;
    assert FileResult(env, xorbs, s, k).Rebuilt?;
    RebuildStable(env, s, xorbs, st.xorbs, h, k);
    RebuiltIsGenuine(env, s, xorbs, h, k);
  }

  // ----- validation does not notice xorbs that are added -----

  lemma ValidateStable(env: Env, shardId: Hash, s: Shard, xorbs: Xorbs, more: Xorbs)
    requires Validate(env, shardId, s, xorbs).Ok?
    requires forall h | h in xorbs :: h in more && more[h] == xorbs[h]
    ensures Validate(env, shardId, s, more) == Validate(env, shardId, s, xorbs)
  {
    hide RebuildFromShard, EntryMatches, XorbsUsable, KeptLookups, UsedChunks, XorbStart, VerifyFile;
    forall i | 0 <= i < |s.xorbHeaders|
      ensures XorbValid(env, more, s, i)
    {
      assert XorbValid(env, xorbs, s, i);
    }
    forall k | 0 <= k < |s.fileHeaders|
      ensures FileResult(env, more, s, k) == FileResult(env, xorbs, s, k) && FileResult(env, more, s, k).Rebuilt?
    {
      assert FileResult(env, xorbs, s, k).Rebuilt?;
      RebuildStable(env, s, xorbs, more, s.fileHeaders[k].fileHash, k);
    }
    assert FileMappings(env, more, s, |s.fileHeaders|) == FileMappings(env, xorbs, s, |s.fileHeaders|);
  }

  // ----- the validation loops -----

  /** The verified xorbs of the first `n` entries, by hash. */
  ghost predicate Collects(env: Env, xorbs: Xorbs, s: Shard, n: nat, infos: map<Hash, XorbInfo>)
    requires n <= |s.xorbHeaders|
  {
    && (forall h :: h in infos <==> exists i :: 0 <= i < n && s.xorbHeaders[i].xorbHash == h)
    && (forall h | h in infos :: Verified(env, xorbs, h) == Ok(infos[h]))
  }

  lemma NothingCollectedYet(env: Env, xorbs: Xorbs, s: Shard)
    ensures XorbsValid(env, xorbs, s, 0) && Collects(env, xorbs, s, 0, map[])
  {
  }

  lemma XorbsValidStep(env: Env, xorbs: Xorbs, s: Shard, n: nat, infos: map<Hash, XorbInfo>)
    requires n < |s.xorbHeaders| && XorbsValid(env, xorbs, s, n) && Collects(env, xorbs, s, n, infos)
    ensures var h := s.xorbHeaders[n].xorbHash;
            var fits := h !in infos && XorbValid(env, xorbs, s, n);
            && (fits ==> XorbsValid(env, xorbs, s, n + 1))
            && (fits ==> Collects(env, xorbs, s, n + 1, infos[h := Verified(env, xorbs, h).value]))
            && (!fits ==> !XorbsValid(env, xorbs, s, |s.xorbHeaders|))
  {
    hide XorbStart, EntryMatches, Verified;
    var h := s.xorbHeaders[n].xorbHash;
    if h in infos {
      var i :| 0 <= i < n && s.xorbHeaders[i].xorbHash == h;
    } else if XorbValid(env, xorbs, s, n) {
      CollectsStep(env, xorbs, s, n, infos);
    }
  }

  lemma CollectsStep(env: Env, xorbs: Xorbs, s: Shard, n: nat, infos: map<Hash, XorbInfo>)
    requires n < |s.xorbHeaders| && Collects(env, xorbs, s, n, infos)
    requires Verified(env, xorbs, s.xorbHeaders[n].xorbHash).Ok?
    ensures Collects(env, xorbs, s, n + 1,
                     infos[s.xorbHeaders[n].xorbHash := Verified(env, xorbs, s.xorbHeaders[n].xorbHash).value])
  {
    hide Verified;
  }

  method ValidateXorbs(env: Env, s: Shard, xorbs: Xorbs) returns (r: Result<map<Hash, XorbInfo>>)
    ensures r.Ok? <==> XorbsValid(env, xorbs, s, |s.xorbHeaders|) && XorbStart(s, |s.xorbHeaders|) == |s.xorbChunks|
    ensures r.Ok? ==> Collects(env, xorbs, s, |s.xorbHeaders|, r.value)
  {
    hide XorbsValid, XorbValid, Collects, Verified;
    var infos: map<Hash, XorbInfo>, offset: nat := map[], 0;
    NothingCollectedYet(env, xorbs, s);
    for i := 0 to |s.xorbHeaders|
      invariant offset == XorbStart(s, i)
      invariant XorbsValid(env, xorbs, s, i) && Collects(env, xorbs, s, i, infos)
    {
      XorbsValidStep(env, xorbs, s, i, infos);
      if s.xorbHeaders[i].xorbHash in infos {
        return Err;
      }
      var info := ValidateXorb(env, s, xorbs, i, offset);
      if info.Err? {
        return Err;
      }
      infos := infos[s.xorbHeaders[i].xorbHash := info.value];
      offset := offset + s.xorbHeaders[i].numEntries;
    }
    if offset != |s.xorbChunks| {
      return Err;
    }
    r := Ok(infos);
  }

  method ValidateXorb(env: Env, s: Shard, xorbs: Xorbs, i: nat, offset: nat) returns (r: Result<XorbInfo>)
    requires i < |s.xorbHeaders| && offset == XorbStart(s, i)
    ensures r.Ok? <==> XorbValid(env, xorbs, s, i)
    ensures r.Ok? ==> Verified(env, xorbs, s.xorbHeaders[i].xorbHash) == r
  {
    hide VerifyFile, ChunkMatches;
    var h := s.xorbHeaders[i];
    if offset + h.numEntries > |s.xorbChunks| || h.xorbHash !in xorbs {
      return Err;
    }
    var info := VerifyXorbFile(env, xorbs[h.xorbHash]);
    if info.Err? {
      return Err;
    }
    var x := info.value;
    if x.xorbHash != h.xorbHash || h.numEntries != |x.chunks| || h.bytesInXorb != x.totalUnpacked
        || h.bytesOnDisk != x.totalCompressed {
      return Err;
    }
    for k := 0 to |x.chunks|
      invariant ChunksMatch(s, offset, x, k)
    {
      if !ChunkMatches(s.xorbChunks[offset + k], x.chunks[k]) {
        return Err;
      }
    }
    r := info;
  }

  /** The outcome of one file: its bytes and the chunks it uses. */
  method ValidateFile(env: Env, s: Shard, xorbs: Xorbs, infos: map<Hash, XorbInfo>, k: nat)
    returns (r: Result<(nat, set<(Hash, u32)>)>)
    requires k < |s.fileHeaders| && XorbsValid(env, xorbs, s, |s.xorbHeaders|)
             && Collects(env, xorbs, s, |s.xorbHeaders|, infos)
    ensures r.Ok? <==> FileResult(env, xorbs, s, k).Rebuilt?
    ensures r.Ok? ==> r.value == (|FileResult(env, xorbs, s, k).bytes|, FileKeys(s, k))
  {
    hide Plan, FetchAll, Flatten, RawNodes, FileHash, XorbsValid, Collects, PlanKeys;
    var target := s.fileHeaders[k].fileHash;
    var plan := BuildFileChunkPlan(s, target, Some(k));
    if plan.Err? {
      return Err;
    }
    var got, output, nodes, keys := CheckChunks(env, s, xorbs, infos, k, plan.value.chunks);
    if !got.Got? {
      return Err;
    }
    if target != env.Sha256(output) && target != env.DataHash(output) && target != FileHash(env, nodes) {
      return Err;
    }
    r := Ok((|output|, keys));
  }

  /** Whether the chunk belongs to a verified xorb and lies inside it; on a validated shard it always does. */
  predicate InVerifiedXorb(infos: map<Hash, XorbInfo>, p: PlannedChunk) {
    p.xorbHash in infos && p.chunkIndex < |infos[p.xorbHash].chunks|
  }

  lemma AlwaysInVerifiedXorb(env: Env, s: Shard, xorbs: Xorbs, infos: map<Hash, XorbInfo>, k: nat, j: nat)
    requires XorbsValid(env, xorbs, s, |s.xorbHeaders|) && Collects(env, xorbs, s, |s.xorbHeaders|, infos)
    requires k < |s.fileHeaders| && FilePlan(s, k).Ok? && j < |FilePlan(s, k).value.chunks|
    ensures InVerifiedXorb(infos, FilePlan(s, k).value.chunks[j])
  {
    hide FilePlan, XorbsValid, TablesOf, Verified, XorbsUsable;
    PlannedIsReported(env, xorbs, s, k, j);
    PlanIsFromTables(s, k, j);
    var i := RangeOfXorb(s, FilePlan(s, k).value.chunks[j].xorbHash);
  }

  /** Chunks are extracted and hashed in order; size, leaves and used chunks grow together. */
  method CheckChunks(env: Env, s: Shard, xorbs: Xorbs, infos: map<Hash, XorbInfo>, k: nat, chunks: seq<PlannedChunk>)
    returns (r: Fetched<seq<Bytes>>, output: Bytes, nodes: seq<Node>, keys: set<(Hash, u32)>)
    requires XorbsValid(env, xorbs, s, |s.xorbHeaders|) && Collects(env, xorbs, s, |s.xorbHeaders|, infos)
    requires k < |s.fileHeaders| && FilePlan(s, k).Ok? && chunks == FilePlan(s, k).value.chunks
    ensures r == FetchAll(env, xorbs, chunks)
    ensures r.Got? ==> output == Flatten(r.value) && nodes == RawNodes(env, r.value) && keys == PlanKeys(chunks)
  {
    hide FilePlan, FetchAll, FetchChunk, Flatten, RawNodes, XorbsValid, Collects, InVerifiedXorb, PlanKeys;
    output, nodes, keys := [], [], {};
    var raws: seq<Bytes> := [];
    NothingFetched(env, xorbs, chunks);
    NoPlanKeys(chunks);
    for i := 0 to |chunks|
      invariant FetchAll(env, xorbs, chunks) == AfterFetch(raws, FetchAll(env, xorbs, chunks[i..]))
      invariant output == Flatten(raws) && nodes == RawNodes(env, raws)
      invariant keys == PlanKeys(chunks[..i])
    {
      FetchStep(env, xorbs, chunks, i, raws);
      AlwaysInVerifiedXorb(env, s, xorbs, infos, k, i);
      if !InVerifiedXorb(infos, chunks[i]) {
        assert false;
      }
      var got := FetchChunk(env, xorbs, chunks[i]);
      if !got.Got? {
        return if got.Missing? then Missing else Bad, output, nodes, keys;
      }
      FlattenSnoc(raws, got.value);
      RawNodesSnoc(env, raws, got.value);
      PlanKeysStep(chunks, i);
      raws := raws + [got.value];
      output := output + got.value;
      nodes := nodes + [Node(env.DataHash(got.value), |got.value|)];
      keys := keys + {PlanKey(chunks[i])};
    }
    FetchedAll(env, xorbs, chunks, raws);
    r := Got(raws);
  }

  lemma NoPlanKeys(chunks: seq<PlannedChunk>)
    ensures PlanKeys(chunks[..0]) == {} && chunks[..|chunks|] == chunks
  {
  }

  lemma PlanKeysStep(chunks: seq<PlannedChunk>, i: nat)
    requires i < |chunks|
    ensures PlanKeys(chunks[..i + 1]) == PlanKeys(chunks[..i]) + {PlanKey(chunks[i])}
  {
    assert chunks[..i + 1] == chunks[..i] + [chunks[i]];
  }

  method FilterLookups(lookups: seq<Lookup>, used: set<(Hash, u32)>) returns (kept: seq<ChunkMapping>)
    ensures kept == KeptLookups(lookups, used)
  {
    kept := [];
    for i := 0 to |lookups|
      invariant kept == KeptLookups(lookups[..i], used)
    {
      var l := lookups[i];
      assert lookups[..i + 1][..i] == lookups[..i];
      if Key(l) in used {
        kept := kept + [ChunkMapping(l.chunkHash, l.xorbHash, l.chunkIndex)];
      }
    }
    assert lookups[..|lookups|] == lookups;
  }

  lemma FilesStep(env: Env, xorbs: Xorbs, s: Shard, n: nat)
    requires n < |s.fileHeaders| && FilesValid(env, xorbs, s, n)
    ensures var fits := FileResult(env, xorbs, s, n).Rebuilt?;
            && (fits ==> FilesValid(env, xorbs, s, n + 1))
            && (fits ==>
                  FileMappings(env, xorbs, s, n + 1) == FileMappings(env, xorbs, s, n) + [MappingOf(env, xorbs, s, n)])
            && (!fits ==> !FilesValid(env, xorbs, s, |s.fileHeaders|))
  {
    hide FileResult;
  }

  lemma NoFiles(env: Env, xorbs: Xorbs, s: Shard)
    ensures FilesValid(env, xorbs, s, 0) && FileMappings(env, xorbs, s, 0) == []
  {
  }

  method ValidateShardForIndex(env: Env, shardId: Hash, s: Shard, xorbs: Xorbs) returns (r: Result<Registration>)
    ensures r == Validate(env, shardId, s, xorbs)
  {
    hide XorbsValid, Collects, FilesValid, FileResult, FileMappings, KeptLookups, XorbStart, FileKeys;
    var infos := ValidateXorbs(env, s, xorbs);
    if infos.Err? {
      return Err;
    }
    var files, used := [], {};
    NoFiles(env, xorbs, s);
    for k := 0 to |s.fileHeaders|
      invariant FilesValid(env, xorbs, s, k) && files == FileMappings(env, xorbs, s, k)
      invariant used == UsedChunks(s, k)
    {
      FilesStep(env, xorbs, s, k);
      var file := ValidateFile(env, s, xorbs, infos.value, k);
      if file.Err? {
        return Err;
      }
      files := files + [FileMapping(s.fileHeaders[k].fileHash, k, file.value.0)];
      used := used + file.value.1;
    }
    var chunks := FilterLookups(s.lookups, used);
    r := Ok(Registration(shardId, files, chunks));
  }
}
