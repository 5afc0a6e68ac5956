/** Exactly which shards pass validation, and exactly what is then registered. */
module ValidationMeaning {
  import opened Bytes
  import opened Primitives
  import opened Merkle
  import opened XorbFormat
  import opened XorbVerify
  import opened XorbAcceptance
  import opened ShardFormat
  import opened ShardParser
  import opened Planner
  import PlanMeaning
  import opened RebuildMeaning
  import opened Reconstruction
  import opened Index
  import opened Validation

  // ----- which lookups are registered -----

  /** File `k` is made of chunks among which is chunk `index` of the xorb. */
  ghost predicate Uses(s: Shard, k: nat, xorbHash: Hash, index: u32) {
    && k < |s.fileHeaders| && Plan(s, s.fileHeaders[k].fileHash, Some(k)).Ok?
    && var chunks := Plan(s, s.fileHeaders[k].fileHash, Some(k)).value.chunks;
       exists j :: 0 <= j < |chunks| && chunks[j].xorbHash == xorbHash && chunks[j].chunkIndex == index
  }

  /** Some file uses the chunk. */
  ghost predicate Used(s: Shard, xorbHash: Hash, index: u32) { exists k: nat :: Uses(s, k, xorbHash, index) }

  lemma FileKeysExactly(s: Shard, k: nat, xorbHash: Hash, index: u32)
    requires k < |s.fileHeaders|
    ensures (xorbHash, index) in FileKeys(s, k) <==> Uses(s, k, xorbHash, index)
  {
    hide Plan;
    if (xorbHash, index) in FileKeys(s, k) {
      var chunks := FilePlan(s, k).value.chunks;
      var p :| p in chunks && PlanKey(p) == (xorbHash, index);
      var j :| 0 <= j < |chunks| && chunks[j] == p;
    }
    if Uses(s, k, xorbHash, index) {
      var chunks := FilePlan(s, k).value.chunks;
      var j :| 0 <= j < |chunks| && chunks[j].xorbHash == xorbHash && chunks[j].chunkIndex == index;
      assert chunks[j] in chunks && PlanKey(chunks[j]) == (xorbHash, index);
    }
  }

  lemma {:induction false} UsedUpTo(s: Shard, n: nat, xorbHash: Hash, index: u32)
    requires n <= |s.fileHeaders|
    ensures (xorbHash, index) in UsedChunks(s, n) <==> exists k: nat :: k < n && Uses(s, k, xorbHash, index)
  {
    hide FileKeys, Uses;
    if n > 0 {
      UsedUpTo(s, n - 1, xorbHash, index);
      FileKeysExactly(s, n - 1, xorbHash, index);
    }
  }

  lemma UsedExactly(s: Shard, xorbHash: Hash, index: u32)
    ensures (xorbHash, index) in UsedChunks(s, |s.fileHeaders|) <==> Used(s, xorbHash, index)
  {
    UsedUpTo(s, |s.fileHeaders|, xorbHash, index);
    hide Plan;
  }

  function MappingFor(l: Lookup): ChunkMapping { ChunkMapping(l.chunkHash, l.xorbHash, l.chunkIndex) }

  /** `at` lists, in ascending order, exactly the positions of the lookups whose key is used. */
  ghost predicate Selects(lookups: seq<Lookup>, used: set<(Hash, u32)>, at: seq<nat>) {
    && (forall i, j | 0 <= i < j < |at| :: at[i] < at[j])
    && (forall i | 0 <= i < |at| :: at[i] < |lookups|)
    && (forall m: nat | m < |lookups| :: m in at <==> Key(lookups[m]) in used)
  }

  lemma {:induction false} KeptAreSelected(lookups: seq<Lookup>, used: set<(Hash, u32)>) returns (at: seq<nat>)
    ensures Selects(lookups, used, at) && |at| == |KeptLookups(lookups, used)|
    ensures forall i | 0 <= i < |at| :: KeptLookups(lookups, used)[i] == MappingFor(lookups[at[i]])
  {
    at := [];
    if lookups != [] {
      var n := |lookups| - 1;
      var before := KeptAreSelected(lookups[..n], used);
      at := if Key(lookups[n]) in used then before + [n] else before;
      SelectsSnoc(lookups, used, before, at);
    }
  }

  lemma SelectsSnoc(lookups: seq<Lookup>, used: set<(Hash, u32)>, before: seq<nat>, at: seq<nat>)
    requires lookups != [] && Selects(lookups[..|lookups| - 1], used, before)
    requires at == if Key(lookups[|lookups| - 1]) in used then before + [|lookups| - 1] else before
    ensures Selects(lookups, used, at)
  {
    hide Key;
    var n := |lookups| - 1;
    forall m: nat | m < |lookups|
      ensures m in at <==> Key(lookups[m]) in used
    {
      if m < n {
        assert lookups[..n][m] == lookups[m];
        assert m in at <==> m in before;
      } else {
        assert n !in before;
      }
    }
  }

  /**
   * The registered mappings are those of exactly the lookups whose chunk some file uses, in table order, each as often
   * as it is in the table.
   */
  lemma RegisteredLookups(env: Env, shardId: Hash, s: Shard, xorbs: Xorbs) returns (at: seq<nat>)
    requires Validate(env, shardId, s, xorbs).Ok?
    ensures var chunks := Validate(env, shardId, s, xorbs).value.chunks;
            && |at| == |chunks|
            && (forall i, j | 0 <= i < j < |at| :: at[i] < at[j])
            && (forall i | 0 <= i < |at| :: at[i] < |s.lookups| && chunks[i] == MappingFor(s.lookups[at[i]]))
            && (forall m: nat | m < |s.lookups| :: m in at <==> Used(s, s.lookups[m].xorbHash, s.lookups[m].chunkIndex))
  {
    hide Validates, FileMappings, KeptLookups, UsedChunks, Used;
    at := KeptAreSelected(s.lookups, UsedChunks(s, |s.fileHeaders|));
    forall m: nat | m < |s.lookups|
      ensures m in at <==> Used(s, s.lookups[m].xorbHash, s.lookups[m].chunkIndex)
    {
      UsedExactly(s, s.lookups[m].xorbHash, s.lookups[m].chunkIndex);
      assert Key(s.lookups[m]) == (s.lookups[m].xorbHash, s.lookups[m].chunkIndex);
    }
  }

  /** So every lookup of every chunk of every file is registered. */
  lemma EveryUsedLookupIsRegistered(env: Env, shardId: Hash, s: Shard, xorbs: Xorbs, k: nat, j: nat, m: nat)
    requires Validate(env, shardId, s, xorbs).Ok? && k < |s.fileHeaders| && m < |s.lookups|
    requires Plan(s, s.fileHeaders[k].fileHash, Some(k)).Ok?
    requires j < |Plan(s, s.fileHeaders[k].fileHash, Some(k)).value.chunks|
    requires var p := Plan(s, s.fileHeaders[k].fileHash, Some(k)).value.chunks[j];
             p.xorbHash == s.lookups[m].xorbHash && p.chunkIndex == s.lookups[m].chunkIndex
    ensures MappingFor(s.lookups[m]) in Validate(env, shardId, s, xorbs).value.chunks
  {
    hide Validate, Plan;
    var at := RegisteredLookups(env, shardId, s, xorbs);
    assert Uses(s, k, s.lookups[m].xorbHash, s.lookups[m].chunkIndex);
    var i :| 0 <= i < |at| && at[i] == m;
  }

  // ----- which shards pass -----

  function UnpackedLenOf(c: ChunkInfo): nat { c.unpackedLen }

  function CompressedLenOf(c: ChunkInfo): nat { c.compressedLen }

  function Total(chunks: seq<ChunkInfo>, len: ChunkInfo -> nat): nat {
    if chunks == [] then 0 else len(chunks[0]) + Total(chunks[1..], len)
  }

  lemma {:induction false} TotalIsSum(chunks: seq<ChunkInfo>, len: ChunkInfo -> nat, lens: seq<nat>)
    requires |lens| == |chunks| && forall i | 0 <= i < |lens| :: lens[i] == len(chunks[i])
    ensures Total(chunks, len) == Sum(lens)
  {
    if chunks != [] {
      TotalIsSum(chunks[1..], len, lens[1..]);
    }
  }

  /** The totals of a report are the sums over its chunks. */
  lemma ReportedTotals(env: Env, data: Bytes)
    requires VerifyFile(env, data).Ok?
    ensures var info := VerifyFile(env, data).value;
            && info.totalUnpacked == Total(info.chunks, UnpackedLenOf)
            && info.totalCompressed == Total(info.chunks, CompressedLenOf)
  {
    hide VerifyFile, Sum, Comprises;
    var info := VerifyFile(env, data).value;
    FileVerifierExact(env, data, info);
    TotalsOfReport(env, data, info);
  }

  lemma TotalsOfReport(env: Env, data: Bytes, info: XorbInfo)
    requires Accounts(env, data, info)
    ensures info.totalUnpacked == Total(info.chunks, UnpackedLenOf)
    ensures info.totalCompressed == Total(info.chunks, CompressedLenOf)
  {
    hide Flatten, FooterBytes, Root, Framed, Sum, DeclaredLen, PayloadLen, Total, IdentAt;
    var f: Footer, regions: seq<Bytes> :| Comprises(env, data, f, regions) && info == Report(f, regions);
    ComprisedFacts(env, data, f, regions);
    TotalIsSum(info.chunks, UnpackedLenOf, DeclaredLens(regions));
    TotalIsSum(info.chunks, CompressedLenOf, PayloadLens(regions));
  }

  /** What entry `c` of xorb `i` says about the verified chunk. */
  ghost predicate SaysTruth(s: Shard, i: nat, c: nat, info: XorbInfo) {
    && PlanMeaning.EntryExists(s, i, c) && c < |info.chunks|
    && var e := PlanMeaning.EntryOf(s, i, c);
       e.chunkHash == info.chunks[c].hash && e.byteStart == info.chunks[c].start
           && e.unpackedBytes == info.chunks[c].unpackedLen
  }

  /** Xorb `i` is stored and verifies, and its header and all its entries are true of it. */
  ghost predicate DescribesStored(env: Env, xorbs: Xorbs, s: Shard, i: nat, info: XorbInfo) {
    && i < |s.xorbHeaders| && s.xorbHeaders[i].xorbHash in xorbs
    && VerifyFile(env, xorbs[s.xorbHeaders[i].xorbHash]) == Ok(info)
    && info.xorbHash == s.xorbHeaders[i].xorbHash
    && s.xorbHeaders[i].numEntries == |info.chunks|
    && s.xorbHeaders[i].bytesInXorb == Total(info.chunks, UnpackedLenOf)
    && s.xorbHeaders[i].bytesOnDisk == Total(info.chunks, CompressedLenOf)
    && forall c: nat | c < |info.chunks| :: SaysTruth(s, i, c, info)
  }

  ghost predicate StoredAsSaid(env: Env, xorbs: Xorbs, s: Shard, i: nat) {
    exists info :: DescribesStored(env, xorbs, s, i, info)
  }

  lemma StartSum(s: Shard, i: nat)
    requires i < |s.xorbHeaders|
    ensures XorbStart(s, i) == Sum(PlanMeaning.ChunkCounts(s)[..i])
    ensures XorbStart(s, i + 1) == XorbStart(s, i) + s.xorbHeaders[i].numEntries
  {
    hide Sum;
    PlanMeaning.XorbStartIsSum(s, i);
  }

  lemma XorbValidExactly(env: Env, xorbs: Xorbs, s: Shard, i: nat)
    requires i < |s.xorbHeaders| && XorbStart(s, i + 1) <= |s.xorbChunks|
    ensures XorbValid(env, xorbs, s, i) <==> StoredAsSaid(env, xorbs, s, i)
  {
    hide VerifyFile, Sum, XorbStart, Total;
    StartSum(s, i);
    if Verified(env, xorbs, s.xorbHeaders[i].xorbHash).Ok? {
      var info := Verified(env, xorbs, s.xorbHeaders[i].xorbHash).value;
      ReportedTotals(env, xorbs[s.xorbHeaders[i].xorbHash]);
      if |info.chunks| == s.xorbHeaders[i].numEntries {
        EntriesExactly(s, i, info);
      }
      if XorbValid(env, xorbs, s, i) {
        assert DescribesStored(env, xorbs, s, i, info);
      }
    }
  }

  lemma EntriesExactly(s: Shard, i: nat, info: XorbInfo)
    requires i < |s.xorbHeaders| && XorbStart(s, i + 1) <= |s.xorbChunks|
             && |info.chunks| == s.xorbHeaders[i].numEntries
    requires XorbStart(s, i) == Sum(PlanMeaning.ChunkCounts(s)[..i])
    requires XorbStart(s, i + 1) == XorbStart(s, i) + s.xorbHeaders[i].numEntries
    ensures ChunksMatch(s, XorbStart(s, i), info, |info.chunks|)
       <==> forall c: nat | c < |info.chunks| :: SaysTruth(s, i, c, info)
  {
    hide XorbStart, Sum;
    if ChunksMatch(s, XorbStart(s, i), info, |info.chunks|) {
      forall c: nat | c < |info.chunks|
        ensures SaysTruth(s, i, c, info)
      {
        assert ChunkMatches(s.xorbChunks[XorbStart(s, i) + c], info.chunks[c]);
      }
    }
    if forall c: nat | c < |info.chunks| :: SaysTruth(s, i, c, info) {
      forall c: nat | c < |info.chunks|
        ensures ChunkMatches(s.xorbChunks[XorbStart(s, i) + c], info.chunks[c])
      {
        assert SaysTruth(s, i, c, info);
      }
    }
  }

  /** File `k` rebuilds from the stored xorbs. */
  ghost predicate FileRebuildsFrom(env: Env, xorbs: Xorbs, s: Shard, k: nat, raws: seq<Bytes>) {
    k < |s.fileHeaders| && RebuildsFrom(env, s, xorbs, s.fileHeaders[k].fileHash, k, raws)
  }

  ghost predicate Rebuildable(env: Env, xorbs: Xorbs, s: Shard, k: nat) {
    exists raws :: FileRebuildsFrom(env, xorbs, s, k, raws)
  }

  /** What makes a shard pass: no xorb twice, no entry left over, every entry true, every file rebuilds. */
  ghost predicate IsTrue(env: Env, s: Shard, xorbs: Xorbs) {
    && (forall i, j | 0 <= i < j < |s.xorbHeaders| :: s.xorbHeaders[i].xorbHash != s.xorbHeaders[j].xorbHash)
    && Sum(PlanMeaning.ChunkCounts(s)) == |s.xorbChunks|
    && (forall i: nat | i < |s.xorbHeaders| :: StoredAsSaid(env, xorbs, s, i))
    && (forall k: nat | k < |s.fileHeaders| :: Rebuildable(env, xorbs, s, k))
  }

  lemma FileResultExactly(env: Env, xorbs: Xorbs, s: Shard, k: nat)
    requires k < |s.fileHeaders|
    ensures FileResult(env, xorbs, s, k).Rebuilt? <==> Rebuildable(env, xorbs, s, k)
    ensures forall raws | FileRebuildsFrom(env, xorbs, s, k, raws) ::
              FileResult(env, xorbs, s, k) == Rebuilt(Flatten(raws))
  {
    hide RebuildFromShard, RebuildsFrom, Flatten;
    var h := s.fileHeaders[k].fileHash;
    if FileResult(env, xorbs, s, k).Rebuilt? {
      RebuildExact(env, s, xorbs, h, k, FileResult(env, xorbs, s, k).bytes);
      var raws: seq<Bytes> :| RebuildsFrom(env, s, xorbs, h, k, raws)
          && FileResult(env, xorbs, s, k).bytes == Flatten(raws);
      assert FileRebuildsFrom(env, xorbs, s, k, raws);
    }
    forall raws | FileRebuildsFrom(env, xorbs, s, k, raws)
      ensures FileResult(env, xorbs, s, k) == Rebuilt(Flatten(raws))
    {
      RebuildExact(env, s, xorbs, h, k, Flatten(raws));
    }
  }

  lemma XorbsValidExactly(env: Env, xorbs: Xorbs, s: Shard)
    ensures XorbsValid(env, xorbs, s, |s.xorbHeaders|) && XorbStart(s, |s.xorbHeaders|) == |s.xorbChunks|
       <==> && (forall i, j | 0 <= i < j < |s.xorbHeaders| :: s.xorbHeaders[i].xorbHash != s.xorbHeaders[j].xorbHash)
            && Sum(PlanMeaning.ChunkCounts(s)) == |s.xorbChunks|
            && (forall i: nat | i < |s.xorbHeaders| :: StoredAsSaid(env, xorbs, s, i))
  {
    hide XorbStart, Sum, XorbValid, StoredAsSaid;
    PlanMeaning.XorbStartIsSum(s, |s.xorbHeaders|);
    PlanMeaning.SumOfNone(PlanMeaning.ChunkCounts(s));
    if XorbStart(s, |s.xorbHeaders|) <= |s.xorbChunks| {
      forall i: nat | i < |s.xorbHeaders|
        ensures XorbValid(env, xorbs, s, i) <==> StoredAsSaid(env, xorbs, s, i)
      {
        XorbStartMonotone(s, i + 1, |s.xorbHeaders|);
        XorbValidExactly(env, xorbs, s, i);
      }
    }
  }

  /** A shard passes validation exactly when it is true. */
  lemma ValidatesExactly(env: Env, shardId: Hash, s: Shard, xorbs: Xorbs)
    ensures Validate(env, shardId, s, xorbs).Ok? <==> IsTrue(env, s, xorbs)
  {
    hide XorbsValid, XorbStart, Sum, StoredAsSaid, FileResult, Rebuildable, FileMappings, KeptLookups, UsedChunks;
    XorbsValidExactly(env, xorbs, s);
    forall k: nat | k < |s.fileHeaders|
      ensures FileResult(env, xorbs, s, k).Rebuilt? <==> Rebuildable(env, xorbs, s, k)
    {
      FileResultExactly(env, xorbs, s, k);
    }
  }

  /** Then it registers every declared file, in order, with the size of its rebuilt bytes. */
  lemma RegisteredFiles(env: Env, shardId: Hash, s: Shard, xorbs: Xorbs, k: nat, raws: seq<Bytes>)
    requires Validate(env, shardId, s, xorbs).Ok? && FileRebuildsFrom(env, xorbs, s, k, raws)
    ensures var reg := Validate(env, shardId, s, xorbs).value;
            && reg.shardId == shardId && |reg.files| == |s.fileHeaders| && k < |reg.files|
            && reg.files[k] == FileMapping(s.fileHeaders[k].fileHash, k, |Flatten(raws)|)
  {
    hide XorbsValid, XorbStart, FileResult, RebuildsFrom, KeptLookups, UsedChunks, Flatten;
    FileResultExactly(env, xorbs, s, k);
  }
}
