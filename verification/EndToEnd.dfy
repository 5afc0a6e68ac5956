/** What a conversion stores passes validation, yields the same registration and rebuilds the original bytes. */
module EndToEnd {
  import opened Bytes
  import opened Primitives
  import opened Merkle
  import opened Chunking
  import opened Compression
  import opened XorbFormat
  import opened XorbVerify
  import opened XorbBuilder
  import opened XorbRoundTrip
  import opened SelfCheck
  import opened ShardFormat
  import opened ShardParser
  import SB = ShardBuilder
  import opened Planner
  import opened Reconstruction
  import opened RebuildMeaning
  import opened Index
  import opened Validation
  import opened Conversion

  /** The raw chunks fit the formats and the reader's chunk limit. */
  ghost predicate Storable(env: Env, scheme: Scheme, raws: seq<Bytes>) {
    LawfulLz4(env) && Fits(env, scheme, raws) && forall i | 0 <= i < |raws| :: |raws[i]| <= MAX_CHUNK_SIZE
  }

  /** The chunks can be written to a shard: 32 bits count them, and hold the length of each. */
  ghost predicate Tabled(raws: seq<Bytes>) { |raws| < U32 && forall i | 0 <= i < |raws| :: |raws[i]| < U32 }

  function XorbHashFor(env: Env, scheme: Scheme, raws: seq<Bytes>): Hash {
    Root(env, LeavesOf(env, SerializedAll(env, scheme, raws)))
  }

  function ShardFor(env: Env, scheme: Scheme, oid: Hash, raws: seq<Bytes>): Shard {
    SB.BuiltShard(ContentsFor(env, scheme, oid, raws))
  }

  lemma FitsIsTabled(env: Env, scheme: Scheme, raws: seq<Bytes>)
    requires Fits(env, scheme, raws)
    ensures Tabled(raws) && |Flatten(raws)| < U32
  {
    hide Compress, Flatten;
  }

  // ----- sizes -----

  lemma {:induction false} SizesAreOffsets(env: Env, scheme: Scheme, raws: seq<Bytes>, n: nat)
    requires Fits(env, scheme, raws) && n <= |raws|
    ensures Sum(RawSizes(raws)[..n]) == Offset(raws, n)
    ensures Sum(PackedSizes(env, scheme, raws)[..n]) + 8 * n == Offset(SerializedAll(env, scheme, raws), n)
  {
    hide Compress, Flatten, Offset, Serialized, Wrap32, Sum;
    var regions := SerializedAll(env, scheme, raws);
    if n > 0 {
      SizesAreOffsets(env, scheme, raws, n - 1);
      OffsetStep(raws, n - 1);
      OffsetStep(regions, n - 1);
      SumStep(RawSizes(raws), n - 1);
      SumStep(PackedSizes(env, scheme, raws), n - 1);
      SerializedLength(env, scheme, raws[n - 1]);
      WrapExact(|raws[n - 1]|);
      WrapExact(|Compress(env, scheme, raws[n - 1])|);
    } else {
      OffsetZero(raws);
      OffsetZero(regions);
      SumNone(RawSizes(raws));
      SumNone(PackedSizes(env, scheme, raws));
    }
  }

  lemma SumNone(xs: seq<nat>)
    ensures Sum(xs[..0]) == 0
  {
  }

  lemma TotalsExact(env: Env, scheme: Scheme, raws: seq<Bytes>)
    requires Fits(env, scheme, raws)
    ensures Sum(RawSizes(raws)) == |Flatten(raws)| < U32
    ensures Sum(PackedSizes(env, scheme, raws)) < U32
  {
    hide Compress, Flatten, Offset, SerializedAll, Sum;
    SizesAreOffsets(env, scheme, raws, |raws|);
    OffsetEnd(raws, |raws|);
    OffsetEnd(SerializedAll(env, scheme, raws), |raws|);
    assert RawSizes(raws)[..|raws|] == RawSizes(raws);
    assert PackedSizes(env, scheme, raws)[..|raws|] == PackedSizes(env, scheme, raws);
  }

  // ----- the shard parses back -----

  lemma OneOfEach(f: SB.FileEntry, x: SB.XorbEntry)
    ensures SB.FileHeaders([f]) == [SB.FileHeaderOf(f)] && SB.AllSegments([f]) == SB.SegmentsOf(f)
    ensures SB.XorbHeaders([x]) == [SB.XorbHeaderOf(x)] && SB.AllChunks([x]) == SB.ChunksOf(x)
  {
    hide SB.SegmentsOf, SB.ChunksOf;
    assert [f][1..] == [] && [x][1..] == [];
    assert SB.SegmentsOf(f) + [] == SB.SegmentsOf(f) && SB.ChunksOf(x) + [] == SB.ChunksOf(x);
  }

  lemma OneOfEachLength(f: SB.FileEntry, x: SB.XorbEntry)
    ensures |SB.FilesBytes([f])| == 48 + 48 * |f.segments| && |SB.XorbsBytes([x])| == 48 + 48 * |x.chunks|
  {
    hide EncodeAll, SB.SegmentsOf, SB.ChunksOf, Exact;
    SectionsExact();
    EncodeAllLength(SEGMENT, SB.SegmentsOf(f));
    EncodeAllLength(XORB_CHUNK, SB.ChunksOf(x));
    assert [f][1..] == [] && [x][1..] == [];
    assert SB.FilesBytes([]) == [] && SB.XorbsBytes([]) == [];
  }

  lemma ShardParses(env: Env, scheme: Scheme, oid: Hash, raws: seq<Bytes>)
    requires |raws| < U32
    ensures Parse(SB.BuildBytes(ContentsFor(env, scheme, oid, raws))) == Ok(ShardFor(env, scheme, oid, raws))
  {
    hide Parse, SB.BuildBytes, SB.BuiltShard, SB.FilesBytes, SB.XorbsBytes, SB.AllChunks, SB.ChunksOf, Flatten,
         BuildResultFor, EntriesFor, RawHashesFor, Wrap32, SB.LookupsFor;
    var c := ContentsFor(env, scheme, oid, raws);
    OneOfEach(c.files[0], c.xorbs[0]);
    OneOfEachLength(c.files[0], c.xorbs[0]);
    SB.BuildLength(c);
    SB.ShardRoundTrip(c);
  }

  // ----- the tables of the shard -----

  lemma Tables1(env: Env, scheme: Scheme, oid: Hash, raws: seq<Bytes>)
    requires |raws| < U32
    ensures var s, x := ShardFor(env, scheme, oid, raws), XorbHashFor(env, scheme, raws);
            && s.fileHeaders == [FileHeader(oid, 0, 1, 0, 0)]
            && s.segments == [Segment(x, 0, Wrap32(|Flatten(raws)|), 0, |raws|)]
            && s.xorbHeaders == [XorbHeader(x, 0, |raws|, Wrap32(Sum(RawSizes(raws))),
                                            Wrap32(Sum(PackedSizes(env, scheme, raws))))]
            && |s.xorbChunks| == |s.lookups| == |raws|
  {
    hide Flatten, Sum, PackedSizes, RawSizes, Root, LeavesOf, SerializedAll, XorbBytes, Serialized, SB.FooterOf, Offset;
    var c := ContentsFor(env, scheme, oid, raws);
    OneOfEach(c.files[0], c.xorbs[0]);
    assert SB.SegmentsOf(c.files[0]) == [SB.SegmentOf(c.files[0].segments[0])];
  }

  lemma Tables2(env: Env, scheme: Scheme, oid: Hash, raws: seq<Bytes>, i: nat)
    requires |raws| < U32 && i < |raws|
    requires var s := ShardFor(env, scheme, oid, raws); |s.xorbChunks| == |s.lookups| == |raws|
    ensures var s, regions := ShardFor(env, scheme, oid, raws), SerializedAll(env, scheme, raws);
            var start, len := Wrap32(Offset(regions, i)), Wrap32(|raws[i]|);
            && s.xorbChunks[i] == XorbChunk(env.DataHash(regions[i]), start, len, 0, 0)
            && s.lookups[i] == Lookup(env.DataHash(raws[i]), XorbHashFor(env, scheme, raws), i)
  {
    hide Flatten, Sum, PackedSizes, RawSizes, Root, LeavesOf, XorbBytes, Serialized, SB.FooterOf, Offset;
    var c := ContentsFor(env, scheme, oid, raws);
    OneOfEach(c.files[0], c.xorbs[0]);
  }

  /** The footer of a conversion's shard carries the packed and the raw totals of the object. */
  lemma ConversionTotals(env: Env, scheme: Scheme, oid: Hash, raws: seq<Bytes>)
    requires Fits(env, scheme, raws)
    ensures var f := ShardFor(env, scheme, oid, raws).footer;
            && f.storedOnDisk == Sum(PackedSizes(env, scheme, raws))
            && f.stored == |Flatten(raws)| && f.materialized == |Flatten(raws)|
  {
    hide Compress, Flatten, PackedSizes, RawSizes, Root, LeavesOf, SerializedAll, XorbBytes, Serialized, SB.FooterOf,
         Offset, EntriesFor, RawHashesFor, SB.LookupsFor, Fits;
    var c := ContentsFor(env, scheme, oid, raws);
    TotalsExact(env, scheme, raws);
    SB.FooterTotals(c);
    assert SB.OnDiskSizes(c.xorbs) == [Wrap32(Sum(PackedSizes(env, scheme, raws)))];
    assert SB.InXorbSizes(c.xorbs) == [Wrap32(Sum(RawSizes(raws)))];
    assert SB.SegmentSizes(c.files[0]) == [Wrap32(|Flatten(raws)|)];
    assert SB.FileSizes(c.files) == [Sum(SB.SegmentSizes(c.files[0]))];
    SumOfOne(Wrap32(Sum(PackedSizes(env, scheme, raws))));
    SumOfOne(Wrap32(Sum(RawSizes(raws))));
    SumOfOne(Wrap32(|Flatten(raws)|));
    SumOfOne(Sum(SB.SegmentSizes(c.files[0])));
  }

  lemma SumOfOne(x: nat)
    ensures Sum([x]) == x
  {
    assert Sum([x]) == x + Sum([]);
  }

  // ----- the xorb entry is true -----

  lemma EntryIsTrue(env: Env, scheme: Scheme, oid: Hash, raws: seq<Bytes>)
    requires Fits(env, scheme, raws)
    ensures var s, info := ShardFor(env, scheme, oid, raws), InfoFor(env, scheme, raws);
            && |s.xorbHeaders| == 1 && XorbStart(s, 1) == |s.xorbChunks| && XorbsUsable(s, 1)
            && s.xorbHeaders[0].xorbHash == XorbHashFor(env, scheme, raws)
            && EntryMatches(s, 0, info)
  {
    hide ShardFor, Compress, Flatten, Sum, PackedSizes, RawSizes, Root, LeavesOf, SerializedAll, XorbBytes, Offset,
         Wrap32;
    var s, info := ShardFor(env, scheme, oid, raws), InfoFor(env, scheme, raws);
    Tables1(env, scheme, oid, raws);
    TotalsExact(env, scheme, raws);
    WrapExact(Sum(RawSizes(raws)));
    WrapExact(Sum(PackedSizes(env, scheme, raws)));
    assert XorbStart(s, 0) == 0 && XorbStart(s, 1) == XorbStart(s, 0) + s.xorbHeaders[0].numEntries;
    forall i | 0 <= i < |raws|
      ensures ChunkMatches(s.xorbChunks[i], info.chunks[i])
    {
      Tables2(env, scheme, oid, raws, i);
      OffsetEnd(SerializedAll(env, scheme, raws), i);
      WrapExact(Offset(SerializedAll(env, scheme, raws), i));
      WrapExact(|raws[i]|);
    }
  }

  // ----- the plan is all chunks -----

  function PlannedFor(env: Env, scheme: Scheme, raws: seq<Bytes>, i: nat): PlannedChunk
    requires i < |raws| && |raws| < U32
  {
    var regions := SerializedAll(env, scheme, raws);
    PlannedChunk(XorbHashFor(env, scheme, raws), i, Wrap32(Offset(regions, i)), Wrap32(|raws[i]|),
                 env.DataHash(regions[i]), env.DataHash(raws[i]))
  }

  function PlannedAll(env: Env, scheme: Scheme, raws: seq<Bytes>): (plan: seq<PlannedChunk>)
    requires |raws| < U32
    ensures |plan| == |raws|
  {
    seq(|raws|, i requires 0 <= i < |raws| => PlannedFor(env, scheme, raws, i))
  }

  lemma {:induction false} PlannedTotal(env: Env, scheme: Scheme, raws: seq<Bytes>, n: nat)
    requires Tabled(raws) && n <= |raws|
    ensures UnpackedTotal(PlannedAll(env, scheme, raws)[..n]) == Offset(raws, n)
  {
    hide Flatten, Offset, Serialized, SerializedAll, Wrap32, UnpackedTotal, XorbHashFor;
    if n > 0 {
      var plan := PlannedAll(env, scheme, raws);
      PlannedTotal(env, scheme, raws, n - 1);
      OffsetStep(raws, n - 1);
      WrapExact(|raws[n - 1]|);
      assert plan[..n] == plan[..n - 1] + [plan[n - 1]];
      UnpackedTotalSnoc(plan[..n - 1], plan[n - 1]);
    } else {
      OffsetZero(raws);
      NothingTotal();
    }
  }

  lemma NothingTotal()
    ensures UnpackedTotal([]) == 0
  {
  }

  lemma ShardTablesOf(env: Env, scheme: Scheme, oid: Hash, raws: seq<Bytes>)
    requires |raws| < U32
    ensures var s, x := ShardFor(env, scheme, oid, raws), XorbHashFor(env, scheme, raws);
            var t := TablesOf(s);
            && XorbsUsable(s, |s.xorbHeaders|) && LookupsUsable(s, |s.lookups|)
            && |t.chunks| == |raws| && x in t.ranges && t.ranges[x] == (0, |raws|)
  {
    hide ShardFor, Flatten, SerializedAll, XorbHashFor, RawHashes, Sum, PackedSizes, Offset;
    var s, x := ShardFor(env, scheme, oid, raws), XorbHashFor(env, scheme, raws);
    Tables1(env, scheme, oid, raws);
    assert XorbStart(s, 0) == 0 && XorbStart(s, 1) == XorbStart(s, 0) + s.xorbHeaders[0].numEntries;
    assert XorbRanges(s, 0) == map[];
    assert XorbRanges(s, 1) == XorbRanges(s, 0)[x := (XorbStart(s, 0), s.xorbHeaders[0].numEntries)];
    forall i, j | 0 <= i < j < |s.lookups|
      ensures Key(s.lookups[i]) != Key(s.lookups[j])
    {
      Tables2(env, scheme, oid, raws, i);
      Tables2(env, scheme, oid, raws, j);
    }
  }

  lemma ChunkIsPlanned(env: Env, scheme: Scheme, oid: Hash, raws: seq<Bytes>, i: nat)
    requires |raws| < U32 && i < |raws|
    ensures var s := ShardFor(env, scheme, oid, raws);
            && |s.segments| == 1
            && PlannedAs(TablesOf(s), s.segments[0], i, PlannedFor(env, scheme, raws, i))
  {
    hide ShardFor, Flatten, SerializedAll, XorbHashFor, RawHashes, XorbRanges, LookupsUsable, XorbsUsable, Sum,
         PackedSizes, Offset, Wrap32;
    var s := ShardFor(env, scheme, oid, raws);
    Tables1(env, scheme, oid, raws);
    Tables2(env, scheme, oid, raws, i);
    ShardTablesOf(env, scheme, oid, raws);
    RawHashesMeaning(s, |s.lookups|);
    assert Key(s.lookups[i]) in TablesOf(s).raw;
  }

  /** The segment spans all chunks; its declared total is right exactly when it did not wrap. */
  lemma SegmentIsPlanned(env: Env, scheme: Scheme, oid: Hash, raws: seq<Bytes>)
    requires Tabled(raws)
    ensures var s := ShardFor(env, scheme, oid, raws);
            && |s.segments| == 1
            && SegmentPlannable(TablesOf(s), s.segments[0])
            && SegmentPlan(TablesOf(s), s.segments[0], s.segments[0].chunkEnd) == PlannedAll(env, scheme, raws)
            && (SegmentOk(TablesOf(s), s.segments[0]) <==> |Flatten(raws)| < U32)
  {
    hide ShardFor, Flatten, SerializedAll, XorbHashFor, RawHashes, XorbRanges, LookupsUsable, XorbsUsable, TablesOf,
         PlannedFor, Sum, PackedSizes, RawSizes, Offset, PlannedAs, UnpackedTotal, SegmentPlan, SegmentOk,
         SegmentPlannable;
    var s, plan := ShardFor(env, scheme, oid, raws), PlannedAll(env, scheme, raws);
    Tables1(env, scheme, oid, raws);
    ShardTablesOf(env, scheme, oid, raws);
    forall k | 0 <= k < |plan|
      ensures PlannedAs(TablesOf(s), s.segments[0], s.segments[0].chunkStart + k, plan[k])
    {
      ChunkIsPlanned(env, scheme, oid, raws, k);
    }
    PlannedTotal(env, scheme, raws, |raws|);
    OffsetEnd(raws, |raws|);
    assert plan[..|raws|] == plan;
    CollectedAll(TablesOf(s), s.segments[0], plan, |Flatten(raws)|);
  }

  lemma OnePlanned(t: Tables, seg: Segment)
    requires SegmentOk(t, seg)
    ensures SegmentsOk(t, [seg]) && PlanOf(t, [seg]) == SegmentPlan(t, seg, seg.chunkEnd)
    ensures DeclaredTotal([seg]) == seg.unpackedBytes
  {
    hide SegmentPlannable, SegmentPlan, UnpackedTotal;
    NothingPlanned(t);
    PlanSnoc(t, [], seg);
    assert [] + [seg] == [seg] && [] + SegmentPlan(t, seg, seg.chunkEnd) == SegmentPlan(t, seg, seg.chunkEnd);
  }

  /** The planner accepts the file exactly when its total did not wrap. */
  lemma FileIsPlanned(env: Env, scheme: Scheme, oid: Hash, raws: seq<Bytes>)
    requires Tabled(raws)
    ensures Plan(ShardFor(env, scheme, oid, raws), oid, Some(0)) ==
            if |Flatten(raws)| < U32 then Ok(PlannedFile(oid, 0, PlannedAll(env, scheme, raws), |Flatten(raws)|))
            else Err
  {
    hide ShardFor, Flatten, SerializedAll, XorbHashFor, LookupsUsable, XorbsUsable, TablesOf, PlannedAll, Sum,
         PackedSizes, RawSizes, SegmentOk, SegmentPlan, SegmentsOk, PlanOf;
    var s := ShardFor(env, scheme, oid, raws);
    Tables1(env, scheme, oid, raws);
    ShardTablesOf(env, scheme, oid, raws);
    SegmentIsPlanned(env, scheme, oid, raws);
    assert FileStart(s, 0) == 0 && FileStart(s, 1) == FileStart(s, 0) + s.fileHeaders[0].numEntries;
    assert FileSegments(s, 0) == [s.segments[0]];
    if SegmentOk(TablesOf(s), s.segments[0]) {
      OnePlanned(TablesOf(s), s.segments[0]);
    } else {
      OneNotPlanned(TablesOf(s), s.segments[0]);
    }
  }

  lemma OneNotPlanned(t: Tables, seg: Segment)
    requires !SegmentOk(t, seg)
    ensures !SegmentsOk(t, [seg])
  {
    hide SegmentOk;
    assert [seg][0] == seg;
  }

  // ----- the chunks are read back -----

  lemma RegionExtracts(env: Env, scheme: Scheme, raw: Bytes, file: Bytes, offset: nat)
    requires LawfulLz4(env) && |raw| <= MAX_CHUNK_SIZE && |Compress(env, scheme, raw)| < U24
    requires var r := Serialized(env, scheme, raw); offset + |r| <= |file| && file[offset..offset + |r|] == r
    ensures Extract(env, file, offset, |raw|, env.DataHash(Serialized(env, scheme, raw))) == Ok(raw)
  {
    hide Compress, Decompress, HeaderBytes, ParseHeader, LawfulLz4;
    var r, payload := Serialized(env, scheme, raw), Compress(env, scheme, raw);
    var header, body := HeaderBytes(HeaderOf(env, scheme, raw)), offset + 8;
    SerializedLength(env, scheme, raw);
    WrapExact(|payload|);
    SplitConcat(header, payload);
    assert file[offset..body] == r[..8] && file[body..body + |payload|] == r[8..];
    HeaderRoundTrip(HeaderOf(env, scheme, raw), []);
    assert header + [] == header;
    CompressedLenBounded(env, scheme, raw);
    DecompressUndoesCompress(env, scheme, raw);
  }

  lemma ChunkFetched(env: Env, scheme: Scheme, raws: seq<Bytes>, xorbs: Xorbs, i: nat)
    requires Storable(env, scheme, raws) && i < |raws|
    requires XorbHashFor(env, scheme, raws) in xorbs
             && xorbs[XorbHashFor(env, scheme, raws)] == XorbBytes(env, scheme, raws)
    ensures FetchChunk(env, xorbs, PlannedFor(env, scheme, raws, i)) == Got(raws[i])
  {
    hide Compress, Flatten, Serialized, XorbHashFor, Offset, FooterBytes, Extract, LawfulLz4, FooterFor, Wrap32;
    var regions := SerializedAll(env, scheme, raws);
    PartAt(regions, i, FooterBytes(FooterFor(env, regions, raws)));
    OffsetStep(regions, i);
    WrapExact(Offset(regions, i));
    WrapExact(|raws[i]|);
    RegionExtracts(env, scheme, raws[i], XorbBytes(env, scheme, raws), Offset(regions, i));
  }

  lemma {:induction false} AllFetched(env: Env, xorbs: Xorbs, plan: seq<PlannedChunk>, raws: seq<Bytes>)
    requires |plan| == |raws| && forall i | 0 <= i < |plan| :: FetchChunk(env, xorbs, plan[i]) == Got(raws[i])
    ensures FetchAll(env, xorbs, plan) == Got(raws)
  {
    hide FetchChunk;
    if plan != [] {
      AllFetched(env, xorbs, plan[1..], raws[1..]);
      assert raws == [raws[0]] + raws[1..];
    }
  }

  lemma FileRebuilds(env: Env, scheme: Scheme, oid: Hash, raws: seq<Bytes>, xorbs: Xorbs)
    requires Storable(env, scheme, raws) && HashAccepted(env, oid, raws)
    requires XorbHashFor(env, scheme, raws) in xorbs
             && xorbs[XorbHashFor(env, scheme, raws)] == XorbBytes(env, scheme, raws)
    ensures RebuildFromShard(env, ShardFor(env, scheme, oid, raws), xorbs, oid, 0) == Rebuilt(Flatten(raws))
  {
    hide ShardFor, Compress, Flatten, SerializedAll, XorbHashFor, XorbBytes, Plan, FetchChunk, FetchAll, HashAccepted,
         PlannedFor, LawfulLz4;
    FileIsPlanned(env, scheme, oid, raws);
    var plan := PlannedAll(env, scheme, raws);
    forall i | 0 <= i < |plan|
      ensures FetchChunk(env, xorbs, plan[i]) == Got(raws[i])
    {
      ChunkFetched(env, scheme, raws, xorbs, i);
    }
    AllFetched(env, xorbs, plan, raws);
  }

  // ----- the same registration -----

  lemma {:induction false} AllKept(lookups: seq<Lookup>, used: set<(Hash, u32)>, chunks: seq<ChunkMapping>)
    requires |lookups| == |chunks|
    requires forall i | 0 <= i < |lookups| ::
               && Key(lookups[i]) in used
               && chunks[i] == ChunkMapping(lookups[i].chunkHash, lookups[i].xorbHash, lookups[i].chunkIndex)
    ensures KeptLookups(lookups, used) == chunks
  {
    if lookups != [] {
      var n := |lookups| - 1;
      AllKept(lookups[..n], used, chunks[..n]);
      assert chunks == chunks[..n] + [chunks[n]];
    }
  }

  lemma LookupsKept(env: Env, scheme: Scheme, oid: Hash, raws: seq<Bytes>)
    requires Fits(env, scheme, raws)
    ensures var s := ShardFor(env, scheme, oid, raws);
            && |s.fileHeaders| == 1
            && KeptLookups(s.lookups, UsedChunks(s, 1)) == ChunkMappingsFor(env, XorbHashFor(env, scheme, raws), raws)
  {
    hide ShardFor, Compress, Flatten, SerializedAll, XorbHashFor, Plan, Sum, PackedSizes, Offset, KeptLookups, Wrap32;
    var s, plan := ShardFor(env, scheme, oid, raws), PlannedAll(env, scheme, raws);
    var chunks := ChunkMappingsFor(env, XorbHashFor(env, scheme, raws), raws);
    Tables1(env, scheme, oid, raws);
    FileIsPlanned(env, scheme, oid, raws);
    OnlyFileKeys(s);
    assert FileKeys(s, 0) == PlanKeys(plan);
    forall i | 0 <= i < |raws|
      ensures Key(s.lookups[i]) in UsedChunks(s, 1)
      ensures chunks[i] == ChunkMapping(s.lookups[i].chunkHash, s.lookups[i].xorbHash, s.lookups[i].chunkIndex)
    {
      Tables2(env, scheme, oid, raws, i);
      WrapExact(i);
      assert plan[i] in plan && PlanKey(plan[i]) in PlanKeys(plan);
    }
    AllKept(s.lookups, UsedChunks(s, 1), chunks);
  }

  lemma OnlyFileKeys(s: Shard)
    requires |s.fileHeaders| == 1
    ensures UsedChunks(s, 1) == FileKeys(s, 0)
  {
    hide FileKeys;
    assert UsedChunks(s, 0) == {};
  }

  lemma SameXorbHash(env: Env, scheme: Scheme, raws: seq<Bytes>)
    ensures BuildResultFor(env, scheme, raws).xorbHash == XorbHashFor(env, scheme, raws)
  {
    hide Root, LeavesOf, SerializedAll, XorbBytes, Sum, RawSizes, PackedSizes, Offset;
  }

  /** Validation of what was built gives exactly the registration the conversion makes itself. */
  lemma SameRegistration(env: Env, scheme: Scheme, oid: Hash, raws: seq<Bytes>, xorbs: Xorbs)
    requires Storable(env, scheme, raws) && IdentOnlyInPayload(env, scheme, raws) && HashAccepted(env, oid, raws)
    requires XorbHashFor(env, scheme, raws) in xorbs
             && xorbs[XorbHashFor(env, scheme, raws)] == XorbBytes(env, scheme, raws)
    ensures Validate(env, ShardIdFor(env, scheme, oid, raws), ShardFor(env, scheme, oid, raws), xorbs)
         == Ok(RegistrationFor(env, scheme, oid, raws, |Flatten(raws)|))
  {
    hide ShardFor, Compress, Flatten, SerializedAll, XorbHashFor, XorbBytes, HashAccepted, Sum, PackedSizes,
         VerifyFile, EntryMatches, XorbsUsable, XorbStart, InfoFor, KeptLookups, UsedChunks, ChunkMappingsFor,
         RebuildFromShard, ShardIdFor, BuildResultFor, VerifyMemory, LawfulLz4, Fits, IdentOnlyInPayload;
    var s := ShardFor(env, scheme, oid, raws);
    FitsIsTabled(env, scheme, raws);
    Tables1(env, scheme, oid, raws);
    BuiltXorbVerifies(env, scheme, raws);
    EntryIsTrue(env, scheme, oid, raws);
    assert XorbValid(env, xorbs, s, 0);
    FileRebuilds(env, scheme, oid, raws, xorbs);
    assert FileResult(env, xorbs, s, 0) == Rebuilt(Flatten(raws));
    assert FileMappings(env, xorbs, s, 1) == [FileMapping(oid, 0, |Flatten(raws)|)];
    LookupsKept(env, scheme, oid, raws);
    SameXorbHash(env, scheme, raws);
  }

  // ----- end to end -----

  /** The object is one the server may hold: its OID is its SHA-256 or its keyed BLAKE3. */
  predicate Named(env: Env, oid: Hash, data: Bytes) { oid == env.Sha256(data) || oid == env.DataHash(data) }

  /** The self-check accepts the xorb of an object below 4 GiB, and the footer ident does not recur. */
  ghost predicate Checked(env: Env, scheme: Scheme, raws: seq<Bytes>) {
    && |Flatten(raws)| < U32 && IdentOnlyInPayload(env, scheme, raws)
    && VerifyMemory(env, XorbBytes(env, scheme, raws)) == Accepted
  }

  lemma PiecesChunksFit(env: Env, scheme: Scheme, g: Gear, data: Bytes)
    requires Lawful(g) && |Pieces(g, DEFAULT_CONFIG, data)| < U32 && LawfulLz4(env)
    ensures ChunksFit(env, scheme, Pieces(g, DEFAULT_CONFIG, data)) && Tabled(Pieces(g, DEFAULT_CONFIG, data))
  {
    hide Pieces, LawfulLz4, Lawful, Compress;
    forall i | 0 <= i < |Pieces(g, DEFAULT_CONFIG, data)|
      ensures |Pieces(g, DEFAULT_CONFIG, data)[i]| < U24
      ensures |Compress(env, scheme, Pieces(g, DEFAULT_CONFIG, data)[i])| < U24
    {
      PieceFits(env, scheme, g, data, i);
    }
  }

  /** Pieces are not empty, so there are at most as many as bytes. */
  lemma FewerPiecesThanBytes(g: Gear, data: Bytes)
    requires Lawful(g)
    ensures |Pieces(g, DEFAULT_CONFIG, data)| <= |data|
  {
    if data != [] {
      PieceCount(g, DEFAULT_CONFIG, data);
    }
  }

  /** An object below 4 GiB that passes the self-check is within every limit of the formats. */
  lemma PiecesStorable(env: Env, scheme: Scheme, g: Gear, data: Bytes)
    requires Lawful(g) && Checked(env, scheme, Pieces(g, DEFAULT_CONFIG, data)) && LawfulLz4(env)
    ensures Storable(env, scheme, Pieces(g, DEFAULT_CONFIG, data))
  {
    hide Pieces, LawfulLz4, Lawful, Fits, VerifyMemory, XorbBytes, Flatten, IdentOnlyInPayload;
    var raws := Pieces(g, DEFAULT_CONFIG, data);
    PiecesCoverInput(g, DEFAULT_CONFIG, data);
    FewerPiecesThanBytes(g, data);
    PiecesChunksFit(env, scheme, g, data);
    AcceptedFits(env, scheme, raws);
    forall i | 0 <= i < |raws|
      ensures |raws[i]| <= MAX_CHUNK_SIZE
    {
      PieceSizes(g, DEFAULT_CONFIG, data, i);
    }
  }

  lemma NamedIsAccepted(env: Env, oid: Hash, g: Gear, data: Bytes)
    requires Lawful(g) && Named(env, oid, data)
    ensures HashAccepted(env, oid, Pieces(g, DEFAULT_CONFIG, data))
  {
    hide Pieces, Lawful, FileHash;
    PiecesCoverInput(g, DEFAULT_CONFIG, data);
  }

  /** The xorb and the shard of a conversion are in storage. */
  ghost predicate Stored(env: Env, scheme: Scheme, oid: Hash, raws: seq<Bytes>, st: Storage) {
    var x, id := XorbHashFor(env, scheme, raws), ShardIdFor(env, scheme, oid, raws);
    && x in st.xorbs && st.xorbs[x] == XorbBytes(env, scheme, raws)
    && id in st.shards && st.shards[id] == SB.BuildBytes(ContentsFor(env, scheme, oid, raws))
  }

  /** The stored shard parses, validates to the registration, and the registered reference rebuilds the bytes. */
  ghost predicate Faithful(env: Env, st: Storage, reg: Registration, oid: Hash, data: Bytes) {
    && reg.shardId in st.shards && Parse(st.shards[reg.shardId]).Ok?
    && Validate(env, reg.shardId, Parse(st.shards[reg.shardId]).value, st.xorbs) == Ok(reg)
    && reg.files == [FileMapping(oid, 0, |data|)]
    && RebuildRef(env, st, oid, RefOf(reg, FileMapping(oid, 0, |data|))) == Rebuilt(data)
  }

  /** The stored shard parses, and its file rebuilds the bytes. */
  ghost predicate RebuildsFromShard(env: Env, scheme: Scheme, oid: Hash, raws: seq<Bytes>, data: Bytes, st: Storage) {
    var id := ShardIdFor(env, scheme, oid, raws);
    && id in st.shards && Parse(st.shards[id]) == Ok(ShardFor(env, scheme, oid, raws))
    && RebuildRef(env, st, oid, FileRef(id, 0, |data|)) == Rebuilt(data)
  }

  /** Even without validation, what is stored parses and rebuilds the original bytes. */
  lemma StoredRebuilds(env: Env, g: Gear, scheme: Scheme, oid: Hash, data: Bytes, st: Storage)
    requires Lawful(g) && Named(env, oid, data) && Checked(env, scheme, Pieces(g, DEFAULT_CONFIG, data))
    requires Stored(env, scheme, oid, Pieces(g, DEFAULT_CONFIG, data), st)
    requires LawfulLz4(env)
    ensures RebuildsFromShard(env, scheme, oid, Pieces(g, DEFAULT_CONFIG, data), data, st)
  {
    hide Pieces, LawfulLz4, Lawful, HashAccepted, Parse, ShardFor, RebuildFromShard, Checked, IdentOnlyInPayload,
         SB.BuildBytes, XorbBytes, ContentsFor, Flatten, BuildResultFor, XorbHashFor, Fits;
    var raws := Pieces(g, DEFAULT_CONFIG, data);
    PiecesCoverInput(g, DEFAULT_CONFIG, data);
    PiecesStorable(env, scheme, g, data);
    FitsIsTabled(env, scheme, raws);
    NamedIsAccepted(env, oid, g, data);
    ShardParses(env, scheme, oid, raws);
    FileRebuilds(env, scheme, oid, raws, st.xorbs);
  }

  /**
   * For every object below 4 GiB whose xorb passes the self-check: whatever else is stored, once the xorb and the shard
   * of its conversion are stored, the shard parses and validates to the conversion's own registration, and the
   * reference in it rebuilds exactly the original bytes.
   */
  lemma ConversionIsFaithful(env: Env, g: Gear, scheme: Scheme, oid: Hash, data: Bytes, st: Storage)
    requires Lawful(g) && Named(env, oid, data) && Checked(env, scheme, Pieces(g, DEFAULT_CONFIG, data))
    requires Stored(env, scheme, oid, Pieces(g, DEFAULT_CONFIG, data), st)
    requires LawfulLz4(env)
    ensures Faithful(env, st, RegistrationFor(env, scheme, oid, Pieces(g, DEFAULT_CONFIG, data), |data|), oid, data)
  {
    hide Pieces, LawfulLz4, Lawful, HashAccepted, Parse, Validate, ShardFor, RebuildRef, IdentOnlyInPayload,
         VerifyMemory, SB.BuildBytes, XorbBytes, ContentsFor, Flatten, BuildResultFor, ChunkMappingsFor, XorbHashFor,
         Fits;
    var raws := Pieces(g, DEFAULT_CONFIG, data);
    PiecesCoverInput(g, DEFAULT_CONFIG, data);
    PiecesStorable(env, scheme, g, data);
    NamedIsAccepted(env, oid, g, data);
    StoredRebuilds(env, g, scheme, oid, data, st);
    SameRegistration(env, scheme, oid, raws, st.xorbs);
  }

  // ----- objects of 4 GiB and more -----

  lemma WrappedTotal(n: nat)
    ensures Wrap32(n) == n <==> n < U32
  {
  }

  /**
   * The shard of an object of 4 GiB or more declares a wrapped total, which the planner refuses, whatever is stored.
   */
  lemma LargeNeverRebuilds(env: Env, g: Gear, scheme: Scheme, oid: Hash, data: Bytes, st: Storage)
    requires Lawful(g) && |Pieces(g, DEFAULT_CONFIG, data)| < U32 <= |data|
    requires Stored(env, scheme, oid, Pieces(g, DEFAULT_CONFIG, data), st)
    ensures RebuildRef(env, st, oid, FileRef(ShardIdFor(env, scheme, oid, Pieces(g, DEFAULT_CONFIG, data)), 0, |data|))
            == Failed
  {
    hide Pieces, Lawful, Parse, Plan, ShardFor, SB.BuildBytes, XorbBytes, ContentsFor, Flatten, XorbHashFor;
    var raws := Pieces(g, DEFAULT_CONFIG, data);
    PiecesCoverInput(g, DEFAULT_CONFIG, data);
    PiecesTabled(g, data);
    ShardParses(env, scheme, oid, raws);
    FileIsPlanned(env, scheme, oid, raws);
  }

  lemma PiecesTabled(g: Gear, data: Bytes)
    requires Lawful(g) && |Pieces(g, DEFAULT_CONFIG, data)| < U32
    ensures Tabled(Pieces(g, DEFAULT_CONFIG, data))
  {
    hide Pieces, Lawful;
    forall i | 0 <= i < |Pieces(g, DEFAULT_CONFIG, data)|
      ensures |Pieces(g, DEFAULT_CONFIG, data)[i]| < U32
    {
      PieceSizes(g, DEFAULT_CONFIG, data, i);
    }
  }

  /** However many chunks there are: what rebuilds through the shard has the 32-bit total as its size. */
  lemma RebuiltTotalIsWrapped(env: Env, scheme: Scheme, oid: Hash, raws: seq<Bytes>, st: Storage, size: nat)
    requires Stored(env, scheme, oid, raws, st)
    requires RebuildRef(env, st, oid, FileRef(ShardIdFor(env, scheme, oid, raws), 0, size)).Rebuilt?
    ensures |RebuildRef(env, st, oid, FileRef(ShardIdFor(env, scheme, oid, raws), 0, size)).bytes|
            == Wrap32(|Flatten(raws)|)
  {
    hide Parse, RebuildFromShard, SB.BuildBytes, XorbBytes, Flatten, XorbHashFor, ShardIdFor, BuildResultFor, Wrap32,
         SB.FileHeaders, SB.AllSegments, SB.FilesBytes, EntriesFor, SB.LookupsFor, RawHashesFor;
    var c, s := ContentsFor(env, scheme, oid, raws), Parse(st.shards[ShardIdFor(env, scheme, oid, raws)]).value;
    RebuiltLength(env, s, st.xorbs, oid, 0);
    OneOfEach(c.files[0], c.xorbs[0]);
    OneOfEachLength(c.files[0], c.xorbs[0]);
    SB.FilesSurvive(c, s);
    OneSegment(c.files[0], s);
  }

  lemma OneSegment(f: SB.FileEntry, s: Shard)
    requires |f.segments| == 1 && s.fileHeaders == [SB.FileHeaderOf(f)] && s.segments == SB.SegmentsOf(f)
    ensures FileStart(s, 1) == 1 && DeclaredTotal(FileSegments(s, 0)) == f.segments[0].unpackedBytes
  {
    assert FileStart(s, 0) == 0 && FileStart(s, 1) == FileStart(s, 0) + s.fileHeaders[0].numEntries;
    assert FileSegments(s, 0) == [SB.SegmentOf(f.segments[0])];
    assert DeclaredTotal([SB.SegmentOf(f.segments[0])]) == f.segments[0].unpackedBytes + DeclaredTotal([]);
  }

  /** No object of 4 GiB or more comes back through the shard of its conversion. */
  lemma RebuiltIsBelow4GiB(env: Env, g: Gear, scheme: Scheme, oid: Hash, data: Bytes, st: Storage)
    requires Lawful(g) && Stored(env, scheme, oid, Pieces(g, DEFAULT_CONFIG, data), st)
    requires RebuildRef(env, st, oid, FileRef(ShardIdFor(env, scheme, oid, Pieces(g, DEFAULT_CONFIG, data)), 0, |data|))
             == Rebuilt(data)
    ensures |data| < U32
  {
    hide Pieces, Lawful, RebuildRef, Stored, ShardIdFor, Flatten, Wrap32;
    PiecesCoverInput(g, DEFAULT_CONFIG, data);
    RebuiltTotalIsWrapped(env, scheme, oid, Pieces(g, DEFAULT_CONFIG, data), st, |data|);
    WrappedTotal(|data|);
  }

  // ----- the whole conversion -----

  /** The xorb key is free, or holds the very bytes that would be written. */
  predicate XorbKeyAgrees(env: Env, scheme: Scheme, raws: seq<Bytes>, st: Storage) {
    XorbHashFor(env, scheme, raws) in st.xorbs ==>
      st.xorbs[XorbHashFor(env, scheme, raws)] == XorbBytes(env, scheme, raws)
  }

  function RegFor(env: Env, g: Gear, scheme: Scheme, oid: Hash, data: Bytes): Registration
    requires Lawful(g)
  {
    RegistrationFor(env, scheme, oid, Pieces(g, DEFAULT_CONFIG, data), |data|)
  }

  function RefFor(env: Env, g: Gear, scheme: Scheme, oid: Hash, data: Bytes): FileRef
    requires Lawful(g)
  {
    FileRef(ShardIdFor(env, scheme, oid, Pieces(g, DEFAULT_CONFIG, data)), 0, |data|)
  }

  /**
   * What a conversion achieves: a failure changes neither raw blobs nor index; a success registers, and its reference
   * rebuilds the object exactly when that is below 4 GiB.
   */
  ghost predicate ConvertedAsPromised(env: Env, g: Gear, settings: Settings, oid: Hash, st: Storage, idx: IndexState)
    requires Lawful(g) && oid in st.raw
  {
    var data, scheme := st.raw[oid], settings.scheme;
    var reg, ref := RegFor(env, g, scheme, oid, data), RefFor(env, g, scheme, oid, data);
    var e := Converted(env, g, settings, oid, st, idx);
    if !e.ok then e.storage.raw == st.raw && e.index == idx
    else
      && settings.enabled && settings.minSize <= |data| <= settings.maxSize
      && e.storage.raw == (if settings.deleteRaw then st.raw - {oid} else st.raw)
      && e.storage.xorbs.Keys == st.xorbs.Keys + {XorbHashFor(env, scheme, Pieces(g, DEFAULT_CONFIG, data))}
      && e.storage.shards.Keys == st.shards.Keys + {reg.shardId}
      && Accepts(idx, reg) && e.index == Register(idx, reg) && ref in RefsOf(e.index.files, oid)
      && (oid in e.storage.raw <==> !settings.deleteRaw)
      && (RebuildRef(env, e.storage, oid, ref) == Rebuilt(data) <==> |data| < U32)
      && (|data| < U32 ==> Faithful(env, e.storage, reg, oid, data))
      && (|Pieces(g, DEFAULT_CONFIG, data)| < U32 <= |data| ==> RebuildRef(env, e.storage, oid, ref) == Failed)
  }

  /** Disabled, without a blob, or with one below the minimum or above the maximum, a conversion changes nothing. */
  lemma RefusedConversion(env: Env, g: Gear, settings: Settings, oid: Hash, st: Storage, idx: IndexState)
    requires Lawful(g)
    requires || !settings.enabled || oid !in st.raw
             || |st.raw[oid]| < settings.minSize || settings.maxSize < |st.raw[oid]|
    ensures Converted(env, g, settings, oid, st, idx) == Effect(false, st, idx)
  {
    hide Pieces, Lawful, Published, BuildResultFor, VerifyMemory;
  }

  /** A conversion of any size does what is promised, and loses the object exactly from 4 GiB on. */
  lemma ConversionOutcome(env: Env, g: Gear, settings: Settings, oid: Hash, st: Storage, idx: IndexState)
    requires Lawful(g) && oid in st.raw && Named(env, oid, st.raw[oid])
    requires IdentOnlyInPayload(env, settings.scheme, Pieces(g, DEFAULT_CONFIG, st.raw[oid]))
    requires XorbKeyAgrees(env, settings.scheme, Pieces(g, DEFAULT_CONFIG, st.raw[oid]), st)
    requires IndexOk(idx) && LawfulLz4(env)
    ensures ConvertedAsPromised(env, g, settings, oid, st, idx)
  {
    hide Pieces, LawfulLz4, Lawful, Faithful, Parse, VerifyMemory, ShardFor, IdentOnlyInPayload, IndexOk, RebuildRef,
         Flatten, SB.BuildBytes, XorbBytes, ContentsFor, XorbHashFor, AddFiles, AddChunks, SizesAgree,
         ChunkMappingsFor, Named, BuildResultFor;
    var data, scheme := st.raw[oid], settings.scheme;
    var raws := Pieces(g, DEFAULT_CONFIG, data);
    var e := Converted(env, g, settings, oid, st, idx);
    BuiltXorb(env, scheme, raws);
    if e.ok {
      RegisteredFile(idx, RegFor(env, g, scheme, oid, data), 0);
      if |data| < U32 {
        PiecesCoverInput(g, DEFAULT_CONFIG, data);
        ConversionIsFaithful(env, g, scheme, oid, data, e.storage);
        FaithfulRebuilds(env, e.storage, RegFor(env, g, scheme, oid, data), oid, data);
      } else {
        LargeOutcome(env, g, scheme, oid, data, e.storage);
      }
    }
  }

  lemma FaithfulRebuilds(env: Env, st: Storage, reg: Registration, oid: Hash, data: Bytes)
    requires Faithful(env, st, reg, oid, data)
    ensures RebuildRef(env, st, oid, FileRef(reg.shardId, 0, |data|)) == Rebuilt(data)
  {
    hide RebuildRef, Parse, Validate;
  }

  lemma LargeOutcome(env: Env, g: Gear, scheme: Scheme, oid: Hash, data: Bytes, st: Storage)
    requires Lawful(g) && U32 <= |data| && Stored(env, scheme, oid, Pieces(g, DEFAULT_CONFIG, data), st)
    ensures RebuildRef(env, st, oid, RefFor(env, g, scheme, oid, data)) != Rebuilt(data)
    ensures |Pieces(g, DEFAULT_CONFIG, data)| < U32 ==>
            RebuildRef(env, st, oid, RefFor(env, g, scheme, oid, data)) == Failed
  {
    hide Pieces, Lawful, RebuildRef, Stored, ShardIdFor;
    if RebuildRef(env, st, oid, RefFor(env, g, scheme, oid, data)) == Rebuilt(data) {
      RebuiltIsBelow4GiB(env, g, scheme, oid, data, st);
    }
    if |Pieces(g, DEFAULT_CONFIG, data)| < U32 {
      LargeNeverRebuilds(env, g, scheme, oid, data, st);
    }
  }

  /**
   * A conversion succeeds exactly when it is enabled, the blob is there and within the configured sizes, it has at most
   * 100,000 chunks and serialises below 2^32 bytes, and the index accepts it.
   */
  lemma ConversionSucceeds(env: Env, g: Gear, settings: Settings, oid: Hash, st: Storage, idx: IndexState)
    requires Lawful(g)
    requires oid in st.raw ==>
               && |Pieces(g, DEFAULT_CONFIG, st.raw[oid])| < U32
               && IdentOnlyInPayload(env, settings.scheme, Pieces(g, DEFAULT_CONFIG, st.raw[oid]))
    requires LawfulLz4(env)
    ensures Converted(env, g, settings, oid, st, idx).ok <==>
            && settings.enabled && oid in st.raw
            && settings.minSize <= |st.raw[oid]| <= settings.maxSize
            && |Pieces(g, DEFAULT_CONFIG, st.raw[oid])| <= 100_000
            && |Flatten(SerializedAll(env, settings.scheme, Pieces(g, DEFAULT_CONFIG, st.raw[oid])))| < 0x1_0000_0000
            && Accepts(idx, RegFor(env, g, settings.scheme, oid, st.raw[oid]))
  {
    hide Pieces, LawfulLz4, Lawful, Parse, VerifyMemory, ShardFor, IdentOnlyInPayload, Accepts, Flatten, SerializedAll,
         Register, SB.BuildBytes, XorbBytes, ContentsFor, XorbHashFor, ChunkMappingsFor, ChunksFit, BuildResultFor;
    if oid in st.raw {
      var data, scheme := st.raw[oid], settings.scheme;
      var raws := Pieces(g, DEFAULT_CONFIG, data);
      PiecesChunksFit(env, scheme, g, data);
      SelfCheckExact(env, scheme, raws);
      ShardParses(env, scheme, oid, raws);
      BuiltXorb(env, scheme, raws);
    }
  }

  // ----- files under their Xet hash -----

  /**
   * A file whose declared hash is the Xet hash of its chunks validates and rebuilds to its bytes; the same holds of the
   * other two forms.
   */
  lemma EveryFormIsServed(env: Env, scheme: Scheme, target: Hash, raws: seq<Bytes>, st: Storage)
    requires Storable(env, scheme, raws) && IdentOnlyInPayload(env, scheme, raws)
             && Stored(env, scheme, target, raws, st)
    requires || target == XetHash(env, raws) || target == env.shaDigest(Flatten(raws))
             || target == env.dataDigest(Flatten(raws))
    ensures Faithful(env, st, RegistrationFor(env, scheme, target, raws, |Flatten(raws)|), target, Flatten(raws))
  {
    hide LawfulLz4, HashAccepted, Parse, Validate, ShardFor, RebuildFromShard, IdentOnlyInPayload, XetHash,
         SB.BuildBytes, XorbBytes, ContentsFor, Flatten, BuildResultFor, ChunkMappingsFor, XorbHashFor, Fits;
    FitsIsTabled(env, scheme, raws);
    AcceptedForms(env, target, raws);
    ShardParses(env, scheme, target, raws);
    SameRegistration(env, scheme, target, raws, st.xorbs);
    FileRebuilds(env, scheme, target, raws, st.xorbs);
  }

  lemma BuiltXorb(env: Env, scheme: Scheme, raws: seq<Bytes>)
    ensures BuildResultFor(env, scheme, raws).data == XorbBytes(env, scheme, raws)
    ensures BuildResultFor(env, scheme, raws).xorbHash == XorbHashFor(env, scheme, raws)
  {
    hide BuildResultFor, XorbBytes, XorbHashFor;
    BuiltBytes(env, scheme, raws);
    SameXorbHash(env, scheme, raws);
  }
}
