/** What a plan is, in terms of the shard's tables alone: exactly when it exists, and every chunk of it. */
module PlanMeaning {
  import opened Bytes
  import opened ShardFormat
  import opened ShardParser
  import opened Planner

  // ----- starts and totals as sums -----

  function SegmentCounts(s: Shard): (counts: seq<nat>)
    ensures |counts| == |s.fileHeaders|
  {
    seq(|s.fileHeaders|, i requires 0 <= i < |s.fileHeaders| => s.fileHeaders[i].numEntries)
  }

  function ChunkCounts(s: Shard): (counts: seq<nat>)
    ensures |counts| == |s.xorbHeaders|
  {
    seq(|s.xorbHeaders|, i requires 0 <= i < |s.xorbHeaders| => s.xorbHeaders[i].numEntries)
  }

  lemma SumTo(xs: seq<nat>, i: nat)
    requires i < |xs|
    ensures Sum(xs[..i + 1]) == Sum(xs[..i]) + xs[i]
  {
    assert xs[..i + 1] == xs[..i] + [xs[i]];
    SumSnoc(xs[..i], xs[i]);
  }

  lemma SumOfNone(xs: seq<nat>)
    ensures Sum(xs[..0]) == 0 && xs[..|xs|] == xs
  {
  }

  lemma {:induction false} FileStartIsSum(s: Shard, k: nat)
    requires k <= |s.fileHeaders|
    ensures FileStart(s, k) == Sum(SegmentCounts(s)[..k])
  {
    hide Sum;
    SumOfNone(SegmentCounts(s));
    if k > 0 {
      FileStartIsSum(s, k - 1);
      SumTo(SegmentCounts(s), k - 1);
    }
  }

  lemma {:induction false} XorbStartIsSum(s: Shard, k: nat)
    requires k <= |s.xorbHeaders|
    ensures XorbStart(s, k) == Sum(ChunkCounts(s)[..k])
  {
    hide Sum;
    SumOfNone(ChunkCounts(s));
    if k > 0 {
      XorbStartIsSum(s, k - 1);
      SumTo(ChunkCounts(s), k - 1);
    }
  }

  /** The segments of file `k`. */
  function SegmentsFor(s: Shard, k: nat): seq<Segment>
    requires k < |s.fileHeaders| && Sum(SegmentCounts(s)[..k + 1]) <= |s.segments|
  {
    SumTo(SegmentCounts(s), k);
    s.segments[Sum(SegmentCounts(s)[..k])..Sum(SegmentCounts(s)[..k + 1])]
  }

  lemma SameSegments(s: Shard, k: nat)
    requires k < |s.fileHeaders| && FileStart(s, k + 1) <= |s.segments|
    ensures Sum(SegmentCounts(s)[..k + 1]) <= |s.segments| && SegmentsFor(s, k) == FileSegments(s, k)
  {
    hide Sum, FileStart;
    FileStartIsSum(s, k);
    FileStartIsSum(s, k + 1);
  }

  function Lengths(segs: seq<Segment>): (lens: seq<nat>)
    ensures |lens| == |segs|
  {
    seq(|segs|, i requires 0 <= i < |segs| => SegmentLength(segs[i]))
  }

  function SegmentLength(seg: Segment): nat {
    if seg.chunkStart <= seg.chunkEnd then seg.chunkEnd - seg.chunkStart else 0
  }

  function DeclaredSizes(segs: seq<Segment>): (sizes: seq<nat>)
    ensures |sizes| == |segs|
  {
    seq(|segs|, i requires 0 <= i < |segs| => segs[i].unpackedBytes)
  }

  lemma {:induction false} DeclaredTotalIsSum(segs: seq<Segment>)
    ensures DeclaredTotal(segs) == Sum(DeclaredSizes(segs))
  {
    if segs != [] {
      DeclaredTotalIsSum(segs[1..]);
      assert DeclaredSizes(segs)[1..] == DeclaredSizes(segs[1..]);
    }
  }

  // ----- which segments can be planned -----

  /** The entry of chunk `c` of xorb `x`. */
  predicate EntryExists(s: Shard, x: nat, c: nat) {
    x < |s.xorbHeaders| && Sum(ChunkCounts(s)[..x]) + c < |s.xorbChunks|
  }

  function EntryOf(s: Shard, x: nat, c: nat): XorbChunk
    requires EntryExists(s, x, c)
  {
    s.xorbChunks[Sum(ChunkCounts(s)[..x]) + c]
  }

  function TakenSize(s: Shard, seg: Segment, x: nat, j: nat): nat
    requires j < SegmentLength(seg) && forall c: nat | seg.chunkStart <= c < seg.chunkEnd :: EntryExists(s, x, c)
  {
    assert EntryExists(s, x, seg.chunkStart + j);
    EntryOf(s, x, seg.chunkStart + j).unpackedBytes
  }

  /** The unpacked sizes of the chunks that a segment takes from xorb `x`. */
  function TakenSizes(s: Shard, seg: Segment, x: nat): (sizes: seq<nat>)
    requires forall c: nat | seg.chunkStart <= c < seg.chunkEnd :: EntryExists(s, x, c)
    ensures |sizes| == SegmentLength(seg)
  {
    seq(SegmentLength(seg), j requires 0 <= j < SegmentLength(seg) => TakenSize(s, seg, x, j))
  }

  /** Chunk `c` of a xorb has the raw hash `raw` in the lookup table. */
  ghost predicate LookedUp(s: Shard, xorbHash: Hash, c: nat, raw: Hash) {
    exists l :: 0 <= l < |s.lookups| && s.lookups[l].xorbHash == xorbHash && s.lookups[l].chunkIndex == c
             && s.lookups[l].chunkHash == raw
  }

  ghost predicate HasRaw(s: Shard, xorbHash: Hash, c: nat) { exists raw :: LookedUp(s, xorbHash, c, raw) }

  /** The segment is a range of chunks of xorb `x`, all looked up, whose sizes sum to the declared total. */
  ghost predicate Takes(s: Shard, seg: Segment, x: nat) {
    && x < |s.xorbHeaders| && s.xorbHeaders[x].xorbHash == seg.xorbHash
    && seg.chunkStart <= seg.chunkEnd <= s.xorbHeaders[x].numEntries
    && (forall c: nat | seg.chunkStart <= c < seg.chunkEnd :: EntryExists(s, x, c))
    && (forall c: nat | seg.chunkStart <= c < seg.chunkEnd :: HasRaw(s, seg.xorbHash, c))
    && Sum(TakenSizes(s, seg, x)) == seg.unpackedBytes
  }

  ghost predicate TakenSomewhere(s: Shard, seg: Segment) { exists x: nat :: Takes(s, seg, x) }

  lemma RangeIsOfXorb(s: Shard, x: nat)
    requires XorbsUsable(s, |s.xorbHeaders|) && x < |s.xorbHeaders|
    ensures var t, h := TablesOf(s), s.xorbHeaders[x];
            && h.xorbHash in t.ranges && t.ranges[h.xorbHash] == (Sum(ChunkCounts(s)[..x]), h.numEntries as nat)
            && Sum(ChunkCounts(s)[..x]) + h.numEntries <= |t.chunks|
  {
    hide XorbRanges, RawHashes, Sum, XorbStart;
    XorbRangesMeaning(s, |s.xorbHeaders|);
    XorbStartIsSum(s, x);
    XorbStartIsSum(s, x + 1);
    SumTo(ChunkCounts(s), x);
    XorbStartMonotone(s, x + 1, |s.xorbHeaders|);
  }

  lemma XorbOfRange(s: Shard, h: Hash) returns (x: nat)
    requires XorbsUsable(s, |s.xorbHeaders|) && h in TablesOf(s).ranges
    ensures x < |s.xorbHeaders| && s.xorbHeaders[x].xorbHash == h
  {
    hide XorbRanges, RawHashes, XorbStart;
    XorbRangesMeaning(s, |s.xorbHeaders|);
    x :| 0 <= x < |s.xorbHeaders| && s.xorbHeaders[x].xorbHash == h;
  }

  lemma RawIsLookedUp(s: Shard, h: Hash, c: u32)
    requires LookupsUsable(s, |s.lookups|)
    ensures (h, c) in TablesOf(s).raw <==> HasRaw(s, h, c)
    ensures forall raw | LookedUp(s, h, c, raw) :: (h, c) in TablesOf(s).raw && TablesOf(s).raw[(h, c)] == raw
  {
    hide XorbRanges, RawHashes;
    RawHashesMeaning(s, |s.lookups|);
    if (h, c) in TablesOf(s).raw {
      var l :| 0 <= l < |s.lookups| && Key(s.lookups[l]) == (h, c);
      assert LookedUp(s, h, c, s.lookups[l].chunkHash);
    }
    forall raw | LookedUp(s, h, c, raw)
      ensures (h, c) in TablesOf(s).raw && TablesOf(s).raw[(h, c)] == raw
    {
      var l :| 0 <= l < |s.lookups| && s.lookups[l].xorbHash == h && s.lookups[l].chunkIndex == c
          && s.lookups[l].chunkHash == raw;
      assert Key(s.lookups[l]) == (h, c);
    }
  }

  ghost predicate Usable(s: Shard) { XorbsUsable(s, |s.xorbHeaders|) && LookupsUsable(s, |s.lookups|) }

  lemma ChunkLookedUp(s: Shard, seg: Segment, c: nat)
    requires Usable(s) && c < U32
    ensures ChunkPlannable(TablesOf(s), seg, c) <==> HasRaw(s, seg.xorbHash, c)
  {
    hide XorbsUsable, LookupsUsable, TablesOf, HasRaw;
    RawIsLookedUp(s, seg.xorbHash, c);
  }

  lemma PlannableTakes(s: Shard, seg: Segment, x: nat)
    requires Usable(s) && x < |s.xorbHeaders| && s.xorbHeaders[x].xorbHash == seg.xorbHash
    ensures SegmentPlannable(TablesOf(s), seg)
       <==> && seg.chunkStart <= seg.chunkEnd <= s.xorbHeaders[x].numEntries
            && forall c: nat | seg.chunkStart <= c < seg.chunkEnd :: HasRaw(s, seg.xorbHash, c)
    ensures seg.chunkEnd <= s.xorbHeaders[x].numEntries ==>
              forall c: nat | seg.chunkStart <= c < seg.chunkEnd :: EntryExists(s, x, c)
  {
    hide XorbsUsable, LookupsUsable, TablesOf, HasRaw, ChunkPlannable, Sum;
    RangeIsOfXorb(s, x);
    forall c: nat | seg.chunkStart <= c < seg.chunkEnd
      ensures ChunkPlannable(TablesOf(s), seg, c) <==> HasRaw(s, seg.xorbHash, c)
    {
      ChunkLookedUp(s, seg, c);
    }
    assert TablesOf(s).chunks == s.xorbChunks by { ChunksOfTables(s); }
  }

  lemma ChunksOfTables(s: Shard)
    ensures TablesOf(s).chunks == s.xorbChunks
  {
    hide XorbRanges, RawHashes;
  }

  lemma {:induction false} PlannedSizes(chunks: seq<PlannedChunk>, sizes: seq<nat>)
    requires |sizes| == |chunks| && forall i | 0 <= i < |sizes| :: sizes[i] == chunks[i].unpackedBytes
    ensures UnpackedTotal(chunks) == Sum(sizes)
  {
    if chunks != [] {
      PlannedSizes(chunks[1..], sizes[1..]);
    }
  }

  /** What chunk `j` of a planned segment says. */
  lemma PlannedChunkIs(s: Shard, seg: Segment, x: nat, j: nat)
    requires Usable(s) && x < |s.xorbHeaders| && s.xorbHeaders[x].xorbHash == seg.xorbHash
    requires SegmentPlannable(TablesOf(s), seg) && j < seg.chunkEnd - seg.chunkStart
    ensures var c, p := seg.chunkStart + j, SegmentPlan(TablesOf(s), seg, seg.chunkEnd)[j];
            && EntryExists(s, x, c) && p.xorbHash == seg.xorbHash && p.chunkIndex == c
            && var e := EntryOf(s, x, c);
               p.byteStart == e.byteStart && p.unpackedBytes == e.unpackedBytes && p.serializedHash == e.chunkHash
    ensures LookedUp(s, seg.xorbHash, seg.chunkStart + j, SegmentPlan(TablesOf(s), seg, seg.chunkEnd)[j].rawHash)
  {
    hide XorbsUsable, LookupsUsable, TablesOf, LookedUp, Sum;
    var t, c := TablesOf(s), seg.chunkStart + j;
    assert ChunkPlannable(t, seg, c);
    RangeIsOfXorb(s, x);
    ChunksOfTables(s);
    RawIsLookedUp(s, seg.xorbHash, c);
    assert SegmentPlan(t, seg, seg.chunkEnd)[j] == ChunkPlan(t, seg, c);
  }

  lemma SegmentOkTakes(s: Shard, seg: Segment)
    requires Usable(s)
    ensures SegmentOk(TablesOf(s), seg) <==> TakenSomewhere(s, seg)
  {
    hide Usable, TablesOf, SegmentPlannable, SegmentPlan, UnpackedTotal, Takes;
    if SegmentOk(TablesOf(s), seg) {
      var x := PlannedXorb(s, seg);
      SegmentOkTakesFrom(s, seg, x);
    }
    if TakenSomewhere(s, seg) {
      var x: nat :| Takes(s, seg, x);
      TakenFrom(s, seg, x);
      SegmentOkTakesFrom(s, seg, x);
    }
  }

  lemma TakenFrom(s: Shard, seg: Segment, x: nat)
    requires Takes(s, seg, x)
    ensures x < |s.xorbHeaders| && s.xorbHeaders[x].xorbHash == seg.xorbHash
  {
    hide Sum, LookedUp, EntryExists;
  }

  lemma PlannedXorb(s: Shard, seg: Segment) returns (x: nat)
    requires Usable(s) && SegmentPlannable(TablesOf(s), seg)
    ensures x < |s.xorbHeaders| && s.xorbHeaders[x].xorbHash == seg.xorbHash
  {
    hide TablesOf, XorbsUsable, LookupsUsable, ChunkPlannable;
    x := XorbOfRange(s, seg.xorbHash);
  }

  lemma SegmentOkTakesFrom(s: Shard, seg: Segment, x: nat)
    requires Usable(s) && x < |s.xorbHeaders| && s.xorbHeaders[x].xorbHash == seg.xorbHash
    ensures SegmentOk(TablesOf(s), seg) <==> Takes(s, seg, x)
  {
    hide Usable, TablesOf, SegmentPlannable, SegmentPlan, HasRaw, UnpackedTotal, Sum, EntryExists, TakenSizes;
    PlannableTakes(s, seg, x);
    if SegmentPlannable(TablesOf(s), seg) {
      TakenTotal(s, seg, x);
    }
  }

  lemma TakenTotal(s: Shard, seg: Segment, x: nat)
    requires Usable(s) && x < |s.xorbHeaders| && s.xorbHeaders[x].xorbHash == seg.xorbHash
    requires SegmentPlannable(TablesOf(s), seg)
    requires forall c: nat | seg.chunkStart <= c < seg.chunkEnd :: EntryExists(s, x, c)
    ensures seg.chunkStart <= seg.chunkEnd
    ensures UnpackedTotal(SegmentPlan(TablesOf(s), seg, seg.chunkEnd)) == Sum(TakenSizes(s, seg, x))
  {
    hide Usable, TablesOf, LookedUp, UnpackedTotal, Sum, ChunkPlannable, SegmentPlan, EntryExists;
    var plan, sizes := SegmentPlan(TablesOf(s), seg, seg.chunkEnd), TakenSizes(s, seg, x);
    forall j | 0 <= j < |sizes|
      ensures sizes[j] == plan[j].unpackedBytes
    {
      PlannedChunkIs(s, seg, x, j);
    }
    PlannedSizes(plan, sizes);
  }

  // ----- whole files -----

  /** The tables are well formed for file `k`, said without any of the planner's maps. */
  ghost predicate WellFormedFor(s: Shard, fileHash: Hash, k: nat) {
    && k < |s.fileHeaders| && s.fileHeaders[k].fileHash == fileHash
    && Sum(SegmentCounts(s)[..k + 1]) <= |s.segments|
    && Sum(ChunkCounts(s)) <= |s.xorbChunks|
    && (forall i, j | 0 <= i < j < |s.xorbHeaders| :: s.xorbHeaders[i].xorbHash != s.xorbHeaders[j].xorbHash)
    && (forall i, j | 0 <= i < j < |s.lookups| ::
          s.lookups[i].xorbHash != s.lookups[j].xorbHash || s.lookups[i].chunkIndex != s.lookups[j].chunkIndex)
    && (forall i | 0 <= i < |SegmentsFor(s, k)| :: TakenSomewhere(s, SegmentsFor(s, k)[i]))
    && Sum(DeclaredSizes(SegmentsFor(s, k))) < U64
  }

  lemma UsableExactly(s: Shard)
    ensures Usable(s)
       <==> && Sum(ChunkCounts(s)) <= |s.xorbChunks|
            && (forall i, j | 0 <= i < j < |s.xorbHeaders| :: s.xorbHeaders[i].xorbHash != s.xorbHeaders[j].xorbHash)
            && (forall i, j | 0 <= i < j < |s.lookups| ::
                  s.lookups[i].xorbHash != s.lookups[j].xorbHash || s.lookups[i].chunkIndex != s.lookups[j].chunkIndex)
  {
    hide XorbStart, Sum;
    XorbStartIsSum(s, |s.xorbHeaders|);
    SumOfNone(ChunkCounts(s));
    if forall i, j | 0 <= i < j < |s.lookups| ::
         s.lookups[i].xorbHash != s.lookups[j].xorbHash || s.lookups[i].chunkIndex != s.lookups[j].chunkIndex {
      forall i, j | 0 <= i < j < |s.lookups|
        ensures Key(s.lookups[i]) != Key(s.lookups[j])
      {
        assert s.lookups[i].xorbHash != s.lookups[j].xorbHash || s.lookups[i].chunkIndex != s.lookups[j].chunkIndex;
      }
    }
    if LookupsUsable(s, |s.lookups|) {
      forall i, j | 0 <= i < j < |s.lookups|
        ensures s.lookups[i].xorbHash != s.lookups[j].xorbHash || s.lookups[i].chunkIndex != s.lookups[j].chunkIndex
      {
        assert Key(s.lookups[i]) != Key(s.lookups[j]);
      }
    }
  }

  /** A plan for file `k` exists exactly on well-formed tables. */
  lemma PlanExistsExactly(s: Shard, fileHash: Hash, k: nat)
    ensures Plan(s, fileHash, Some(k)).Ok? <==> WellFormedFor(s, fileHash, k)
  {
    hide Usable, FileStart, TablesOf, SegmentOk, TakenSomewhere, Sum, PlanOf, DeclaredTotal, FileSegments, SegmentsFor;
    if k < |s.fileHeaders| {
      UsableExactly(s);
      UsableIs(s);
      FileStartIsSum(s, k + 1);
      if FileStart(s, k + 1) <= |s.segments| {
        SameSegments(s, k);
        DeclaredTotalIsSum(FileSegments(s, k));
        if Usable(s) {
          forall i | 0 <= i < |FileSegments(s, k)|
            ensures SegmentOk(TablesOf(s), FileSegments(s, k)[i]) <==> TakenSomewhere(s, FileSegments(s, k)[i])
          {
            SegmentOkTakes(s, FileSegments(s, k)[i]);
          }
        }
      }
    }
  }

  lemma UsableIs(s: Shard)
    ensures Usable(s) <==> XorbsUsable(s, |s.xorbHeaders|) && LookupsUsable(s, |s.lookups|)
  {
    hide XorbsUsable, LookupsUsable;
  }

  lemma {:induction false} PlanOfAt(t: Tables, segs: seq<Segment>, i: nat, j: nat)
    requires SegmentsOk(t, segs) && i < |segs| && j < SegmentLength(segs[i])
    ensures |PlanOf(t, segs)| == Sum(Lengths(segs))
    ensures Sum(Lengths(segs)[..i]) + j < |PlanOf(t, segs)|
    ensures SegmentPlannable(t, segs[i])
    ensures PlanOf(t, segs)[Sum(Lengths(segs)[..i]) + j] == SegmentPlan(t, segs[i], segs[i].chunkEnd)[j]
  {
    hide SegmentPlannable, SegmentPlan, UnpackedTotal;
    PlanLength(t, segs);
    assert SegmentOk(t, segs[0]) && SegmentOk(t, segs[i]);
    PlannableRange(t, segs[0]);
    assert forall m | 0 <= m < |segs[1..]| :: segs[1..][m] == segs[m + 1];
    if i > 0 {
      PlanOfAt(t, segs[1..], i - 1, j);
      assert Lengths(segs)[..i] == [SegmentLength(segs[0])] + Lengths(segs[1..])[..i - 1];
      assert Sum(Lengths(segs)[..i]) == SegmentLength(segs[0]) + Sum(Lengths(segs[1..])[..i - 1]);
    } else {
      SumOfNone(Lengths(segs));
    }
  }

  lemma PlannableRange(t: Tables, seg: Segment)
    requires SegmentPlannable(t, seg)
    ensures seg.chunkStart <= seg.chunkEnd && |SegmentPlan(t, seg, seg.chunkEnd)| == SegmentLength(seg)
  {
    hide ChunkPlannable;
  }

  lemma {:induction false} PlanLength(t: Tables, segs: seq<Segment>)
    requires SegmentsOk(t, segs)
    ensures |PlanOf(t, segs)| == Sum(Lengths(segs))
  {
    hide SegmentPlannable, SegmentPlan, UnpackedTotal;
    if segs != [] {
      assert SegmentOk(t, segs[0]);
      PlannableRange(t, segs[0]);
      assert forall m | 0 <= m < |segs[1..]| :: segs[1..][m] == segs[m + 1];
      PlanLength(t, segs[1..]);
      assert Lengths(segs)[1..] == Lengths(segs[1..]);
    }
  }

  /**
   * Every chunk of a plan: chunk `j` of segment `i` comes after the chunks of the segments before, and is the entry and
   * the raw hash that the tables hold for it.
   */
  lemma PlanIsInOrder(s: Shard, fileHash: Hash, k: nat, i: nat, j: nat, x: nat)
    requires Plan(s, fileHash, Some(k)).Ok? && k < |s.fileHeaders| && Sum(SegmentCounts(s)[..k + 1]) <= |s.segments|
    requires i < |SegmentsFor(s, k)| && j < SegmentLength(SegmentsFor(s, k)[i])
    requires x < |s.xorbHeaders| && s.xorbHeaders[x].xorbHash == SegmentsFor(s, k)[i].xorbHash
    ensures var chunks, segs := Plan(s, fileHash, Some(k)).value.chunks, SegmentsFor(s, k);
            var at, c := Sum(Lengths(segs)[..i]) + j, segs[i].chunkStart + j;
            && |chunks| == Sum(Lengths(segs)) && at < |chunks| && EntryExists(s, x, c)
            && var p, e := chunks[at], EntryOf(s, x, c);
               && p.xorbHash == segs[i].xorbHash && p.chunkIndex == c
               && p.byteStart == e.byteStart && p.unpackedBytes == e.unpackedBytes && p.serializedHash == e.chunkHash
               && LookedUp(s, segs[i].xorbHash, c, p.rawHash)
  {
    hide Usable, FileStart, TablesOf, SegmentsOk, Sum, PlanOf, DeclaredTotal, EntryExists, EntryOf, LookedUp,
         SegmentsFor, SegmentPlannable, SegmentPlan, XorbsUsable, LookupsUsable;
    UsableIs(s);
    FileStartIsSum(s, k + 1);
    SameSegments(s, k);
    PlanOfAt(TablesOf(s), FileSegments(s, k), i, j);
    PlannableRange(TablesOf(s), FileSegments(s, k)[i]);
    PlannedChunkIs(s, FileSegments(s, k)[i], x, j);
  }
}
