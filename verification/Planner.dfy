/** The reconstruction planner: from shard tables to the ordered chunks of a file. */
module Planner {
  import opened Bytes
  import opened ShardFormat
  import opened ShardSections
  import opened ShardParser

  datatype PlannedChunk = PlannedChunk(xorbHash: Hash, chunkIndex: u32, byteStart: u32, unpackedBytes: u32,
                                       serializedHash: Hash, rawHash: Hash)

  datatype PlannedFile = PlannedFile(fileHash: Hash, fileIndex: nat, chunks: seq<PlannedChunk>, totalUnpacked: nat)

  // ----- ranges inside the flat tables -----

  /** Where the segments of file `k` start. */
  function FileStart(s: Shard, k: nat): nat
    requires k <= |s.fileHeaders|
  {
    if k == 0 then 0 else FileStart(s, k - 1) + s.fileHeaders[k - 1].numEntries
  }

  /** Where the chunks of xorb `k` start. */
  function XorbStart(s: Shard, k: nat): nat
    requires k <= |s.xorbHeaders|
  {
    if k == 0 then 0 else XorbStart(s, k - 1) + s.xorbHeaders[k - 1].numEntries
  }

  /** The tables can be used: no xorb twice, no chunk entry missing, no chunk looked up twice. */
  predicate XorbsUsable(s: Shard, n: nat)
    requires n <= |s.xorbHeaders|
  {
    && (forall i, j | 0 <= i < j < n :: s.xorbHeaders[i].xorbHash != s.xorbHeaders[j].xorbHash)
    && XorbStart(s, n) <= |s.xorbChunks|
  }

  function Key(l: Lookup): (Hash, u32) { (l.xorbHash, l.chunkIndex) }

  predicate LookupsUsable(s: Shard, n: nat)
    requires n <= |s.lookups|
  {
    forall i, j | 0 <= i < j < n :: Key(s.lookups[i]) != Key(s.lookups[j])
  }

  /** Range of each xorb in the chunk table, by hash. */
  function XorbRanges(s: Shard, n: nat): map<Hash, (nat, nat)>
    requires n <= |s.xorbHeaders|
  {
    if n == 0 then map[]
    else XorbRanges(s, n - 1)[s.xorbHeaders[n - 1].xorbHash := (XorbStart(s, n - 1), s.xorbHeaders[n - 1].numEntries)]
  }

  function RawHashes(s: Shard, n: nat): map<(Hash, u32), Hash>
    requires n <= |s.lookups|
  {
    if n == 0 then map[] else RawHashes(s, n - 1)[Key(s.lookups[n - 1]) := s.lookups[n - 1].chunkHash]
  }

  /** The range map holds exactly the xorbs of the table, each with its own range. */
  lemma XorbRangesMeaning(s: Shard, n: nat)
    requires n <= |s.xorbHeaders| && XorbsUsable(s, n)
    ensures forall h :: h in XorbRanges(s, n) <==> exists i :: 0 <= i < n && s.xorbHeaders[i].xorbHash == h
    ensures forall i | 0 <= i < n ::
              && s.xorbHeaders[i].xorbHash in XorbRanges(s, n)
              && XorbRanges(s, n)[s.xorbHeaders[i].xorbHash] == (XorbStart(s, i), s.xorbHeaders[i].numEntries)
  {
    hide XorbStart, XorbRanges;
    XorbRangesKeys(s, n);
    forall i | 0 <= i < n
      ensures s.xorbHeaders[i].xorbHash in XorbRanges(s, n)
      ensures XorbRanges(s, n)[s.xorbHeaders[i].xorbHash] == (XorbStart(s, i), s.xorbHeaders[i].numEntries)
    {
      XorbRangeAt(s, n, i);
    }
  }

  lemma {:induction false} XorbRangesKeys(s: Shard, n: nat)
    requires n <= |s.xorbHeaders|
    ensures forall h :: h in XorbRanges(s, n) <==> exists i :: 0 <= i < n && s.xorbHeaders[i].xorbHash == h
  {
    hide XorbStart;
    if n > 0 {
      XorbRangesKeys(s, n - 1);
    }
  }

  lemma {:induction false} XorbRangeAt(s: Shard, n: nat, i: nat)
    requires i < n <= |s.xorbHeaders|
    requires forall j, k | 0 <= j < k < n :: s.xorbHeaders[j].xorbHash != s.xorbHeaders[k].xorbHash
    ensures s.xorbHeaders[i].xorbHash in XorbRanges(s, n)
    ensures XorbRanges(s, n)[s.xorbHeaders[i].xorbHash] == (XorbStart(s, i), s.xorbHeaders[i].numEntries)
  {
    hide XorbStart;
    if i < n - 1 {
      XorbRangeAt(s, n - 1, i);
    }
  }

  lemma {:induction false} XorbStartMonotone(s: Shard, j: nat, k: nat)
    requires j <= k <= |s.xorbHeaders|
    ensures XorbStart(s, j) <= XorbStart(s, k)
    decreases k
  {
    if j < k {
      XorbStartMonotone(s, j, k - 1);
    }
  }

  lemma {:induction false} RawHashesMeaning(s: Shard, n: nat)
    requires n <= |s.lookups| && LookupsUsable(s, n)
    ensures forall k :: k in RawHashes(s, n) <==> exists i :: 0 <= i < n && Key(s.lookups[i]) == k
    ensures forall i | 0 <= i < n ::
              Key(s.lookups[i]) in RawHashes(s, n) && RawHashes(s, n)[Key(s.lookups[i])] == s.lookups[i].chunkHash
  {
    if n > 0 {
      RawHashesMeaning(s, n - 1);
    }
  }

  // ----- what a plan is -----

  datatype Tables = Tables(ranges: map<Hash, (nat, nat)>, raw: map<(Hash, u32), Hash>, chunks: seq<XorbChunk>)

  function TablesOf(s: Shard): Tables {
    Tables(XorbRanges(s, |s.xorbHeaders|), RawHashes(s, |s.lookups|), s.xorbChunks)
  }

  /** Every range lies inside the chunk table. */
  ghost predicate RangesInside(t: Tables) {
    forall h | h in t.ranges :: t.ranges[h].0 + t.ranges[h].1 <= |t.chunks|
  }

  predicate ChunkPlannable(t: Tables, seg: Segment, i: nat) {
    i < U32 && (seg.xorbHash, i) in t.raw
  }

  /** The segment names a known xorb, a range inside it, and only chunks with a raw hash. */
  predicate SegmentPlannable(t: Tables, seg: Segment) {
    && seg.chunkStart <= seg.chunkEnd
    && seg.xorbHash in t.ranges
    && seg.chunkEnd <= t.ranges[seg.xorbHash].1
    && t.ranges[seg.xorbHash].0 + t.ranges[seg.xorbHash].1 <= |t.chunks|
    && forall i: nat | seg.chunkStart <= i < seg.chunkEnd :: ChunkPlannable(t, seg, i)
  }

  function ChunkPlan(t: Tables, seg: Segment, i: nat): PlannedChunk
    requires ChunkPlannable(t, seg, i) && seg.xorbHash in t.ranges && t.ranges[seg.xorbHash].0 + i < |t.chunks|
  {
    var e := t.chunks[t.ranges[seg.xorbHash].0 + i];
    PlannedChunk(seg.xorbHash, i, e.byteStart, e.unpackedBytes, e.chunkHash, t.raw[(seg.xorbHash, i)])
  }

  /** The segment's slice of its xorb's entries. */
  function SegmentPlan(t: Tables, seg: Segment, end: nat): (plan: seq<PlannedChunk>)
    requires SegmentPlannable(t, seg) && seg.chunkStart <= end <= seg.chunkEnd
    ensures |plan| == end - seg.chunkStart
  {
    seq(end - seg.chunkStart, k requires 0 <= k < end - seg.chunkStart =>
      assert ChunkPlannable(t, seg, seg.chunkStart + k); ChunkPlan(t, seg, seg.chunkStart + k))
  }

  function UnpackedTotal(chunks: seq<PlannedChunk>): nat {
    if chunks == [] then 0 else chunks[0].unpackedBytes + UnpackedTotal(chunks[1..])
  }

  lemma {:induction false} UnpackedTotalAppend(a: seq<PlannedChunk>, b: seq<PlannedChunk>)
    ensures UnpackedTotal(a + b) == UnpackedTotal(a) + UnpackedTotal(b)
  {
    if a == [] {
      assert a + b == b;
    } else {
      UnpackedTotalAppend(a[1..], b);
      assert (a + b)[1..] == a[1..] + b;
    }
  }

  lemma UnpackedTotalSnoc(chunks: seq<PlannedChunk>, p: PlannedChunk)
    ensures UnpackedTotal(chunks + [p]) == UnpackedTotal(chunks) + p.unpackedBytes
  {
    UnpackedTotalAppend(chunks, [p]);
    assert UnpackedTotal([p]) == p.unpackedBytes + UnpackedTotal([]);
  }

  /** A plannable segment whose chunks have the declared total. */
  predicate SegmentOk(t: Tables, seg: Segment) {
    SegmentPlannable(t, seg) && UnpackedTotal(SegmentPlan(t, seg, seg.chunkEnd)) == seg.unpackedBytes
  }

  predicate SegmentsOk(t: Tables, segs: seq<Segment>) {
    forall i | 0 <= i < |segs| :: SegmentOk(t, segs[i])
  }

  /** The slices of the segments, in order. */
  function PlanOf(t: Tables, segs: seq<Segment>): seq<PlannedChunk>
    requires SegmentsOk(t, segs)
  {
    if segs == [] then []
    else
      assert SegmentOk(t, segs[0]);
      assert forall i | 0 <= i < |segs[1..]| :: segs[1..][i] == segs[i + 1];
      SegmentPlan(t, segs[0], segs[0].chunkEnd) + PlanOf(t, segs[1..])
  }

  function DeclaredTotal(segs: seq<Segment>): nat {
    if segs == [] then 0 else segs[0].unpackedBytes + DeclaredTotal(segs[1..])
  }

  /** The total of a plan is both the sum of its chunks and the sum its segments declare. */
  lemma {:induction false} PlanTotal(t: Tables, segs: seq<Segment>)
    requires SegmentsOk(t, segs)
    ensures UnpackedTotal(PlanOf(t, segs)) == DeclaredTotal(segs)
  {
    hide SegmentPlannable, SegmentPlan;
    if segs != [] {
      assert SegmentOk(t, segs[0]);
      assert forall i | 0 <= i < |segs[1..]| :: segs[1..][i] == segs[i + 1];
      PlanTotal(t, segs[1..]);
      UnpackedTotalAppend(SegmentPlan(t, segs[0], segs[0].chunkEnd), PlanOf(t, segs[1..]));
    }
  }

  function FileSegments(s: Shard, k: nat): seq<Segment>
    requires k < |s.fileHeaders| && FileStart(s, k + 1) <= |s.segments|
  {
    s.segments[FileStart(s, k)..FileStart(s, k + 1)]
  }

  function FirstIndex(headers: seq<FileHeader>, fileHash: Hash, from: nat): Option<nat>
    requires from <= |headers|
    decreases |headers| - from
  {
    if from == |headers| then None
    else if headers[from].fileHash == fileHash then Some(from)
    else FirstIndex(headers, fileHash, from + 1)
  }

  /** The file meant: at the expected index, or the first with the hash. */
  function ChooseFile(s: Shard, fileHash: Hash, expected: Option<nat>): (r: Option<nat>)
    ensures r.Some? ==> r.value < |s.fileHeaders| && s.fileHeaders[r.value].fileHash == fileHash
  {
    match expected
    case Some(k) => if k < |s.fileHeaders| && s.fileHeaders[k].fileHash == fileHash then Some(k) else None
    case None => FirstIndexFound(s.fileHeaders, fileHash, 0); FirstIndex(s.fileHeaders, fileHash, 0)
  }

  lemma {:induction false} FirstIndexFound(headers: seq<FileHeader>, fileHash: Hash, from: nat)
    requires from <= |headers|
    ensures match FirstIndex(headers, fileHash, from)
            case Some(k) => from <= k < |headers| && headers[k].fileHash == fileHash
                            && forall j | from <= j < k :: headers[j].fileHash != fileHash
            case None => forall j | from <= j < |headers| :: headers[j].fileHash != fileHash
    decreases |headers| - from
  {
    if from < |headers| && headers[from].fileHash != fileHash {
      FirstIndexFound(headers, fileHash, from + 1);
    }
  }

  /** The tables are well formed for file `k`. */
  predicate Plannable(s: Shard, k: nat)
    requires k < |s.fileHeaders|
  {
    && FileStart(s, k + 1) <= |s.segments|
    && XorbsUsable(s, |s.xorbHeaders|)
    && LookupsUsable(s, |s.lookups|)
    && SegmentsOk(TablesOf(s), FileSegments(s, k))
    && DeclaredTotal(FileSegments(s, k)) < U64
  }

  /** A plan exists exactly for well-formed tables, and is the concatenation of the segments' slices. */
  function Plan(s: Shard, fileHash: Hash, expected: Option<nat>): Result<PlannedFile> {
    match ChooseFile(s, fileHash, expected)
    case None => Err
    case Some(k) =>
      if !Plannable(s, k) then Err
      else Ok(PlannedFile(fileHash, k, PlanOf(TablesOf(s), FileSegments(s, k)), DeclaredTotal(FileSegments(s, k))))
  }

  // ----- the segment ranges of a parsed shard tile the segment table -----

  lemma {:induction false} SharesTotal(headers: seq<FileHeader>, segments: seq<Segment>)
    requires Shares(FILES, headers, segments)
    ensures SegmentTotal(headers) == |segments|
  {
    if headers != [] {
      SharesTotal(headers[1..], segments[headers[0].numEntries..]);
    }
  }

  function SegmentTotal(headers: seq<FileHeader>): nat {
    if headers == [] then 0 else headers[0].numEntries + SegmentTotal(headers[1..])
  }

  lemma {:induction false} SegmentTotalSnoc(headers: seq<FileHeader>, h: FileHeader)
    ensures SegmentTotal(headers + [h]) == SegmentTotal(headers) + h.numEntries
  {
    if headers == [] {
      assert headers + [h] == [h];
    } else {
      SegmentTotalSnoc(headers[1..], h);
      assert (headers + [h])[1..] == headers[1..] + [h];
    }
  }

  lemma {:induction false} FileStartIsTotal(s: Shard, k: nat)
    requires k <= |s.fileHeaders|
    ensures FileStart(s, k) == SegmentTotal(s.fileHeaders[..k])
  {
    if k > 0 {
      FileStartIsTotal(s, k - 1);
      assert s.fileHeaders[..k] == s.fileHeaders[..k - 1] + [s.fileHeaders[k - 1]];
      SegmentTotalSnoc(s.fileHeaders[..k - 1], s.fileHeaders[k - 1]);
    }
  }

  /** In every parsed shard the files' ranges are consecutive and use up the segment table. */
  lemma FileRangesTile(data: Bytes, k: nat)
    requires Parse(data).Ok? && k < |Parse(data).value.fileHeaders|
    ensures var s := Parse(data).value;
            && FileStart(s, |s.fileHeaders|) == |s.segments|
            && FileStart(s, k) <= FileStart(s, k + 1) <= |s.segments|
            && s.segments[..FileStart(s, k)] + FileSegments(s, k) == s.segments[..FileStart(s, k + 1)]
  {
    hide Parse, Render, Shares, Declared, LookupsDeclared, FileBytes, XorbTableBytes, LookupBytes;
    var s := Parse(data).value;
    ParserExact(data, s);
    SharesTotal(s.fileHeaders, s.segments);
    FileStartIsTotal(s, |s.fileHeaders|);
    assert s.fileHeaders[..|s.fileHeaders|] == s.fileHeaders;
    FileStartMonotone(s, k + 1, |s.fileHeaders|);
    SliceJoin(s.segments, 0, FileStart(s, k), FileStart(s, k + 1));
  }

  lemma {:induction false} FileStartMonotone(s: Shard, j: nat, k: nat)
    requires j <= k <= |s.fileHeaders|
    ensures FileStart(s, j) <= FileStart(s, k)
    decreases k
  {
    if j < k {
      FileStartMonotone(s, j, k - 1);
    }
  }

  // ----- the planner -----

  lemma RangesStep(s: Shard, i: nat)
    requires i < |s.xorbHeaders| && XorbsUsable(s, i)
    ensures XorbsUsable(s, i + 1)
       <==> s.xorbHeaders[i].xorbHash !in XorbRanges(s, i) && XorbStart(s, i + 1) <= |s.xorbChunks|
    ensures !XorbsUsable(s, i + 1) ==> !XorbsUsable(s, |s.xorbHeaders|)
  {
    hide XorbRanges, XorbStart;
    XorbRangesMeaning(s, i);
    XorbStartMonotone(s, i + 1, |s.xorbHeaders|);
  }

  method BuildRanges(s: Shard) returns (r: Result<map<Hash, (nat, nat)>>)
    ensures r == if XorbsUsable(s, |s.xorbHeaders|) then Ok(XorbRanges(s, |s.xorbHeaders|)) else Err
  {
    hide XorbsUsable;
    var ranges: map<Hash, (nat, nat)>, offset := map[], 0;
    NothingUsed(s);
    for i := 0 to |s.xorbHeaders|
      invariant XorbsUsable(s, i) && ranges == XorbRanges(s, i) && offset == XorbStart(s, i)
    {
      var h := s.xorbHeaders[i];
      RangesStep(s, i);
      if h.xorbHash in ranges {
        return Err;
      }
      if offset + h.numEntries > |s.xorbChunks| {
        return Err;
      }
      ranges := ranges[h.xorbHash := (offset, h.numEntries)];
      offset := offset + h.numEntries;
    }
    r := Ok(ranges);
  }

  lemma NothingUsed(s: Shard)
    ensures XorbsUsable(s, 0) && LookupsUsable(s, 0)
  {
  }

  lemma LookupsStep(s: Shard, i: nat)
    requires i < |s.lookups| && LookupsUsable(s, i)
    ensures LookupsUsable(s, i + 1) <==> Key(s.lookups[i]) !in RawHashes(s, i)
    ensures !LookupsUsable(s, i + 1) ==> !LookupsUsable(s, |s.lookups|)
  {
    hide RawHashes, Key;
    RawHashesMeaning(s, i);
  }

  method BuildRawHashes(s: Shard) returns (r: Result<map<(Hash, u32), Hash>>)
    ensures r == if LookupsUsable(s, |s.lookups|) then Ok(RawHashes(s, |s.lookups|)) else Err
  {
    hide LookupsUsable, Key;
    var raw: map<(Hash, u32), Hash> := map[];
    NothingUsed(s);
    for i := 0 to |s.lookups|
      invariant LookupsUsable(s, i) && raw == RawHashes(s, i)
    {
      var key := Key(s.lookups[i]);
      LookupsStep(s, i);
      if key in raw {
        return Err;
      }
      raw := raw[key := s.lookups[i].chunkHash];
    }
    r := Ok(raw);
  }

  /** The slice of the first chunks of a segment, while it is being collected. */
  ghost predicate Collected(t: Tables, seg: Segment, end: nat, chunks: seq<PlannedChunk>, bytes: nat) {
    && seg.chunkStart <= end <= seg.chunkEnd && seg.xorbHash in t.ranges
    && t.ranges[seg.xorbHash].0 + end <= |t.chunks|
    && |chunks| == end - seg.chunkStart && bytes == UnpackedTotal(chunks)
    && forall k | 0 <= k < |chunks| :: PlannedAs(t, seg, seg.chunkStart + k, chunks[k])
  }

  ghost predicate PlannedAs(t: Tables, seg: Segment, i: nat, p: PlannedChunk) {
    && ChunkPlannable(t, seg, i) && seg.xorbHash in t.ranges && t.ranges[seg.xorbHash].0 + i < |t.chunks|
    && p == ChunkPlan(t, seg, i)
  }

  lemma CollectedStep(t: Tables, seg: Segment, i: nat, chunks: seq<PlannedChunk>, bytes: nat)
    requires Collected(t, seg, i, chunks, bytes) && i < seg.chunkEnd && ChunkPlannable(t, seg, i)
    requires t.ranges[seg.xorbHash].0 + i < |t.chunks|
    ensures var p := ChunkPlan(t, seg, i);
            Collected(t, seg, i + 1, chunks + [p], bytes + p.unpackedBytes)
  {
    var p := ChunkPlan(t, seg, i);
    UnpackedTotalSnoc(chunks, p);
    hide ChunkPlannable, UnpackedTotal;
    assert PlannedAs(t, seg, seg.chunkStart + |chunks|, p);
  }

  lemma CollectedAll(t: Tables, seg: Segment, chunks: seq<PlannedChunk>, bytes: nat)
    requires Collected(t, seg, seg.chunkEnd, chunks, bytes) && seg.chunkEnd <= t.ranges[seg.xorbHash].1
    requires t.ranges[seg.xorbHash].0 + t.ranges[seg.xorbHash].1 <= |t.chunks|
    ensures SegmentPlannable(t, seg) && chunks == SegmentPlan(t, seg, seg.chunkEnd)
    ensures SegmentOk(t, seg) <==> bytes == seg.unpackedBytes
  {
    forall i: nat | seg.chunkStart <= i < seg.chunkEnd
      ensures ChunkPlannable(t, seg, i)
    {
      var k := i - seg.chunkStart;
      assert PlannedAs(t, seg, seg.chunkStart + k, chunks[k]);
    }
    hide UnpackedTotal;
    var plan := SegmentPlan(t, seg, seg.chunkEnd);
    forall k | 0 <= k < |chunks|
      ensures chunks[k] == plan[k]
    {
      assert PlannedAs(t, seg, seg.chunkStart + k, chunks[k]);
    }
    assert chunks == plan;
  }

  /** One segment. The running byte count cannot overflow 64 bits: fewer than 2^32 chunks of fewer than 2^32 bytes. */
  method PlanSegment(t: Tables, seg: Segment) returns (r: Result<seq<PlannedChunk>>)
    requires RangesInside(t)
    ensures r.Ok? <==> SegmentOk(t, seg)
    ensures r.Ok? ==> r.value == SegmentPlan(t, seg, seg.chunkEnd)
  {
    hide SegmentPlan, Collected, UnpackedTotal;
    if seg.chunkEnd < seg.chunkStart || seg.xorbHash !in t.ranges {
      return Err;
    }
    var (globalStart, numEntries) := t.ranges[seg.xorbHash];
    if seg.chunkEnd > numEntries {
      return Err;
    }
    var chunks, bytes: nat := [], 0;
    NothingCollected(t, seg);
    var first: nat, last: nat := seg.chunkStart, seg.chunkEnd;
    for i := first to last
      invariant Collected(t, seg, i, chunks, bytes)
    {
      if (seg.xorbHash, i) !in t.raw {
        assert !ChunkPlannable(t, seg, i);
        return Err;
      }
      CollectedStep(t, seg, i, chunks, bytes);
      var entry := t.chunks[globalStart + i];
      chunks := chunks + [PlannedChunk(seg.xorbHash, i, entry.byteStart, entry.unpackedBytes, entry.chunkHash,
                                       t.raw[(seg.xorbHash, i)])];
      bytes := bytes + entry.unpackedBytes;
    }
    CollectedAll(t, seg, chunks, bytes);
    if bytes != seg.unpackedBytes {
      return Err;
    }
    r := Ok(chunks);
  }

  lemma NothingCollected(t: Tables, seg: Segment)
    requires seg.chunkStart <= seg.chunkEnd && seg.xorbHash in t.ranges
             && t.ranges[seg.xorbHash].0 + seg.chunkStart <= |t.chunks|
    ensures Collected(t, seg, seg.chunkStart, [], 0)
  {
  }

  lemma {:induction false} PlanSnoc(t: Tables, segs: seq<Segment>, seg: Segment)
    requires SegmentsOk(t, segs)
    ensures SegmentsOk(t, segs + [seg]) <==> SegmentOk(t, seg)
    ensures SegmentOk(t, seg) ==> PlanOf(t, segs + [seg]) == PlanOf(t, segs) + SegmentPlan(t, seg, seg.chunkEnd)
    ensures DeclaredTotal(segs + [seg]) == DeclaredTotal(segs) + seg.unpackedBytes
  {
    hide SegmentPlannable, SegmentPlan, UnpackedTotal;
    assert SegmentsOk(t, segs + [seg]) ==> SegmentOk(t, seg) by { assert (segs + [seg])[|segs|] == seg; }
    if segs == [] {
      assert segs + [seg] == [seg];
      if SegmentOk(t, seg) {
        assert SegmentsOk(t, [seg]);
        assert PlanOf(t, [seg]) == SegmentPlan(t, seg, seg.chunkEnd) + PlanOf(t, []);
      }
    } else {
      assert forall i | 0 <= i < |segs[1..]| :: segs[1..][i] == segs[i + 1];
      PlanSnoc(t, segs[1..], seg);
      assert (segs + [seg])[1..] == segs[1..] + [seg];
      assert SegmentOk(t, segs[0]);
      if SegmentOk(t, seg) {
        Assoc(SegmentPlan(t, segs[0], segs[0].chunkEnd), PlanOf(t, segs[1..]), SegmentPlan(t, seg, seg.chunkEnd));
      }
    }
  }

  lemma SegmentsOkPrefix(t: Tables, segs: seq<Segment>, i: nat)
    requires i < |segs|
    ensures !SegmentOk(t, segs[i]) ==> !SegmentsOk(t, segs)
    ensures segs[..i + 1] == segs[..i] + [segs[i]] && segs[..|segs|] == segs
  {
    hide SegmentOk;
  }

  lemma {:induction false} DeclaredTotalMonotone(segs: seq<Segment>, i: nat)
    requires i <= |segs|
    ensures DeclaredTotal(segs[..i]) <= DeclaredTotal(segs)
  {
    if i > 0 {
      DeclaredTotalMonotone(segs[1..], i - 1);
      assert segs[..i][1..] == segs[1..][..i - 1];
    }
  }

  method PlanSegments(t: Tables, segs: seq<Segment>) returns (r: Result<(seq<PlannedChunk>, nat)>)
    requires RangesInside(t)
    ensures r.Ok? <==> SegmentsOk(t, segs) && DeclaredTotal(segs) < U64
    ensures r.Ok? ==> r.value == (PlanOf(t, segs), DeclaredTotal(segs))
  {
    hide SegmentsOk, PlanOf, DeclaredTotal, SegmentOk, RangesInside;
    NothingPlanned(t);
    var chunks, total := [], 0;
    for i := 0 to |segs|
      invariant SegmentsOk(t, segs[..i]) && chunks == PlanOf(t, segs[..i])
      invariant total == DeclaredTotal(segs[..i]) < U64
    {
      SegmentsOkPrefix(t, segs, i);
      PlanSnoc(t, segs[..i], segs[i]);
      var planned := PlanSegment(t, segs[i]);
      if planned.Err? {
        return Err;
      }
      if total + segs[i].unpackedBytes >= U64 {
        DeclaredTotalMonotone(segs, i + 1);
        return Err;
      }
      chunks := chunks + planned.value;
      total := total + segs[i].unpackedBytes;
    }
    assert segs[..|segs|] == segs;
    r := Ok((chunks, total));
  }

  lemma NothingPlanned(t: Tables)
    ensures SegmentsOk(t, []) && PlanOf(t, []) == [] && DeclaredTotal([]) == 0
  {
  }

  lemma TablesInside(s: Shard)
    requires XorbsUsable(s, |s.xorbHeaders|)
    ensures RangesInside(TablesOf(s))
  {
    hide XorbRanges, RawHashes;
    XorbRangesMeaning(s, |s.xorbHeaders|);
    var t := TablesOf(s);
    forall h | h in t.ranges
      ensures t.ranges[h].0 + t.ranges[h].1 <= |t.chunks|
    {
      var i :| 0 <= i < |s.xorbHeaders| && s.xorbHeaders[i].xorbHash == h;
      XorbStartMonotone(s, i + 1, |s.xorbHeaders|);
    }
  }

  method BuildFileChunkPlan(s: Shard, fileHash: Hash, expected: Option<nat>) returns (r: Result<PlannedFile>)
    ensures r == Plan(s, fileHash, expected)
  {
    hide XorbsUsable, LookupsUsable, SegmentsOk, PlanOf, RangesInside, XorbRanges, RawHashes;
    var chosen := FindFile(s, fileHash, expected);
    if chosen.None? {
      return Err;
    }
    var k := chosen.value;
    var start := CountSegments(s, k);
    var end := start + s.fileHeaders[k].numEntries;
    if end > |s.segments| {
      return Err;
    }
    var ranges := BuildRanges(s);
    if ranges.Err? {
      return Err;
    }
    var raw := BuildRawHashes(s);
    if raw.Err? {
      return Err;
    }
    TablesInside(s);
    var planned := PlanSegments(Tables(ranges.value, raw.value, s.xorbChunks), s.segments[start..end]);
    if planned.Err? {
      return Err;
    }
    r := Ok(PlannedFile(fileHash, k, planned.value.0, planned.value.1));
  }

  method CountSegments(s: Shard, k: nat) returns (start: nat)
    requires k <= |s.fileHeaders|
    ensures start == FileStart(s, k)
  {
    start := 0;
    for i := 0 to k
      invariant start == FileStart(s, i)
    {
      start := start + s.fileHeaders[i].numEntries;
    }
  }

  method FindFile(s: Shard, fileHash: Hash, expected: Option<nat>) returns (r: Option<nat>)
    ensures r == ChooseFile(s, fileHash, expected)
  {
    if expected.Some? {
      if expected.value >= |s.fileHeaders| || s.fileHeaders[expected.value].fileHash != fileHash {
        return None;
      }
      return expected;
    }
    for i := 0 to |s.fileHeaders|
      invariant FirstIndex(s.fileHeaders, fileHash, i) == FirstIndex(s.fileHeaders, fileHash, 0)
    {
      if s.fileHeaders[i].fileHash == fileHash {
        return Some(i);
      }
    }
    return None;
  }
}
