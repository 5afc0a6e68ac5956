/** The shard builder, and the round trip of its contents through the parser. */
module ShardBuilder {
  import opened Bytes
  import opened ShardFormat
  import opened ShardSections
  import opened ShardParser

  /** `xorbIndex` is informative only: it is not written. */
  datatype FileSegment = FileSegment(xorbHash: Hash, xorbIndex: nat, chunkStart: u32, chunkEnd: u32, unpackedBytes: u32)
  datatype FileEntry = FileEntry(fileHash: Hash, segments: seq<FileSegment>)
  datatype ChunkEntry = ChunkEntry(chunkHash: Hash, byteStart: u32, unpackedBytes: u32)
  datatype XorbEntry = XorbEntry(xorbHash: Hash, bytesInXorb: u32, bytesOnDisk: u32, chunks: seq<ChunkEntry>)

  datatype Contents = Contents(files: seq<FileEntry>, xorbs: seq<XorbEntry>, lookups: seq<Lookup>)

  // ----- records written for the contents -----

  function FileHeaderOf(f: FileEntry): FileHeader { FileHeader(f.fileHash, 0, Wrap32(|f.segments|), 0, 0) }

  function SegmentOf(s: FileSegment): Segment { Segment(s.xorbHash, 0, s.unpackedBytes, s.chunkStart, s.chunkEnd) }

  function XorbHeaderOf(x: XorbEntry): XorbHeader {
    XorbHeader(x.xorbHash, 0, Wrap32(|x.chunks|), x.bytesInXorb, x.bytesOnDisk)
  }

  function XorbChunkOf(c: ChunkEntry): XorbChunk { XorbChunk(c.chunkHash, c.byteStart, c.unpackedBytes, 0, 0) }

  function SegmentsOf(f: FileEntry): (s: seq<Segment>)
    ensures |s| == |f.segments|
  {
    seq(|f.segments|, i requires 0 <= i < |f.segments| => SegmentOf(f.segments[i]))
  }

  function ChunksOf(x: XorbEntry): (s: seq<XorbChunk>)
    ensures |s| == |x.chunks|
  {
    seq(|x.chunks|, i requires 0 <= i < |x.chunks| => XorbChunkOf(x.chunks[i]))
  }

  function FileHeaders(files: seq<FileEntry>): seq<FileHeader> {
    if files == [] then [] else [FileHeaderOf(files[0])] + FileHeaders(files[1..])
  }

  function AllSegments(files: seq<FileEntry>): seq<Segment> {
    if files == [] then [] else SegmentsOf(files[0]) + AllSegments(files[1..])
  }

  function XorbHeaders(xorbs: seq<XorbEntry>): seq<XorbHeader> {
    if xorbs == [] then [] else [XorbHeaderOf(xorbs[0])] + XorbHeaders(xorbs[1..])
  }

  function AllChunks(xorbs: seq<XorbEntry>): seq<XorbChunk> {
    if xorbs == [] then [] else ChunksOf(xorbs[0]) + AllChunks(xorbs[1..])
  }

  /** The bytes the builder writes for its files: each header followed by all its segments. */
  function FilesBytes(files: seq<FileEntry>): Bytes {
    if files == [] then []
    else EncodeFileHeader(FileHeaderOf(files[0])) + (EncodeAll(SEGMENT, SegmentsOf(files[0])) + FilesBytes(files[1..]))
  }

  function XorbsBytes(xorbs: seq<XorbEntry>): Bytes {
    if xorbs == [] then []
    else EncodeXorbHeader(XorbHeaderOf(xorbs[0])) + (EncodeAll(XORB_CHUNK, ChunksOf(xorbs[0])) + XorbsBytes(xorbs[1..]))
  }

  function SumOnDisk(xorbs: seq<XorbEntry>): nat {
    if xorbs == [] then 0 else xorbs[0].bytesOnDisk + SumOnDisk(xorbs[1..])
  }

  function SumInXorb(xorbs: seq<XorbEntry>): nat {
    if xorbs == [] then 0 else xorbs[0].bytesInXorb + SumInXorb(xorbs[1..])
  }

  function SumUnpacked(segments: seq<Segment>): nat {
    if segments == [] then 0 else segments[0].unpackedBytes + SumUnpacked(segments[1..])
  }

  /** Absent sections get offset zero. */
  function FooterOf(c: Contents): ShardFooter {
    var fileLen, xorbLen, lookupLen := |FilesBytes(c.files)|, |XorbsBytes(c.xorbs)|, LOOKUP_SIZE * |c.lookups|;
    var xorbInfo := Wrap64(HEADER_SIZE + fileLen);
    var chunkLookup := Wrap64(HEADER_SIZE + fileLen + xorbLen);
    var footerOffset := Wrap64(HEADER_SIZE + fileLen + xorbLen + lookupLen);
    ShardFooter(2,
                if c.files == [] then 0 else HEADER_SIZE,
                if c.xorbs == [] then 0 else xorbInfo,
                if c.files == [] then 0 else xorbInfo,
                Wrap64(|c.files|),
                if c.xorbs == [] then 0 else if c.lookups == [] then footerOffset else chunkLookup,
                Wrap64(|c.xorbs|),
                if c.lookups == [] then 0 else chunkLookup,
                Wrap64(|c.lookups|),
                ZERO_HASH, 0, 0, [0, 0, 0, 0, 0, 0, 0],
                Wrap64(SumOnDisk(c.xorbs)), Wrap64(SumUnpacked(AllSegments(c.files))), Wrap64(SumInXorb(c.xorbs)),
                footerOffset)
  }

  function BuildBytes(c: Contents): Bytes {
    HEADER + (FilesBytes(c.files) + (XorbsBytes(c.xorbs) + (EncodeAll(LOOKUP, c.lookups) + EncodeFooter(FooterOf(c)))))
  }

  /** The shard that is expected back from the parser. */
  function BuiltShard(c: Contents): Shard {
    Shard(FooterOf(c), FileHeaders(c.files), AllSegments(c.files), XorbHeaders(c.xorbs), AllChunks(c.xorbs), c.lookups)
  }

  // ----- what the footer totals sum -----

  function OnDiskSizes(xorbs: seq<XorbEntry>): (sizes: seq<nat>)
    ensures |sizes| == |xorbs|
  {
    seq(|xorbs|, i requires 0 <= i < |xorbs| => xorbs[i].bytesOnDisk)
  }

  function InXorbSizes(xorbs: seq<XorbEntry>): (sizes: seq<nat>)
    ensures |sizes| == |xorbs|
  {
    seq(|xorbs|, i requires 0 <= i < |xorbs| => xorbs[i].bytesInXorb)
  }

  function SegmentSizes(f: FileEntry): (sizes: seq<nat>)
    ensures |sizes| == |f.segments|
  {
    seq(|f.segments|, i requires 0 <= i < |f.segments| => f.segments[i].unpackedBytes)
  }

  function FileSizes(files: seq<FileEntry>): (sizes: seq<nat>)
    ensures |sizes| == |files|
  {
    seq(|files|, i requires 0 <= i < |files| => Sum(SegmentSizes(files[i])))
  }

  lemma {:induction false} XorbSums(xorbs: seq<XorbEntry>)
    ensures SumOnDisk(xorbs) == Sum(OnDiskSizes(xorbs)) && SumInXorb(xorbs) == Sum(InXorbSizes(xorbs))
  {
    if xorbs != [] {
      XorbSums(xorbs[1..]);
      assert OnDiskSizes(xorbs)[1..] == OnDiskSizes(xorbs[1..]) && InXorbSizes(xorbs)[1..] == InXorbSizes(xorbs[1..]);
    }
  }

  lemma {:induction false} SegmentSums(segments: seq<Segment>, sizes: seq<nat>)
    requires |sizes| == |segments| && forall i | 0 <= i < |sizes| :: sizes[i] == segments[i].unpackedBytes
    ensures SumUnpacked(segments) == Sum(sizes)
  {
    if segments != [] {
      SegmentSums(segments[1..], sizes[1..]);
    }
  }

  lemma {:induction false} SumUnpackedAppend(a: seq<Segment>, b: seq<Segment>)
    ensures SumUnpacked(a + b) == SumUnpacked(a) + SumUnpacked(b)
  {
    if a == [] {
      assert a + b == b;
    } else {
      SumUnpackedAppend(a[1..], b);
      assert (a + b)[1..] == a[1..] + b;
    }
  }

  lemma {:induction false} FileSums(files: seq<FileEntry>)
    ensures SumUnpacked(AllSegments(files)) == Sum(FileSizes(files))
  {
    hide SegmentsOf, SumUnpacked;
    if files != [] {
      FileSums(files[1..]);
      SumUnpackedAppend(SegmentsOf(files[0]), AllSegments(files[1..]));
      OneFileSum(files[0]);
      assert FileSizes(files)[1..] == FileSizes(files[1..]);
    } else {
      NoSegments();
    }
  }

  lemma OneFileSum(f: FileEntry)
    ensures SumUnpacked(SegmentsOf(f)) == Sum(SegmentSizes(f))
  {
    SegmentSums(SegmentsOf(f), SegmentSizes(f));
  }

  lemma NoSegments()
    ensures SumUnpacked([]) == 0
  {
  }

  /** Bytes on disk and in xorbs are summed over the xorbs, materialised bytes over the segments of the files. */
  lemma FooterTotals(c: Contents)
    ensures FooterOf(c).storedOnDisk == Sum(OnDiskSizes(c.xorbs)) % U64
    ensures FooterOf(c).materialized == Sum(FileSizes(c.files)) % U64
    ensures FooterOf(c).stored == Sum(InXorbSizes(c.xorbs)) % U64
  {
    hide FilesBytes, XorbsBytes, AllSegments, SumOnDisk, SumInXorb, SumUnpacked, Sum, OnDiskSizes, InXorbSizes,
         FileSizes;
    XorbSums(c.xorbs);
    FileSums(c.files);
  }

  // ----- the builder -----

  class Builder {
    var files: seq<FileEntry>
    var xorbs: seq<XorbEntry>
    var lookups: seq<Lookup>

    function Current(): Contents
      reads this
    {
      Contents(files, xorbs, lookups)
    }

    /** One raw chunk hash is kept for every chunk entry. */
    ghost predicate Valid()
      reads this
    {
      |lookups| == |AllChunks(xorbs)|
    }

    constructor ()
      ensures Valid() && Current() == Contents([], [], [])
    {
      files, xorbs, lookups := [], [], [];
    }

    method AddXorb(xorbHash: Hash, bytesInXorb: u32, bytesOnDisk: u32, chunks: seq<ChunkEntry>, rawHashes: seq<Hash>)
      returns (r: Result<nat>)
      requires Valid()
      modifies this
      ensures Valid()
      ensures r == if |chunks| == |rawHashes| then Ok(|old(xorbs)|) else Err
      ensures Current() ==
              if r.Ok? then WithXorb(old(Current()), XorbEntry(xorbHash, bytesInXorb, bytesOnDisk, chunks), rawHashes)
              else old(Current())
    {
      if |chunks| != |rawHashes| {
        return Err;
      }
      var index := |xorbs|;
      var entry := XorbEntry(xorbHash, bytesInXorb, bytesOnDisk, chunks);
      AllChunksSnoc(xorbs, entry);
      xorbs := xorbs + [entry];
      var added := [];
      for i := 0 to |rawHashes|
        invariant added == LookupsFor(xorbHash, rawHashes)[..i]
      {
        added := added + [Lookup(rawHashes[i], xorbHash, Wrap32(i))];
      }
      lookups := lookups + added;
      assert added == LookupsFor(xorbHash, rawHashes);
      r := Ok(index);
    }

    method AddFile(fileHash: Hash, segments: seq<FileSegment>)
      requires Valid()
      modifies this
      ensures Valid()
      ensures Current() == old(Current()).(files := old(files) + [FileEntry(fileHash, segments)])
    {
      files := files + [FileEntry(fileHash, segments)];
    }

    /** Write all sections and the footer, then check the result with the parser. */
    method Build() returns (r: Result<Bytes>)
      ensures r == if Parse(BuildBytes(Current())).Ok? then Ok(BuildBytes(Current())) else Err
    {
      hide Parse, FooterOf, EncodeFooter, FilesBytes, XorbsBytes, EncodeAll;
      var fileSection := WriteFiles(files);
      var xorbSection := WriteXorbs(xorbs);
      var lookupSection := WriteLookups(lookups);
      var buf := HEADER + (fileSection + (xorbSection + (lookupSection + EncodeFooter(FooterOf(Current())))));
      var parsed := ParseShard(buf);
      if parsed.Err? {
        return Err;
      }
      r := Ok(buf);
    }
  }

  function LookupsFor(xorbHash: Hash, rawHashes: seq<Hash>): (l: seq<Lookup>)
    ensures |l| == |rawHashes|
  {
    seq(|rawHashes|, i requires 0 <= i < |rawHashes| => Lookup(rawHashes[i], xorbHash, Wrap32(i)))
  }

  function WithXorb(c: Contents, entry: XorbEntry, rawHashes: seq<Hash>): Contents {
    c.(xorbs := c.xorbs + [entry], lookups := c.lookups + LookupsFor(entry.xorbHash, rawHashes))
  }

  lemma {:induction false} AllChunksSnoc(xorbs: seq<XorbEntry>, x: XorbEntry)
    ensures AllChunks(xorbs + [x]) == AllChunks(xorbs) + ChunksOf(x)
  {
    hide ChunksOf;
    if xorbs == [] {
      assert AllChunks([x]) == ChunksOf(x) + AllChunks([]);
    } else {
      AllChunksSnoc(xorbs[1..], x);
      assert (xorbs + [x])[1..] == xorbs[1..] + [x];
      Assoc(ChunksOf(xorbs[0]), AllChunks(xorbs[1..]), ChunksOf(x));
    }
  }

  lemma {:induction false} FilesBytesSnoc(files: seq<FileEntry>, f: FileEntry)
    ensures FilesBytes(files + [f]) == FilesBytes(files)
            + (EncodeFileHeader(FileHeaderOf(f)) + EncodeAll(SEGMENT, SegmentsOf(f)))
  {
    hide EncodeFileHeader, EncodeAll, SegmentsOf;
    var e := EncodeFileHeader(FileHeaderOf(f)) + EncodeAll(SEGMENT, SegmentsOf(f));
    if files == [] {
      assert FilesBytes([]) == [];
      assert FilesBytes([f]) == EncodeFileHeader(FileHeaderOf(f))
             + (EncodeAll(SEGMENT, SegmentsOf(f)) + FilesBytes([f][1..]));
      assert [] + [f] == [f];
    } else {
      FilesBytesSnoc(files[1..], f);
      assert (files + [f])[1..] == files[1..] + [f];
      var h, s := EncodeFileHeader(FileHeaderOf(files[0])), EncodeAll(SEGMENT, SegmentsOf(files[0]));
      Assoc(s, FilesBytes(files[1..]), e);
      Assoc(h, s + FilesBytes(files[1..]), e);
    }
  }

  lemma {:induction false} XorbsBytesSnoc(xorbs: seq<XorbEntry>, x: XorbEntry)
    ensures XorbsBytes(xorbs + [x]) == XorbsBytes(xorbs)
            + (EncodeXorbHeader(XorbHeaderOf(x)) + EncodeAll(XORB_CHUNK, ChunksOf(x)))
  {
    hide EncodeXorbHeader, EncodeAll, ChunksOf;
    var e := EncodeXorbHeader(XorbHeaderOf(x)) + EncodeAll(XORB_CHUNK, ChunksOf(x));
    if xorbs == [] {
      assert XorbsBytes([]) == [];
      assert XorbsBytes([x]) == EncodeXorbHeader(XorbHeaderOf(x))
             + (EncodeAll(XORB_CHUNK, ChunksOf(x)) + XorbsBytes([x][1..]));
      assert [] + [x] == [x];
    } else {
      XorbsBytesSnoc(xorbs[1..], x);
      assert (xorbs + [x])[1..] == xorbs[1..] + [x];
      var h, s := EncodeXorbHeader(XorbHeaderOf(xorbs[0])), EncodeAll(XORB_CHUNK, ChunksOf(xorbs[0]));
      Assoc(s, XorbsBytes(xorbs[1..]), e);
      Assoc(h, s + XorbsBytes(xorbs[1..]), e);
    }
  }

  method WriteFiles(files: seq<FileEntry>) returns (buf: Bytes)
    ensures buf == FilesBytes(files)
  {
    hide EncodeFileHeader, EncodeAll;
    buf := [];
    for i := 0 to |files|
      invariant buf == FilesBytes(files[..i])
    {
      assert files[..i + 1] == files[..i] + [files[i]];
      FilesBytesSnoc(files[..i], files[i]);
      var segments := WriteSegments(files[i]);
      buf := buf + (EncodeFileHeader(FileHeaderOf(files[i])) + segments);
    }
    assert files[..|files|] == files;
  }

  method WriteSegments(f: FileEntry) returns (buf: Bytes)
    ensures buf == EncodeAll(SEGMENT, SegmentsOf(f))
  {
    hide EncodeSegment, SegmentOf;
    buf := [];
    EncodeNone(SEGMENT);
    for i := 0 to |f.segments|
      invariant buf == EncodeAll(SEGMENT, SegmentsOf(f)[..i])
    {
      assert SegmentsOf(f)[..i + 1] == SegmentsOf(f)[..i] + [SegmentOf(f.segments[i])];
      EncodeAllSnoc(SEGMENT, SegmentsOf(f)[..i], SegmentOf(f.segments[i]));
      buf := buf + EncodeSegment(SegmentOf(f.segments[i]));
    }
    assert SegmentsOf(f)[..|f.segments|] == SegmentsOf(f);
  }

  method WriteXorbs(xorbs: seq<XorbEntry>) returns (buf: Bytes)
    ensures buf == XorbsBytes(xorbs)
  {
    hide EncodeXorbHeader, EncodeAll;
    buf := [];
    for i := 0 to |xorbs|
      invariant buf == XorbsBytes(xorbs[..i])
    {
      assert xorbs[..i + 1] == xorbs[..i] + [xorbs[i]];
      XorbsBytesSnoc(xorbs[..i], xorbs[i]);
      var chunks := WriteChunks(xorbs[i]);
      buf := buf + (EncodeXorbHeader(XorbHeaderOf(xorbs[i])) + chunks);
    }
    assert xorbs[..|xorbs|] == xorbs;
  }

  method WriteChunks(x: XorbEntry) returns (buf: Bytes)
    ensures buf == EncodeAll(XORB_CHUNK, ChunksOf(x))
  {
    hide EncodeXorbChunk, XorbChunkOf;
    buf := [];
    EncodeNone(XORB_CHUNK);
    for i := 0 to |x.chunks|
      invariant buf == EncodeAll(XORB_CHUNK, ChunksOf(x)[..i])
    {
      assert ChunksOf(x)[..i + 1] == ChunksOf(x)[..i] + [XorbChunkOf(x.chunks[i])];
      EncodeAllSnoc(XORB_CHUNK, ChunksOf(x)[..i], XorbChunkOf(x.chunks[i]));
      buf := buf + EncodeXorbChunk(XorbChunkOf(x.chunks[i]));
    }
    assert ChunksOf(x)[..|x.chunks|] == ChunksOf(x);
  }

  method WriteLookups(lookups: seq<Lookup>) returns (buf: Bytes)
    ensures buf == EncodeAll(LOOKUP, lookups)
  {
    hide EncodeLookup;
    buf := [];
    for i := 0 to |lookups|
      invariant buf == EncodeAll(LOOKUP, lookups[..i])
    {
      assert lookups[..i + 1] == lookups[..i] + [lookups[i]];
      EncodeAllSnoc(LOOKUP, lookups[..i], lookups[i]);
      buf := buf + EncodeLookup(lookups[i]);
    }
    assert lookups[..|lookups|] == lookups;
  }

  // ----- round trip -----

  /** Every count fits its 32-bit field and every offset its 64-bit field. */
  predicate Countable(c: Contents) {
    && (forall f | f in c.files :: |f.segments| < U32)
    && (forall x | x in c.xorbs :: |x.chunks| < U32)
    && |BuildBytes(c)| < U64
  }

  lemma {:induction false} FilesRender(files: seq<FileEntry>)
    requires forall f | f in files :: |f.segments| < U32
    ensures Shares(FILES, FileHeaders(files), AllSegments(files))
    ensures RenderSection(FILES, FileHeaders(files), AllSegments(files)) == FilesBytes(files)
  {
    hide EncodeAll, EncodeFileHeader, SegmentsOf;
    if files != [] {
      FilesRender(files[1..]);
      var f, more := files[0], AllSegments(files[1..]);
      WrapExact(|f.segments|);
      SplitConcat(SegmentsOf(f), more);
      assert FileHeaders(files)[0] == FileHeaderOf(f) && FileHeaders(files)[1..] == FileHeaders(files[1..]);
    }
  }

  lemma {:induction false} XorbsRender(xorbs: seq<XorbEntry>)
    requires forall x | x in xorbs :: |x.chunks| < U32
    ensures Shares(XORBS, XorbHeaders(xorbs), AllChunks(xorbs))
    ensures RenderSection(XORBS, XorbHeaders(xorbs), AllChunks(xorbs)) == XorbsBytes(xorbs)
  {
    hide EncodeAll, EncodeXorbHeader, ChunksOf;
    if xorbs != [] {
      XorbsRender(xorbs[1..]);
      var x, more := xorbs[0], AllChunks(xorbs[1..]);
      WrapExact(|x.chunks|);
      SplitConcat(ChunksOf(x), more);
      assert XorbHeaders(xorbs)[0] == XorbHeaderOf(x) && XorbHeaders(xorbs)[1..] == XorbHeaders(xorbs[1..]);
    }
  }

  lemma {:induction false} HeaderCounts(files: seq<FileEntry>, xorbs: seq<XorbEntry>)
    ensures |FileHeaders(files)| == |files| <= |FilesBytes(files)|
    ensures |XorbHeaders(xorbs)| == |xorbs| <= |XorbsBytes(xorbs)|
    ensures files == [] ==> AllSegments(files) == []
    ensures xorbs == [] ==> AllChunks(xorbs) == []
    decreases |files| + |xorbs|
  {
    hide EncodeAll, SegmentsOf, ChunksOf;
    if files != [] {
      HeaderCounts(files[1..], xorbs);
    } else if xorbs != [] {
      HeaderCounts(files, xorbs[1..]);
    }
  }

  /** The footer declares the sections of the contents where they are. */
  lemma FooterDeclares(c: Contents)
    requires Countable(c) && |c.lookups| == |AllChunks(c.xorbs)|
    ensures var s := BuiltShard(c);
            var a := HEADER_SIZE + |FilesBytes(c.files)|;
            var b := a + |XorbsBytes(c.xorbs)|;
            && Declared(HEADER_SIZE, |FilesBytes(c.files)|, |s.fileHeaders|, |s.segments|,
                        s.footer.fileInfoOffset, s.footer.fileLookupOffset, s.footer.fileLookupNum)
            && Declared(a, |XorbsBytes(c.xorbs)|, |s.xorbHeaders|, |s.xorbChunks|,
                        s.footer.xorbInfoOffset, s.footer.xorbLookupOffset, s.footer.xorbLookupNum)
            && LookupsDeclared(s, b)
            && s.footer.footerOffset == b + LOOKUP_SIZE * |c.lookups|
  {
    hide EncodeAll, EncodeFooter, FilesBytes, XorbsBytes, FileHeaders, XorbHeaders, AllSegments, AllChunks, SumOnDisk,
         SumInXorb, SumUnpacked, EncodeLookup;
    HeaderCounts(c.files, c.xorbs);
    BuildLength(c);
  }

  lemma BuildLength(c: Contents)
    ensures |BuildBytes(c)| == HEADER_SIZE + |FilesBytes(c.files)| + |XorbsBytes(c.xorbs)| + LOOKUP_SIZE * |c.lookups|
            + FOOTER_SIZE
    ensures |EncodeAll(LOOKUP, c.lookups)| == LOOKUP_SIZE * |c.lookups|
  {
    hide EncodeAll, EncodeFooter, FilesBytes, XorbsBytes, FooterOf, Exact;
    HeaderLength();
    FooterLength(FooterOf(c));
    SectionsExact();
    EncodeAllLength(LOOKUP, c.lookups);
  }

  lemma BuiltWellFormed(c: Contents)
    requires Countable(c) && |c.lookups| == |AllChunks(c.xorbs)|
    ensures WellFormed(BuiltShard(c)) && Render(BuiltShard(c)) == BuildBytes(c)
  {
    hide EncodeAll, EncodeFooter, FilesBytes, XorbsBytes, FooterOf, Shares, RenderSection, FileHeaders, XorbHeaders,
         AllSegments, AllChunks, Declared, LookupsDeclared;
    FilesRender(c.files);
    XorbsRender(c.xorbs);
    FooterDeclares(c);
    BuildLength(c);
    FooterVersion(c);
  }

  lemma FooterVersion(c: Contents)
    ensures FooterOf(c).version == 2
  {
  }

  /** Everything added to the builder comes back from the parser, in order; the self-check never fails. */
  lemma ShardRoundTrip(c: Contents)
    requires Countable(c) && |c.lookups| == |AllChunks(c.xorbs)|
    ensures Parse(BuildBytes(c)) == Ok(BuiltShard(c))
  {
    hide Parse, Render, BuildBytes, Countable, WellFormed;
    BuiltWellFormed(c);
    ParserExact(BuildBytes(c), BuiltShard(c));
  }

  /**
   * Whatever overflows in the xorb tables: if the bytes parse at all, the files come back as they were added.
   */
  lemma FilesSurvive(c: Contents, s: Shard)
    requires Parse(BuildBytes(c)) == Ok(s) && c.files != [] && HEADER_SIZE + |FilesBytes(c.files)| < U64
    requires forall f | f in c.files :: |f.segments| < U32
    ensures s.fileHeaders == FileHeaders(c.files) && s.segments == AllSegments(c.files)
  {
    hide Parse, Render, BuildBytes, FilesBytes, FileBytes, XorbTableBytes, LookupBytes, EncodeFooter, FooterOf, Shares,
         RenderSection, LookupsDeclared, FileHeaders, AllSegments;
    var data := BuildBytes(c);
    ParserExact(data, s);
    ConsistsIsRender(data, s);
    FooterSurvives(c, s);
    FilesDeclared(c);
    FilesAreThere(c);
    FilesRender(c.files);
    SectionsExact();
    SectionExact(FILES, FilesBytes(c.files), FileHeaders(c.files), AllSegments(c.files));
    SectionExact(FILES, FilesBytes(c.files), s.fileHeaders, s.segments);
    SameFileBytes(s);
  }

  lemma SameFileBytes(s: Shard)
    requires Shares(FILES, s.fileHeaders, s.segments)
    ensures FileBytes(s) == RenderSection(FILES, s.fileHeaders, s.segments)
  {
    hide RenderSection;
  }

  lemma FilesDeclared(c: Contents)
    requires c.files != [] && HEADER_SIZE + |FilesBytes(c.files)| < U64
    ensures FooterOf(c).fileInfoOffset == HEADER_SIZE
            && FooterOf(c).fileLookupOffset == HEADER_SIZE + |FilesBytes(c.files)|
  {
    hide FilesBytes, XorbsBytes, AllSegments, SumOnDisk, SumInXorb, SumUnpacked;
  }

  lemma FilesAreThere(c: Contents)
    ensures HEADER_SIZE + |FilesBytes(c.files)| <= |BuildBytes(c)|
    ensures BuildBytes(c)[HEADER_SIZE..HEADER_SIZE + |FilesBytes(c.files)|] == FilesBytes(c.files)
  {
    hide FilesBytes, XorbsBytes, EncodeAll, EncodeFooter, FooterOf;
    HeaderLength();
    var rest := XorbsBytes(c.xorbs) + (EncodeAll(LOOKUP, c.lookups) + EncodeFooter(FooterOf(c)));
    Assoc(HEADER, FilesBytes(c.files), rest);
  }

  /** Where the sections are. */
  lemma SectionsAreThere(c: Contents)
    ensures var b, files, xorbs, lookups :=
            BuildBytes(c), FilesBytes(c.files), XorbsBytes(c.xorbs), EncodeAll(LOOKUP, c.lookups);
            && |b| == 48 + |files| + |xorbs| + |lookups| + 208
            && b[..48] == HEADER
            && b[48..48 + |files|] == files
            && b[48 + |files|..48 + |files| + |xorbs|] == xorbs
            && b[48 + |files| + |xorbs|..48 + |files| + |xorbs| + |lookups|] == lookups
            && b[48 + |files| + |xorbs| + |lookups|..] == EncodeFooter(FooterOf(c))
  {
    hide FilesBytes, XorbsBytes, EncodeAll, EncodeFooter, FooterOf;
    HeaderLength();
    FooterLength(FooterOf(c));
    FiveParts(BuildBytes(c), HEADER, FilesBytes(c.files), XorbsBytes(c.xorbs), EncodeAll(LOOKUP, c.lookups),
              EncodeFooter(FooterOf(c)));
  }

  /** How many records precede those of file `k`: a header and its segments for each file before. */
  function RecordsBefore(counts: seq<nat>, k: nat): nat
    requires k <= |counts|
  {
    k + Sum(counts[..k])
  }

  function SegmentCounts(files: seq<FileEntry>): (counts: seq<nat>)
    ensures |counts| == |files|
  {
    seq(|files|, i requires 0 <= i < |files| => |files[i].segments|)
  }

  function ChunkCounts(xorbs: seq<XorbEntry>): (counts: seq<nat>)
    ensures |counts| == |xorbs|
  {
    seq(|xorbs|, i requires 0 <= i < |xorbs| => |xorbs[i].chunks|)
  }

  lemma RecordsStep(counts: seq<nat>, k: nat)
    requires 0 < k <= |counts|
    ensures RecordsBefore(counts, k) == 1 + counts[0] + RecordsBefore(counts[1..], k - 1)
  {
    assert counts[..k][1..] == counts[1..][..k - 1];
  }

  /** Record `i` of 48 bytes. */
  function RecordAt(b: Bytes, i: nat): Bytes { if 48 * i + 48 <= |b| then b[48 * i..48 * i + 48] else [] }

  lemma RecordBehind(a: Bytes, b: Bytes, n: nat, i: nat)
    requires |a| == 48 * n && 48 * i + 48 <= |b|
    ensures RecordAt(a + b, n + i) == RecordAt(b, i)
  {
    assert (a + b)[48 * (n + i)..48 * (n + i) + 48] == b[48 * i..48 * i + 48];
  }

  lemma RecordInFront(a: Bytes, b: Bytes, i: nat)
    requires 48 * i + 48 <= |a|
    ensures RecordAt(a + b, i) == RecordAt(a, i)
  {
    assert (a + b)[48 * i..48 * i + 48] == a[48 * i..48 * i + 48];
  }

  lemma RecordOfTable<T(!new)>(c: Codec<T>, xs: seq<T>, i: nat)
    requires Exact(c) && c.width == 48 && i < |xs|
    ensures |EncodeAll(c, xs)| == 48 * |xs| && RecordAt(EncodeAll(c, xs), i) == c.enc(xs[i])
  {
    hide Exact, EncodeAll;
    EncodeAllLength(c, xs);
    EncodedAt(c, xs, i);
  }

  /** The records of file `k`: its header, then its segments in order. */
  lemma {:induction false} FileRecords(files: seq<FileEntry>, k: nat, j: nat)
    requires k < |files| && j <= |files[k].segments|
    ensures var at := RecordsBefore(SegmentCounts(files), k) + j;
            && 48 * at + 48 <= |FilesBytes(files)|
            && RecordAt(FilesBytes(files), at) ==
               if j == 0 then EncodeFileHeader(FileHeaderOf(files[k]))
               else EncodeSegment(SegmentOf(files[k].segments[j - 1]))
  {
    hide Exact, EncodeAll, EncodeFileHeader, EncodeSegment, SegmentOf, FileHeaderOf, RecordAt, RecordsBefore;
    SectionsExact();
    FileHeaderWidth(FileHeaderOf(files[0]));
    EncodeAllLength(SEGMENT, SegmentsOf(files[0]));
    var h, t, rest := EncodeFileHeader(FileHeaderOf(files[0])), EncodeAll(SEGMENT, SegmentsOf(files[0])),
        FilesBytes(files[1..]);
    if k > 0 {
      FileRecords(files[1..], k - 1, j);
      RecordsStep(SegmentCounts(files), k);
      assert SegmentCounts(files)[1..] == SegmentCounts(files[1..]);
      Assoc(h, t, rest);
      RecordBehind(h + t, rest, 1 + |files[0].segments|, RecordsBefore(SegmentCounts(files[1..]), k - 1) + j);
    } else {
      NoRecordsBefore(SegmentCounts(files));
      if j == 0 {
        RecordInFront(h, t + rest, 0);
        WholeRecord(h);
      } else {
        RecordBehind(h, t + rest, 1, j - 1);
        RecordInFront(t, rest, j - 1);
        RecordOfTable(SEGMENT, SegmentsOf(files[0]), j - 1);
      }
    }
  }

  /** The records of xorb `k`: its header, then its chunks in order. */
  lemma {:induction false} XorbRecords(xorbs: seq<XorbEntry>, k: nat, j: nat)
    requires k < |xorbs| && j <= |xorbs[k].chunks|
    ensures var at := RecordsBefore(ChunkCounts(xorbs), k) + j;
            && 48 * at + 48 <= |XorbsBytes(xorbs)|
            && RecordAt(XorbsBytes(xorbs), at) ==
               if j == 0 then EncodeXorbHeader(XorbHeaderOf(xorbs[k]))
               else EncodeXorbChunk(XorbChunkOf(xorbs[k].chunks[j - 1]))
  {
    hide Exact, EncodeAll, EncodeXorbHeader, EncodeXorbChunk, XorbChunkOf, XorbHeaderOf, RecordAt, RecordsBefore;
    SectionsExact();
    XorbHeaderWidth(XorbHeaderOf(xorbs[0]));
    EncodeAllLength(XORB_CHUNK, ChunksOf(xorbs[0]));
    var h, t, rest := EncodeXorbHeader(XorbHeaderOf(xorbs[0])), EncodeAll(XORB_CHUNK, ChunksOf(xorbs[0])),
        XorbsBytes(xorbs[1..]);
    if k > 0 {
      XorbRecords(xorbs[1..], k - 1, j);
      RecordsStep(ChunkCounts(xorbs), k);
      assert ChunkCounts(xorbs)[1..] == ChunkCounts(xorbs[1..]);
      Assoc(h, t, rest);
      RecordBehind(h + t, rest, 1 + |xorbs[0].chunks|, RecordsBefore(ChunkCounts(xorbs[1..]), k - 1) + j);
    } else {
      NoRecordsBefore(ChunkCounts(xorbs));
      if j == 0 {
        RecordInFront(h, t + rest, 0);
        WholeRecord(h);
      } else {
        RecordBehind(h, t + rest, 1, j - 1);
        RecordInFront(t, rest, j - 1);
        RecordOfTable(XORB_CHUNK, ChunksOf(xorbs[0]), j - 1);
      }
    }
  }

  lemma FileHeaderWidth(h: FileHeader)
    ensures |EncodeFileHeader(h)| == 48
  {
  }

  lemma XorbHeaderWidth(h: XorbHeader)
    ensures |EncodeXorbHeader(h)| == 48
  {
  }

  lemma NoRecordsBefore(counts: seq<nat>)
    ensures RecordsBefore(counts, 0) == 0
  {
  }

  lemma WholeRecord(b: Bytes)
    requires |b| == 48
    ensures RecordAt(b, 0) == b
  {
  }

  /** The last 208 bytes are the footer, whatever precedes them. */
  lemma FooterSurvives(c: Contents, s: Shard)
    requires Shares(FILES, s.fileHeaders, s.segments) && Shares(XORBS, s.xorbHeaders, s.xorbChunks)
    requires Consists(BuildBytes(c), s)
    ensures s.footer == FooterOf(c)
  {
    hide FilesBytes, XorbsBytes, EncodeAll, EncodeFooter, FooterOf, FileBytes, XorbTableBytes, LookupBytes, Shares,
         DecodeFooter;
    FooterLength(FooterOf(c));
    FooterRoundTrip(FooterOf(c));
    FooterRoundTrip(s.footer);
    var front := HEADER + (FilesBytes(c.files) + (XorbsBytes(c.xorbs) + EncodeAll(LOOKUP, c.lookups)));
    assert BuildBytes(c) == front + EncodeFooter(FooterOf(c));
    SplitConcat(front, EncodeFooter(FooterOf(c)));
  }
}
