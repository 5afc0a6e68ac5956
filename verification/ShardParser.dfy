/** The shard parser, and the exact set of byte strings it accepts. */
module ShardParser {
  import opened Bytes
  import opened ShardFormat
  import opened ShardSections

  /** A parsed shard. Reserved fields are kept, so that nothing read is forgotten. */
  datatype Shard = Shard(footer: ShardFooter, fileHeaders: seq<FileHeader>, segments: seq<Segment>,
                         xorbHeaders: seq<XorbHeader>, xorbChunks: seq<XorbChunk>, lookups: seq<Lookup>)

  function SegmentCount(h: FileHeader): nat { h.numEntries }

  function ChunkCount(h: XorbHeader): nat { h.numEntries }

  const FILES: SectionCodec<FileHeader, Segment> := SectionCodec(FILE_HEADER, SEGMENT, SegmentCount)
  const XORBS: SectionCodec<XorbHeader, XorbChunk> := SectionCodec(XORB_HEADER, XORB_CHUNK, ChunkCount)

  lemma SectionsExact()
    ensures ExactSection(FILES) && ExactSection(XORBS) && Exact(LOOKUP)
  {
    hide Exact;
    FileHeaderExact();
    SegmentExact();
    XorbHeaderExact();
    XorbChunkExact();
    LookupExact();
  }

  // ----- parsing -----

  /** A section that must start at `next`, or be declared absent; yields where the next one must start. */
  function ParseOptional<H, E>(sc: SectionCodec<H, E>, data: Bytes, next: nat, start: nat, end: nat, num: nat,
                               footerStart: nat)
    : (r: Result<(nat, seq<H>, seq<E>)>)
    requires sc.header.width > 0 && footerStart <= |data|
    ensures r.Ok? && next <= footerStart ==> r.value.0 <= footerStart
  {
    if start == 0 then
      if end != 0 || num != 0 then Err else Ok((next, [], []))
    else if start != next || start < HEADER_SIZE || end < start || end > footerStart then Err
    else
      var (headers, entries) :- ParseSection(sc, data[start..end]);
      if |headers| != num then Err else Ok((end, headers, entries))
  }

  function ParseLookups(data: Bytes, next: nat, f: ShardFooter, footerStart: nat, chunkCount: nat): Result<seq<Lookup>>
    requires footerStart <= |data|
  {
    if f.chunkLookupOffset == 0 then
      if f.chunkLookupNum != 0 || chunkCount != 0 || next != footerStart then Err else Ok([])
    else if f.chunkLookupNum == 0 || f.chunkLookupOffset != next then Err
    else if f.chunkLookupOffset + LOOKUP_SIZE * f.chunkLookupNum != footerStart then Err
    else
      var (lookups, rest) :- DecodeMany(LOOKUP, data[next..footerStart], f.chunkLookupNum);
      if |lookups| != chunkCount then Err else Ok(lookups)
  }

  function ParseTables(data: Bytes, f: ShardFooter, footerStart: nat): Result<Shard>
    requires HEADER_SIZE <= footerStart <= |data|
  {
    var (next, fileHeaders, segments) :-
      ParseOptional(FILES, data, HEADER_SIZE, f.fileInfoOffset, f.fileLookupOffset, f.fileLookupNum, footerStart);
    var (next2, xorbHeaders, xorbChunks) :-
      ParseOptional(XORBS, data, next, f.xorbInfoOffset, f.xorbLookupOffset, f.xorbLookupNum, footerStart);
    var lookups :- ParseLookups(data, next2, f, footerStart, |xorbChunks|);
    Ok(Shard(f, fileHeaders, segments, xorbHeaders, xorbChunks, lookups))
  }

  function Parse(data: Bytes): Result<Shard> {
    if |data| < HEADER_SIZE + FOOTER_SIZE || data[..HEADER_SIZE] != HEADER then Err else
    var footerStart := |data| - FOOTER_SIZE;
    var f := DecodeFooter(data[footerStart..]);
    if f.version != 2 || f.footerOffset != footerStart then Err else
    ParseTables(data, f, footerStart)
  }

  // ----- the layout a shard stands for -----

  function FileBytes(s: Shard): Bytes
    requires Shares(FILES, s.fileHeaders, s.segments)
  {
    RenderSection(FILES, s.fileHeaders, s.segments)
  }

  function XorbTableBytes(s: Shard): Bytes
    requires Shares(XORBS, s.xorbHeaders, s.xorbChunks)
  {
    RenderSection(XORBS, s.xorbHeaders, s.xorbChunks)
  }

  function LookupBytes(s: Shard): Bytes { EncodeAll(LOOKUP, s.lookups) }

  /** Header, file section, xorb section, lookup section and footer, back to back. */
  function Render(s: Shard): Bytes
    requires Shares(FILES, s.fileHeaders, s.segments) && Shares(XORBS, s.xorbHeaders, s.xorbChunks)
  {
    HEADER + (FileBytes(s) + (XorbTableBytes(s) + (LookupBytes(s) + EncodeFooter(s.footer))))
  }

  /** A section is declared absent and is empty, or declared exactly where it is, with its true count. */
  predicate Declared(next: nat, len: nat, headerCount: nat, entryCount: nat, start: nat, end: nat, num: nat) {
    if start == 0 then end == 0 && num == 0 && headerCount == 0 && entryCount == 0
    else start == next && end == next + len && num == headerCount
  }

  predicate LookupsDeclared(s: Shard, next: nat) {
    && |s.lookups| == |s.xorbChunks|
    && s.footer.chunkLookupNum == |s.lookups|
    && s.footer.chunkLookupOffset == (if s.lookups == [] then 0 else next)
  }

  predicate WellFormed(s: Shard) {
    && Shares(FILES, s.fileHeaders, s.segments) && Shares(XORBS, s.xorbHeaders, s.xorbChunks)
    && s.footer.version == 2
    && Declared(HEADER_SIZE, |FileBytes(s)|, |s.fileHeaders|, |s.segments|,
                s.footer.fileInfoOffset, s.footer.fileLookupOffset, s.footer.fileLookupNum)
    && Declared(HEADER_SIZE + |FileBytes(s)|, |XorbTableBytes(s)|, |s.xorbHeaders|, |s.xorbChunks|,
                s.footer.xorbInfoOffset, s.footer.xorbLookupOffset, s.footer.xorbLookupNum)
    && LookupsDeclared(s, HEADER_SIZE + |FileBytes(s)| + |XorbTableBytes(s)|)
    && s.footer.footerOffset == HEADER_SIZE + |FileBytes(s)| + |XorbTableBytes(s)| + |LookupBytes(s)|
  }

  // ----- exactness of one section -----

  /** Parsing a section that may be absent succeeds exactly when it is declared and rendered in place. */
  lemma OptionalExact<H(!new), E(!new)>(sc: SectionCodec<H, E>, data: Bytes, next: nat, start: nat, end: nat, num: nat,
                                        footerStart: nat, next': nat, hs: seq<H>, es: seq<E>)
    requires ExactSection(sc) && HEADER_SIZE <= next <= footerStart <= |data|
    ensures ParseOptional(sc, data, next, start, end, num, footerStart) == Ok((next', hs, es))
       <==> && Shares(sc, hs, es)
            && Declared(next, |RenderSection(sc, hs, es)|, |hs|, |es|, start, end, num)
            && next' == next + |RenderSection(sc, hs, es)| <= footerStart
            && data[next..next'] == RenderSection(sc, hs, es)
  {
    ExactWidths(sc);
    hide ParseSection, Exact;
    if start == 0 {
      NoTables(sc);
      if |hs| == 0 && |es| == 0 {
        assert hs == [] && es == [];
      }
    } else if start == next && start <= end <= footerStart {
      SectionExact(sc, data[start..end], hs, es);
    }
  }

  lemma NoTables<H, E>(sc: SectionCodec<H, E>)
    ensures Shares(sc, [], []) && RenderSection(sc, [], []) == []
  {
  }

  lemma LookupsExact(data: Bytes, next: nat, s: Shard, footerStart: nat)
    requires HEADER_SIZE <= next <= footerStart <= |data|
    ensures ParseLookups(data, next, s.footer, footerStart, |s.xorbChunks|) == Ok(s.lookups)
       <==> LookupsDeclared(s, next) && data[next..footerStart] == LookupBytes(s)
  {
    hide Exact, EncodeAll, DecodeMany;
    SectionsExact();
    var f, b := s.footer, data[next..footerStart];
    EncodeAllLength(LOOKUP, s.lookups);
    EncodeNone(LOOKUP);
    if f.chunkLookupOffset != 0 {
      DecodeManyDefined(LOOKUP, b, f.chunkLookupNum);
      LookupTable(b, f.chunkLookupNum, s.lookups);
    }
  }

  lemma EncodeNone<T>(c: Codec<T>)
    ensures EncodeAll(c, []) == []
  {
  }

  /** A byte string of the right length reads as a table exactly when it is the table's encoding. */
  lemma LookupTable(b: Bytes, n: nat, lookups: seq<Lookup>)
    requires |b| == LOOKUP_SIZE * n ==> DecodeMany(LOOKUP, b, n).Ok?
    ensures |b| == LOOKUP_SIZE * n ==>
              (DecodeMany(LOOKUP, b, n).value.0 == lookups <==> |lookups| == n && b == EncodeAll(LOOKUP, lookups))
  {
    hide Exact, EncodeAll, DecodeMany;
    SectionsExact();
    if |b| == LOOKUP_SIZE * n {
      var (xs, rest) := DecodeMany(LOOKUP, b, n).value;
      DecodedIsEncoding(LOOKUP, b, n);
      EncodeAllLength(LOOKUP, xs);
      assert rest == [] && b == EncodeAll(LOOKUP, xs) + [] == EncodeAll(LOOKUP, xs);
      if |lookups| == n && b == EncodeAll(LOOKUP, lookups) {
        DecodeEncoded(LOOKUP, lookups, []);
        assert EncodeAll(LOOKUP, lookups) + [] == b;
      }
    }
  }

  // ----- exactness of the whole shard -----

  /** The byte string consists of the given parts, back to back. */
  ghost predicate Consists(data: Bytes, s: Shard)
    requires Shares(FILES, s.fileHeaders, s.segments) && Shares(XORBS, s.xorbHeaders, s.xorbChunks)
  {
    var a := HEADER_SIZE + |FileBytes(s)|;
    var b := a + |XorbTableBytes(s)|;
    var c := b + |LookupBytes(s)|;
    && c + FOOTER_SIZE == |data|
    && data[..HEADER_SIZE] == HEADER
    && data[HEADER_SIZE..a] == FileBytes(s)
    && data[a..b] == XorbTableBytes(s)
    && data[b..c] == LookupBytes(s)
    && data[c..] == EncodeFooter(s.footer)
  }

  lemma FiveParts(data: Bytes, a: Bytes, b: Bytes, c: Bytes, d: Bytes, e: Bytes)
    ensures data == a + (b + (c + (d + e))) <==>
            && |data| == |a| + |b| + |c| + |d| + |e|
            && data[..|a|] == a
            && data[|a|..|a| + |b|] == b
            && data[|a| + |b|..|a| + |b| + |c|] == c
            && data[|a| + |b| + |c|..|a| + |b| + |c| + |d|] == d
            && data[|a| + |b| + |c| + |d|..] == e
  {
    var whole := a + (b + (c + (d + e)));
    if data != whole && |data| == |whole| {
      var i :| 0 <= i < |data| && data[i] != whole[i];
      if i < |a| {
        assert data[..|a|][i] != a[i];
      } else if i < |a| + |b| {
        assert data[|a|..|a| + |b|][i - |a|] != b[i - |a|];
      } else if i < |a| + |b| + |c| {
        assert data[|a| + |b|..|a| + |b| + |c|][i - |a| - |b|] != c[i - |a| - |b|];
      } else if i < |a| + |b| + |c| + |d| {
        assert data[|a| + |b| + |c|..|a| + |b| + |c| + |d|][i - |a| - |b| - |c|] != d[i - |a| - |b| - |c|];
      } else {
        assert data[|a| + |b| + |c| + |d|..][i - |a| - |b| - |c| - |d|] != e[i - |a| - |b| - |c| - |d|];
      }
    }
  }

  lemma HeaderLength()
    ensures |HEADER| == HEADER_SIZE
  {
    assert |TAG| == 32;
  }

  lemma ConsistsIsRender(data: Bytes, s: Shard)
    requires Shares(FILES, s.fileHeaders, s.segments) && Shares(XORBS, s.xorbHeaders, s.xorbChunks)
    ensures data == Render(s) <==> Consists(data, s)
  {
    hide FileBytes, XorbTableBytes, LookupBytes, EncodeFooter;
    HeaderLength();
    FooterLength(s.footer);
    FiveParts(data, HEADER, FileBytes(s), XorbTableBytes(s), LookupBytes(s), EncodeFooter(s.footer));
  }

  lemma ParsedTables(data: Bytes, f: ShardFooter, footerStart: nat, s: Shard)
    requires HEADER_SIZE <= footerStart <= |data| && s.footer == f
    ensures ParseTables(data, f, footerStart) == Ok(s) <==>
            && Shares(FILES, s.fileHeaders, s.segments) && Shares(XORBS, s.xorbHeaders, s.xorbChunks)
            && TablesInPlace(data, footerStart, s)
  {
    hide ParseOptional, ParseLookups, Exact, Shares, RenderSection, Declared, LookupBytes;
    SectionsExact();
    if ParseTables(data, f, footerStart) == Ok(s) {
      var next := ParseOptional(FILES, data, HEADER_SIZE, f.fileInfoOffset, f.fileLookupOffset, f.fileLookupNum,
                                footerStart).value.0;
      var next2 := ParseOptional(XORBS, data, next, f.xorbInfoOffset, f.xorbLookupOffset, f.xorbLookupNum,
                                 footerStart).value.0;
      OptionalExact(FILES, data, HEADER_SIZE, f.fileInfoOffset, f.fileLookupOffset, f.fileLookupNum, footerStart,
                    next, s.fileHeaders, s.segments);
      OptionalExact(XORBS, data, next, f.xorbInfoOffset, f.xorbLookupOffset, f.xorbLookupNum, footerStart,
                    next2, s.xorbHeaders, s.xorbChunks);
      LookupsExact(data, next2, s, footerStart);
    }
    if Shares(FILES, s.fileHeaders, s.segments) && Shares(XORBS, s.xorbHeaders, s.xorbChunks)
        && TablesInPlace(data, footerStart, s) {
      var next := HEADER_SIZE + |FileBytes(s)|;
      var next2 := next + |XorbTableBytes(s)|;
      OptionalExact(FILES, data, HEADER_SIZE, f.fileInfoOffset, f.fileLookupOffset, f.fileLookupNum, footerStart,
                    next, s.fileHeaders, s.segments);
      OptionalExact(XORBS, data, next, f.xorbInfoOffset, f.xorbLookupOffset, f.xorbLookupNum, footerStart,
                    next2, s.xorbHeaders, s.xorbChunks);
      LookupsExact(data, next2, s, footerStart);
    }
  }

  ghost predicate TablesInPlace(data: Bytes, footerStart: nat, s: Shard)
    requires footerStart <= |data|
    requires Shares(FILES, s.fileHeaders, s.segments) && Shares(XORBS, s.xorbHeaders, s.xorbChunks)
  {
    var a := HEADER_SIZE + |FileBytes(s)|;
    var b := a + |XorbTableBytes(s)|;
    && b <= footerStart
    && Declared(HEADER_SIZE, |FileBytes(s)|, |s.fileHeaders|, |s.segments|,
                s.footer.fileInfoOffset, s.footer.fileLookupOffset, s.footer.fileLookupNum)
    && Declared(a, |XorbTableBytes(s)|, |s.xorbHeaders|, |s.xorbChunks|,
                s.footer.xorbInfoOffset, s.footer.xorbLookupOffset, s.footer.xorbLookupNum)
    && LookupsDeclared(s, b)
    && data[HEADER_SIZE..a] == FileBytes(s)
    && data[a..b] == XorbTableBytes(s)
    && data[b..footerStart] == LookupBytes(s)
  }

  lemma FooterSlot(b: Bytes, f: ShardFooter)
    requires |b| == FOOTER_SIZE
    ensures DecodeFooter(b) == f <==> b == EncodeFooter(f)
  {
    hide DecodeFooter, EncodeFooter;
    FooterRoundTrip(f);
    FooterRoundTripBack(b);
  }

  /**
   * The parser accepts exactly the renderings of well-formed shards: every byte belongs to one section,
   * counts are the declared ones, and re-rendering the parsed shard reproduces the input.
   */
  lemma ParserExact(data: Bytes, s: Shard)
    ensures Parse(data) == Ok(s) <==> WellFormed(s) && data == Render(s)
  {
    if Parse(data) == Ok(s) {
      ParseImpliesLayout(data, s);
    }
    if WellFormed(s) && data == Render(s) {
      LayoutImpliesParse(data, s);
    }
  }

  lemma ParseImpliesLayout(data: Bytes, s: Shard)
    requires Parse(data) == Ok(s)
    ensures WellFormed(s) && data == Render(s)
  {
    hide ParseTables, Shares, RenderSection, Declared, DecodeFooter, EncodeFooter, Render, FileBytes, XorbTableBytes,
         LookupBytes;
    var footerStart := |data| - FOOTER_SIZE;
    var f := DecodeFooter(data[footerStart..]);
    TablesKeepFooter(data, f, footerStart);
    ParsedTables(data, f, footerStart, s);
    FooterSlot(data[footerStart..], f);
    SliceLength(data, HEADER_SIZE + |FileBytes(s)| + |XorbTableBytes(s)|, footerStart);
    ConsistsIsRender(data, s);
  }

  lemma SliceLength(data: Bytes, i: nat, j: nat)
    requires i <= j <= |data|
    ensures |data[i..j]| == j - i
  {
  }

  lemma TablesKeepFooter(data: Bytes, f: ShardFooter, footerStart: nat)
    requires HEADER_SIZE <= footerStart <= |data| && ParseTables(data, f, footerStart).Ok?
    ensures ParseTables(data, f, footerStart).value.footer == f
  {
    hide ParseOptional, ParseLookups;
  }

  lemma LayoutImpliesParse(data: Bytes, s: Shard)
    requires WellFormed(s) && data == Render(s)
    ensures Parse(data) == Ok(s)
  {
    hide ParseTables, Shares, RenderSection, Declared, DecodeFooter, EncodeFooter, Render, FileBytes, XorbTableBytes,
         LookupBytes;
    ConsistsIsRender(data, s);
    var footerStart := |data| - FOOTER_SIZE;
    FooterSlot(data[footerStart..], s.footer);
    ParsedTables(data, s.footer, footerStart, s);
  }

  // ----- the parser -----

  method ReadOptional<H(!new), E(!new)>(sc: SectionCodec<H, E>, data: Bytes, next: nat, start: nat, end: nat, num: nat,
                                        footerStart: nat) returns (r: Result<(nat, seq<H>, seq<E>)>)
    requires ExactSection(sc) && footerStart <= |data|
    ensures sc.header.width > 0 && r == ParseOptional(sc, data, next, start, end, num, footerStart)
  {
    ExactWidths(sc);
    hide ParseSection, Exact;
    if start == 0 {
      return if end != 0 || num != 0 then Err else Ok((next, [], []));
    }
    if start != next || start < HEADER_SIZE || end < start || end > footerStart {
      return Err;
    }
    var tables := ReadSection(sc, data, start, end);
    if tables.Err? || |tables.value.0| != num {
      return Err;
    }
    r := Ok((end, tables.value.0, tables.value.1));
  }

  method ReadLookups(data: Bytes, next: nat, f: ShardFooter, footerStart: nat, chunkCount: nat)
    returns (r: Result<seq<Lookup>>)
    requires next <= footerStart <= |data|
    ensures r == ParseLookups(data, next, f, footerStart, chunkCount)
  {
    hide DecodeMany;
    if f.chunkLookupOffset == 0 {
      return if f.chunkLookupNum != 0 || chunkCount != 0 || next != footerStart then Err else Ok([]);
    }
    if f.chunkLookupNum == 0 || f.chunkLookupOffset != next {
      return Err;
    }
    var end := f.chunkLookupOffset + LOOKUP_SIZE * f.chunkLookupNum;
    if end != footerStart {
      return Err;
    }
    var entries := ReadMany(LOOKUP, data[next..footerStart], f.chunkLookupNum);
    if entries.Err? || |entries.value.0| != chunkCount {
      return Err;
    }
    r := Ok(entries.value.0);
  }

  method ParseShard(data: Bytes) returns (r: Result<Shard>)
    ensures r == Parse(data)
  {
    hide ParseOptional, ParseLookups, DecodeFooter, ExactSection;
    if |data| < HEADER_SIZE + FOOTER_SIZE {
      return Err;
    }
    if data[..HEADER_SIZE] != HEADER {
      return Err;
    }
    var footerStart := |data| - FOOTER_SIZE;
    var f := DecodeFooter(data[footerStart..]);
    if f.version != 2 || f.footerOffset != footerStart {
      return Err;
    }
    SectionsExact();
    var files := ReadOptional(FILES, data, HEADER_SIZE, f.fileInfoOffset, f.fileLookupOffset, f.fileLookupNum,
                              footerStart);
    if files.Err? {
      return Err;
    }
    var xorbs := ReadOptional(XORBS, data, files.value.0, f.xorbInfoOffset, f.xorbLookupOffset, f.xorbLookupNum,
                              footerStart);
    if xorbs.Err? {
      return Err;
    }
    var lookups := ReadLookups(data, xorbs.value.0, f, footerStart, |xorbs.value.2|);
    if lookups.Err? {
      return Err;
    }
    r := Ok(Shard(f, files.value.1, files.value.2, xorbs.value.1, xorbs.value.2, lookups.value));
  }
}
