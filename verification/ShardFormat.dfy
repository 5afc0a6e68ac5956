/** The shard container format: fixed-width records, sections and the footer. */
module ShardFormat {
  import opened Bytes

  const HEADER_SIZE: nat := 48
  const FOOTER_SIZE: nat := 208
  const RECORD_SIZE: nat := 48
  const LOOKUP_SIZE: nat := 68

  const TAG: Bytes := [72, 70, 82, 101, 112, 111, 77, 101, 116, 97, 68, 97, 116, 97, 0, 85,
                       105, 103, 69, 106, 123, 129, 87, 131, 165, 189, 217, 92, 205, 209, 74, 169]

  /** Tag, version 2 and footer size 208. */
  const HEADER: Bytes := TAG + Le(2, 8) + Le(208, 8)

  // ----- records: a hash and four 32-bit words -----

  datatype Words = Words(hash: Hash, w0: u32, w1: u32, w2: u32, w3: u32)

  function EncodeWords(r: Words): (b: Bytes)
    ensures |b| == RECORD_SIZE
  {
    r.hash + Le(r.w0, 4) + Le(r.w1, 4) + Le(r.w2, 4) + Le(r.w3, 4)
  }

  function DecodeWords(b: Bytes): Words {
    if |b| == RECORD_SIZE then
      Words(b[..32], DecodeU32(b[32..36]), DecodeU32(b[36..40]), DecodeU32(b[40..44]), DecodeU32(b[44..48]))
    else Words(ZERO_HASH, 0, 0, 0, 0)
  }

  lemma U32Inverse(x: u32, b: Bytes)
    requires |b| == 4
    ensures DecodeU32(Le(x, 4)) == x && Le(DecodeU32(b), 4) == b
  {
    U32CodecExact();
    assert U32_CODEC.dec(U32_CODEC.enc(x)) == x && U32_CODEC.enc(U32_CODEC.dec(b)) == b;
  }

  lemma WordsParts(r: Words)
    ensures var b := EncodeWords(r);
            && b[..32] == r.hash && b[32..36] == Le(r.w0, 4) && b[36..40] == Le(r.w1, 4)
            && b[40..44] == Le(r.w2, 4) && b[44..48] == Le(r.w3, 4)
  {
  }

  lemma WordsRoundTrip(r: Words)
    ensures DecodeWords(EncodeWords(r)) == r
  {
    hide EncodeWords, DecodeU32, Le;
    WordsParts(r);
    U32Inverse(r.w0, Zeros(4));
    U32Inverse(r.w1, Zeros(4));
    U32Inverse(r.w2, Zeros(4));
    U32Inverse(r.w3, Zeros(4));
  }

  lemma WordsRoundTripBack(b: Bytes)
    requires |b| == RECORD_SIZE
    ensures EncodeWords(DecodeWords(b)) == b
  {
    hide DecodeU32, Le;
    U32Inverse(0, b[32..36]);
    U32Inverse(0, b[36..40]);
    U32Inverse(0, b[40..44]);
    U32Inverse(0, b[44..48]);
    assert b == b[..32] + b[32..36] + b[36..40] + b[40..44] + b[44..48];
  }

  /** Introduces a file: its hash and how many segments follow. The reserved words are ignored by readers. */
  datatype FileHeader = FileHeader(fileHash: Hash, flags: u32, numEntries: u32, reserved0: u32, reserved1: u32)

  /** A range of chunks of a xorb that makes up a portion of a file. */
  datatype Segment = Segment(xorbHash: Hash, flags: u32, unpackedBytes: u32, chunkStart: u32, chunkEnd: u32)

  /** Introduces a xorb: its hash, how many chunk entries follow, and its sizes. */
  datatype XorbHeader = XorbHeader(xorbHash: Hash, flags: u32, numEntries: u32, bytesInXorb: u32, bytesOnDisk: u32)

  /** A chunk of a xorb: its serialized hash, where it starts and its unpacked length. */
  datatype XorbChunk = XorbChunk(chunkHash: Hash, byteStart: u32, unpackedBytes: u32, flags: u32, reserved: u32)

  /** The raw hash of a chunk, for deduplication. */
  datatype Lookup = Lookup(chunkHash: Hash, xorbHash: Hash, chunkIndex: u32)

  function EncodeFileHeader(h: FileHeader): Bytes {
    EncodeWords(Words(h.fileHash, h.flags, h.numEntries, h.reserved0, h.reserved1))
  }
  function DecodeFileHeader(b: Bytes): FileHeader {
    var r := DecodeWords(b); FileHeader(r.hash, r.w0, r.w1, r.w2, r.w3)
  }
  function EncodeSegment(s: Segment): Bytes {
    EncodeWords(Words(s.xorbHash, s.flags, s.unpackedBytes, s.chunkStart, s.chunkEnd))
  }
  function DecodeSegment(b: Bytes): Segment {
    var r := DecodeWords(b); Segment(r.hash, r.w0, r.w1, r.w2, r.w3)
  }
  function EncodeXorbHeader(h: XorbHeader): Bytes {
    EncodeWords(Words(h.xorbHash, h.flags, h.numEntries, h.bytesInXorb, h.bytesOnDisk))
  }
  function DecodeXorbHeader(b: Bytes): XorbHeader {
    var r := DecodeWords(b); XorbHeader(r.hash, r.w0, r.w1, r.w2, r.w3)
  }
  function EncodeXorbChunk(c: XorbChunk): Bytes {
    EncodeWords(Words(c.chunkHash, c.byteStart, c.unpackedBytes, c.flags, c.reserved))
  }
  function DecodeXorbChunk(b: Bytes): XorbChunk {
    var r := DecodeWords(b); XorbChunk(r.hash, r.w0, r.w1, r.w2, r.w3)
  }
  function EncodeLookup(l: Lookup): Bytes { l.chunkHash + l.xorbHash + Le(l.chunkIndex, 4) }
  function DecodeLookup(b: Bytes): Lookup {
    if |b| == LOOKUP_SIZE then Lookup(b[..32], b[32..64], DecodeU32(b[64..68])) else Lookup(ZERO_HASH, ZERO_HASH, 0)
  }

  const FILE_HEADER: Codec<FileHeader> := Codec(RECORD_SIZE, EncodeFileHeader, DecodeFileHeader)
  const SEGMENT: Codec<Segment> := Codec(RECORD_SIZE, EncodeSegment, DecodeSegment)
  const XORB_HEADER: Codec<XorbHeader> := Codec(RECORD_SIZE, EncodeXorbHeader, DecodeXorbHeader)
  const XORB_CHUNK: Codec<XorbChunk> := Codec(RECORD_SIZE, EncodeXorbChunk, DecodeXorbChunk)
  const LOOKUP: Codec<Lookup> := Codec(LOOKUP_SIZE, EncodeLookup, DecodeLookup)

  lemma WordsExact()
    ensures forall r: Words :: DecodeWords(EncodeWords(r)) == r
    ensures forall b: Bytes | |b| == RECORD_SIZE :: EncodeWords(DecodeWords(b)) == b
  {
    hide EncodeWords, DecodeWords;
    forall r: Words ensures DecodeWords(EncodeWords(r)) == r { WordsRoundTrip(r); }
    forall b: Bytes | |b| == RECORD_SIZE ensures EncodeWords(DecodeWords(b)) == b { WordsRoundTripBack(b); }
  }

  lemma FileHeaderExact()
    ensures Exact(FILE_HEADER)
  {
    hide EncodeWords, DecodeWords;
    WordsExact();
  }

  lemma SegmentExact()
    ensures Exact(SEGMENT)
  {
    hide EncodeWords, DecodeWords;
    WordsExact();
  }

  lemma XorbHeaderExact()
    ensures Exact(XORB_HEADER)
  {
    hide EncodeWords, DecodeWords;
    WordsExact();
  }

  lemma XorbChunkExact()
    ensures Exact(XORB_CHUNK)
  {
    hide EncodeWords, DecodeWords;
    WordsExact();
  }

  lemma LookupExact()
    ensures Exact(LOOKUP)
  {
    hide DecodeU32, Le;
    forall t: Lookup
      ensures |EncodeLookup(t)| == LOOKUP_SIZE && DecodeLookup(EncodeLookup(t)) == t
    {
      U32Inverse(t.chunkIndex, Zeros(4));
      var b := EncodeLookup(t);
      assert b[..32] == t.chunkHash && b[32..64] == t.xorbHash && b[64..68] == Le(t.chunkIndex, 4);
    }
    forall b: Bytes | |b| == LOOKUP_SIZE
      ensures EncodeLookup(DecodeLookup(b)) == b
    {
      U32Inverse(0, b[64..68]);
      assert b == b[..32] + b[32..64] + b[64..68];
    }
  }

  // ----- where the fields of a record are -----

  lemma FileHeaderLayout(h: FileHeader)
    ensures var b := EncodeFileHeader(h);
            && |b| == 48 && b[..32] == h.fileHash && b[32..36] == Le(h.flags, 4) && b[36..40] == Le(h.numEntries, 4)
            && b[40..44] == Le(h.reserved0, 4) && b[44..48] == Le(h.reserved1, 4)
  {
    hide Le;
  }

  lemma SegmentLayout(s: Segment)
    ensures var b := EncodeSegment(s);
            && |b| == 48 && b[..32] == s.xorbHash && b[32..36] == Le(s.flags, 4) && b[36..40] == Le(s.unpackedBytes, 4)
            && b[40..44] == Le(s.chunkStart, 4) && b[44..48] == Le(s.chunkEnd, 4)
  {
    hide Le;
  }

  lemma XorbHeaderLayout(h: XorbHeader)
    ensures var b := EncodeXorbHeader(h);
            && |b| == 48 && b[..32] == h.xorbHash && b[32..36] == Le(h.flags, 4) && b[36..40] == Le(h.numEntries, 4)
            && b[40..44] == Le(h.bytesInXorb, 4) && b[44..48] == Le(h.bytesOnDisk, 4)
  {
    hide Le;
  }

  lemma XorbChunkLayout(c: XorbChunk)
    ensures var b := EncodeXorbChunk(c);
            && |b| == 48 && b[..32] == c.chunkHash && b[32..36] == Le(c.byteStart, 4)
            && b[36..40] == Le(c.unpackedBytes, 4) && b[40..44] == Le(c.flags, 4) && b[44..48] == Le(c.reserved, 4)
  {
    hide Le;
  }

  lemma LookupLayout(l: Lookup)
    ensures var b := EncodeLookup(l);
            && |b| == 68 && b[..32] == l.chunkHash && b[32..64] == l.xorbHash && b[64..68] == Le(l.chunkIndex, 4)
  {
    hide Le;
  }

  // ----- the footer -----

  type SevenWords = s: seq<u64> | |s| == 7 witness [0, 0, 0, 0, 0, 0, 0]

  datatype ShardFooter = ShardFooter(
    version: u64, fileInfoOffset: u64, xorbInfoOffset: u64,
    fileLookupOffset: u64, fileLookupNum: u64, xorbLookupOffset: u64, xorbLookupNum: u64,
    chunkLookupOffset: u64, chunkLookupNum: u64,
    hmacKey: Hash, created: u64, keyExpiry: u64, reserved: SevenWords,
    storedOnDisk: u64, materialized: u64, stored: u64, footerOffset: u64)

  function FrontWords(f: ShardFooter): (w: seq<u64>)
    ensures |w| == 9
  {
    [f.version, f.fileInfoOffset, f.xorbInfoOffset, f.fileLookupOffset, f.fileLookupNum,
     f.xorbLookupOffset, f.xorbLookupNum, f.chunkLookupOffset, f.chunkLookupNum]
  }

  function BackWords(f: ShardFooter): (w: seq<u64>)
    ensures |w| == 13
  {
    [f.created, f.keyExpiry] + f.reserved + [f.storedOnDisk, f.materialized, f.stored, f.footerOffset]
  }

  function FooterFrom(front: seq<u64>, key: Hash, back: seq<u64>): ShardFooter
    requires |front| == 9 && |back| == 13
  {
    ShardFooter(front[0], front[1], front[2], front[3], front[4], front[5], front[6], front[7], front[8],
                key, back[0], back[1], back[2..9], back[9], back[10], back[11], back[12])
  }

  function EncodeFooter(f: ShardFooter): Bytes {
    EncodeAll(U64_CODEC, FrontWords(f)) + (f.hmacKey + EncodeAll(U64_CODEC, BackWords(f)))
  }

  lemma DecodeWordsOk(b: Bytes, n: nat)
    requires |b| == 8 * n
    ensures DecodeMany(U64_CODEC, b, n).Ok?
    ensures |DecodeMany(U64_CODEC, b, n).value.0| == n
    ensures b == EncodeAll(U64_CODEC, DecodeMany(U64_CODEC, b, n).value.0)
  {
    hide DecodeMany, EncodeAll, Exact;
    U64CodecExact();
    DecodeManyDefined(U64_CODEC, b, n);
    DecodedIsEncoding(U64_CODEC, b, n);
    var (xs, rest) := DecodeMany(U64_CODEC, b, n).value;
    EncodeAllLength(U64_CODEC, xs);
    assert rest == [];
    assert EncodeAll(U64_CODEC, xs) + [] == EncodeAll(U64_CODEC, xs);
  }

  function DecodeFooter(b: Bytes): ShardFooter
    requires |b| == FOOTER_SIZE
  {
    DecodeWordsOk(b[..72], 9);
    DecodeWordsOk(b[104..], 13);
    FooterFrom(DecodeMany(U64_CODEC, b[..72], 9).value.0, b[72..104], DecodeMany(U64_CODEC, b[104..], 13).value.0)
  }

  lemma FooterWords(front: seq<u64>, key: Hash, back: seq<u64>)
    requires |front| == 9 && |back| == 13
    ensures var f := FooterFrom(front, key, back);
            FrontWords(f) == front && f.hmacKey == key && BackWords(f) == back
  {
  }

  lemma FooterFields(f: ShardFooter)
    ensures FooterFrom(FrontWords(f), f.hmacKey, BackWords(f)) == f
  {
    assert BackWords(f)[2..9] == f.reserved;
  }

  lemma EncodedWords(w: seq<u64>)
    ensures |EncodeAll(U64_CODEC, w)| == 8 * |w|
    ensures DecodeMany(U64_CODEC, EncodeAll(U64_CODEC, w), |w|) == Ok((w, []))
  {
    hide DecodeMany, EncodeAll, Exact;
    U64CodecExact();
    EncodeAllLength(U64_CODEC, w);
    DecodeEncoded(U64_CODEC, w, []);
    assert EncodeAll(U64_CODEC, w) + [] == EncodeAll(U64_CODEC, w);
  }

  lemma FooterLength(f: ShardFooter)
    ensures |EncodeFooter(f)| == FOOTER_SIZE
  {
    hide EncodeAll;
    EncodedWords(FrontWords(f));
    EncodedWords(BackWords(f));
  }

  /** A 64-bit word of the footer. */
  predicate WordAt(b: Bytes, at: nat, x: u64) { at + 8 <= |b| && b[at..at + 8] == Le(x, 8) }

  lemma WordOf(xs: seq<u64>, b: Bytes, at: nat, i: nat)
    requires i < |xs| && at + |EncodeAll(U64_CODEC, xs)| <= |b|
    requires b[at..at + |EncodeAll(U64_CODEC, xs)|] == EncodeAll(U64_CODEC, xs)
    ensures WordAt(b, at + 8 * i, xs[i])
  {
    hide EncodeAll, Exact, Le;
    U64CodecExact();
    TableEntry(U64_CODEC, xs, b, at, i);
    U64Encoding(xs[i]);
  }

  lemma U64Encoding(x: u64)
    ensures U64_CODEC.enc(x) == Le(x, 8) && U64_CODEC.width == 8
  {
    hide Le;
  }

  lemma FooterHalves(f: ShardFooter)
    ensures var b, front, back := EncodeFooter(f), EncodeAll(U64_CODEC, FrontWords(f)),
            EncodeAll(U64_CODEC, BackWords(f));
            && |b| == 208 && |front| == 72 && |back| == 104
            && b[0..0 + |front|] == front && b[72..104] == f.hmacKey && b[104..104 + |back|] == back
  {
    hide EncodeAll, FrontWords, BackWords;
    EncodedWords(FrontWords(f));
    EncodedWords(BackWords(f));
    ThreeParts(EncodeAll(U64_CODEC, FrontWords(f)), f.hmacKey, EncodeAll(U64_CODEC, BackWords(f)));
  }

  lemma ThreeParts(a: Bytes, b: Bytes, c: Bytes)
    ensures var w := a + (b + c);
            && w[0..0 + |a|] == a && w[|a|..|a| + |b|] == b && w[|a| + |b|..|a| + |b| + |c|] == c
  {
  }

  /** Where the fields of the footer are. */
  lemma FooterLayout(f: ShardFooter)
    ensures var b := EncodeFooter(f);
            && |b| == 208
            && WordAt(b, 0, f.version) && WordAt(b, 8, f.fileInfoOffset) && WordAt(b, 16, f.xorbInfoOffset)
            && WordAt(b, 24, f.fileLookupOffset) && WordAt(b, 32, f.fileLookupNum)
            && WordAt(b, 40, f.xorbLookupOffset) && WordAt(b, 48, f.xorbLookupNum)
            && WordAt(b, 56, f.chunkLookupOffset) && WordAt(b, 64, f.chunkLookupNum)
            && b[72..104] == f.hmacKey && WordAt(b, 104, f.created) && WordAt(b, 112, f.keyExpiry)
            && WordAt(b, 176, f.storedOnDisk) && WordAt(b, 184, f.materialized) && WordAt(b, 192, f.stored)
            && WordAt(b, 200, f.footerOffset)
  {
    hide EncodeAll, EncodeFooter, WordAt;
    FooterHalves(f);
    FrontLayout(f);
    BackLayout(f);
  }

  lemma FrontLayout(f: ShardFooter)
    ensures var b := EncodeFooter(f);
            && WordAt(b, 0, f.version) && WordAt(b, 8, f.fileInfoOffset) && WordAt(b, 16, f.xorbInfoOffset)
            && WordAt(b, 24, f.fileLookupOffset) && WordAt(b, 32, f.fileLookupNum)
            && WordAt(b, 40, f.xorbLookupOffset) && WordAt(b, 48, f.xorbLookupNum)
            && WordAt(b, 56, f.chunkLookupOffset) && WordAt(b, 64, f.chunkLookupNum)
  {
    hide EncodeAll, EncodeFooter, WordAt;
    var b, w := EncodeFooter(f), FrontWords(f);
    FooterHalves(f);
    WordOf(w, b, 0, 0);
    WordOf(w, b, 0, 1);
    WordOf(w, b, 0, 2);
    WordOf(w, b, 0, 3);
    WordOf(w, b, 0, 4);
    WordOf(w, b, 0, 5);
    WordOf(w, b, 0, 6);
    WordOf(w, b, 0, 7);
    WordOf(w, b, 0, 8);
  }

  lemma BackLayout(f: ShardFooter)
    ensures var b := EncodeFooter(f);
            && WordAt(b, 104, f.created) && WordAt(b, 112, f.keyExpiry)
            && WordAt(b, 176, f.storedOnDisk) && WordAt(b, 184, f.materialized) && WordAt(b, 192, f.stored)
            && WordAt(b, 200, f.footerOffset)
  {
    hide EncodeAll, EncodeFooter, WordAt;
    var b, w := EncodeFooter(f), BackWords(f);
    FooterHalves(f);
    WordOf(w, b, 104, 0);
    WordOf(w, b, 104, 1);
    WordOf(w, b, 104, 9);
    WordOf(w, b, 104, 10);
    WordOf(w, b, 104, 11);
    WordOf(w, b, 104, 12);
  }

  lemma FooterRoundTrip(f: ShardFooter)
    ensures |EncodeFooter(f)| == FOOTER_SIZE && DecodeFooter(EncodeFooter(f)) == f
  {
    hide EncodeAll, DecodeMany, FrontWords, BackWords, FooterFrom;
    FooterLength(f);
    var front, back := EncodeAll(U64_CODEC, FrontWords(f)), EncodeAll(U64_CODEC, BackWords(f));
    EncodedWords(FrontWords(f));
    EncodedWords(BackWords(f));
    FooterFields(f);
    SplitConcat(front, f.hmacKey + back);
    SplitConcat(f.hmacKey, back);
    var b := EncodeFooter(f);
    assert b[72..] == f.hmacKey + back;
    assert b[72..104] == b[72..][..32] && b[104..] == b[72..][32..];
  }

  lemma FooterRoundTripBack(b: Bytes)
    requires |b| == FOOTER_SIZE
    ensures EncodeFooter(DecodeFooter(b)) == b
  {
    hide EncodeAll, DecodeMany, FrontWords, BackWords, FooterFrom;
    DecodeWordsOk(b[..72], 9);
    DecodeWordsOk(b[104..], 13);
    FooterWords(DecodeMany(U64_CODEC, b[..72], 9).value.0, b[72..104], DecodeMany(U64_CODEC, b[104..], 13).value.0);
    assert b == b[..72] + (b[72..104] + b[104..]);
  }
}
