/** The xorb container format: chunk headers and the footer. */
module XorbFormat {
  import opened Bytes
  import opened Compression

  // ----- chunk headers -----

  datatype ChunkHeader = ChunkHeader(version: byte, compressedLen: nat, scheme: Scheme, uncompressedLen: nat)

  const HEADER_SIZE: nat := 8

  /** Lengths are written as their low three bytes. */
  function HeaderBytes(h: ChunkHeader): (b: Bytes)
    ensures |b| == HEADER_SIZE
  {
    [h.version] + Le(h.compressedLen, 3) + [SchemeByte(h.scheme)] + Le(h.uncompressedLen, 3)
  }

  function ParseHeader(b: Bytes): Result<ChunkHeader> {
    if |b| < HEADER_SIZE then Err
    else match SchemeOf(b[4])
      case None => Err
      case Some(scheme) => Ok(ChunkHeader(b[0], UnLe(b[1..4]), scheme, UnLe(b[5..8])))
  }

  /** Headers are read back exactly when both lengths fit three bytes. */
  lemma HeaderRoundTrip(h: ChunkHeader, tail: Bytes)
    ensures ParseHeader(HeaderBytes(h) + tail) == Ok(h) <==> h.compressedLen < U24 && h.uncompressedLen < U24
  {
    var b := HeaderBytes(h) + tail;
    assert b[1..4] == Le(h.compressedLen, 3) && b[5..8] == Le(h.uncompressedLen, 3);
    Widths();
    UnLeRoundTrip(b[1..4]);
    UnLeRoundTrip(b[5..8]);
    if h.compressedLen < U24 {
      LeRoundTrip(h.compressedLen, 3);
    }
    if h.uncompressedLen < U24 {
      LeRoundTrip(h.uncompressedLen, 3);
    }
  }

  lemma ParsedHeader(b: Bytes)
    requires ParseHeader(b).Ok?
    ensures HeaderBytes(ParseHeader(b).value) == b[..8]
    ensures ParseHeader(b).value.compressedLen < U24 && ParseHeader(b).value.uncompressedLen < U24
  {
    Widths();
    UnLeRoundTrip(b[1..4]);
    UnLeRoundTrip(b[5..8]);
    assert b[..8] == [b[0]] + b[1..4] + [b[4]] + b[5..8];
  }

  /** Exactly which eight bytes are a header, and what each of them says. */
  lemma HeaderRead(b: Bytes)
    ensures ParseHeader(b).Ok? <==> |b| >= 8 && b[4] <= 2
    ensures ParseHeader(b).Ok? ==>
              var h := ParseHeader(b).value;
              && h.version == b[0]
              && h.compressedLen == b[1] as nat + 0x100 * (b[2] as nat) + 0x1_0000 * (b[3] as nat)
              && h.scheme == (if b[4] == 0 then Plain else if b[4] == 1 then Lz4 else ByteGrouping4Lz4)
              && h.uncompressedLen == b[5] as nat + 0x100 * (b[6] as nat) + 0x1_0000 * (b[7] as nat)
  {
    if |b| >= 8 {
      ThreeBytesRead(b[1..4]);
      ThreeBytesRead(b[5..8]);
    }
  }

  // ----- the footer -----

  datatype Footer = Footer(xorbHash: Hash, hashes: seq<Hash>, boundaries: seq<u32>, unpacked: seq<u32>)

  /** "XBLBHSH", "XBLBBND", "XETBLOB" */
  const IDENT_HASHES: Bytes := [88, 66, 76, 66, 72, 83, 72]
  const IDENT_BOUNDARIES: Bytes := [88, 66, 76, 66, 66, 78, 68]
  const IDENT_MAIN: Bytes := [88, 69, 84, 66, 76, 79, 66]

  const HASHES_HEAD: Bytes := IDENT_HASHES + [0]
  const BOUNDARIES_HEAD: Bytes := IDENT_BOUNDARIES + [1]
  const MAIN_HEAD: Bytes := IDENT_MAIN + [1]

  const MAX_CHUNKS_PER_XORB: nat := 100_000

  function FooterLen(numChunks: nat): nat { 60 + 40 * numChunks }

  /** What follows the hash table. */
  function FooterTail(f: Footer): Bytes {
    BOUNDARIES_HEAD + (EncodeAll(U32_CODEC, f.boundaries)
                       + (EncodeAll(U32_CODEC, f.unpacked) + (MAIN_HEAD + f.xorbHash)))
  }

  function FooterBytes(f: Footer): Bytes {
    HASHES_HEAD + (Le(|f.hashes|, 4) + (EncodeAll(HASH_CODEC, f.hashes) + FooterTail(f)))
  }

  function ParseFooterTail(b: Bytes, hashes: seq<Hash>): Result<Footer> {
    var b1 :- Expect(b, BOUNDARIES_HEAD);
    var (boundaries, b2) :- DecodeMany(U32_CODEC, b1, |hashes|);
    var (unpacked, b3) :- DecodeMany(U32_CODEC, b2, |hashes|);
    var b4 :- Expect(b3, MAIN_HEAD);
    if |b4| < 32 then Err else Ok(Footer(b4[..32], hashes, boundaries, unpacked))
  }

  function ParseFooter(b: Bytes): Result<Footer> {
    var b1 :- Expect(b, HASHES_HEAD);
    if |b1| < 4 then Err else
    var n := DecodeU32(b1[..4]);
    if n > MAX_CHUNKS_PER_XORB then Err else
    var (hashes, b2) :- DecodeMany(HASH_CODEC, b1[4..], n);
    ParseFooterTail(b2, hashes)
  }

  predicate WellSized(f: Footer) {
    |f.hashes| == |f.boundaries| == |f.unpacked| <= MAX_CHUNKS_PER_XORB
  }

  lemma FooterLength(f: Footer)
    requires WellSized(f)
    ensures |FooterBytes(f)| == FooterLen(|f.hashes|)
  {
    U32CodecExact();
    HashCodecExact();
    EncodeAllLength(HASH_CODEC, f.hashes);
    EncodeAllLength(U32_CODEC, f.boundaries);
    EncodeAllLength(U32_CODEC, f.unpacked);
  }

  lemma TailRoundTrip(f: Footer, tail: Bytes)
    requires WellSized(f)
    ensures ParseFooterTail(FooterTail(f) + tail, f.hashes) == Ok(f)
  {
    U32CodecExact();
    var main := MAIN_HEAD + f.xorbHash;
    var bs, us := EncodeAll(U32_CODEC, f.boundaries), EncodeAll(U32_CODEC, f.unpacked);
    Assoc(BOUNDARIES_HEAD, bs + (us + main), tail);
    ExpectExact(FooterTail(f) + tail, BOUNDARIES_HEAD, (bs + (us + main)) + tail);
    Assoc(bs, us + main, tail);
    DecodeEncoded(U32_CODEC, f.boundaries, (us + main) + tail);
    Assoc(us, main, tail);
    DecodeEncoded(U32_CODEC, f.unpacked, main + tail);
    Assoc(MAIN_HEAD, f.xorbHash, tail);
    ExpectExact(main + tail, MAIN_HEAD, f.xorbHash + tail);
    SplitConcat(f.xorbHash, tail);
  }

  /** The footer is read back as written, whatever follows it. */
  lemma FooterRoundTrip(f: Footer, tail: Bytes)
    requires WellSized(f)
    ensures ParseFooter(FooterBytes(f) + tail) == Ok(f)
  {
    HashCodecExact();
    U32CodecExact();
    var hs, rest := EncodeAll(HASH_CODEC, f.hashes), FooterTail(f);
    var num := Le(|f.hashes|, 4);
    Assoc(HASHES_HEAD, num + (hs + rest), tail);
    ExpectExact(FooterBytes(f) + tail, HASHES_HEAD, (num + (hs + rest)) + tail);
    Assoc(num, hs + rest, tail);
    SplitConcat(num, (hs + rest) + tail);
    assert DecodeU32(num) == U32_CODEC.dec(U32_CODEC.enc(|f.hashes|));
    Assoc(hs, rest, tail);
    DecodeEncoded(HASH_CODEC, f.hashes, rest + tail);
    TailRoundTrip(f, tail);
  }

  lemma ParsedTail(b: Bytes, hashes: seq<Hash>)
    requires ParseFooterTail(b, hashes).Ok? && |hashes| <= MAX_CHUNKS_PER_XORB
    ensures var f := ParseFooterTail(b, hashes).value;
            WellSized(f) && f.hashes == hashes && FooterTail(f) <= b
  {
    U32CodecExact();
    var b1 := Expect(b, BOUNDARIES_HEAD).value;
    ExpectExact(b, BOUNDARIES_HEAD, b1);
    var (bs, b2) := DecodeMany(U32_CODEC, b1, |hashes|).value;
    DecodedIsEncoding(U32_CODEC, b1, |hashes|);
    var (us, b3) := DecodeMany(U32_CODEC, b2, |hashes|).value;
    DecodedIsEncoding(U32_CODEC, b2, |hashes|);
    var b4 := Expect(b3, MAIN_HEAD).value;
    ExpectExact(b3, MAIN_HEAD, b4);
    assert b4 == b4[..32] + b4[32..];
    TailPrefix(Footer(b4[..32], hashes, bs, us), b4[32..]);
  }

  lemma TailPrefix(f: Footer, tail: Bytes)
    ensures FooterTail(f) <= BOUNDARIES_HEAD + (EncodeAll(U32_CODEC, f.boundaries)
              + (EncodeAll(U32_CODEC, f.unpacked) + (MAIN_HEAD + (f.xorbHash + tail))))
  {
    var main := MAIN_HEAD + f.xorbHash;
    var bs, us := EncodeAll(U32_CODEC, f.boundaries), EncodeAll(U32_CODEC, f.unpacked);
    Assoc(MAIN_HEAD, f.xorbHash, tail);
    Assoc(us, main, tail);
    Assoc(bs, us + main, tail);
    Assoc(BOUNDARIES_HEAD, bs + (us + main), tail);
  }

  /** Whatever parses starts with the bytes of the footer it parses to. */
  lemma ParsedFooter(b: Bytes)
    requires ParseFooter(b).Ok?
    ensures WellSized(ParseFooter(b).value) && FooterBytes(ParseFooter(b).value) <= b
  {
    hide ParseFooterTail, FooterTail, DecodeMany, EncodeAll, Expect, Le;
    HashCodecExact();
    U32CodecExact();
    var b1 := Expect(b, HASHES_HEAD).value;
    ExpectExact(b, HASHES_HEAD, b1);
    var n := DecodeU32(b1[..4]);
    assert Le(n, 4) == b1[..4] by { assert U32_CODEC.enc(U32_CODEC.dec(b1[..4])) == b1[..4]; }
    var (hs, b2) := DecodeMany(HASH_CODEC, b1[4..], n).value;
    DecodedIsEncoding(HASH_CODEC, b1[4..], n);
    ParsedTail(b2, hs);
    var f := ParseFooter(b).value;
    var tail := b2[|FooterTail(f)|..];
    assert b2 == FooterTail(f) + tail;
    assert b1 == b1[..4] + b1[4..];
    FooterPrefix(f, tail);
  }

  lemma FooterPrefix(f: Footer, tail: Bytes)
    ensures FooterBytes(f) <= HASHES_HEAD
            + (Le(|f.hashes|, 4) + (EncodeAll(HASH_CODEC, f.hashes) + (FooterTail(f) + tail)))
  {
    var hs, rest := EncodeAll(HASH_CODEC, f.hashes), FooterTail(f);
    var num := Le(|f.hashes|, 4);
    Assoc(hs, rest, tail);
    Assoc(num, hs + rest, tail);
    Assoc(HASHES_HEAD, num + (hs + rest), tail);
  }

  /** The parser accepts exactly the byte strings that start with a footer. */
  lemma FooterParserExact(b: Bytes, f: Footer)
    ensures ParseFooter(b) == Ok(f) <==> WellSized(f) && FooterBytes(f) <= b
  {
    if ParseFooter(b) == Ok(f) {
      ParsedFooter(b);
    }
    if WellSized(f) && FooterBytes(f) <= b {
      FooterRoundTrip(f, b[|FooterBytes(f)|..]);
      assert b == FooterBytes(f) + b[|FooterBytes(f)|..];
    }
  }

  /** The parts of the footer, in order. */
  function FooterParts(f: Footer): seq<Bytes> {
    [HASHES_HEAD, Le(|f.hashes|, 4), EncodeAll(HASH_CODEC, f.hashes), BOUNDARIES_HEAD,
     EncodeAll(U32_CODEC, f.boundaries), EncodeAll(U32_CODEC, f.unpacked), MAIN_HEAD, f.xorbHash]
  }

  lemma FooterIsParts(f: Footer)
    ensures Flatten(FooterParts(f)) == FooterBytes(f)
  {
    hide EncodeAll, Le, Flatten;
    var p := FooterParts(f);
    FlattenCons(p, 0);
    FlattenCons(p, 1);
    FlattenCons(p, 2);
    FlattenCons(p, 3);
    FlattenCons(p, 4);
    FlattenCons(p, 5);
    FlattenCons(p, 6);
    FlattenCons(p, 7);
    assert p[0..] == p;
  }

  lemma FlattenCons(parts: seq<Bytes>, k: nat)
    requires k < |parts|
    ensures Flatten(parts[k..]) == if k + 1 < |parts| then parts[k] + Flatten(parts[k + 1..]) else parts[k]
  {
    assert parts[k..][1..] == parts[k + 1..];
    assert parts[k] + [] == parts[k];
  }

  lemma PartOffsets(f: Footer)
    requires WellSized(f)
    ensures var p, n := FooterParts(f), |f.hashes|;
            && |p| == 8 && Offset(p, 0) == 0 && Offset(p, 1) == 8 && Offset(p, 2) == 12 && Offset(p, 3) == 12 + 32 * n
            && Offset(p, 4) == 20 + 32 * n && Offset(p, 5) == 20 + 36 * n && Offset(p, 6) == 20 + 40 * n
            && Offset(p, 7) == 28 + 40 * n && Offset(p, 8) == 60 + 40 * n
  {
    hide EncodeAll, Le, Offset, Exact;
    U32CodecExact();
    HashCodecExact();
    EncodeAllLength(HASH_CODEC, f.hashes);
    EncodeAllLength(U32_CODEC, f.boundaries);
    EncodeAllLength(U32_CODEC, f.unpacked);
    var p := FooterParts(f);
    OffsetStep(p, 0);
    OffsetStep(p, 1);
    OffsetStep(p, 2);
    OffsetStep(p, 3);
    OffsetStep(p, 4);
    OffsetStep(p, 5);
    OffsetStep(p, 6);
    OffsetStep(p, 7);
  }

  lemma FooterPartAt(f: Footer, k: nat)
    requires WellSized(f) && k < 8
    ensures Offset(FooterParts(f), k) <= Offset(FooterParts(f), k + 1) <= |FooterBytes(f)|
    ensures FooterBytes(f)[Offset(FooterParts(f), k)..Offset(FooterParts(f), k + 1)] == FooterParts(f)[k]
  {
    hide FooterBytes, Offset, Flatten;
    FooterIsParts(f);
    PartAt(FooterParts(f), k, []);
    assert FooterBytes(f) + [] == FooterBytes(f);
  }

  /** Where everything in a footer of `n` chunks is. */
  lemma FooterLayout(f: Footer)
    requires WellSized(f)
    ensures var b, n := FooterBytes(f), |f.hashes|;
            && |b| == 60 + 40 * n
            && b[..8] == [88, 66, 76, 66, 72, 83, 72, 0] && b[8..12] == Le(n, 4)
            && b[12 + 32 * n..20 + 32 * n] == [88, 66, 76, 66, 66, 78, 68, 1]
            && b[20 + 40 * n..28 + 40 * n] == [88, 69, 84, 66, 76, 79, 66, 1]
            && b[28 + 40 * n..] == f.xorbHash
  {
    hide FooterBytes, EncodeAll, Le, Offset;
    FooterLength(f);
    PartOffsets(f);
    FooterPartAt(f, 0);
    FooterPartAt(f, 1);
    FooterPartAt(f, 3);
    FooterPartAt(f, 6);
    FooterPartAt(f, 7);
  }

  /** Where the entries of chunk `i` are. */
  lemma FooterEntries(f: Footer, i: nat)
    requires WellSized(f) && i < |f.hashes|
    ensures var b, n := FooterBytes(f), |f.hashes|;
            && |b| == 60 + 40 * n
            && b[12 + 32 * i..44 + 32 * i] == f.hashes[i]
            && b[20 + 32 * n + 4 * i..24 + 32 * n + 4 * i] == Le(f.boundaries[i], 4)
            && b[20 + 36 * n + 4 * i..24 + 36 * n + 4 * i] == Le(f.unpacked[i], 4)
  {
    hide FooterBytes, EncodeAll, Le, Offset, Exact, FooterParts;
    U32CodecExact();
    HashCodecExact();
    FooterLength(f);
    FooterTables(f);
    EncodeAllLength(HASH_CODEC, f.hashes);
    EncodeAllLength(U32_CODEC, f.boundaries);
    EncodeAllLength(U32_CODEC, f.unpacked);
    var b, n := FooterBytes(f), |f.hashes|;
    TableEntry(HASH_CODEC, f.hashes, b, 12, i);
    TableEntry(U32_CODEC, f.boundaries, b, 20 + 32 * n, i);
    TableEntry(U32_CODEC, f.unpacked, b, 20 + 36 * n, i);
  }

  lemma FooterTables(f: Footer)
    requires WellSized(f)
    ensures var b, n := FooterBytes(f), |f.hashes|;
            && |b| == 60 + 40 * n
            && b[12..12 + 32 * n] == EncodeAll(HASH_CODEC, f.hashes)
            && b[20 + 32 * n..20 + 36 * n] == EncodeAll(U32_CODEC, f.boundaries)
            && b[20 + 36 * n..20 + 40 * n] == EncodeAll(U32_CODEC, f.unpacked)
  {
    hide FooterBytes, EncodeAll, Le, Offset;
    FooterLength(f);
    PartOffsets(f);
    FooterPartAt(f, 2);
    FooterPartAt(f, 4);
    FooterPartAt(f, 5);
  }

  // ----- the reading and writing loops -----

  method SerializeFooter(f: Footer) returns (buf: Bytes)
    ensures buf == FooterBytes(f)
  {
    buf := HASHES_HEAD + Le(|f.hashes|, 4);
    var hashes := WriteAll(HASH_CODEC, f.hashes);
    var boundaries := WriteAll(U32_CODEC, f.boundaries);
    var unpacked := WriteAll(U32_CODEC, f.unpacked);
    buf := buf + hashes + (BOUNDARIES_HEAD + (boundaries + (unpacked + (MAIN_HEAD + f.xorbHash))));
  }

  /** The loop that writes records one after the other. */
  method WriteAll<T>(c: Codec<T>, xs: seq<T>) returns (buf: Bytes)
    ensures buf == EncodeAll(c, xs)
  {
    buf := [];
    for i := 0 to |xs|
      invariant buf == EncodeAll(c, xs[..i])
    {
      assert xs[..i + 1] == xs[..i] + [xs[i]];
      EncodeAllSnoc(c, xs[..i], xs[i]);
      buf := buf + c.enc(xs[i]);
    }
    assert xs[..|xs|] == xs;
  }

  method DeserializeFooter(b: Bytes) returns (r: Result<Footer>)
    ensures r == ParseFooter(b)
  {
    var b1 :- Expect(b, HASHES_HEAD);
    if |b1| < 4 {
      return Err;
    }
    var n := DecodeU32(b1[..4]);
    if n > MAX_CHUNKS_PER_XORB {
      return Err;
    }
    var hashes := ReadMany(HASH_CODEC, b1[4..], n);
    if hashes.Err? {
      return Err;
    }
    HashCodecExact();
    DecodedIsEncoding(HASH_CODEC, b1[4..], n);
    r := DeserializeFooterTail(hashes.value.1, hashes.value.0);
  }

  method DeserializeFooterTail(b: Bytes, hashes: seq<Hash>) returns (r: Result<Footer>)
    ensures r == ParseFooterTail(b, hashes)
  {
    var b1 :- Expect(b, BOUNDARIES_HEAD);
    var boundaries := ReadMany(U32_CODEC, b1, |hashes|);
    if boundaries.Err? {
      return Err;
    }
    var unpacked := ReadMany(U32_CODEC, boundaries.value.1, |hashes|);
    if unpacked.Err? {
      return Err;
    }
    var b4 :- Expect(unpacked.value.1, MAIN_HEAD);
    if |b4| < 32 {
      return Err;
    }
    r := Ok(Footer(b4[..32], hashes, boundaries.value.0, unpacked.value.0));
  }
}
