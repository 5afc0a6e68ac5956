/** What the builder's self-check catches: every overflow of the chunk count and of the boundaries. */
module SelfCheck {
  import opened Bytes
  import opened Primitives
  import opened Merkle
  import opened Compression
  import opened XorbFormat
  import opened XorbVerify
  import opened XorbBuilder
  import opened XorbRoundTrip

  /** Every single chunk fits its header, and the chunks can be counted in 32 bits. */
  ghost predicate ChunksFit(env: Env, scheme: Scheme, raws: seq<Bytes>) {
    && |raws| < U32
    && forall i | 0 <= i < |raws| :: |raws[i]| < U24 && |Compress(env, scheme, raws[i])| < U24
  }

  /** The chunk count and the serialised bytes are within the limits of the container. */
  predicate WithinContainer(env: Env, scheme: Scheme, raws: seq<Bytes>) {
    |raws| <= 100_000 && |Flatten(SerializedAll(env, scheme, raws))| < 0x1_0000_0000
  }

  // ----- the self-check looks at the footer that was written -----

  /** A count above the limit is refused by the footer parser. */
  lemma CountRefused(f: Footer, tail: Bytes)
    requires MAX_CHUNKS_PER_XORB < |f.hashes| < U32
    ensures ParseFooter(FooterBytes(f) + tail) == Err
  {
    hide ParseFooterTail, FooterTail, EncodeAll, DecodeMany, Expect;
    var num, rest := Le(|f.hashes|, 4), EncodeAll(HASH_CODEC, f.hashes) + FooterTail(f);
    Assoc(HASHES_HEAD, num + rest, tail);
    ExpectExact(FooterBytes(f) + tail, HASHES_HEAD, (num + rest) + tail);
    Assoc(num, rest, tail);
    SplitConcat(num, rest + tail);
    U32CodecExact();
    assert DecodeU32(num) == U32_CODEC.dec(U32_CODEC.enc(|f.hashes|));
  }

  /** Without a later ident the in-memory verifier parses the footer that ends the file. */
  lemma FooterIsParsed(env: Env, f: Footer, front: Bytes)
    requires forall k: nat | |front| < k :: !IdentAt(front + FooterBytes(f), k)
    ensures VerifyMemory(env, front + FooterBytes(f)) ==
            match ParseFooter(FooterBytes(f))
            case Err => Rejected
            case Ok(g) => if MemoryAccepts(env, front + FooterBytes(f), g) then Accepted else Rejected
  {
    hide FooterBytes, LastIdent, ParseFooter, MemoryAccepts;
    var data := front + FooterBytes(f);
    FooterStartsWithIdent(f, front);
    LastIdentIsLast(data, |data| - 7, |front|);
    SplitConcat(front, FooterBytes(f));
  }

  /** A built xorb is never too short for the backward search. */
  lemma NeverPanics(env: Env, scheme: Scheme, raws: seq<Bytes>)
    ensures VerifyMemory(env, XorbBytes(env, scheme, raws)) != Panicked
  {
    hide LastIdent, ParseFooter, MemoryAccepts, FooterTail, EncodeAll, Flatten, FooterFor, SerializedAll;
  }

  // ----- boundaries -----

  /** A boundary that wraps falls below the one before it, so accepted boundaries never wrapped. */
  lemma {:induction false} AcceptedBoundaries(env: Env, regions: seq<Bytes>, raws: seq<Bytes>, data: Bytes, i: nat)
    requires |regions| == |raws| && MemoryAccepts(env, data, FooterFor(env, regions, raws)) && i <= |regions|
    requires forall j | 0 <= j < |regions| :: |regions[j]| < U32
    ensures RegionStart(FooterFor(env, regions, raws), i) == Offset(regions, i) < U32
  {
    hide FooterFor, Flatten, Offset, Root, Leaves;
    var f := FooterFor(env, regions, raws);
    OffsetZero(regions);
    if i > 0 {
      AcceptedBoundaries(env, regions, raws, data, i - 1);
      OffsetStep(regions, i - 1);
      FooterFields(env, regions, raws, i - 1);
      assert RegionMatches(env, data, f, i - 1);
    }
  }

  lemma RegionLength(env: Env, scheme: Scheme, raws: seq<Bytes>, i: nat)
    requires ChunksFit(env, scheme, raws) && i < |raws|
    ensures |SerializedAll(env, scheme, raws)[i]| < U32
  {
    hide Compress;
  }

  lemma AcceptedFitsContainer(env: Env, scheme: Scheme, raws: seq<Bytes>, data: Bytes)
    requires ChunksFit(env, scheme, raws)
    requires MemoryAccepts(env, data, FooterFor(env, SerializedAll(env, scheme, raws), raws))
    ensures |Flatten(SerializedAll(env, scheme, raws))| < U32
  {
    hide Compress, Flatten, Offset, SerializedAll, MemoryAccepts, FooterFor, ChunksFit;
    var regions := SerializedAll(env, scheme, raws);
    forall j | 0 <= j < |regions|
      ensures |regions[j]| < U32
    {
      RegionLength(env, scheme, raws, j);
    }
    AcceptedBoundaries(env, regions, raws, data, |regions|);
    OffsetEnd(regions, |regions|);
  }

  // ----- regions that fit are accepted -----

  lemma BuiltRegionsMatch(env: Env, scheme: Scheme, raws: seq<Bytes>)
    requires |Flatten(SerializedAll(env, scheme, raws))| < U32
    ensures MemoryAccepts(env, XorbBytes(env, scheme, raws), FooterFor(env, SerializedAll(env, scheme, raws), raws))
  {
    hide Flatten, FooterBytes, Root, LeavesOf, SerializedAll, Leaves;
    var regions := SerializedAll(env, scheme, raws);
    var f, data := FooterFor(env, regions, raws), XorbBytes(env, scheme, raws);
    forall i | 0 <= i < |raws|
      ensures RegionMatches(env, data, f, i)
    {
      RegionIsPart(env, regions, raws, i, FooterBytes(f));
    }
    LeavesWritten(env, regions, raws);
  }

  /**
   * The self-check accepts a built xorb exactly when its chunk count and its serialised bytes are within the limits.
   * It never looks at the unpacked offsets.
   */
  lemma SelfCheckExact(env: Env, scheme: Scheme, raws: seq<Bytes>)
    requires ChunksFit(env, scheme, raws) && IdentOnlyInPayload(env, scheme, raws)
    ensures VerifyMemory(env, XorbBytes(env, scheme, raws)) == Accepted <==> WithinContainer(env, scheme, raws)
  {
    hide Flatten, FooterBytes, FooterFor, SerializedAll, MemoryAccepts, VerifyMemory, ParseFooter, ChunksFit, IdentAt;
    var regions := SerializedAll(env, scheme, raws);
    var f, front, data := FooterFor(env, regions, raws), Flatten(regions), XorbBytes(env, scheme, raws);
    FooterIsParsed(env, f, front);
    NothingFollows(f);
    Countable(env, scheme, raws);
    if |raws| > MAX_CHUNKS_PER_XORB {
      CountRefused(f, []);
    } else {
      FooterRoundTrip(f, []);
      if |Flatten(regions)| < U32 {
        BuiltRegionsMatch(env, scheme, raws);
      } else if MemoryAccepts(env, data, f) {
        AcceptedFitsContainer(env, scheme, raws, data);
      }
    }
  }

  lemma NothingFollows(f: Footer)
    ensures FooterBytes(f) + [] == FooterBytes(f)
  {
    hide FooterBytes;
  }

  lemma Countable(env: Env, scheme: Scheme, raws: seq<Bytes>)
    requires ChunksFit(env, scheme, raws)
    ensures |raws| < U32
  {
  }

  /** So an accepted xorb of fewer than 2^32 raw bytes is within every limit of the formats. */
  lemma AcceptedFits(env: Env, scheme: Scheme, raws: seq<Bytes>)
    requires ChunksFit(env, scheme, raws) && IdentOnlyInPayload(env, scheme, raws) && |Flatten(raws)| < U32
    ensures Fits(env, scheme, raws) <==> VerifyMemory(env, XorbBytes(env, scheme, raws)) == Accepted
  {
    hide VerifyMemory, XorbBytes, Flatten, SerializedAll, Compress, IdentOnlyInPayload;
    SelfCheckExact(env, scheme, raws);
  }
}
