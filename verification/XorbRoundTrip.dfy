/** What the builder writes is what the file verifier reports. */
module XorbRoundTrip {
  import opened Bytes
  import opened Primitives
  import opened Merkle
  import opened Compression
  import opened XorbFormat
  import opened XorbVerify
  import opened XorbProperties
  import opened XorbBuilder

  /** The limits of the format: chunk count, three-byte lengths and 32-bit offsets. */
  ghost predicate Fits(env: Env, scheme: Scheme, raws: seq<Bytes>) {
    && |raws| <= MAX_CHUNKS_PER_XORB
    && (forall i | 0 <= i < |raws| :: |raws[i]| < U24 && |Compress(env, scheme, raws[i])| < U24)
    && |Flatten(SerializedAll(env, scheme, raws))| < U32
    && |Flatten(raws)| < U32
  }

  /** The hash-section ident does not recur after the start of the footer; payloads may contain it. */
  ghost predicate IdentOnlyInPayload(env: Env, scheme: Scheme, raws: seq<Bytes>) {
    forall k: nat | |Flatten(SerializedAll(env, scheme, raws))| < k :: !IdentAt(XorbBytes(env, scheme, raws), k)
  }

  function InfoForAt(env: Env, scheme: Scheme, raws: seq<Bytes>, i: nat): ChunkInfo
    requires i < |raws|
  {
    var regions := SerializedAll(env, scheme, raws);
    ChunkInfo(env.DataHash(regions[i]), Offset(regions, i), Offset(regions, i + 1), |regions[i]|,
              Offset(raws, i), |raws[i]|, |Compress(env, scheme, raws[i])|)
  }

  /** The report expected for a built xorb, from the raw chunks alone. */
  function InfoFor(env: Env, scheme: Scheme, raws: seq<Bytes>): (info: XorbInfo)
    ensures |info.chunks| == |raws|
  {
    var regions := SerializedAll(env, scheme, raws);
    XorbInfo(Root(env, LeavesOf(env, regions)), |XorbBytes(env, scheme, raws)|, |Flatten(regions)|,
             seq(|raws|, i requires 0 <= i < |raws| => InfoForAt(env, scheme, raws, i)),
             |Flatten(raws)|, Sum(PackedSizes(env, scheme, raws)))
  }

  // ----- the footer is found -----

  lemma FooterStartsWithIdent(f: Footer, front: Bytes)
    ensures IdentAt(front + FooterBytes(f), |front|)
  {
    hide FooterTail, EncodeAll, Le;
    var b := FooterBytes(f);
    assert b[..7] == IDENT_HASHES;
    assert (front + b)[|front|..|front| + 7] == b[..7];
  }

  lemma FooterLocated(f: Footer, front: Bytes)
    requires WellSized(f)
    requires forall k: nat | |front| < k :: !IdentAt(front + FooterBytes(f), k)
    ensures LocateFooter(front + FooterBytes(f)) == Ok((|front|, f))
  {
    hide FooterBytes, IdentAt, LastIdent, ParseFooter;
    var data := front + FooterBytes(f);
    FooterLength(f);
    var t := TailStart(data);
    FooterStartsWithIdent(f, front);
    LastIdentInTail(data, t, |front| - t);
    FooterAtTail(f, front, t);
  }

  lemma FooterAtTail(f: Footer, front: Bytes, t: nat)
    requires WellSized(f) && t <= |front|
    ensures ParseFooter((front + FooterBytes(f))[t..][|front| - t..]) == Ok(f)
  {
    hide FooterBytes, ParseFooter;
    assert (front + FooterBytes(f))[t..][|front| - t..] == FooterBytes(f) + [];
    FooterRoundTrip(f, []);
  }

  lemma LastIdentInTail(data: Bytes, t: nat, i: nat)
    requires t + i + 7 <= |data| && IdentAt(data, t + i)
    requires forall k: nat | t + i < k :: !IdentAt(data, k)
    ensures LastIdent(data[t..], |data| - t - 7) == Some(i)
  {
    hide IdentAt, LastIdent;
    IdentInTail(data, t, i);
    forall k: nat | i < k <= |data| - t - 7
      ensures !IdentAt(data[t..], k)
    {
      IdentInTail(data, t, k);
    }
    LastIdentIsLast(data[t..], |data| - t - 7, i);
  }

  // ----- the regions are verified -----

  lemma FooterFields(env: Env, regions: seq<Bytes>, raws: seq<Bytes>, i: nat)
    requires |regions| == |raws| && i < |raws|
    ensures FooterFor(env, regions, raws).hashes[i] == env.DataHash(regions[i])
    ensures FooterFor(env, regions, raws).boundaries[i] == Wrap32(Offset(regions, i + 1))
    ensures FooterFor(env, regions, raws).unpacked[i] == Wrap32(Offset(raws, i))
  {
    hide Root, LeavesOf, Wrap32, Offset;
  }

  /** While the regions fit, the 32-bit boundaries are the true ones. */
  lemma BoundariesExact(env: Env, regions: seq<Bytes>, raws: seq<Bytes>, i: nat)
    requires |regions| == |raws| && |Flatten(regions)| < U32 && i <= |raws|
    ensures RegionStart(FooterFor(env, regions, raws), i) == Offset(regions, i)
    ensures i < |raws| ==> FooterFor(env, regions, raws).boundaries[i] == Offset(regions, i + 1)
  {
    hide FooterFor, Flatten, Offset;
    OffsetZero(regions);
    if i > 0 {
      BoundaryExact(env, regions, raws, i - 1);
    }
    if i < |raws| {
      BoundaryExact(env, regions, raws, i);
    }
  }

  lemma BoundaryExact(env: Env, regions: seq<Bytes>, raws: seq<Bytes>, i: nat)
    requires |regions| == |raws| && |Flatten(regions)| < U32 && i < |raws|
    ensures FooterFor(env, regions, raws).boundaries[i] == Offset(regions, i + 1)
  {
    hide FooterFor, Flatten, Offset, Wrap32;
    FooterFields(env, regions, raws, i);
    OffsetEnd(regions, i + 1);
    WrapExact(Offset(regions, i + 1));
  }

  /** While the raw bytes fit, the 32-bit unpacked offsets are the true ones. */
  lemma UnpackedExact(env: Env, regions: seq<Bytes>, raws: seq<Bytes>, i: nat)
    requires |regions| == |raws| && |Flatten(raws)| < U32 && i < |raws|
    ensures FooterFor(env, regions, raws).unpacked[i] == Offset(raws, i)
  {
    hide FooterFor, Flatten, Offset, Wrap32;
    FooterFields(env, regions, raws, i);
    OffsetEnd(raws, i);
    WrapExact(Offset(raws, i));
  }

  lemma RegionIsPart(env: Env, regions: seq<Bytes>, raws: seq<Bytes>, i: nat, tail: Bytes)
    requires |regions| == |raws| && |Flatten(regions)| < U32 && i < |raws|
    ensures var f, data := FooterFor(env, regions, raws), Flatten(regions) + tail;
            && RegionStart(f, i) <= f.boundaries[i] <= |Flatten(regions)|
            && data[RegionStart(f, i)..f.boundaries[i]] == regions[i]
            && RegionLen(f, i) == |regions[i]|
  {
    hide FooterFor, Flatten;
    BoundariesExact(env, regions, raws, i);
    PartAt(regions, i, tail);
    OffsetStep(regions, i);
  }

  lemma HeaderIsWritten(env: Env, scheme: Scheme, raws: seq<Bytes>, i: nat, tail: Bytes)
    requires Fits(env, scheme, raws) && i < |raws|
    ensures var regions := SerializedAll(env, scheme, raws);
            var h := ChunkHeader(1, |Compress(env, scheme, raws[i])|, scheme, |raws[i]|);
            HeaderAt(Flatten(regions) + tail, FooterFor(env, regions, raws), i) == Ok(h)
  {
    hide FooterFor, Flatten, Compress, ParseHeader, HeaderBytes;
    var regions := SerializedAll(env, scheme, raws);
    var f, data := FooterFor(env, regions, raws), Flatten(regions) + tail;
    RegionIsPart(env, regions, raws, i, tail);
    var s := RegionStart(f, i);
    var h := HeaderOf(env, scheme, raws[i]);
    SplitConcat(HeaderBytes(h), Compress(env, scheme, raws[i]));
    assert data[s..f.boundaries[i]][..HEADER_SIZE] == data[s..s + HEADER_SIZE];
    HeaderRoundTrip(h, []);
    assert HeaderBytes(h) + [] == HeaderBytes(h);
  }

  lemma {:induction false} OffsetsBefore(env: Env, scheme: Scheme, raws: seq<Bytes>, n: nat, tail: Bytes)
    requires Fits(env, scheme, raws) && n <= |raws|
    ensures var regions := SerializedAll(env, scheme, raws);
            var f, data := FooterFor(env, regions, raws), Flatten(regions) + tail;
            && UnpackedBefore(data, f, n) == Offset(raws, n)
            && CompressedBefore(data, f, n) == Sum(PackedSizes(env, scheme, raws)[..n])
  {
    hide FooterFor, Flatten, Compress, HeaderAt, Offset, SerializedAll;
    if n > 0 {
      OffsetsBefore(env, scheme, raws, n - 1, tail);
      HeaderIsWritten(env, scheme, raws, n - 1, tail);
      OffsetStep(raws, n - 1);
      SumStep(PackedSizes(env, scheme, raws), n - 1);
    } else {
      OffsetZero(raws);
    }
  }

  lemma BuiltRegionVerified(env: Env, scheme: Scheme, raws: seq<Bytes>, i: nat, tail: Bytes)
    requires Fits(env, scheme, raws) && i < |raws|
    ensures var regions := SerializedAll(env, scheme, raws);
            var f, data := FooterFor(env, regions, raws), Flatten(regions) + tail;
            && RegionVerified(env, data, |Flatten(regions)|, f, i)
            && InfoAt(data, f, i) == InfoForAt(env, scheme, raws, i)
  {
    hide Flatten, Compress, HeaderAt, Offset, UnpackedBefore, Root, LeavesOf;
    var regions := SerializedAll(env, scheme, raws);
    RegionIsPart(env, regions, raws, i, tail);
    BoundariesExact(env, regions, raws, i);
    UnpackedExact(env, regions, raws, i);
    HeaderIsWritten(env, scheme, raws, i, tail);
    OffsetsBefore(env, scheme, raws, i, tail);
  }

  lemma LeavesWritten(env: Env, regions: seq<Bytes>, raws: seq<Bytes>)
    requires |regions| == |raws| && |Flatten(regions)| < U32
    ensures Leaves(FooterFor(env, regions, raws)) == LeavesOf(env, regions)
  {
    hide Root, Flatten;
    var f := FooterFor(env, regions, raws);
    forall i | 0 <= i < |raws|
      ensures Leaves(f)[i] == LeafOf(env, regions[i])
    {
      RegionIsPart(env, regions, raws, i, []);
    }
  }

  lemma BuiltFileAccepted(env: Env, scheme: Scheme, raws: seq<Bytes>)
    requires Fits(env, scheme, raws)
    ensures var regions := SerializedAll(env, scheme, raws);
            FileAccepts(env, XorbBytes(env, scheme, raws), |Flatten(regions)|, FooterFor(env, regions, raws))
  {
    hide Flatten, FooterBytes, RegionVerified, HeaderAt, Root, LeavesOf, SerializedAll, Leaves;
    var regions := SerializedAll(env, scheme, raws);
    var f := FooterFor(env, regions, raws);
    FooterLength(f);
    forall i | 0 <= i < |raws|
      ensures RegionVerified(env, XorbBytes(env, scheme, raws), |Flatten(regions)|, f, i)
    {
      BuiltRegionVerified(env, scheme, raws, i, FooterBytes(f));
    }
    BoundariesExact(env, regions, raws, |raws|);
    OffsetEnd(regions, |raws|);
    LeavesWritten(env, regions, raws);
  }

  lemma BuiltInfo(env: Env, scheme: Scheme, raws: seq<Bytes>)
    requires Fits(env, scheme, raws)
    ensures var regions := SerializedAll(env, scheme, raws);
            InfoOf(XorbBytes(env, scheme, raws), |Flatten(regions)|, FooterFor(env, regions, raws))
                == InfoFor(env, scheme, raws)
  {
    hide Flatten, FooterBytes, InfoAt, InfoForAt, Root, LeavesOf, SerializedAll, UnpackedBefore, CompressedBefore, Sum,
         PackedSizes;
    var regions := SerializedAll(env, scheme, raws);
    var f := FooterFor(env, regions, raws);
    var data := XorbBytes(env, scheme, raws);
    forall i | 0 <= i < |raws|
      ensures InfoAt(data, f, i) == InfoForAt(env, scheme, raws, i)
    {
      BuiltRegionVerified(env, scheme, raws, i, FooterBytes(f));
    }
    assert InfoUpTo(data, f, |raws|) == InfoFor(env, scheme, raws).chunks;
    OffsetsBefore(env, scheme, raws, |raws|, FooterBytes(f));
    OffsetEnd(raws, |raws|);
    assert PackedSizes(env, scheme, raws)[..|raws|] == PackedSizes(env, scheme, raws);
  }

  /** The verifiers use the last ident of the file, so a report with this footer start excludes later ones. */
  lemma ReportedStartIsLastIdent(env: Env, data: Bytes, k: nat)
    requires VerifyFile(env, data).Ok? && VerifyFile(env, data).value.footerStart < k
    ensures !IdentAt(data, k)
  {
    hide IdentAt, LastIdent, FileAccepts, ParseFooter;
    var t := TailStart(data);
    var i := LocateFooter(data).value.0 - t;
    LastIdentIsLast(data[t..], |data| - t - 7, i);
    IdentInTail(data, t, k - t);
    IdentFits(data, k);
  }

  lemma IdentFits(data: Bytes, k: nat)
    ensures IdentAt(data, k) ==> k + 7 <= |data|
  {
  }

  /**
   * A built xorb is reported by the file verifier with the builder's starts, lengths and totals exactly when the ident
   * does not recur after the footer start; then the in-memory verifier accepts it as well.
   */
  lemma BuiltXorbVerifies(env: Env, scheme: Scheme, raws: seq<Bytes>)
    requires Fits(env, scheme, raws)
    ensures VerifyFile(env, XorbBytes(env, scheme, raws)) == Ok(InfoFor(env, scheme, raws))
            <==> IdentOnlyInPayload(env, scheme, raws)
    ensures IdentOnlyInPayload(env, scheme, raws) ==> VerifyMemory(env, XorbBytes(env, scheme, raws)) == Accepted
  {
    hide Fits, VerifyFile, InfoFor, XorbBytes, VerifyMemory, IdentAt;
    if IdentOnlyInPayload(env, scheme, raws) {
      CleanXorbVerifies(env, scheme, raws);
    }
    if VerifyFile(env, XorbBytes(env, scheme, raws)) == Ok(InfoFor(env, scheme, raws)) {
      InfoStart(env, scheme, raws);
      forall k: nat | |Flatten(SerializedAll(env, scheme, raws))| < k
        ensures !IdentAt(XorbBytes(env, scheme, raws), k)
      {
        ReportedStartIsLastIdent(env, XorbBytes(env, scheme, raws), k);
      }
    }
  }

  lemma InfoStart(env: Env, scheme: Scheme, raws: seq<Bytes>)
    ensures InfoFor(env, scheme, raws).footerStart == |Flatten(SerializedAll(env, scheme, raws))|
  {
    hide Flatten, SerializedAll, XorbBytes, Root, LeavesOf, Sum, PackedSizes;
  }

  lemma CleanXorbVerifies(env: Env, scheme: Scheme, raws: seq<Bytes>)
    requires Fits(env, scheme, raws) && IdentOnlyInPayload(env, scheme, raws)
    ensures VerifyFile(env, XorbBytes(env, scheme, raws)) == Ok(InfoFor(env, scheme, raws))
    ensures VerifyMemory(env, XorbBytes(env, scheme, raws)) == Accepted
  {
    hide Flatten, FooterBytes, FileAccepts, InfoOf, InfoFor, SerializedAll, LocateFooter, VerifyMemory, IdentAt,
         FooterFor;
    var regions := SerializedAll(env, scheme, raws);
    var f := FooterFor(env, regions, raws);
    assert XorbBytes(env, scheme, raws) == Flatten(regions) + FooterBytes(f);
    assert WellSized(f);
    FooterLocated(f, Flatten(regions));
    BuiltFileAccepted(env, scheme, raws);
    BuiltInfo(env, scheme, raws);
    FileVerifierRefinesMemoryVerifier(env, XorbBytes(env, scheme, raws));
  }
}
