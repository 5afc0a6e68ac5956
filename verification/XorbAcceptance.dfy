/** Exactly which files the two xorb verifiers accept, and what the file verifier then reports. */
module XorbAcceptance {
  import opened Bytes
  import opened Primitives
  import opened NodeText
  import opened Merkle
  import opened XorbFormat
  import opened XorbVerify
  import opened XorbProperties
  import opened XorbRoundTrip

  /** The leaves of a xorb hash: the data hash of each region with its length. */
  function HashedRegions(env: Env, regions: seq<Bytes>): (leaves: seq<Node>)
    ensures |leaves| == |regions|
  {
    seq(|regions|, i requires 0 <= i < |regions| => Node(env.dataDigest(regions[i]), |regions[i]|))
  }

  /** The footer names the hash and the end of every region, and the root over all of them. */
  ghost predicate Describes(env: Env, f: Footer, regions: seq<Bytes>) {
    && |f.hashes| == |f.boundaries| == |regions|
    && (forall i | 0 <= i < |regions| ::
          f.hashes[i] == env.dataDigest(regions[i]) && f.boundaries[i] == Offset(regions, i + 1))
    && f.xorbHash == Root(env, HashedRegions(env, regions))
  }

  // ----- boundaries and regions -----

  lemma DescribedStart(env: Env, f: Footer, regions: seq<Bytes>, i: nat)
    requires Describes(env, f, regions) && i <= |regions|
    ensures RegionStart(f, i) == Offset(regions, i)
  {
    hide Root, Offset;
    OffsetZero(regions);
  }

  lemma DescribedRegion(env: Env, f: Footer, regions: seq<Bytes>, tail: Bytes, i: nat)
    requires Describes(env, f, regions) && i < |regions|
    ensures var data := Flatten(regions) + tail;
            && RegionStart(f, i) <= f.boundaries[i] <= |Flatten(regions)|
            && data[RegionStart(f, i)..f.boundaries[i]] == regions[i]
            && RegionLen(f, i) == |regions[i]|
  {
    hide Root, Offset, Flatten;
    DescribedStart(env, f, regions, i);
    OffsetStep(regions, i);
    PartAt(regions, i, tail);
  }

  lemma DescribedLeaves(env: Env, f: Footer, regions: seq<Bytes>)
    requires Describes(env, f, regions)
    ensures Leaves(f) == HashedRegions(env, regions)
  {
    hide Root;
    forall i | 0 <= i < |regions|
      ensures Leaves(f)[i] == HashedRegions(env, regions)[i]
    {
      DescribedRegion(env, f, regions, [], i);
    }
  }

  lemma {:induction false} MatchedRegionsTile(env: Env, data: Bytes, f: Footer, n: nat)
    requires |f.hashes| == |f.boundaries| && RegionsMatch(env, data, f, |f.hashes|) && n <= |f.hashes|
    ensures RegionStart(f, n) <= |data| && Flatten(RegionsUpTo(data, f, n)) == data[..RegionStart(f, n)]
    ensures Offset(RegionsUpTo(data, f, |f.hashes|), n) == RegionStart(f, n)
  {
    assert RegionsUpTo(data, f, |f.hashes|)[..n] == RegionsUpTo(data, f, n);
    if n > 0 {
      MatchedRegionsTile(env, data, f, n - 1);
      assert RegionMatches(env, data, f, n - 1);
      assert RegionsUpTo(data, f, n) == RegionsUpTo(data, f, n - 1) + [Region(data, f, n - 1)];
      FlattenSnoc(RegionsUpTo(data, f, n - 1), Region(data, f, n - 1));
      SliceJoin(data, 0, RegionStart(f, n - 1), f.boundaries[n - 1]);
    }
  }

  /** What the in-memory verifier checks, in terms of regions. */
  lemma MatchedIsDescribed(env: Env, data: Bytes, f: Footer)
    requires |f.hashes| == |f.boundaries|
    ensures MemoryAccepts(env, data, f)
            <==> exists regions: seq<Bytes> :: Describes(env, f, regions) && Flatten(regions) <= data
  {
    hide Root, Flatten, Leaves, RegionsMatch, Describes;
    if MemoryAccepts(env, data, f) {
      AcceptedDescribes(env, data, f);
    }
    if exists regions: seq<Bytes> :: Describes(env, f, regions) && Flatten(regions) <= data {
      var regions: seq<Bytes> :| Describes(env, f, regions) && Flatten(regions) <= data;
      DescribedIsAccepted(env, f, regions, data[|Flatten(regions)|..]);
      assert data == Flatten(regions) + data[|Flatten(regions)|..];
    }
  }

  lemma DescribedIsAccepted(env: Env, f: Footer, regions: seq<Bytes>, tail: Bytes)
    requires Describes(env, f, regions)
    ensures MemoryAccepts(env, Flatten(regions) + tail, f)
  {
    hide Root, Flatten, Leaves, Offset;
    forall i | 0 <= i < |regions|
      ensures RegionMatches(env, Flatten(regions) + tail, f, i)
    {
      DescribedRegion(env, f, regions, tail, i);
    }
    DescribedLeaves(env, f, regions);
  }

  lemma AcceptedDescribes(env: Env, data: Bytes, f: Footer)
    requires MemoryAccepts(env, data, f)
    ensures Describes(env, f, RegionsUpTo(data, f, |f.hashes|))
    ensures Flatten(RegionsUpTo(data, f, |f.hashes|)) <= data
  {
    hide Root, Flatten, Offset;
    var regions := RegionsUpTo(data, f, |f.hashes|);
    MatchedRegionsTile(env, data, f, |f.hashes|);
    forall i | 0 <= i < |regions|
      ensures f.hashes[i] == env.dataDigest(regions[i]) && f.boundaries[i] == Offset(regions, i + 1)
      ensures |regions[i]| == RegionLen(f, i)
    {
      assert RegionMatches(env, data, f, i);
      MatchedRegionsTile(env, data, f, i + 1);
    }
    assert Leaves(f) == HashedRegions(env, regions);
  }

  /** The last ident starts a footer, which describes regions that the file starts with. */
  ghost predicate EndsIn(env: Env, data: Bytes, start: nat, f: Footer, regions: seq<Bytes>) {
    && 7 <= |data| && IsLastIdent(data, |data| - 7, start) && start <= |data|
    && WellSized(f) && FooterBytes(f) <= data[start..]
    && Describes(env, f, regions) && Flatten(regions) <= data
  }

  /**
   * The in-memory verifier accepts exactly the files whose last ident starts a footer that describes leading regions.
   */
  lemma MemoryVerifierExact(env: Env, data: Bytes)
    ensures VerifyMemory(env, data) == Accepted
       <==> && 7 <= |data|
            && exists start: nat, f: Footer, regions: seq<Bytes> :: EndsIn(env, data, start, f, regions)
  {
    hide Describes, Flatten, FooterBytes, ParseFooter, MemoryAccepts, IsLastIdent, LastIdent;
    if 7 <= |data| {
      if VerifyMemory(env, data) == Accepted {
        var start := LastIdent(data, |data| - 7).value;
        var f := ParseFooter(data[start..]).value;
        LastIdentIsLast(data, |data| - 7, start);
        FooterParserExact(data[start..], f);
        MatchedIsDescribed(env, data, f);
        var regions: seq<Bytes> :| Describes(env, f, regions) && Flatten(regions) <= data;
        assert EndsIn(env, data, start, f, regions);
      }
      if exists start: nat, f: Footer, regions: seq<Bytes> :: EndsIn(env, data, start, f, regions) {
        var start: nat, f: Footer, regions: seq<Bytes> :| EndsIn(env, data, start, f, regions);
        LastIdentIsLast(data, |data| - 7, start);
        FooterParserExact(data[start..], f);
        MatchedIsDescribed(env, data, f);
      }
    }
  }

  // ----- the file verifier -----

  /** A region is a header and a payload of the length that the header declares. */
  predicate Framed(r: Bytes) {
    |r| >= 8 && ParseHeader(r[..8]).Ok? && |r| == 8 + ParseHeader(r[..8]).value.compressedLen
  }

  /** The uncompressed length in the header of a region. */
  function DeclaredLen(r: Bytes): nat {
    if |r| >= 8 && ParseHeader(r[..8]).Ok? then ParseHeader(r[..8]).value.uncompressedLen else 0
  }

  function PayloadLen(r: Bytes): nat { if |r| >= 8 then |r| - 8 else 0 }

  function DeclaredLens(regions: seq<Bytes>): (lens: seq<nat>)
    ensures |lens| == |regions|
  {
    seq(|regions|, i requires 0 <= i < |regions| => DeclaredLen(regions[i]))
  }

  function PayloadLens(regions: seq<Bytes>): (lens: seq<nat>)
    ensures |lens| == |regions|
  {
    seq(|regions|, i requires 0 <= i < |regions| => PayloadLen(regions[i]))
  }

  /** The regions are framed, and the footer's unpacked offsets are the sums of the lengths their headers declare. */
  ghost predicate Unpacks(f: Footer, regions: seq<Bytes>) {
    && |f.unpacked| == |regions|
    && (forall i | 0 <= i < |regions| :: Framed(regions[i]))
    && forall i | 0 <= i < |regions| :: f.unpacked[i] == Sum(DeclaredLens(regions)[..i])
  }

  /** The file is the regions and the footer, whose ident does not recur. */
  ghost predicate Comprises(env: Env, data: Bytes, f: Footer, regions: seq<Bytes>) {
    && data == Flatten(regions) + FooterBytes(f)
    && (forall k: nat | |Flatten(regions)| < k :: !IdentAt(data, k))
    && WellSized(f) && Describes(env, f, regions) && Unpacks(f, regions)
  }

  function ReportAt(f: Footer, regions: seq<Bytes>, i: nat): ChunkInfo
    requires i < |regions| && |f.hashes| == |f.unpacked| == |regions|
  {
    ChunkInfo(f.hashes[i], Offset(regions, i), Offset(regions, i + 1), |regions[i]|, f.unpacked[i],
              DeclaredLen(regions[i]), PayloadLen(regions[i]))
  }

  function Report(f: Footer, regions: seq<Bytes>): XorbInfo
    requires |f.hashes| == |f.unpacked| == |regions|
  {
    XorbInfo(f.xorbHash, |Flatten(regions)| + 60 + 40 * |regions|, |Flatten(regions)|,
             seq(|regions|, i requires 0 <= i < |regions| => ReportAt(f, regions, i)),
             Sum(DeclaredLens(regions)), Sum(PayloadLens(regions)))
  }

  lemma HeaderOfRegion(env: Env, f: Footer, regions: seq<Bytes>, tail: Bytes, i: nat)
    requires Describes(env, f, regions) && i < |regions| && Framed(regions[i])
    ensures HeaderAt(Flatten(regions) + tail, f, i) == ParseHeader(regions[i][..8])
  {
    hide Flatten, Root, ParseHeader;
    DescribedRegion(env, f, regions, tail, i);
    var data, s := Flatten(regions) + tail, RegionStart(f, i);
    assert data[s..f.boundaries[i]][..8] == data[s..s + 8];
  }

  lemma {:induction false} LensBefore(env: Env, f: Footer, regions: seq<Bytes>, tail: Bytes, n: nat)
    requires Describes(env, f, regions) && n <= |regions| && forall i | 0 <= i < |regions| :: Framed(regions[i])
    ensures var data := Flatten(regions) + tail;
            && UnpackedBefore(data, f, n) == Sum(DeclaredLens(regions)[..n])
            && CompressedBefore(data, f, n) == Sum(PayloadLens(regions)[..n])
  {
    hide Flatten, Describes, Framed, HeaderAt, Sum;
    if n > 0 {
      LensBefore(env, f, regions, tail, n - 1);
      LensAt(env, f, regions, tail, n - 1);
      SumTo(DeclaredLens(regions), n - 1);
      SumTo(PayloadLens(regions), n - 1);
    } else {
      SumOfNone(DeclaredLens(regions));
      SumOfNone(PayloadLens(regions));
    }
  }

  lemma LensAt(env: Env, f: Footer, regions: seq<Bytes>, tail: Bytes, i: nat)
    requires Describes(env, f, regions) && i < |regions| && forall i | 0 <= i < |regions| :: Framed(regions[i])
    ensures var data := Flatten(regions) + tail;
            && |f.boundaries| == |regions|
            && UnpackedLen(data, f, i) == DeclaredLens(regions)[i]
            && CompressedLen(data, f, i) == PayloadLens(regions)[i]
  {
    hide Flatten, HeaderAt, ParseHeader, Root;
    HeaderOfRegion(env, f, regions, tail, i);
  }

  lemma SumTo(xs: seq<nat>, i: nat)
    requires i < |xs|
    ensures Sum(xs[..i + 1]) == Sum(xs[..i]) + xs[i]
  {
    assert xs[..i + 1] == xs[..i] + [xs[i]];
    SumSnoc(xs[..i], xs[i]);
  }

  lemma SumOfNone(xs: seq<nat>)
    ensures Sum(xs[..0]) == 0 && xs[..|xs|] == xs
  {
  }

  lemma DescribedVerified(env: Env, f: Footer, regions: seq<Bytes>, tail: Bytes, i: nat)
    requires Describes(env, f, regions) && Unpacks(f, regions) && i < |regions|
    ensures var data := Flatten(regions) + tail;
            RegionVerified(env, data, |Flatten(regions)|, f, i) && InfoAt(data, f, i) == ReportAt(f, regions, i)
  {
    hide Flatten, HeaderAt, ParseHeader, Root, UnpackedBefore, DeclaredLens, PayloadLens, Offset, Sum;
    DescribedRegion(env, f, regions, tail, i);
    DescribedStart(env, f, regions, i);
    HeaderOfRegion(env, f, regions, tail, i);
    LensBefore(env, f, regions, tail, i);
  }

  /** Such a file is accepted, with this report. */
  lemma ComprisedIsAccepted(env: Env, data: Bytes, f: Footer, regions: seq<Bytes>)
    requires Comprises(env, data, f, regions)
    ensures VerifyFile(env, data) == Ok(Report(f, regions))
  {
    hide Flatten, FooterBytes, Root, RegionVerified, InfoAt, ReportAt, LocateFooter, IdentAt, WellSized,
         UnpackedBefore, CompressedBefore, Sum, DeclaredLens, PayloadLens, Leaves, Offset;
    var tail := FooterBytes(f);
    FooterSized(f);
    FooterLocated(f, Flatten(regions));
    forall i | 0 <= i < |regions|
      ensures RegionVerified(env, data, |Flatten(regions)|, f, i) && InfoAt(data, f, i) == ReportAt(f, regions, i)
    {
      DescribedVerified(env, f, regions, tail, i);
    }
    DescribedLeaves(env, f, regions);
    DescribedStart(env, f, regions, |regions|);
    OffsetEnd(regions, |regions|);
    LensBefore(env, f, regions, tail, |regions|);
    SumOfNone(DeclaredLens(regions));
    SumOfNone(PayloadLens(regions));
    assert InfoUpTo(data, f, |regions|) == Report(f, regions).chunks;
  }

  lemma FooterSized(f: Footer)
    requires WellSized(f)
    ensures |f.hashes| == |f.boundaries| == |f.unpacked| && |FooterBytes(f)| == 60 + 40 * |f.hashes|
  {
    hide FooterBytes;
    FooterLength(f);
  }

  /** An accepted file consists of such regions and such a footer. */
  lemma AcceptedIsComprised(env: Env, data: Bytes)
    requires VerifyFile(env, data).Ok?
    ensures var f := LocateFooter(data).value.1;
            && WellSized(f)
            && Comprises(env, data, f, RegionsUpTo(data, f, |f.hashes|))
  {
    hide Flatten, FooterBytes, Root, RegionsVerified, LocateFooter, IdentAt, MemoryAccepts, RegionsUpTo, Leaves,
         Unpacks, Describes;
    var (start, f) := LocateFooter(data).value;
    var regions := RegionsUpTo(data, f, |f.hashes|);
    AcceptedFileIsRegionsAndFooter(env, data);
    FooterSized(f);
    AcceptedRegionsMatch(env, data, start, f);
    AcceptedDescribes(env, data, f);
    AcceptedUnpacks(env, data, start, f);
    forall k: nat | |Flatten(regions)| < k
      ensures !IdentAt(data, k)
    {
      ReportedStartIsLastIdent(env, data, k);
    }
  }

  lemma AcceptedFramed(env: Env, data: Bytes, start: nat, f: Footer, i: nat)
    requires FileAccepts(env, data, start, f) && i < |f.hashes|
    ensures |f.boundaries| == |f.hashes| && Framed(Region(data, f, i))
  {
    hide Root, ParseHeader, Leaves;
    assert RegionVerified(env, data, start, f, i);
    HeaderFromRegion(env, data, start, f, i);
  }

  lemma AcceptedUnpacks(env: Env, data: Bytes, start: nat, f: Footer)
    requires FileAccepts(env, data, start, f)
    requires |f.boundaries| == |f.hashes| && Describes(env, f, RegionsUpTo(data, f, |f.hashes|))
    requires data == Flatten(RegionsUpTo(data, f, |f.hashes|)) + FooterBytes(f)
    ensures Unpacks(f, RegionsUpTo(data, f, |f.hashes|))
  {
    hide Root, HeaderAt, Leaves, Flatten, FooterBytes, Describes, Framed, Region, UnpackedBefore, Sum, DeclaredLens;
    var regions := RegionsUpTo(data, f, |f.hashes|);
    forall i | 0 <= i < |regions|
      ensures Framed(regions[i])
    {
      AcceptedFramed(env, data, start, f, i);
    }
    forall i | 0 <= i < |regions|
      ensures f.unpacked[i] == Sum(DeclaredLens(regions)[..i])
    {
      assert RegionVerified(env, data, start, f, i);
      LensBefore(env, f, regions, FooterBytes(f), i);
    }
  }

  /** The file is made of framed regions and the footer that describes them, and these give the report. */
  ghost predicate Accounts(env: Env, data: Bytes, info: XorbInfo) {
    exists f: Footer, regions: seq<Bytes> :: Comprises(env, data, f, regions) && info == Report(f, regions)
  }

  lemma AccountedIsAccepted(env: Env, data: Bytes, info: XorbInfo)
    requires Accounts(env, data, info)
    ensures VerifyFile(env, data) == Ok(info)
  {
    hide Flatten, FooterBytes, Root, Framed, VerifyFile, IdentAt;
    var f: Footer, regions: seq<Bytes> :| Comprises(env, data, f, regions) && info == Report(f, regions);
    ComprisedIsAccepted(env, data, f, regions);
  }

  /** The file verifier accepts exactly such files, with exactly this report. */
  lemma FileVerifierExact(env: Env, data: Bytes, info: XorbInfo)
    ensures VerifyFile(env, data) == Ok(info) <==> Accounts(env, data, info)
  {
    hide Flatten, FooterBytes, Root, Framed, LocateFooter, FileAccepts, RegionsUpTo, IdentAt, Report;
    if VerifyFile(env, data) == Ok(info) {
      var f := LocateFooter(data).value.1;
      AcceptedIsComprised(env, data);
      ComprisedFacts(env, data, f, RegionsUpTo(data, f, |f.hashes|));
      ComprisedIsAccepted(env, data, f, RegionsUpTo(data, f, |f.hashes|));
    }
    if Accounts(env, data, info) {
      AccountedIsAccepted(env, data, info);
    }
  }

  lemma ComprisedFacts(env: Env, data: Bytes, f: Footer, regions: seq<Bytes>)
    requires Comprises(env, data, f, regions)
    ensures |f.hashes| == |f.unpacked| == |regions| && forall i | 0 <= i < |regions| :: Framed(regions[i])
  {
    hide Flatten, FooterBytes, Root, Framed;
  }
}
