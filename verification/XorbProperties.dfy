/** What acceptance by the xorb verifiers means. */
module XorbProperties {
  import opened Bytes
  import opened Primitives
  import opened NodeText
  import opened Merkle
  import opened XorbFormat
  import opened XorbVerify

  // ----- the file verifier refines the in-memory one -----

  lemma IdentInTail(data: Bytes, t: nat, i: nat)
    requires t <= |data|
    ensures IdentAt(data[t..], i) <==> IdentAt(data, t + i)
  {
    if t + i + 7 <= |data| {
      assert data[t..][i..i + 7] == data[t + i..t + i + 7];
    }
  }

  /** An ident found in the scanned window is the last one of the whole file. */
  lemma LastIdentOfTail(data: Bytes, t: nat, i: nat)
    requires t + 7 <= |data| && LastIdent(data[t..], |data| - t - 7) == Some(i)
    ensures LastIdent(data, |data| - 7) == Some(t + i)
  {
    hide IdentAt, LastIdent;
    LastIdentIsLast(data[t..], |data| - t - 7, i);
    IdentInTail(data, t, i);
    forall k: nat | t + i < k <= |data| - 7
      ensures !IdentAt(data, k)
    {
      IdentInTail(data, t, k - t);
    }
    LastIdentIsLast(data, |data| - 7, t + i);
  }

  lemma AcceptedRegionsMatch(env: Env, data: Bytes, start: nat, f: Footer)
    requires FileAccepts(env, data, start, f)
    ensures MemoryAccepts(env, data, f)
  {
    hide Root, HeaderAt;
    forall i | 0 <= i < |f.hashes|
      ensures RegionMatches(env, data, f, i)
    {
      assert RegionVerified(env, data, start, f, i);
    }
  }

  /** Every file the bounded-window verifier accepts is accepted by the in-memory verifier. */
  lemma FileVerifierRefinesMemoryVerifier(env: Env, data: Bytes)
    requires VerifyFile(env, data).Ok?
    ensures VerifyMemory(env, data) == Accepted
  {
    hide MemoryAccepts, FileAccepts, ParseFooter;
    var t := TailStart(data);
    var (start, f) := LocateFooter(data).value;
    var i := start - t;
    LastIdentOfTail(data, t, i);
    assert data[t..][i..] == data[start..];
    AcceptedRegionsMatch(env, data, start, f);
  }

  // ----- accepted regions tile the file -----

  function Region(data: Bytes, f: Footer, i: nat): Bytes
    requires i < |f.boundaries|
  {
    if RegionStart(f, i) <= f.boundaries[i] <= |data| then data[RegionStart(f, i)..f.boundaries[i]] else []
  }

  function RegionsUpTo(data: Bytes, f: Footer, n: nat): (rs: seq<Bytes>)
    requires n <= |f.boundaries|
    ensures |rs| == n
  {
    seq(n, i requires 0 <= i < n => Region(data, f, i))
  }

  lemma {:induction false} RegionsTile(env: Env, data: Bytes, start: nat, f: Footer, n: nat)
    requires FileAccepts(env, data, start, f) && n <= |f.hashes|
    ensures RegionStart(f, n) <= |data|
    ensures Flatten(RegionsUpTo(data, f, n)) == data[..RegionStart(f, n)]
  {
    hide Root, HeaderAt;
    if n > 0 {
      RegionsTile(env, data, start, f, n - 1);
      assert RegionVerified(env, data, start, f, n - 1);
      assert RegionsUpTo(data, f, n) == RegionsUpTo(data, f, n - 1) + [Region(data, f, n - 1)];
      FlattenSnoc(RegionsUpTo(data, f, n - 1), Region(data, f, n - 1));
      SliceJoin(data, 0, RegionStart(f, n - 1), f.boundaries[n - 1]);
    }
  }

  lemma {:induction false} TotalsAreSums(data: Bytes, f: Footer, n: nat)
    requires |f.hashes| == |f.boundaries| == |f.unpacked| && n <= |f.hashes|
    ensures UnpackedBefore(data, f, n) == Sum(UnpackedLens(InfoUpTo(data, f, n)))
  {
    hide HeaderAt;
    if n > 0 {
      TotalsAreSums(data, f, n - 1);
      assert UnpackedLens(InfoUpTo(data, f, n))
             == UnpackedLens(InfoUpTo(data, f, n - 1)) + [UnpackedLen(data, f, n - 1)];
      SumSnoc(UnpackedLens(InfoUpTo(data, f, n - 1)), UnpackedLen(data, f, n - 1));
    }
  }

  function UnpackedLens(infos: seq<ChunkInfo>): (lens: seq<nat>)
    ensures |lens| == |infos|
  {
    seq(|infos|, i requires 0 <= i < |infos| => infos[i].unpackedLen)
  }

  lemma UnpackedLensPrefix(data: Bytes, f: Footer, i: nat)
    requires |f.hashes| == |f.boundaries| == |f.unpacked| && i <= |f.hashes|
    ensures UnpackedLens(InfoUpTo(data, f, |f.hashes|)[..i]) == UnpackedLens(InfoUpTo(data, f, i))
  {
    assert InfoUpTo(data, f, |f.hashes|)[..i] == InfoUpTo(data, f, i);
  }

  /** The reported chunks: consecutive regions, each a header and its payload, with prefix-sum offsets. */
  ghost predicate Tiles(info: XorbInfo) {
    && (forall i | 0 <= i < |info.chunks| ::
          && info.chunks[i].start == (if i == 0 then 0 else info.chunks[i - 1].end)
          && info.chunks[i].end == info.chunks[i].start + HEADER_SIZE + info.chunks[i].compressedLen
          && info.chunks[i].len == info.chunks[i].end - info.chunks[i].start)
    && (forall i | 0 <= i < |info.chunks| :: info.chunks[i].unpackedStart == Sum(UnpackedLens(info.chunks[..i])))
    && (if info.chunks == [] then 0 else info.chunks[|info.chunks| - 1].end) == info.footerStart
    && info.totalUnpacked == Sum(UnpackedLens(info.chunks))
    && info.footerStart + FooterLen(|info.chunks|) == info.fileLen
  }

  lemma ChunkFacts(env: Env, data: Bytes, start: nat, f: Footer, i: nat)
    requires FileAccepts(env, data, start, f) && i < |f.hashes|
    ensures var info := InfoOf(data, start, f);
            && info.chunks[i].start == (if i == 0 then 0 else info.chunks[i - 1].end)
            && info.chunks[i].end == info.chunks[i].start + HEADER_SIZE + info.chunks[i].compressedLen
            && info.chunks[i].len == info.chunks[i].end - info.chunks[i].start
            && info.chunks[i].unpackedStart == Sum(UnpackedLens(info.chunks[..i]))
  {
    hide Root, HeaderAt;
    assert RegionVerified(env, data, start, f, i);
    TotalsAreSums(data, f, i);
    UnpackedLensPrefix(data, f, i);
  }

  lemma VerifiedChunksTile(env: Env, data: Bytes)
    requires VerifyFile(env, data).Ok?
    ensures Tiles(VerifyFile(env, data).value)
  {
    hide FileAccepts, LocateFooter, HeaderAt;
    var (start, f) := LocateFooter(data).value;
    AcceptedShape(env, data, start, f);
    var info := InfoOf(data, start, f);
    forall i | 0 <= i < |info.chunks|
      ensures info.chunks[i].start == (if i == 0 then 0 else info.chunks[i - 1].end)
      ensures info.chunks[i].end == info.chunks[i].start + HEADER_SIZE + info.chunks[i].compressedLen
      ensures info.chunks[i].len == info.chunks[i].end - info.chunks[i].start
      ensures info.chunks[i].unpackedStart == Sum(UnpackedLens(info.chunks[..i]))
    {
      ChunkFacts(env, data, start, f, i);
    }
    TotalsAreSums(data, f, |f.hashes|);
  }

  lemma AcceptedShape(env: Env, data: Bytes, start: nat, f: Footer)
    requires FileAccepts(env, data, start, f)
    ensures |f.hashes| == |f.boundaries| == |f.unpacked|
    ensures start + FooterLen(|f.hashes|) == |data| && RegionStart(f, |f.hashes|) == start
  {
  }

  lemma FooterFillsTheEnd(env: Env, data: Bytes)
    requires VerifyFile(env, data).Ok?
    ensures var (start, f) := LocateFooter(data).value;
            WellSized(f) && start <= |data| && data[start..] == FooterBytes(f)
  {
    hide FooterBytes, ParseFooter, Root, RegionsVerified, IdentAt;
    var (start, f) := LocateFooter(data).value;
    var tail := data[TailStart(data)..];
    assert tail[start - TailStart(data)..] == data[start..];
    ParsedFooter(data[start..]);
    FooterLength(f);
  }

  /** An accepted file is its regions followed by its footer, byte for byte. */
  lemma AcceptedFileIsRegionsAndFooter(env: Env, data: Bytes)
    requires VerifyFile(env, data).Ok?
    ensures var f := LocateFooter(data).value.1;
            && WellSized(f)
            && data == Flatten(RegionsUpTo(data, f, |f.hashes|)) + FooterBytes(f)
  {
    hide FileAccepts, FooterBytes, LocateFooter, Flatten, RegionsUpTo;
    var (start, f) := LocateFooter(data).value;
    FooterFillsTheEnd(env, data);
    AcceptedShape(env, data, start, f);
    RegionsTile(env, data, start, f, |f.hashes|);
    assert data == data[..start] + data[start..];
  }

  // ----- content addressing -----

  ghost function RegionSet(data: Bytes, f: Footer): set<Bytes> {
    set i | 0 <= i < |f.boundaries| :: Region(data, f, i)
  }

  /** Among the strings hashed to check two files, no hash collides and no node hash is a leaf hash. */
  ghost predicate NoCollision(env: Env, d1: Bytes, f1: Footer, d2: Bytes, f2: Footer)
    requires |f1.hashes| == |f1.boundaries| && |f2.hashes| == |f2.boundaries|
  {
    && CollisionFreeOn(env.dataDigest, RegionSet(d1, f1) + RegionSet(d2, f2))
    && Separated(env, Leaves(f1), Leaves(f2))
  }

  /** A leaf of an accepted file is a hashed region with its length. */
  lemma LeafIsRegion(env: Env, data: Bytes, start: nat, f: Footer, leaf: Node)
    requires FileAccepts(env, data, start, f) && leaf in Leaves(f)
    ensures exists r :: r in RegionSet(data, f) && leaf == Node(env.DataHash(r), |r|)
  {
    hide Root, HeaderAt;
    var i :| 0 <= i < |f.hashes| && Leaves(f)[i] == leaf;
    assert RegionVerified(env, data, start, f, i);
    assert Region(data, f, i) in RegionSet(data, f);
  }

  lemma LeafSizesBound(env: Env, d1: Bytes, s1: nat, f1: Footer, d2: Bytes, s2: nat, f2: Footer)
    requires FileAccepts(env, d1, s1, f1) && FileAccepts(env, d2, s2, f2)
    requires CollisionFreeOn(env.dataDigest, RegionSet(d1, f1) + RegionSet(d2, f2))
    ensures SizesBound(Leaves(f1), Leaves(f2))
  {
    hide FileAccepts, RegionSet, Leaves;
    AcceptedShape(env, d1, s1, f1);
    AcceptedShape(env, d2, s2, f2);
    forall a | a in Leaves(f1) + Leaves(f2)
      ensures exists r :: r in RegionSet(d1, f1) + RegionSet(d2, f2) && a == Node(env.DataHash(r), |r|)
    {
      if a in Leaves(f1) {
        LeafIsRegion(env, d1, s1, f1, a);
      } else {
        LeafIsRegion(env, d2, s2, f2, a);
      }
    }
  }

  /** Equal leaves fix the boundaries. */
  lemma {:induction false} LeavesFixBoundaries(f1: Footer, f2: Footer, n: nat)
    requires |f1.hashes| == |f1.boundaries| && |f2.hashes| == |f2.boundaries|
    requires Leaves(f1) == Leaves(f2) && n <= |f1.hashes| && n <= |f2.hashes|
    requires forall i | 0 <= i < n :: RegionStart(f1, i) <= f1.boundaries[i] && RegionStart(f2, i) <= f2.boundaries[i]
    ensures RegionStart(f1, n) == RegionStart(f2, n)
    ensures n > 0 ==> f1.hashes[n - 1] == f2.hashes[n - 1]
  {
    if n > 0 {
      LeavesFixBoundaries(f1, f2, n - 1);
      assert Leaves(f1)[n - 1] == Leaves(f2)[n - 1];
    }
  }

  /** With equal regions before `n`, the declared unpacked offsets agree. */
  lemma {:induction false} RegionsFixOffsets(env: Env, d1: Bytes, s1: nat, f1: Footer, d2: Bytes, s2: nat, f2: Footer,
                                             n: nat)
    requires FileAccepts(env, d1, s1, f1) && FileAccepts(env, d2, s2, f2)
    requires |f1.hashes| == |f2.hashes| && n <= |f1.hashes|
    requires forall i | 0 <= i < n :: Region(d1, f1, i) == Region(d2, f2, i)
    ensures UnpackedBefore(d1, f1, n) == UnpackedBefore(d2, f2, n)
  {
    hide Root, ParseHeader;
    if n > 0 {
      RegionsFixOffsets(env, d1, s1, f1, d2, s2, f2, n - 1);
      HeaderFromRegion(env, d1, s1, f1, n - 1);
      HeaderFromRegion(env, d2, s2, f2, n - 1);
    }
  }

  lemma HeaderFromRegion(env: Env, data: Bytes, start: nat, f: Footer, i: nat)
    requires FileAccepts(env, data, start, f) && i < |f.hashes|
    ensures |Region(data, f, i)| >= HEADER_SIZE
    ensures HeaderAt(data, f, i) == ParseHeader(Region(data, f, i)[..HEADER_SIZE])
  {
    hide Root, ParseHeader;
    assert RegionVerified(env, data, start, f, i);
    var s := RegionStart(f, i);
    assert data[s..f.boundaries[i]][..HEADER_SIZE] == data[s..s + HEADER_SIZE];
  }

  lemma SameFooter(env: Env, d1: Bytes, s1: nat, f1: Footer, d2: Bytes, s2: nat, f2: Footer)
    requires FileAccepts(env, d1, s1, f1) && FileAccepts(env, d2, s2, f2)
    requires NoCollision(env, d1, f1, d2, f2) && Leaves(f1) == Leaves(f2) && f1.xorbHash == f2.xorbHash
    ensures f1 == f2
    ensures RegionsUpTo(d1, f1, |f1.hashes|) == RegionsUpTo(d2, f2, |f2.hashes|)
  {
    hide Root, HeaderAt, UnpackedBefore, Leaves;
    var n := |f1.hashes|;
    LeavesLength(f1, f2);
    forall i | 0 <= i < n
      ensures f1.hashes[i] == f2.hashes[i] && f1.boundaries[i] == f2.boundaries[i] && f1.unpacked[i] == f2.unpacked[i]
      ensures Region(d1, f1, i) == Region(d2, f2, i)
    {
      SameUpTo(env, d1, s1, f1, d2, s2, f2, i);
    }
  }

  lemma LeavesLength(f1: Footer, f2: Footer)
    requires |f1.hashes| == |f1.boundaries| && |f2.hashes| == |f2.boundaries|
    requires Leaves(f1) == Leaves(f2)
    ensures |f1.hashes| == |f2.hashes|
  {
    assert |Leaves(f1)| == |f1.hashes| && |Leaves(f2)| == |f2.hashes|;
  }

  lemma SameUpTo(env: Env, d1: Bytes, s1: nat, f1: Footer, d2: Bytes, s2: nat, f2: Footer, n: nat)
    requires FileAccepts(env, d1, s1, f1) && FileAccepts(env, d2, s2, f2)
    requires NoCollision(env, d1, f1, d2, f2) && Leaves(f1) == Leaves(f2)
    requires |f1.hashes| == |f2.hashes| && n < |f1.hashes|
    ensures f1.hashes[n] == f2.hashes[n] && f1.boundaries[n] == f2.boundaries[n] && f1.unpacked[n] == f2.unpacked[n]
    ensures Region(d1, f1, n) == Region(d2, f2, n)
  {
    forall i | 0 <= i <= n
      ensures Region(d1, f1, i) == Region(d2, f2, i)
      ensures f1.hashes[i] == f2.hashes[i] && f1.boundaries[i] == f2.boundaries[i]
    {
      SameRegion(env, d1, s1, f1, d2, s2, f2, i);
    }
    RegionsFixOffsets(env, d1, s1, f1, d2, s2, f2, n);
    hide Root, HeaderAt, UnpackedBefore, Leaves;
    assert RegionVerified(env, d1, s1, f1, n) && RegionVerified(env, d2, s2, f2, n);
  }

  lemma SameRegion(env: Env, d1: Bytes, s1: nat, f1: Footer, d2: Bytes, s2: nat, f2: Footer, i: nat)
    requires FileAccepts(env, d1, s1, f1) && FileAccepts(env, d2, s2, f2)
    requires NoCollision(env, d1, f1, d2, f2) && Leaves(f1) == Leaves(f2)
    requires i < |f1.hashes| && i < |f2.hashes|
    ensures f1.hashes[i] == f2.hashes[i] && f1.boundaries[i] == f2.boundaries[i]
    ensures Region(d1, f1, i) == Region(d2, f2, i)
  {
    hide FileAccepts, Leaves, Separated, Region, RegionSet, RegionStart;
    AcceptedShape(env, d1, s1, f1);
    AcceptedShape(env, d2, s2, f2);
    forall j | 0 <= j <= i
      ensures RegionStart(f1, j) <= f1.boundaries[j] && RegionStart(f2, j) <= f2.boundaries[j]
    {
      RegionIsHashed(env, d1, s1, f1, j);
      RegionIsHashed(env, d2, s2, f2, j);
    }
    LeavesFixBoundaries(f1, f2, i + 1);
    BoundaryIsStart(f1, i);
    BoundaryIsStart(f2, i);
    RegionIsHashed(env, d1, s1, f1, i);
    RegionIsHashed(env, d2, s2, f2, i);
  }

  lemma BoundaryIsStart(f: Footer, i: nat)
    requires i < |f.boundaries|
    ensures RegionStart(f, i + 1) == f.boundaries[i]
  {
  }

  lemma RegionIsHashed(env: Env, data: Bytes, start: nat, f: Footer, i: nat)
    requires FileAccepts(env, data, start, f) && i < |f.hashes|
    ensures RegionStart(f, i) <= f.boundaries[i]
    ensures Region(data, f, i) in RegionSet(data, f) && env.DataHash(Region(data, f, i)) == f.hashes[i]
  {
    hide Root, HeaderAt, Leaves;
    assert RegionVerified(env, data, start, f, i);
  }

  /** Two accepted files with the same xorb hash are the same bytes. */
  lemma SameHashSameFile(env: Env, d1: Bytes, d2: Bytes)
    requires VerifyFile(env, d1).Ok? && VerifyFile(env, d2).Ok?
    requires VerifyFile(env, d1).value.xorbHash == VerifyFile(env, d2).value.xorbHash
    requires NoCollision(env, d1, LocateFooter(d1).value.1, d2, LocateFooter(d2).value.1)
    ensures d1 == d2
  {
    hide RegionsVerified, RegionsUpTo, Leaves, Separated, LocateFooter, FooterBytes;
    var (s1, f1) := LocateFooter(d1).value;
    var (s2, f2) := LocateFooter(d2).value;
    LeafSizesBound(env, d1, s1, f1, d2, s2, f2);
    RootBinds(env, Leaves(f1), Leaves(f2));
    SameFooter(env, d1, s1, f1, d2, s2, f2);
    AcceptedFileIsRegionsAndFooter(env, d1);
    AcceptedFileIsRegionsAndFooter(env, d2);
  }
}
