/** The two xorb verifiers: the in-memory one and the stricter one that reads a bounded window of a file. */
module XorbVerify {
  import opened Bytes
  import opened Primitives
  import opened NodeText
  import opened Merkle
  import opened XorbFormat

  // ----- locating the footer -----

  predicate IdentAt(b: Bytes, i: nat) { i + 7 <= |b| && b[i..i + 7] == IDENT_HASHES }

  /** The last ident that starts at `i` or before. */
  function LastIdent(b: Bytes, i: nat): (r: Option<nat>)
    ensures r.Some? ==> r.value <= i && IdentAt(b, r.value)
  {
    if IdentAt(b, i) then Some(i) else if i == 0 then None else LastIdent(b, i - 1)
  }

  /** `p` is the last position up to `i` where the ident occurs. */
  ghost predicate IsLastIdent(b: Bytes, i: nat, p: nat) {
    p <= i && IdentAt(b, p) && forall k: nat | p < k <= i :: !IdentAt(b, k)
  }

  lemma {:induction false} LastIdentIsLast(b: Bytes, i: nat, p: nat)
    ensures LastIdent(b, i) == Some(p) <==> IsLastIdent(b, i, p)
  {
    if !IdentAt(b, i) && i > 0 {
      LastIdentIsLast(b, i - 1, p);
    }
  }

  /** The search of both verifiers: from the end backwards. */
  method SearchIdentBackwards(b: Bytes) returns (r: Option<nat>)
    requires 7 <= |b|
    ensures r == LastIdent(b, |b| - 7)
  {
    var i := |b| - 7;
    while true
      invariant 0 <= i <= |b| - 7 && LastIdent(b, i) == LastIdent(b, |b| - 7)
      decreases i
    {
      if b[i..i + 7] == IDENT_HASHES {
        return Some(i);
      }
      if i == 0 {
        return None;
      }
      i := i - 1;
    }
  }

  // ----- chunk regions -----

  function RegionStart(f: Footer, i: nat): nat
    requires i <= |f.boundaries|
  {
    if i == 0 then 0 else f.boundaries[i - 1]
  }

  function RegionLen(f: Footer, i: nat): nat
    requires i < |f.boundaries|
  {
    if RegionStart(f, i) <= f.boundaries[i] then f.boundaries[i] - RegionStart(f, i) else 0
  }

  /** The leaves of the xorb hash: each chunk hash with the length of its region. */
  function LeavesUpTo(f: Footer, n: nat): (leaves: seq<Node>)
    requires n <= |f.hashes| && n <= |f.boundaries|
    ensures |leaves| == n
  {
    seq(n, i requires 0 <= i < n => Node(f.hashes[i], RegionLen(f, i)))
  }

  function Leaves(f: Footer): seq<Node>
    requires |f.hashes| == |f.boundaries|
  {
    LeavesUpTo(f, |f.hashes|)
  }

  lemma LeavesStep(f: Footer, n: nat)
    requires n < |f.hashes| && n < |f.boundaries|
    ensures LeavesUpTo(f, n + 1) == LeavesUpTo(f, n) + [Node(f.hashes[n], RegionLen(f, n))]
  {
  }

  // ----- in-memory verification -----

  datatype Verdict = Accepted | Rejected | Panicked

  predicate RegionMatches(env: Env, data: Bytes, f: Footer, i: nat)
    requires |f.hashes| == |f.boundaries| && i < |f.hashes|
  {
    && RegionStart(f, i) <= f.boundaries[i] <= |data|
    && env.DataHash(data[RegionStart(f, i)..f.boundaries[i]]) == f.hashes[i]
  }

  predicate RegionsMatch(env: Env, data: Bytes, f: Footer, n: nat)
    requires |f.hashes| == |f.boundaries| && n <= |f.hashes|
  {
    forall i | 0 <= i < n :: RegionMatches(env, data, f, i)
  }

  predicate MemoryAccepts(env: Env, data: Bytes, f: Footer) {
    && |f.hashes| == |f.boundaries|
    && RegionsMatch(env, data, f, |f.hashes|)
    && Root(env, Leaves(f)) == f.xorbHash
  }

  /** Fewer than seven bytes make the backward search slice out of range. */
  function VerifyMemory(env: Env, data: Bytes): Verdict {
    if |data| < 7 then Panicked
    else match LastIdent(data, |data| - 7)
      case None => Rejected
      case Some(start) =>
        match ParseFooter(data[start..])
        case Err => Rejected
        case Ok(f) => if MemoryAccepts(env, data, f) then Accepted else Rejected
  }

  method VerifyXorb(env: Env, data: Bytes) returns (verdict: Verdict)
    ensures verdict == VerifyMemory(env, data)
  {
    if |data| < 7 {
      return Panicked;
    }
    var found := SearchIdentBackwards(data);
    if found.None? {
      return Rejected;
    }
    var footer := DeserializeFooter(data[found.value..]);
    if footer.Err? {
      return Rejected;
    }
    ParsedFooter(data[found.value..]);
    var accepted := VerifyRegions(env, data, footer.value);
    verdict := if accepted then Accepted else Rejected;
  }

  method VerifyRegions(env: Env, data: Bytes, f: Footer) returns (accepted: bool)
    requires WellSized(f)
    ensures accepted == MemoryAccepts(env, data, f)
  {
    hide Root, RegionsMatch, LeavesUpTo;
    var chunkInfo, currentOffset := [], 0;
    NothingYet(env, data, f);
    for i := 0 to |f.hashes|
      invariant currentOffset == RegionStart(f, i)
      invariant chunkInfo == LeavesUpTo(f, i) && RegionsMatch(env, data, f, i)
    {
      RegionsMatchStep(env, data, f, i);
      LeavesStep(f, i);
      var chunkEnd := f.boundaries[i];
      if chunkEnd > |data| || chunkEnd < currentOffset {
        return false;
      }
      var actual := env.DataHash(data[currentOffset..chunkEnd]);
      if actual != f.hashes[i] {
        return false;
      }
      chunkInfo := chunkInfo + [Node(actual, chunkEnd - currentOffset)];
      currentOffset := chunkEnd;
    }
    var root := AggregatedNodeHash(env, chunkInfo);
    accepted := root == f.xorbHash;
  }

  lemma NothingYet(env: Env, data: Bytes, f: Footer)
    requires |f.hashes| == |f.boundaries|
    ensures LeavesUpTo(f, 0) == [] && RegionsMatch(env, data, f, 0)
  {
  }

  lemma RegionsMatchStep(env: Env, data: Bytes, f: Footer, n: nat)
    requires |f.hashes| == |f.boundaries| && n < |f.hashes|
    ensures RegionsMatch(env, data, f, n) && RegionMatches(env, data, f, n) ==> RegionsMatch(env, data, f, n + 1)
    ensures !RegionMatches(env, data, f, n) ==> !RegionsMatch(env, data, f, |f.hashes|)
  {
  }

  // ----- file verification -----

  datatype ChunkInfo = ChunkInfo(hash: Hash, start: nat, end: nat, len: nat,
                                 unpackedStart: nat, unpackedLen: nat, compressedLen: nat)

  datatype XorbInfo = XorbInfo(xorbHash: Hash, fileLen: nat, footerStart: nat, chunks: seq<ChunkInfo>,
                               totalUnpacked: nat, totalCompressed: nat)

  /** The header of region `i`. */
  function HeaderAt(data: Bytes, f: Footer, i: nat): Result<ChunkHeader>
    requires i < |f.boundaries|
  {
    var start := RegionStart(f, i);
    if start + HEADER_SIZE > |data| then Err else ParseHeader(data[start..start + HEADER_SIZE])
  }

  function UnpackedLen(data: Bytes, f: Footer, i: nat): nat
    requires i < |f.boundaries|
  {
    match HeaderAt(data, f, i) case Ok(h) => h.uncompressedLen case Err => 0
  }

  function CompressedLen(data: Bytes, f: Footer, i: nat): nat
    requires i < |f.boundaries|
  {
    match HeaderAt(data, f, i) case Ok(h) => h.compressedLen case Err => 0
  }

  /** Sum of the unpacked lengths declared by the headers of the regions before `i`. */
  function UnpackedBefore(data: Bytes, f: Footer, i: nat): nat
    requires i <= |f.boundaries|
  {
    if i == 0 then 0 else UnpackedBefore(data, f, i - 1) + UnpackedLen(data, f, i - 1)
  }

  function CompressedBefore(data: Bytes, f: Footer, i: nat): nat
    requires i <= |f.boundaries|
  {
    if i == 0 then 0 else CompressedBefore(data, f, i - 1) + CompressedLen(data, f, i - 1)
  }

  predicate RegionVerified(env: Env, data: Bytes, footerStart: nat, f: Footer, i: nat)
    requires |f.hashes| == |f.boundaries| == |f.unpacked| && i < |f.hashes|
  {
    && footerStart <= |data|
    && RegionStart(f, i) <= f.boundaries[i] <= footerStart
    && HeaderAt(data, f, i).Ok?
    && RegionLen(f, i) == HEADER_SIZE + CompressedLen(data, f, i)
    && f.unpacked[i] == UnpackedBefore(data, f, i)
    && env.DataHash(data[RegionStart(f, i)..f.boundaries[i]]) == f.hashes[i]
  }

  predicate RegionsVerified(env: Env, data: Bytes, footerStart: nat, f: Footer, n: nat)
    requires |f.hashes| == |f.boundaries| == |f.unpacked| && n <= |f.hashes|
  {
    forall i | 0 <= i < n :: RegionVerified(env, data, footerStart, f, i)
  }

  predicate FileAccepts(env: Env, data: Bytes, footerStart: nat, f: Footer) {
    && footerStart + FooterLen(|f.hashes|) == |data|
    && |f.hashes| == |f.boundaries| == |f.unpacked|
    && RegionsVerified(env, data, footerStart, f, |f.hashes|)
    && RegionStart(f, |f.boundaries|) == footerStart
    && Root(env, Leaves(f)) == f.xorbHash
  }

  function InfoAt(data: Bytes, f: Footer, i: nat): ChunkInfo
    requires |f.hashes| == |f.boundaries| == |f.unpacked| && i < |f.hashes|
  {
    ChunkInfo(f.hashes[i], RegionStart(f, i), f.boundaries[i], RegionLen(f, i),
              f.unpacked[i], UnpackedLen(data, f, i), CompressedLen(data, f, i))
  }

  function InfoUpTo(data: Bytes, f: Footer, n: nat): (infos: seq<ChunkInfo>)
    requires |f.hashes| == |f.boundaries| == |f.unpacked| && n <= |f.hashes|
    ensures |infos| == n
  {
    seq(n, i requires 0 <= i < n => InfoAt(data, f, i))
  }

  function InfoOf(data: Bytes, footerStart: nat, f: Footer): XorbInfo
    requires |f.hashes| == |f.boundaries| == |f.unpacked|
  {
    var n := |f.hashes|;
    XorbInfo(f.xorbHash, |data|, footerStart, InfoUpTo(data, f, n), UnpackedBefore(data, f, n),
             CompressedBefore(data, f, n))
  }

  /** Only the window that the longest footer could fill is scanned. */
  function TailStart(data: Bytes): nat { |data| - Min(|data|, FooterLen(MAX_CHUNKS_PER_XORB)) }

  /** The footer the file verifier uses, with its position. */
  function LocateFooter(data: Bytes): Result<(nat, Footer)> {
    if |data| < 8 then Err else
    var tail := data[TailStart(data)..];
    match LastIdent(tail, |tail| - 7)
    case None => Err
    case Some(i) =>
      var f :- ParseFooter(tail[i..]);
      Ok((TailStart(data) + i, f))
  }

  function VerifyFile(env: Env, data: Bytes): Result<XorbInfo> {
    var (start, f) :- LocateFooter(data);
    if FileAccepts(env, data, start, f) then Ok(InfoOf(data, start, f)) else Err
  }

  method VerifyXorbFile(env: Env, data: Bytes) returns (r: Result<XorbInfo>)
    ensures r == VerifyFile(env, data)
  {
    hide RegionsVerified, Root, Leaves, ParseFooter, LastIdent, InfoOf, IdentAt;
    if |data| < 8 {
      return Err;
    }
    var scanSize := Min(|data|, FooterLen(MAX_CHUNKS_PER_XORB));
    var tailOffset := |data| - scanSize;
    var tail := data[tailOffset..];
    var found := SearchIdentBackwards(tail);
    if found.None? {
      return Err;
    }
    var footer := DeserializeFooter(tail[found.value..]);
    if footer.Err? {
      return Err;
    }
    ParsedFooter(tail[found.value..]);
    var footerStart := tailOffset + found.value;
    if footerStart + FooterLen(|footer.value.hashes|) != |data| {
      return Err;
    }
    r := VerifyFileRegions(env, data, footerStart, footer.value);
  }

  method VerifyFileRegions(env: Env, data: Bytes, footerStart: nat, f: Footer) returns (r: Result<XorbInfo>)
    requires WellSized(f) && footerStart + FooterLen(|f.hashes|) == |data|
    ensures r == if FileAccepts(env, data, footerStart, f) then Ok(InfoOf(data, footerStart, f)) else Err
  {
    hide Root, HeaderAt, RegionsVerified, RegionVerified, LeavesUpTo, InfoUpTo;
    var leaves, chunks, unpacked, compressed, currentOffset := [], [], 0, 0, 0;
    NothingVerifiedYet(env, data, footerStart, f);
    for i := 0 to |f.hashes|
      invariant currentOffset == RegionStart(f, i) && RegionsVerified(env, data, footerStart, f, i)
      invariant unpacked == UnpackedBefore(data, f, i) && compressed == CompressedBefore(data, f, i)
      invariant leaves == LeavesUpTo(f, i) && chunks == InfoUpTo(data, f, i)
    {
      RegionsVerifiedStep(env, data, footerStart, f, i);
      var info := VerifyFileRegion(env, data, footerStart, f, i, currentOffset, unpacked);
      if info.Err? {
        return Err;
      }
      leaves := leaves + [Node(info.value.hash, info.value.len)];
      chunks := chunks + [info.value];
      unpacked := unpacked + info.value.unpackedLen;
      compressed := compressed + info.value.compressedLen;
      currentOffset := info.value.end;
    }
    if currentOffset != footerStart {
      return Err;
    }
    var root := AggregatedNodeHash(env, leaves);
    if root != f.xorbHash {
      return Err;
    }
    r := Ok(XorbInfo(root, |data|, footerStart, chunks, unpacked, compressed));
  }

  lemma NothingVerifiedYet(env: Env, data: Bytes, footerStart: nat, f: Footer)
    requires |f.hashes| == |f.boundaries| == |f.unpacked|
    ensures LeavesUpTo(f, 0) == [] && InfoUpTo(data, f, 0) == [] && RegionsVerified(env, data, footerStart, f, 0)
  {
  }

  lemma RegionsVerifiedStep(env: Env, data: Bytes, footerStart: nat, f: Footer, n: nat)
    requires |f.hashes| == |f.boundaries| == |f.unpacked| && n < |f.hashes|
    ensures RegionsVerified(env, data, footerStart, f, n) && RegionVerified(env, data, footerStart, f, n)
            ==> RegionsVerified(env, data, footerStart, f, n + 1)
    ensures !RegionVerified(env, data, footerStart, f, n) ==> !RegionsVerified(env, data, footerStart, f, |f.hashes|)
    ensures LeavesUpTo(f, n + 1) == LeavesUpTo(f, n) + [Node(f.hashes[n], RegionLen(f, n))]
    ensures InfoUpTo(data, f, n + 1) == InfoUpTo(data, f, n) + [InfoAt(data, f, n)]
  {
    hide RegionVerified, InfoAt, RegionLen;
  }

  /** One region: bounds, header, length, unpacked offset and hash. */
  method VerifyFileRegion(env: Env, data: Bytes, footerStart: nat, f: Footer, i: nat, currentOffset: nat, unpacked: nat)
    returns (r: Result<ChunkInfo>)
    requires |f.hashes| == |f.boundaries| == |f.unpacked| && i < |f.hashes| && footerStart + HEADER_SIZE <= |data|
    requires currentOffset == RegionStart(f, i) && unpacked == UnpackedBefore(data, f, i)
    ensures r.Ok? <==> RegionVerified(env, data, footerStart, f, i)
    ensures r.Ok? ==> r.value == InfoAt(data, f, i)
  {
    var chunkEnd := f.boundaries[i];
    if chunkEnd > footerStart || chunkEnd < currentOffset {
      return Err;
    }
    var chunkSize := chunkEnd - currentOffset;
    var headerBytes := data[currentOffset..currentOffset + HEADER_SIZE];
    var header :- ParseHeader(headerBytes);
    if chunkSize != HEADER_SIZE + header.compressedLen || f.unpacked[i] != unpacked {
      return Err;
    }
    var hashed, remaining := headerBytes, header.compressedLen;
    while remaining > 0
      invariant 0 <= remaining <= header.compressedLen
      invariant hashed == data[currentOffset..chunkEnd - remaining]
    {
      var toRead := Min(remaining, 65536);
      hashed := hashed + data[chunkEnd - remaining..chunkEnd - remaining + toRead];
      remaining := remaining - toRead;
    }
    var actual := env.DataHash(hashed);
    if actual != f.hashes[i] {
      return Err;
    }
    r := Ok(ChunkInfo(actual, currentOffset, chunkEnd, chunkSize, f.unpacked[i],
                      header.uncompressedLen, header.compressedLen));
  }
}
