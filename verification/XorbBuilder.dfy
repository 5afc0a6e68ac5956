/** The xorb builder, and what it writes as functions of the raw chunks. */
module XorbBuilder {
  import opened Bytes
  import opened Primitives
  import opened NodeText
  import opened Merkle
  import opened Compression
  import opened XorbFormat
  import opened XorbVerify

  // ----- what the builder produces, as functions of the raw chunks -----

  function HeaderOf(env: Env, scheme: Scheme, raw: Bytes): ChunkHeader {
    ChunkHeader(1, Wrap32(|Compress(env, scheme, raw)|), scheme, Wrap32(|raw|))
  }

  /** A chunk as stored: header and compressed payload. */
  function Serialized(env: Env, scheme: Scheme, raw: Bytes): Bytes {
    HeaderBytes(HeaderOf(env, scheme, raw)) + Compress(env, scheme, raw)
  }

  function SerializedAll(env: Env, scheme: Scheme, raws: seq<Bytes>): (s: seq<Bytes>)
    ensures |s| == |raws|
  {
    seq(|raws|, i requires 0 <= i < |raws| => Serialized(env, scheme, raws[i]))
  }

  function LeafOf(env: Env, region: Bytes): Node { Node(env.DataHash(region), |region|) }

  function LeavesOf(env: Env, regions: seq<Bytes>): (leaves: seq<Node>)
    ensures |leaves| == |regions|
  {
    seq(|regions|, i requires 0 <= i < |regions| => LeafOf(env, regions[i]))
  }

  /** The footer written for the given regions and raw chunks; offsets are 32-bit. */
  function FooterFor(env: Env, regions: seq<Bytes>, raws: seq<Bytes>): (f: Footer)
    requires |regions| == |raws|
    ensures |f.hashes| == |f.boundaries| == |f.unpacked| == |raws|
  {
    var n := |raws|;
    Footer(Root(env, LeavesOf(env, regions)),
           seq(n, i requires 0 <= i < n => env.DataHash(regions[i])),
           seq(n, i requires 0 <= i < n => Wrap32(Offset(regions, i + 1))),
           seq(n, i requires 0 <= i < n => Wrap32(Offset(raws, i))))
  }

  function XorbBytes(env: Env, scheme: Scheme, raws: seq<Bytes>): Bytes {
    var regions := SerializedAll(env, scheme, raws);
    Flatten(regions) + FooterBytes(FooterFor(env, regions, raws))
  }

  // ----- the builder -----

  datatype ChunkData = ChunkData(hash: Hash, bytes: Bytes, compressedLen: u32, uncompressedSize: u32,
                                 boundary: u32, unpacked: u32)

  datatype BuildResult = BuildResult(data: Bytes, xorbHash: Hash, hashes: seq<Hash>,
                                     totalUncompressed: nat, totalCompressed: nat)

  function ChunkDataAt(env: Env, scheme: Scheme, raws: seq<Bytes>, i: nat): ChunkData
    requires i < |raws|
  {
    var regions := SerializedAll(env, scheme, raws);
    ChunkData(env.DataHash(regions[i]), regions[i], Wrap32(|Compress(env, scheme, raws[i])|), Wrap32(|raws[i]|),
              Wrap32(Offset(regions, i + 1)), Wrap32(Offset(raws, i)))
  }

  ghost predicate Holds(env: Env, scheme: Scheme, chunks: seq<ChunkData>, raws: seq<Bytes>) {
    |chunks| == |raws| && forall i | 0 <= i < |raws| :: chunks[i] == ChunkDataAt(env, scheme, raws, i)
  }

  lemma SerializedSnoc(env: Env, scheme: Scheme, raws: seq<Bytes>, raw: Bytes)
    ensures SerializedAll(env, scheme, raws + [raw])
            == SerializedAll(env, scheme, raws) + [Serialized(env, scheme, raw)]
  {
  }

  lemma HoldsSnoc(env: Env, scheme: Scheme, chunks: seq<ChunkData>, raws: seq<Bytes>, raw: Bytes)
    requires Holds(env, scheme, chunks, raws)
    ensures Holds(env, scheme, chunks + [ChunkDataAt(env, scheme, raws + [raw], |raws|)], raws + [raw])
  {
    hide Serialized, SerializedAll, Offset;
    SerializedSnoc(env, scheme, raws, raw);
    forall i | 0 <= i < |raws|
      ensures ChunkDataAt(env, scheme, raws + [raw], i) == ChunkDataAt(env, scheme, raws, i)
    {
      OffsetOfPrefix(SerializedAll(env, scheme, raws), [Serialized(env, scheme, raw)], i + 1);
      OffsetOfPrefix(raws, [raw], i);
    }
  }

  /** The record added for one more chunk, from the running offsets. */
  lemma NextChunkData(env: Env, scheme: Scheme, raws: seq<Bytes>, raw: Bytes)
    ensures var s, c := Serialized(env, scheme, raw), Compress(env, scheme, raw);
            var boundary := Wrap32(Wrap32(|Flatten(SerializedAll(env, scheme, raws))|) + Wrap32(|s|));
            && ChunkDataAt(env, scheme, raws + [raw], |raws|)
               == ChunkData(env.DataHash(s), s, Wrap32(|c|), Wrap32(|raw|), boundary, Wrap32(|Flatten(raws)|))
            && boundary == Wrap32(|Flatten(SerializedAll(env, scheme, raws + [raw]))|)
            && |Flatten(raws + [raw])| == |Flatten(raws)| + |raw|
  {
    hide Serialized, Flatten, Wrap32;
    var regions, s := SerializedAll(env, scheme, raws), Serialized(env, scheme, raw);
    SerializedSnoc(env, scheme, raws, raw);
    FlattenSnoc(regions, s);
    FlattenSnoc(raws, raw);
    WrapAdd(|Flatten(regions)|, |s|);
    WrapAdd(Wrap32(|Flatten(regions)|), |s|);
    assert (regions + [s])[..|raws| + 1] == regions + [s];
    assert (raws + [raw])[..|raws|] == raws;
  }

  class Builder {
    const env: Env
    const scheme: Scheme
    var chunks: seq<ChunkData>
    var nextBoundary: u32
    var nextUnpacked: u32
    ghost var raws: seq<Bytes>

    ghost predicate Valid()
      reads this
    {
      && Holds(env, scheme, chunks, raws)
      && nextBoundary == Wrap32(|Flatten(SerializedAll(env, scheme, raws))|)
      && nextUnpacked == Wrap32(|Flatten(raws)|)
    }

    constructor (env: Env, scheme: Scheme)
      ensures Valid() && raws == [] && this.env == env && this.scheme == scheme
    {
      this.env, this.scheme := env, scheme;
      chunks, nextBoundary, nextUnpacked := [], 0, 0;
      raws := [];
    }

    method AddChunk(data: Bytes) returns (hash: Hash, compressedLen: u32)
      requires Valid()
      modifies this
      ensures Valid() && raws == old(raws) + [data]
      ensures hash == env.DataHash(Serialized(env, scheme, data))
      ensures compressedLen == Wrap32(|Compress(env, scheme, data)|)
    {
      hide Wrap32, Compress, Flatten, SerializedAll, ChunkDataAt, Holds;
      var uncompressedSize := Wrap32(|data|);
      var compressed := Compress(env, scheme, data);
      compressedLen := Wrap32(|compressed|);
      var chunkBytes := HeaderBytes(ChunkHeader(1, compressedLen, scheme, uncompressedSize)) + compressed;
      hash := env.DataHash(chunkBytes);
      var boundary := Wrap32(nextBoundary + Wrap32(|chunkBytes|));
      NextChunkData(env, scheme, raws, data);
      HoldsSnoc(env, scheme, chunks, raws, data);
      WrapAdd(|Flatten(raws)|, uncompressedSize);
      WrapAdd(|Flatten(raws)|, |data|);
      chunks := chunks + [ChunkData(hash, chunkBytes, compressedLen, uncompressedSize, boundary, nextUnpacked)];
      nextBoundary := boundary;
      nextUnpacked := Wrap32(nextUnpacked + uncompressedSize);
      raws := raws + [data];
    }

    /** Assemble the xorb and check it with the in-memory verifier before it is handed out. */
    method Build() returns (r: Result<BuildResult>)
      requires Valid()
      ensures r.Ok? <==> VerifyMemory(env, XorbBytes(env, scheme, raws)) == Accepted
      ensures r.Ok? ==> r.value == BuildResultFor(env, scheme, raws)
    {
      hide VerifyMemory, Root, FooterBytes, Flatten, Compress;
      var buf, leaves := Assemble();
      var root := AggregatedNodeHash(env, leaves);
      var cs := chunks;
      var hashes := seq(|cs|, i requires 0 <= i < |cs| => cs[i].hash);
      var footer := Footer(root, hashes,
                           seq(|cs|, i requires 0 <= i < |cs| => cs[i].boundary),
                           seq(|cs|, i requires 0 <= i < |cs| => cs[i].unpacked));
      assert footer == FooterFor(env, SerializedAll(env, scheme, raws), raws);
      var footerBytes := SerializeFooter(footer);
      buf := buf + footerBytes;
      var verdict := VerifyXorb(env, buf);
      if verdict != Accepted {
        return Err;
      }
      var unpacked, packed := Totals();
      r := Ok(BuildResult(buf, root, hashes, unpacked, packed));
    }

    /** The serialized chunks in order, and the leaves of the xorb hash. */
    method Assemble() returns (buf: Bytes, leaves: seq<Node>)
      requires Valid()
      ensures buf == Flatten(SerializedAll(env, scheme, raws))
      ensures leaves == LeavesOf(env, SerializedAll(env, scheme, raws))
    {
      hide Serialized, Wrap32;
      ghost var regions := SerializedAll(env, scheme, raws);
      buf, leaves := [], [];
      for i := 0 to |chunks|
        invariant buf == Flatten(regions[..i])
        invariant leaves == LeavesOf(env, regions[..i])
      {
        OffsetStep(regions, i);
        LeavesSnoc(env, regions, i);
        assert chunks[i] == ChunkDataAt(env, scheme, raws, i);
        buf := buf + chunks[i].bytes;
        leaves := leaves + [Node(chunks[i].hash, |chunks[i].bytes|)];
      }
      assert regions[..|chunks|] == regions;
    }

    method Totals() returns (unpacked: nat, packed: nat)
      requires Valid()
      ensures unpacked == Sum(RawSizes(raws)) && packed == Sum(PackedSizes(env, scheme, raws))
    {
      assert Sum([]) == 0;
      hide Serialized, SerializedAll, Wrap32, Sum;
      unpacked, packed := 0, 0;
      for i := 0 to |chunks|
        invariant unpacked == Sum(RawSizes(raws)[..i]) && packed == Sum(PackedSizes(env, scheme, raws)[..i])
      {
        SumStep(RawSizes(raws), i);
        SumStep(PackedSizes(env, scheme, raws), i);
        assert chunks[i] == ChunkDataAt(env, scheme, raws, i);
        unpacked := unpacked + chunks[i].uncompressedSize;
        packed := packed + chunks[i].compressedLen;
      }
      assert RawSizes(raws)[..|chunks|] == RawSizes(raws);
      assert PackedSizes(env, scheme, raws)[..|chunks|] == PackedSizes(env, scheme, raws);
    }
  }

  lemma SumStep(xs: seq<nat>, i: nat)
    requires i < |xs|
    ensures Sum(xs[..i + 1]) == Sum(xs[..i]) + xs[i]
  {
    assert xs[..i + 1] == xs[..i] + [xs[i]];
    SumSnoc(xs[..i], xs[i]);
  }

  lemma LeavesSnoc(env: Env, regions: seq<Bytes>, i: nat)
    requires i < |regions|
    ensures LeavesOf(env, regions[..i + 1]) == LeavesOf(env, regions[..i]) + [LeafOf(env, regions[i])]
  {
  }

  function RawSizes(raws: seq<Bytes>): (s: seq<nat>)
    ensures |s| == |raws|
  {
    seq(|raws|, i requires 0 <= i < |raws| => Wrap32(|raws[i]|))
  }

  function PackedSizes(env: Env, scheme: Scheme, raws: seq<Bytes>): (s: seq<nat>)
    ensures |s| == |raws|
  {
    seq(|raws|, i requires 0 <= i < |raws| => Wrap32(|Compress(env, scheme, raws[i])|))
  }

  function BuildResultFor(env: Env, scheme: Scheme, raws: seq<Bytes>): BuildResult {
    var regions := SerializedAll(env, scheme, raws);
    var f := FooterFor(env, regions, raws);
    BuildResult(XorbBytes(env, scheme, raws), f.xorbHash, f.hashes, Sum(RawSizes(raws)),
                Sum(PackedSizes(env, scheme, raws)))
  }
}
