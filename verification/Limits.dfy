/** Inputs beyond the limits: an object of 4 GiB that is lost, and a footer in which the ident recurs. */
module Limits {
  import opened Bytes
  import opened Primitives
  import opened NodeText
  import opened Merkle
  import opened Chunking
  import opened Compression
  import opened XorbFormat
  import opened XorbVerify
  import opened XorbBuilder
  import opened XorbRoundTrip
  import opened SelfCheck
  import opened ShardParser
  import SB = ShardBuilder
  import opened Reconstruction
  import opened Index
  import Validation
  import opened Conversion
  import opened EndToEnd
  import opened Protocol

  // ----- zeros, and an LZ4 that shrinks them -----

  predicate IsZeros(b: Bytes) { |b| < U32 && b == Zeros(|b|) }

  function ShrinkZeros(b: Bytes): Bytes { Le(|b|, 4) + (if IsZeros(b) then [0] else [1] + b) }

  function UnshrinkZeros(b: Bytes): Option<Bytes> {
    if |b| < 5 then None else if b[4] == 0 then Some(Zeros(UnLe(b[..4]))) else Some(b[5..])
  }

  /** Every hash is zero; LZ4 stores a run of zeros in five bytes. */
  const ZERO_ENV: Env := Env(_ => ZERO_HASH, _ => ZERO_HASH, (_, _) => ZERO_HASH, _ => ZERO_HASH, ShrinkZeros,
                             UnshrinkZeros)

  /** A boundary is never found. */
  const BLIND_GEAR: Gear := Gear((state, _) => (None, state))

  lemma ShrinkZerosIsLawful()
    ensures LawfulLz4(ZERO_ENV)
  {
    forall b: Bytes
      ensures LawfulFor(ZERO_ENV, b)
    {
      ShrinkZerosUndone(b);
    }
  }

  lemma ShrinkZerosUndone(b: Bytes)
    ensures LawfulFor(ZERO_ENV, b)
  {
    var c := ShrinkZeros(b);
    SplitConcat(Le(|b|, 4), if IsZeros(b) then [0] else [1] + b);
    assert ZERO_ENV.Lz4(b) == c && ZERO_ENV.UnLz4(c) == UnshrinkZeros(c);
    if IsZeros(b) {
      Widths();
      LeRoundTrip(|b|, 4);
    } else {
      assert c[5..] == b;
    }
  }

  // ----- the chunks of zeros -----

  const LONGEST: nat := 131072

  function ZeroChunks(n: nat): (raws: seq<Bytes>)
    ensures |raws| == n
  {
    seq(n, _ => Zeros(LONGEST))
  }

  lemma ZerosSplit(m: nat, n: nat)
    requires m <= n
    ensures Zeros(n)[..m] == Zeros(m) && Zeros(n)[m..] == Zeros(n - m)
  {
  }

  lemma BlindIsLawful()
    ensures Lawful(BLIND_GEAR)
  {
  }

  lemma {:induction false} PiecesOfZeros(n: nat)
    requires Lawful(BLIND_GEAR)
    ensures Pieces(BLIND_GEAR, DEFAULT_CONFIG, Zeros(n * LONGEST)) == ZeroChunks(n)
  {
    hide Lawful;
    if n > 0 {
      PiecesOfZeros(n - 1);
      var data := Zeros(n * LONGEST);
      BlindCut(data);
      ZerosSplit(LONGEST, n * LONGEST);
      assert ZeroChunks(n) == [Zeros(LONGEST)] + ZeroChunks(n - 1);
    }
  }

  lemma BlindCut(data: Bytes)
    requires Lawful(BLIND_GEAR) && LONGEST <= |data|
    ensures CutSize(BLIND_GEAR, DEFAULT_CONFIG, data) == LONGEST
  {
    hide Lawful;
    var start, end := DEFAULT_CONFIG.Skip(), Min(DEFAULT_CONFIG.maxChunk, |data|);
    assert BLIND_GEAR.Match(0, data[start..end]) == None;
  }

  lemma {:induction false} EqualParts(parts: seq<Bytes>, len: nat, i: nat)
    requires i <= |parts| && forall j | 0 <= j < |parts| :: |parts[j]| == len
    ensures Offset(parts, i) == len * i
  {
    hide Offset;
    if i > 0 {
      EqualParts(parts, len, i - 1);
      OffsetStep(parts, i - 1);
    } else {
      OffsetZero(parts);
    }
  }

  lemma ZeroRegion(i: nat, n: nat)
    requires i < n
    ensures |SerializedAll(ZERO_ENV, Lz4, ZeroChunks(n))[i]| == 13
    ensures |Compress(ZERO_ENV, Lz4, ZeroChunks(n)[i])| == 5
  {
    assert ZERO_ENV.Lz4(Zeros(LONGEST)) == ShrinkZeros(Zeros(LONGEST));
    hide Zeros, HeaderBytes;
  }

  // ----- no ident in the footer of zeros -----

  ghost predicate NoIdent(b: Bytes) { forall k: nat :: !IdentAt(b, k) }

  lemma IdentBytes(b: Bytes, k: nat, j: nat)
    requires IdentAt(b, k) && j < 7
    ensures b[k + j] == IDENT_HASHES[j] != 0
    ensures b[k] == 88 && b[k + 1] == 66 && b[k + 2] == 76 && b[k + 4] == 72
  {
    var w := b[k..k + 7];
    assert w[0] == b[k] && w[1] == b[k + 1] && w[2] == b[k + 2] && w[4] == b[k + 4] && w[j] == b[k + j];
  }

  lemma ZeroStopsIdent(b: Bytes, k: nat, j: nat)
    requires k <= j < k + 7 && j < |b| && b[j] == 0
    ensures !IdentAt(b, k)
  {
    if IdentAt(b, k) {
      IdentBytes(b, k, j - k);
    }
  }

  lemma IdentBehind(a: Bytes, b: Bytes, k: nat)
    requires |a| <= k && IdentAt(a + b, k)
    ensures IdentAt(b, k - |a|)
  {
    assert (a + b)[k..k + 7] == b[k - |a|..k - |a| + 7];
  }

  /** No ident starts in a word whose top byte is zero. */
  lemma SmallWord(x: u32, rest: Bytes)
    requires x < U24 && NoIdent(rest)
    ensures NoIdent(Le(x, 4) + rest)
  {
    var b := Le(x, 4) + rest;
    TopByte(x);
    forall k: nat
      ensures !IdentAt(b, k)
    {
      if k < 4 {
        ZeroStopsIdent(b, k, 3);
      } else if IdentAt(b, k) {
        IdentBehind(Le(x, 4), rest, k);
      }
    }
  }

  lemma TopByte(x: u32)
    ensures x < U24 ==> Le(x, 4)[3] == 0
    ensures x % 65536 == 0 ==> Le(x, 4)[0] == 0 && Le(x, 4)[1] == 0
  {
    hide Le;
    FourBytes(x);
  }

  /** What follows starts with a zero byte or with the main ident. */
  predicate Calm(b: Bytes) { b != [] && (b[0] == 0 || b[0] == 88) }

  /** Nor does one start in a word whose low bytes are zero, before a calm continuation. */
  lemma RoundWord(x: u32, rest: Bytes)
    requires x % 65536 == 0 && NoIdent(rest) && Calm(rest)
    ensures NoIdent(Le(x, 4) + rest) && Calm(Le(x, 4) + rest)
  {
    var b := Le(x, 4) + rest;
    TopByte(x);
    assert b[0] == 0 && b[1] == 0 && b[4] == rest[0];
    forall k: nat
      ensures !IdentAt(b, k)
    {
      if IdentAt(b, k) {
        if k < 4 {
          IdentBytes(b, k, 0);
        } else {
          IdentBehind(Le(x, 4), rest, k);
        }
      }
    }
  }

  lemma {:induction false} SmallWords(xs: seq<u32>, rest: Bytes)
    requires NoIdent(rest) && forall i | 0 <= i < |xs| :: xs[i] < U24
    ensures NoIdent(EncodeAll(U32_CODEC, xs) + rest)
  {
    hide NoIdent;
    if xs == [] {
      assert EncodeAll(U32_CODEC, xs) + rest == rest;
    } else {
      SmallWords(xs[1..], rest);
      SmallWord(xs[0], EncodeAll(U32_CODEC, xs[1..]) + rest);
      Assoc(Le(xs[0], 4), EncodeAll(U32_CODEC, xs[1..]), rest);
    }
  }

  lemma {:induction false} RoundWords(xs: seq<u32>, rest: Bytes)
    requires NoIdent(rest) && Calm(rest) && forall i | 0 <= i < |xs| :: xs[i] % 65536 == 0
    ensures NoIdent(EncodeAll(U32_CODEC, xs) + rest)
  {
    RoundWordsCalm(xs, rest);
  }

  lemma {:induction false} RoundWordsCalm(xs: seq<u32>, rest: Bytes)
    requires NoIdent(rest) && Calm(rest) && forall i | 0 <= i < |xs| :: xs[i] % 65536 == 0
    ensures NoIdent(EncodeAll(U32_CODEC, xs) + rest) && Calm(EncodeAll(U32_CODEC, xs) + rest)
  {
    hide NoIdent, Calm;
    if xs == [] {
      assert EncodeAll(U32_CODEC, xs) + rest == rest;
    } else {
      RoundWordsCalm(xs[1..], rest);
      RoundWord(xs[0], EncodeAll(U32_CODEC, xs[1..]) + rest);
      Assoc(Le(xs[0], 4), EncodeAll(U32_CODEC, xs[1..]), rest);
    }
  }

  /** Bytes that are no `X` start no ident. */
  lemma NoXThere(a: Bytes, rest: Bytes)
    requires NoIdent(rest) && forall k | 0 <= k < |a| :: a[k] != 88
    ensures NoIdent(a + rest)
  {
    forall k: nat
      ensures !IdentAt(a + rest, k)
    {
      if IdentAt(a + rest, k) {
        if k < |a| {
          IdentBytes(a + rest, k, 0);
        } else {
          IdentBehind(a, rest, k);
        }
      }
    }
  }

  lemma {:induction false} ZeroHashes(hashes: seq<Hash>, rest: Bytes)
    requires NoIdent(rest) && forall i | 0 <= i < |hashes| :: hashes[i] == ZERO_HASH
    ensures NoIdent(EncodeAll(HASH_CODEC, hashes) + rest)
  {
    hide NoIdent;
    if hashes == [] {
      assert EncodeAll(HASH_CODEC, hashes) + rest == rest;
    } else {
      ZeroHashes(hashes[1..], rest);
      NoXThere(hashes[0], EncodeAll(HASH_CODEC, hashes[1..]) + rest);
      Assoc(hashes[0], EncodeAll(HASH_CODEC, hashes[1..]), rest);
    }
  }

  /** A head that starts with another ident starts none of this kind. */
  lemma OtherHead(head: Bytes, rest: Bytes)
    requires NoIdent(rest) && (head == BOUNDARIES_HEAD || head == MAIN_HEAD)
    ensures NoIdent(head + rest)
  {
    var b := head + rest;
    assert b[1] == head[1] && b[4] == head[4];
    assert head == [head[0]] + head[1..];
    Assoc([head[0]], head[1..], rest);
    NoXThere(head[1..], rest);
    forall k: nat
      ensures !IdentAt(b, k)
    {
      if IdentAt(b, k) {
        IdentBytes(b, k, 0);
        if k > 0 {
          IdentBehind([head[0]], head[1..] + rest, k);
        }
      }
    }
  }

  lemma NothingHasNoIdent()
    ensures NoIdent([])
  {
  }

  ghost predicate Quiescent(f: Footer) {
    && |f.hashes| < U24 && f.xorbHash == ZERO_HASH
    && (forall i | 0 <= i < |f.hashes| :: f.hashes[i] == ZERO_HASH)
    && (forall i | 0 <= i < |f.boundaries| :: f.boundaries[i] < U24)
    && (forall i | 0 <= i < |f.unpacked| :: f.unpacked[i] % 65536 == 0)
  }

  lemma QuiescentTail(f: Footer)
    requires Quiescent(f)
    ensures NoIdent(FooterTail(f))
  {
    hide NoIdent;
    var main := MAIN_HEAD + f.xorbHash;
    NothingHasNoIdent();
    NoXThere(f.xorbHash, []);
    assert f.xorbHash + [] == f.xorbHash;
    OtherHead(MAIN_HEAD, f.xorbHash);
    RoundWords(f.unpacked, main);
    SmallWords(f.boundaries, EncodeAll(U32_CODEC, f.unpacked) + main);
    OtherHead(BOUNDARIES_HEAD, EncodeAll(U32_CODEC, f.boundaries) + (EncodeAll(U32_CODEC, f.unpacked) + main));
  }

  /** A quiet footer shows the ident only at its start. */
  lemma QuiescentFooter(f: Footer, k: nat)
    requires Quiescent(f) && k > 0
    ensures !IdentAt(FooterBytes(f), k)
  {
    hide NoIdent, FooterTail, EncodeAll;
    var rest := Le(|f.hashes|, 4) + (EncodeAll(HASH_CODEC, f.hashes) + FooterTail(f));
    QuiescentTail(f);
    ZeroHashes(f.hashes, FooterTail(f));
    SmallWord(|f.hashes|, EncodeAll(HASH_CODEC, f.hashes) + FooterTail(f));
    NoXThere(HASHES_HEAD[1..], rest);
    BehindFirst(HASHES_HEAD, rest, k);
  }

  lemma BehindFirst(head: Bytes, rest: Bytes, k: nat)
    requires head != [] && NoIdent(head[1..] + rest) && k > 0
    ensures !IdentAt(head + rest, k)
  {
    assert head == [head[0]] + head[1..];
    Assoc([head[0]], head[1..], rest);
    if IdentAt(head + rest, k) {
      IdentBehind([head[0]], head[1..] + rest, k);
    }
  }

  lemma {:induction false} ZeroRoot(nodes: seq<Node>)
    requires forall i | 0 <= i < |nodes| :: nodes[i].hash == ZERO_HASH
    ensures Root(ZERO_ENV, nodes) == ZERO_HASH
    decreases |nodes|
  {
    hide Level, Groups, Merge;
    if |nodes| > 1 {
      LevelMergesGroups(ZERO_ENV, nodes);
      forall i | 0 <= i < |Level(ZERO_ENV, nodes)|
        ensures Level(ZERO_ENV, nodes)[i].hash == ZERO_HASH
      {
        MergedIsZero(Groups(nodes)[i]);
      }
      ZeroRoot(Level(ZERO_ENV, nodes));
    }
  }

  lemma MergedIsZero(group: seq<Node>)
    ensures Merge(ZERO_ENV, group).hash == ZERO_HASH
  {
  }

  lemma ZeroRegions(n: nat)
    ensures forall i | 0 <= i < n ::
              |SerializedAll(ZERO_ENV, Lz4, ZeroChunks(n))[i]| == 13 && |ZeroChunks(n)[i]| == LONGEST
  {
    hide SerializedAll, ZeroChunks;
    forall i | 0 <= i < n
      ensures |SerializedAll(ZERO_ENV, Lz4, ZeroChunks(n))[i]| == 13 && |ZeroChunks(n)[i]| == LONGEST
    {
      ZeroRegion(i, n);
      ZeroChunkAt(n, i);
    }
  }

  lemma ZeroOffsets(n: nat, i: nat)
    requires i < n <= 32768
    ensures var f := FooterFor(ZERO_ENV, SerializedAll(ZERO_ENV, Lz4, ZeroChunks(n)), ZeroChunks(n));
            f.boundaries[i] < U24 && f.unpacked[i] % 65536 == 0
  {
    hide Offset, FooterFor, SerializedAll, ZeroChunks, Wrap32;
    var raws := ZeroChunks(n);
    var regions := SerializedAll(ZERO_ENV, Lz4, raws);
    ZeroRegions(n);
    WrapExact(13 * (i + 1));
    EqualParts(regions, 13, i + 1);
    EqualParts(raws, LONGEST, i);
    FooterFields(ZERO_ENV, regions, raws, i);
    RoundOffset(i);
  }

  lemma RoundOffset(i: nat)
    requires i < 32768
    ensures Wrap32(LONGEST * i) % 65536 == 0
  {
    WrapExact(LONGEST * i);
    assert LONGEST * i == 65536 * (2 * i);
  }

  lemma ZeroFooter(n: nat)
    requires n <= 32768
    ensures Quiescent(FooterFor(ZERO_ENV, SerializedAll(ZERO_ENV, Lz4, ZeroChunks(n)), ZeroChunks(n)))
  {
    hide Offset, Serialized, Root, ZeroChunks, SerializedAll, Wrap32;
    var raws := ZeroChunks(n);
    var regions := SerializedAll(ZERO_ENV, Lz4, raws);
    ZeroRoot(LeavesOf(ZERO_ENV, regions));
    forall i | 0 <= i < n
      ensures FooterFor(ZERO_ENV, regions, raws).boundaries[i] < U24
      ensures FooterFor(ZERO_ENV, regions, raws).unpacked[i] % 65536 == 0
    {
      ZeroOffsets(n, i);
    }
  }

  lemma ZeroChunkAt(n: nat, i: nat)
    requires i < n
    ensures ZeroChunks(n)[i] == Zeros(LONGEST)
  {
  }

  lemma ZerosIdent(n: nat)
    requires n <= 32768
    ensures IdentOnlyInPayload(ZERO_ENV, Lz4, ZeroChunks(n))
  {
    hide IdentAt, FooterBytes, FooterFor, SerializedAll, ZeroChunks, Flatten, Quiescent;
    var regions := SerializedAll(ZERO_ENV, Lz4, ZeroChunks(n));
    var f, front := FooterFor(ZERO_ENV, regions, ZeroChunks(n)), Flatten(regions);
    ZeroFooter(n);
    forall k: nat | |front| < k
      ensures !IdentAt(XorbBytes(ZERO_ENV, Lz4, ZeroChunks(n)), k)
    {
      QuiescentFooter(f, k - |front|);
      if IdentAt(front + FooterBytes(f), k) {
        IdentBehind(front, FooterBytes(f), k);
      }
    }
  }

  lemma ZerosFit(n: nat)
    requires n <= 32768
    ensures ChunksFit(ZERO_ENV, Lz4, ZeroChunks(n)) && WithinContainer(ZERO_ENV, Lz4, ZeroChunks(n))
  {
    hide Offset, Serialized, SerializedAll, ZeroChunks, Flatten, Compress;
    var regions := SerializedAll(ZERO_ENV, Lz4, ZeroChunks(n));
    forall i | 0 <= i < n
      ensures |regions[i]| == 13 && |ZeroChunks(n)[i]| < U24 && |Compress(ZERO_ENV, Lz4, ZeroChunks(n)[i])| < U24
    {
      ZeroRegion(i, n);
      ZeroChunkAt(n, i);
    }
    EqualParts(regions, 13, n);
    OffsetEnd(regions, n);
  }

  /** The self-check accepts the xorb of 4 GiB of zeros, without a later ident, and the shard is the size it can be. */
  lemma FourGiBOfZeros()
    ensures Lawful(BLIND_GEAR) && LawfulLz4(ZERO_ENV)
    ensures var data := Zeros(U32);
            var raws := Pieces(BLIND_GEAR, DEFAULT_CONFIG, data);
            && |raws| < U32 && Named(ZERO_ENV, ZERO_HASH, data) && IdentOnlyInPayload(ZERO_ENV, Lz4, raws)
            && VerifyMemory(ZERO_ENV, XorbBytes(ZERO_ENV, Lz4, raws)) == Accepted
  {
    hide Pieces, Lawful, LawfulLz4, IdentOnlyInPayload, VerifyMemory, XorbBytes, Zeros, ZeroChunks;
    BlindIsLawful();
    ShrinkZerosIsLawful();
    PiecesOfZeros(32768);
    assert 32768 * LONGEST == U32;
    ZerosIdent(32768);
    ZerosFit(32768);
    SelfCheckExact(ZERO_ENV, Lz4, ZeroChunks(32768));
  }

  // ----- a run that converts an object, and loses it from 4 GiB on -----

  /** The server is up, the object was stored, its raw blob is gone, and no reference rebuilds it. */
  ghost predicate Lost(sys: System, s: State, oid: Hash) {
    && s.up && oid in s.promised && oid !in s.storage.raw
    && RebuildFile(sys.env, s.storage, oid, RefsOf(s.index.files, oid)) == Rebuilt.Failed
  }

  function At(oid: Hash, data: Bytes, storage: Storage, index: IndexState, v: Flight): State {
    State(storage, index, true, map[oid := data], {}, [v], [NoDownload])
  }

  function RawOnly(oid: Hash, data: Bytes): Storage { Storage(map[oid := data], map[], map[]) }

  function WithXorb(sys: System, oid: Hash, data: Bytes): Storage
    requires Lawful(sys.gear)
  {
    Storage(map[oid := data], map[XorbKeyOf(sys, data) := XorbOf(sys, data)], map[])
  }

  function WithShard(sys: System, oid: Hash, data: Bytes): Storage
    requires Lawful(sys.gear)
  {
    var shard := ShardOf(sys, oid, data);
    Storage(map[oid := data], map[XorbKeyOf(sys, data) := XorbOf(sys, data)], map[sys.env.DataHash(shard) := shard])
  }

  function Listed(sys: System, oid: Hash, data: Bytes): IndexState
    requires Lawful(sys.gear)
  {
    Register(EMPTY_INDEX, RegistrationOf(sys, oid, data))
  }

  /** The states of the run: stored, read, checked, xorb stored, shard stored, registered, raw blob deleted. */
  function StateAt(sys: System, oid: Hash, data: Bytes, k: nat): State
    requires Lawful(sys.gear)
  {
    if k == 0 then Initial(1, 1)
    else if k == 1 then At(oid, data, RawOnly(oid, data), EMPTY_INDEX, NoConversion)
    else if k == 2 then At(oid, data, RawOnly(oid, data), EMPTY_INDEX, RawRead(oid, data))
    else if k == 3 then At(oid, data, RawOnly(oid, data), EMPTY_INDEX, XorbChecked(oid, data, false))
    else if k == 4 then At(oid, data, WithXorb(sys, oid, data), EMPTY_INDEX, XorbStored(oid, data))
    else if k == 5 then At(oid, data, WithShard(sys, oid, data), EMPTY_INDEX, ShardStored(oid, data))
    else if k == 6 then At(oid, data, WithShard(sys, oid, data), Listed(sys, oid, data), Registered(oid))
    else At(oid, data, DropRaw(WithShard(sys, oid, data), oid), Listed(sys, oid, data), NoConversion)
  }

  function ActionAt(oid: Hash, data: Bytes, k: nat): Action {
    if k == 0 then PutRaw(oid, data)
    else if k == 1 then StartConversion(0, oid)
    else if k == 2 then CheckXorb(0)
    else if k == 3 then WriteXorb(0)
    else if k == 4 then WriteShard(0)
    else if k == 5 then RegisterConversion(0)
    else DeleteRaw(0)
  }

  function RunOf(sys: System, oid: Hash, data: Bytes): (states: seq<State>)
    requires Lawful(sys.gear)
    ensures |states| == 8
  {
    seq(8, k requires 0 <= k < 8 => StateAt(sys, oid, data, k))
  }

  function ActionsOf(oid: Hash, data: Bytes): (actions: seq<Action>)
    ensures |actions| == 7
  {
    seq(7, k requires 0 <= k < 7 => ActionAt(oid, data, k))
  }

  /** An object that the settings admit, in countable chunks, whose xorb passes the self-check. */
  ghost predicate Admitted(sys: System, oid: Hash, data: Bytes)
    requires Lawful(sys.gear)
  {
    && sys.settings.enabled && sys.settings.deleteRaw && sys.settings.minSize <= |data| <= sys.settings.maxSize
    && |RawsOf(sys, data)| < U32 && Named(sys.env, oid, data)
    && SelfChecked(sys, data) && IdentOnlyInPayload(sys.env, sys.settings.scheme, RawsOf(sys, data))
  }

  /** One of 4 GiB or more. */
  ghost predicate Overlarge(sys: System, oid: Hash, data: Bytes)
    requires Lawful(sys.gear)
  {
    U32 <= |data| && Admitted(sys, oid, data)
  }

  lemma ShardIsParsed(sys: System, oid: Hash, data: Bytes)
    requires Lawful(sys.gear) && |RawsOf(sys, data)| < U32
    ensures Parse(ShardOf(sys, oid, data)).Ok?
  {
    hide Parse, Pieces, Lawful, SB.BuildBytes, ContentsFor, ShardFor;
    ShardParses(sys.env, sys.settings.scheme, oid, RawsOf(sys, data));
  }

  /** Step `k` of the run is enabled, leads to the next state, and is benign unless it starts the conversion. */
  ghost predicate StepsTo(sys: System, oid: Hash, data: Bytes, k: nat)
    requires Lawful(sys.gear)
  {
    var s, a := StateAt(sys, oid, data, k), ActionAt(oid, data, k);
    Enabled(sys, s, a) && StateAt(sys, oid, data, k + 1) == Apply(sys, s, a) && (k != 1 ==> Benign(sys, s, a))
  }

  lemma Moves(sys: System, oid: Hash, data: Bytes, st: Storage, idx: IndexState, v: Flight, a: Action)
    requires Lawful(sys.gear) && a.OfConversion() && a.c == 0 && Enabled(sys, At(oid, data, st, idx, v), a)
    ensures var s := At(oid, data, st, idx, v);
            Apply(sys, s, a) == At(oid, data, ConversionStorage(sys, s, a), ConversionIndex(sys, s, a),
                                   ConversionNext(sys, s, a))
  {
    hide Lawful, ConversionEnabled, ConversionStorage, ConversionIndex, ConversionNext;
    var s := At(oid, data, st, idx, v);
    assert s.conversions[0 := ConversionNext(sys, s, a)] == [ConversionNext(sys, s, a)];
  }

  lemma PutStep(sys: System, oid: Hash, data: Bytes)
    requires Lawful(sys.gear) && Named(sys.env, oid, data)
    ensures StepsTo(sys, oid, data, 0)
  {
    hide Lawful, Named;
    assert Idle(1) == [NoConversion] && Quiet(1) == [NoDownload];
  }

  lemma StartStep(sys: System, oid: Hash, data: Bytes)
    requires Lawful(sys.gear) && sys.settings.enabled && sys.settings.minSize <= |data| <= sys.settings.maxSize
    ensures StepsTo(sys, oid, data, 1)
  {
    hide Lawful, Apply;
    Moves(sys, oid, data, RawOnly(oid, data), EMPTY_INDEX, NoConversion, StartConversion(0, oid));
  }

  lemma CheckStep(sys: System, oid: Hash, data: Bytes)
    requires Lawful(sys.gear) && SelfChecked(sys, data)
    ensures StepsTo(sys, oid, data, 2)
  {
    hide Lawful, Apply, XorbOf, XorbKeyOf, VerifyMemory;
    Moves(sys, oid, data, RawOnly(oid, data), EMPTY_INDEX, RawRead(oid, data), CheckXorb(0));
  }

  lemma XorbStep(sys: System, oid: Hash, data: Bytes)
    requires Lawful(sys.gear) && IdentOnlyInPayload(sys.env, sys.settings.scheme, RawsOf(sys, data))
    ensures StepsTo(sys, oid, data, 3)
  {
    hide Lawful, Apply, XorbOf, XorbKeyOf, IdentOnlyInPayload, RawsOf;
    Moves(sys, oid, data, RawOnly(oid, data), EMPTY_INDEX, XorbChecked(oid, data, false), WriteXorb(0));
  }

  lemma ShardStep(sys: System, oid: Hash, data: Bytes)
    requires Lawful(sys.gear) && |RawsOf(sys, data)| < U32
    ensures StepsTo(sys, oid, data, 4)
  {
    hide Lawful, Apply, XorbOf, XorbKeyOf, ShardOf, Parse, RawsOf;
    ShardIsParsed(sys, oid, data);
    Moves(sys, oid, data, WithXorb(sys, oid, data), EMPTY_INDEX, XorbStored(oid, data), WriteShard(0));
  }

  lemma RegisterStep(sys: System, oid: Hash, data: Bytes)
    requires Lawful(sys.gear)
    ensures StepsTo(sys, oid, data, 5)
  {
    hide Lawful, Apply, WithShard, RegistrationOf, Register, Accepts;
    NothingConflicts(sys, oid, data);
    Moves(sys, oid, data, WithShard(sys, oid, data), EMPTY_INDEX, ShardStored(oid, data), RegisterConversion(0));
  }

  lemma DeleteStep(sys: System, oid: Hash, data: Bytes)
    requires Lawful(sys.gear) && sys.settings.deleteRaw
    ensures StepsTo(sys, oid, data, 6)
  {
    hide Lawful, Apply, WithShard, Listed;
    Moves(sys, oid, data, WithShard(sys, oid, data), Listed(sys, oid, data), Registered(oid), DeleteRaw(0));
  }

  lemma EveryStep(sys: System, oid: Hash, data: Bytes, k: nat)
    requires Lawful(sys.gear) && Admitted(sys, oid, data) && k < 7
    ensures StepsTo(sys, oid, data, k)
  {
    hide StepsTo, Lawful, SelfChecked, RawsOf, Named, IdentOnlyInPayload;
    PutStep(sys, oid, data);
    StartStep(sys, oid, data);
    CheckStep(sys, oid, data);
    XorbStep(sys, oid, data);
    ShardStep(sys, oid, data);
    RegisterStep(sys, oid, data);
    DeleteStep(sys, oid, data);
  }

  lemma NothingConflicts(sys: System, oid: Hash, data: Bytes)
    requires Lawful(sys.gear)
    ensures Accepts(EMPTY_INDEX, RegistrationOf(sys, oid, data))
  {
    hide Lawful, ShardIdFor, BuildResultFor, ChunkMappingsFor, RawsOf;
  }

  lemma OnlyRef(sys: System, oid: Hash, data: Bytes)
    requires Lawful(sys.gear)
    ensures RefsOf(Register(EMPTY_INDEX, RegistrationOf(sys, oid, data)).files, oid)
         == [FileRef(RegistrationOf(sys, oid, data).shardId, 0, |data|)]
  {
    hide Lawful, ShardIdFor, BuildResultFor, ChunkMappingsFor, RawsOf, AddChunks;
    NothingConflicts(sys, oid, data);
    var reg := RegistrationOf(sys, oid, data);
    assert AddFiles(map[], reg, 0) == map[];
  }

  lemma EverythingStored(sys: System, oid: Hash, data: Bytes)
    requires Lawful(sys.gear)
    ensures Stored(sys.env, sys.settings.scheme, oid, RawsOf(sys, data), DropRaw(WithShard(sys, oid, data), oid))
  {
    hide Lawful, XorbBytes, XorbHashFor, SB.BuildBytes, ContentsFor, RawsOf;
    HeldIsStored(sys, DropRaw(WithShard(sys, oid, data), oid), oid, data);
  }

  lemma RefFails(sys: System, oid: Hash, data: Bytes)
    requires Lawful(sys.gear) && Overlarge(sys, oid, data)
    ensures var ref := FileRef(RegistrationOf(sys, oid, data).shardId, 0, |data|);
            RebuildRef(sys.env, DropRaw(WithShard(sys, oid, data), oid), oid, ref) == Rebuilt.Failed
  {
    hide Lawful, RebuildRef, IdentOnlyInPayload, SelfChecked, Named, Pieces, BuildResultFor, ChunkMappingsFor,
         WithShard, DropRaw, Stored, ShardIdFor;
    EverythingStored(sys, oid, data);
    LargeNeverRebuilds(sys.env, sys.gear, sys.settings.scheme, oid, data, DropRaw(WithShard(sys, oid, data), oid));
  }

  lemma LostInTheEnd(sys: System, oid: Hash, data: Bytes)
    requires Lawful(sys.gear) && Overlarge(sys, oid, data)
    ensures Lost(sys, StateAt(sys, oid, data, 7), oid)
  {
    hide Lawful, RebuildRef, RebuildFile, Overlarge, RegistrationOf, Register, RefsOf, WithShard;
    RefFails(sys, oid, data);
    OnlyRef(sys, oid, data);
    OneRef(sys.env, DropRaw(WithShard(sys, oid, data), oid), oid,
           FileRef(RegistrationOf(sys, oid, data).shardId, 0, |data|));
  }

  lemma OneRef(env: Env, st: Storage, oid: Hash, ref: FileRef)
    requires RebuildRef(env, st, oid, ref) == Rebuilt.Failed
    ensures RebuildFile(env, st, oid, [ref]) == Rebuilt.Failed
  {
    hide RebuildRef;
    assert [ref][1..] == [];
    assert RebuildFile(env, st, oid, []) == Stale;
  }

  /** The run takes place for every admitted object. */
  lemma RunTakesPlace(sys: System, oid: Hash, data: Bytes)
    requires Lawful(sys.gear) && Admitted(sys, oid, data)
    ensures var states, actions := RunOf(sys, oid, data), ActionsOf(oid, data);
            && Follows(sys, 1, 1, states, actions)
            && (forall k | 0 <= k < |actions| && k != 1 :: Benign(sys, states[k], actions[k]))
            && states[|actions|] == StateAt(sys, oid, data, 7)
  {
    var states, actions := RunOf(sys, oid, data), ActionsOf(oid, data);
    assert states[0] == Initial(1, 1);
    hide Lawful, Admitted, Enabled, Apply, Benign, Initial, StateAt, ActionAt;
    forall k | 0 <= k < |actions|
      ensures Enabled(sys, states[k], actions[k]) && states[k + 1] == Apply(sys, states[k], actions[k])
      ensures k != 1 ==> Benign(sys, states[k], actions[k])
    {
      EveryStep(sys, oid, data, k);
    }
  }

  /** Below 4 GiB an admitted object is acknowledged, converted and deleted, and its reference rebuilds its bytes. */
  lemma AdmittedObjectIsKept(sys: System, oid: Hash, data: Bytes)
    requires Lawful(sys.gear) && Admitted(sys, oid, data) && |data| < U32 && LawfulLz4(sys.env)
    ensures var states, actions := RunOf(sys, oid, data), ActionsOf(oid, data);
            && Follows(sys, 1, 1, states, actions)
            && var s := states[|actions|];
            && s.up && oid !in s.storage.raw && oid in s.index.files
            && RebuildFile(sys.env, s.storage, oid, s.index.files[oid]) == Rebuilt(data)
  {
    hide Lawful, LawfulLz4, Follows, RunOf, RebuildFile, Admitted, RegistrationOf, Register, WithShard;
    RunTakesPlace(sys, oid, data);
    RefWorks(sys, oid, data);
    OnlyRef(sys, oid, data);
  }

  lemma RefWorks(sys: System, oid: Hash, data: Bytes)
    requires Lawful(sys.gear) && Admitted(sys, oid, data) && |data| < U32 && LawfulLz4(sys.env)
    ensures var ref := FileRef(RegistrationOf(sys, oid, data).shardId, 0, |data|);
            RebuildFile(sys.env, DropRaw(WithShard(sys, oid, data), oid), oid, [ref]) == Rebuilt(data)
  {
    hide Lawful, LawfulLz4, RebuildRef, IdentOnlyInPayload, Named, Pieces, BuildResultFor, ChunkMappingsFor,
         WithShard, DropRaw, Stored, ShardIdFor, Parse, Validation.Validate, VerifyMemory, XorbBytes, Flatten;
    EverythingStored(sys, oid, data);
    PiecesCoverInput(sys.gear, DEFAULT_CONFIG, data);
    ConversionIsFaithful(sys.env, sys.gear, sys.settings.scheme, oid, data, DropRaw(WithShard(sys, oid, data), oid));
  }

  /**
   * From 4 GiB on the program loses objects: every such object that the settings admit and whose xorb passes the
   * self-check is acknowledged, converted and deleted, and then never rebuilt. The only step of the run that is not
   * benign is the start of the conversion, because of the size.
   */
  lemma OverlargeObjectIsLost(sys: System, oid: Hash, data: Bytes)
    requires Lawful(sys.gear) && Overlarge(sys, oid, data)
    ensures var states, actions := RunOf(sys, oid, data), ActionsOf(oid, data);
            && Follows(sys, 1, 1, states, actions)
            && (forall k | 0 <= k < |actions| && k != 1 :: Benign(sys, states[k], actions[k]))
            && Lost(sys, states[|actions|], oid)
  {
    hide Lawful, Admitted, Lost, StateAt, Follows, Benign, Enabled;
    RunTakesPlace(sys, oid, data);
    LostInTheEnd(sys, oid, data);
  }

  /** Such an object exists: 4 GiB of zeros, compressed. */
  lemma OverlargeObjectExists() returns (sys: System, oid: Hash, data: Bytes)
    ensures Lawful(sys.gear) && LawfulLz4(sys.env) && Overlarge(sys, oid, data)
  {
    hide Lawful, LawfulLz4, Pieces, IdentOnlyInPayload, VerifyMemory, XorbBytes, Zeros, Named;
    FourGiBOfZeros();
    sys := System(ZERO_ENV, BLIND_GEAR, Settings(true, Lz4, true, 0, U32));
    oid, data := ZERO_HASH, Zeros(U32);
  }

  // ----- a footer in which the ident recurs -----

  /** A chunk whose serialised hash starts with the ident puts the ident into the footer. */
  lemma HashShowsIdent(env: Env, scheme: Scheme, raws: seq<Bytes>)
    requires raws != [] && IDENT_HASHES <= env.DataHash(Serialized(env, scheme, raws[0]))
    ensures !IdentOnlyInPayload(env, scheme, raws)
  {
    hide Flatten, Root, LeavesOf, Serialized, FooterTail, Offset, Wrap32;
    var regions := SerializedAll(env, scheme, raws);
    var f, front := FooterFor(env, regions, raws), Flatten(regions);
    var h := env.DataHash(regions[0]);
    var rest := EncodeAll(HASH_CODEC, f.hashes[1..]) + FooterTail(f);
    assert f.hashes[0] == h;
    assert EncodeAll(HASH_CODEC, f.hashes) == h + EncodeAll(HASH_CODEC, f.hashes[1..]);
    Assoc(h, EncodeAll(HASH_CODEC, f.hashes[1..]), FooterTail(f));
    var head := front + (HASHES_HEAD + Le(|f.hashes|, 4));
    Regrouped(front, HASHES_HEAD, Le(|f.hashes|, 4), h, rest);
    assert IdentAt(head + (h + rest), |head|) by {
      assert (head + (h + rest))[|head|..|head| + 7] == h[..7];
    }
    assert XorbBytes(env, scheme, raws) == head + (h + rest);
  }

  lemma Regrouped(a: Bytes, b: Bytes, c: Bytes, d: Bytes, e: Bytes)
    ensures a + (b + (c + (d + e))) == (a + (b + c)) + (d + e)
  {
    Assoc(b, c, d + e);
    Assoc(a, b + c, d + e);
  }

  const IDENT_HASH: Hash := IDENT_HASHES + Zeros(25)

  /** So the condition on the ident is not met by every xorb within the limits. */
  lemma IdentMayRecur() returns (env: Env, raws: seq<Bytes>)
    ensures Fits(env, Plain, raws) && !IdentOnlyInPayload(env, Plain, raws)
    ensures VerifyFile(env, XorbBytes(env, Plain, raws)) != Ok(InfoFor(env, Plain, raws))
  {
    env := ZERO_ENV.(dataDigest := _ => IDENT_HASH);
    raws := [[0]];
    var regions := SerializedAll(env, Plain, raws);
    assert regions == [Serialized(env, Plain, [0])];
    assert Flatten(raws) == [0] + Flatten([]) && Flatten(regions) == regions[0] + Flatten([]);
    assert env.DataHash(regions[0]) == IDENT_HASH;
    HashShowsIdent(env, Plain, raws);
    hide VerifyFile, XorbBytes, InfoFor, IdentOnlyInPayload, SerializedAll, Serialized;
    BuiltXorbVerifies(env, Plain, raws);
  }
}
