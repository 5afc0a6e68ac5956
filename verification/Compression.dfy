/** Chunk compression: byte grouping by four, and the three compression schemes. */
module Compression {
  import opened Bytes
  import opened Primitives

  datatype Scheme = Plain | Lz4 | ByteGrouping4Lz4

  function SchemeByte(s: Scheme): byte {
    match s case Plain => 0 case Lz4 => 1 case ByteGrouping4Lz4 => 2
  }

  function SchemeOf(b: byte): Option<Scheme> {
    if b == 0 then Some(Plain) else if b == 1 then Some(Lz4) else if b == 2 then Some(ByteGrouping4Lz4) else None
  }

  // ----- byte grouping -----

  /** How many of `n` positions are congruent to `k` modulo 4. */
  function ColumnLen(n: nat, k: nat): nat
    requires k < 4
  {
    n / 4 + if n % 4 > k then 1 else 0
  }

  /** Where column `k` starts in the grouped form. */
  function ColumnStart(n: nat, k: nat): nat
    requires k <= 4
  {
    match k
    case 0 => 0
    case 1 => ColumnLen(n, 0)
    case 2 => ColumnLen(n, 0) + ColumnLen(n, 1)
    case 3 => ColumnLen(n, 0) + ColumnLen(n, 1) + ColumnLen(n, 2)
    case 4 => n
  }

  /** The columns fill the grouped form without gaps. */
  lemma ColumnsTile(n: nat, k: nat)
    requires k < 4
    ensures ColumnStart(n, k + 1) == ColumnStart(n, k) + ColumnLen(n, k)
    ensures ColumnStart(n, k + 1) <= n
  {
  }

  /** Where the byte at position `p` goes. */
  function Place(n: nat, p: nat): (q: nat)
    requires p < n
    ensures q < n
  {
    ColumnsTile(n, p % 4);
    ColumnStart(n, p % 4) + p / 4
  }

  /** The bytes at positions k, k + 4, k + 8, ... */
  function Column(data: Bytes, k: nat): (c: Bytes)
    requires k < 4
    ensures |c| == ColumnLen(|data|, k)
  {
    seq(ColumnLen(|data|, k), i requires 0 <= i < ColumnLen(|data|, k) => data[4 * i + k])
  }

  function Split(data: Bytes): (b: Bytes)
    ensures |b| == |data|
  {
    ColumnsTile(|data|, 3);
    Column(data, 0) + Column(data, 1) + Column(data, 2) + Column(data, 3)
  }

  function Regroup(grouped: Bytes, originalLen: nat): Result<Bytes> {
    if |grouped| != originalLen then Err
    else Ok(seq(originalLen, p requires 0 <= p < originalLen => grouped[Place(originalLen, p)]))
  }

  lemma SplitColumn(data: Bytes, k: nat)
    requires k < 4
    ensures ColumnStart(|data|, k) <= ColumnStart(|data|, k + 1) <= |data|
    ensures Split(data)[ColumnStart(|data|, k)..ColumnStart(|data|, k + 1)] == Column(data, k)
  {
    ColumnsTile(|data|, k);
  }

  /** Grouping moves byte `p` to its place. */
  lemma SplitAt(data: Bytes, p: nat)
    requires p < |data|
    ensures Split(data)[Place(|data|, p)] == data[p]
  {
    var k := p % 4;
    SplitColumn(data, k);
    assert Split(data)[ColumnStart(|data|, k)..ColumnStart(|data|, k + 1)][p / 4] == Column(data, k)[p / 4];
  }

  /** Grouping is undone by regrouping, for every length. */
  lemma RegroupSplit(data: Bytes)
    ensures Regroup(Split(data), |data|) == Ok(data)
  {
    var r := Regroup(Split(data), |data|).value;
    forall p | 0 <= p < |data|
      ensures r[p] == data[p]
    {
      SplitAt(data, p);
    }
    assert r == data;
  }

  lemma PlaceOfColumn(n: nat, k: nat, i: nat)
    requires k < 4 && i < ColumnLen(n, k)
    ensures 4 * i + k < n && Place(n, 4 * i + k) == ColumnStart(n, k) + i
  {
    assert (4 * i + k) % 4 == k && (4 * i + k) / 4 == i;
  }

  lemma ByteOfRegrouped(grouped: Bytes, k: nat, i: nat)
    requires k < 4 && i < ColumnLen(|grouped|, k)
    ensures var n := |grouped|;
            && Regroup(grouped, n).Ok? && |Regroup(grouped, n).value| == n && ColumnStart(n, k) + i < n
            && Column(Regroup(grouped, n).value, k)[i] == grouped[ColumnStart(n, k) + i]
  {
    PlaceOfColumn(|grouped|, k, i);
    hide ColumnLen, ColumnStart, Place;
  }

  lemma ColumnOfRegrouped(grouped: Bytes, k: nat)
    requires k < 4
    ensures var n := |grouped|;
            && ColumnStart(n, k) <= ColumnStart(n, k + 1) <= n
            && Column(Regroup(grouped, n).value, k) == grouped[ColumnStart(n, k)..ColumnStart(n, k + 1)]
  {
    var n := |grouped|;
    ColumnsTile(n, k);
    hide ColumnLen, ColumnStart, Column, Regroup, Place;
    var data, column := Regroup(grouped, n).value, grouped[ColumnStart(n, k)..ColumnStart(n, k + 1)];
    forall i | 0 <= i < ColumnLen(n, k)
      ensures Column(data, k)[i] == column[i]
    {
      ByteOfRegrouped(grouped, k, i);
    }
    assert |column| == ColumnLen(n, k) == |Column(data, k)| && Column(data, k) == column;
  }

  /** Regrouping is undone by grouping, so grouping is a bijection of the strings of each length. */
  lemma SplitRegroup(grouped: Bytes)
    ensures Regroup(grouped, |grouped|).Ok?
    ensures Split(Regroup(grouped, |grouped|).value) == grouped
  {
    hide Column, ColumnLen;
    var n := |grouped|;
    ColumnOfRegrouped(grouped, 0);
    ColumnOfRegrouped(grouped, 1);
    ColumnOfRegrouped(grouped, 2);
    ColumnOfRegrouped(grouped, 3);
    SliceJoin(grouped, 0, ColumnStart(n, 1), ColumnStart(n, 2));
    SliceJoin(grouped, 0, ColumnStart(n, 2), ColumnStart(n, 3));
    SliceJoin(grouped, 0, ColumnStart(n, 3), n);
    assert grouped[0..n] == grouped;
  }

  /** Where grouping puts position `p`: behind the shorter residues, at its quotient. */
  function GroupedPosition(n: nat, p: nat): nat {
    var r := p % 4;
    r * (n / 4) + (if r < n % 4 then r else n % 4) + p / 4
  }

  /** The bytes of `b`, grouped by their position modulo four. */
  ghost predicate IsGrouping(g: Bytes, b: Bytes) {
    |g| == |b| && forall p | 0 <= p < |b| :: GroupedPosition(|b|, p) < |b| && g[GroupedPosition(|b|, p)] == b[p]
  }

  lemma PlaceIsGroupedPosition(n: nat, p: nat)
    requires p < n
    ensures Place(n, p) == GroupedPosition(n, p) < n
  {
  }

  /** Splitting is that grouping, and so is what regrouping undoes. */
  lemma SplitIsGrouping(b: Bytes)
    ensures IsGrouping(Split(b), b)
  {
    hide Split, Place, GroupedPosition;
    forall p | 0 <= p < |b|
      ensures GroupedPosition(|b|, p) < |b| && Split(b)[GroupedPosition(|b|, p)] == b[p]
    {
      SplitAt(b, p);
      PlaceIsGroupedPosition(|b|, p);
    }
  }

  lemma RegroupIsUngrouping(g: Bytes, b: Bytes)
    ensures Regroup(g, |g|) == Ok(b) <==> IsGrouping(g, b)
  {
    forall p: nat | p < |g|
      ensures Place(|g|, p) == GroupedPosition(|g|, p) < |g|
    {
      PlaceIsGroupedPosition(|g|, p);
    }
    hide Place, GroupedPosition;
    if IsGrouping(g, b) {
      assert Regroup(g, |g|).value == b;
    }
  }

  /** One of the four loops of the grouping: append column `k`. */
  method AppendColumn(data: Bytes, k: nat, count: nat, result: Bytes) returns (out: Bytes)
    requires k < 4 && count == ColumnLen(|data|, k)
    ensures out == result + Column(data, k)
  {
    out := result;
    for i := 0 to count
      invariant out == result + Column(data, k)[..i]
    {
      var pos := i * 4 + k;
      if pos < |data| {
        out := out + [data[pos]];
      }
    }
  }

  method SplitBytes(data: Bytes) returns (result: Bytes)
    ensures result == Split(data)
  {
    var len := |data|;
    if len == 0 {
      return [];
    }
    var baseSize, remainder := len / 4, len % 4;
    result := AppendColumn(data, 0, baseSize + if remainder > 0 then 1 else 0, []);
    result := AppendColumn(data, 1, baseSize + if remainder > 1 then 1 else 0, result);
    result := AppendColumn(data, 2, baseSize + if remainder > 2 then 1 else 0, result);
    result := AppendColumn(data, 3, baseSize, result);
  }

  /** One of the four loops of the regrouping: scatter a column into the result, in place. */
  method ScatterColumn(result: array<byte>, data: Bytes, k: nat, count: nat, offset: nat) returns (next: nat)
    requires k < 4 && count == ColumnLen(result.Length, k) && offset == ColumnStart(result.Length, k)
    requires |data| == result.Length
    modifies result
    ensures next == offset + count
    ensures forall p | 0 <= p < result.Length ::
              result[p] == if p % 4 == k then data[Place(result.Length, p)] else old(result[p])
  {
    ColumnsTile(result.Length, k);
    next := offset;
    for i := 0 to count
      invariant next == offset + i
      invariant forall p | 0 <= p < result.Length ::
                  result[p] == if p % 4 == k && p / 4 < i then data[Place(result.Length, p)] else old(result[p])
    {
      var pos := i * 4 + k;
      if pos < result.Length {
        assert pos % 4 == k && pos / 4 == i;
        result[pos] := data[next];
        next := next + 1;
      }
    }
  }

  method RegroupBytes(data: Bytes, originalLen: nat) returns (r: Result<Bytes>)
    ensures r == Regroup(data, originalLen)
  {
    if originalLen == 0 {
      return if data != [] then Err else Ok([]);
    }
    var baseSize, remainder := originalLen / 4, originalLen % 4;
    var size0 := baseSize + if remainder > 0 then 1 else 0;
    var size1 := baseSize + if remainder > 1 then 1 else 0;
    var size2 := baseSize + if remainder > 2 then 1 else 0;
    var size3 := baseSize;
    if |data| != size0 + size1 + size2 + size3 {
      return Err;
    }
    var result := new byte[originalLen](_ => 0);
    var offset := ScatterColumn(result, data, 0, size0, 0);
    offset := ScatterColumn(result, data, 1, size1, offset);
    offset := ScatterColumn(result, data, 2, size2, offset);
    offset := ScatterColumn(result, data, 3, size3, offset);
    forall p | 0 <= p < originalLen
      ensures result[p] == data[Place(originalLen, p)]
    {
      assert p % 4 < 4;
    }
    r := Ok(result[..]);
    assert result[..] == Regroup(data, originalLen).value;
  }

  // ----- compression schemes -----

  const MAX_DECOMPRESSED_SIZE: nat := 16 * 1024 * 1024

  function Compress(env: Env, scheme: Scheme, data: Bytes): Bytes {
    match scheme
    case Plain => data
    case Lz4 => env.Lz4(data)
    case ByteGrouping4Lz4 => env.Lz4(Split(data))
  }

  /** The size announced by LZ4 is compared with the trusted one before anything is allocated. */
  predicate PrefixAccepted(data: Bytes, originalSize: nat) {
    originalSize <= MAX_DECOMPRESSED_SIZE && 4 <= |data| && UnLe(data[..4]) == originalSize
  }

  function Decompress(env: Env, scheme: Scheme, data: Bytes, originalSize: nat): Result<Bytes> {
    match scheme
    case Plain => if |data| != originalSize then Err else Ok(data)
    case Lz4 =>
      if !PrefixAccepted(data, originalSize) then Err else
      (match env.UnLz4(data)
       case None => Err
       case Some(out) => if |out| != originalSize then Err else Ok(out))
    case ByteGrouping4Lz4 =>
      if !PrefixAccepted(data, originalSize) then Err else
      (match env.UnLz4(data)
       case None => Err
       case Some(out) => Regroup(out, originalSize))
  }

  /** What each scheme stores. */
  lemma CompressedForms(env: Env, data: Bytes)
    ensures Compress(env, Plain, data) == data && Compress(env, Scheme.Lz4, data) == env.lz4(data)
    ensures exists g :: IsGrouping(g, data) && Compress(env, ByteGrouping4Lz4, data) == env.lz4(g)
  {
    SplitIsGrouping(data);
  }

  /** The announced size, at most 16 MiB, in the first four bytes. */
  ghost predicate Announces(data: Bytes, size: nat) {
    && 4 <= |data| && size <= 0x100_0000
    && data[0] as nat + 0x100 * (data[1] as nat) + 0x1_0000 * (data[2] as nat) + 0x100_0000 * (data[3] as nat) == size
  }

  /** Exactly what each scheme gives back. */
  lemma DecompressExact(env: Env, data: Bytes, size: nat, out: Bytes)
    ensures Decompress(env, Plain, data, size) == Ok(out) <==> data == out && |out| == size
    ensures Decompress(env, Scheme.Lz4, data, size) == Ok(out)
       <==> Announces(data, size) && env.unLz4(data) == Some(out) && |out| == size
    ensures Decompress(env, ByteGrouping4Lz4, data, size) == Ok(out)
       <==> Announces(data, size) && |out| == size && exists g :: env.unLz4(data) == Some(g) && IsGrouping(g, out)
  {
    hide Regroup, IsGrouping, UnLe;
    if 4 <= |data| {
      FourBytesRead(data[..4]);
      DecodedIsRead(data[..4]);
    }
    if env.UnLz4(data).Some? {
      RegroupIsUngrouping(env.UnLz4(data).value, out);
      RegroupSizes(env.UnLz4(data).value, size, out);
      GroupingSize(env.UnLz4(data).value, out);
    }
  }

  lemma DecodedIsRead(b: Bytes)
    requires |b| == 4
    ensures DecodeU32(b) == UnLe(b)
  {
  }

  lemma RegroupSizes(g: Bytes, size: nat, out: Bytes)
    ensures Regroup(g, size) == Ok(out) ==> |g| == size == |out|
  {
  }

  lemma GroupingSize(g: Bytes, b: Bytes)
    ensures IsGrouping(g, b) ==> |g| == |b|
  {
  }

  /** Decompression returns exactly the announced number of bytes. */
  lemma DecompressedSize(env: Env, scheme: Scheme, data: Bytes, originalSize: nat)
    requires Decompress(env, scheme, data, originalSize).Ok?
    ensures |Decompress(env, scheme, data, originalSize).value| == originalSize
  {
  }

  lemma Lz4Facts(env: Env, data: Bytes)
    requires LawfulLz4(env)
    ensures env.UnLz4(env.Lz4(data)) == Some(data)
    ensures PrefixAccepted(env.Lz4(data), |data|) <==> |data| <= MAX_DECOMPRESSED_SIZE
    ensures |env.Lz4(data)| <= |data| + |data| / 255 + 20
  {
    Widths();
    assert LawfulFor(env, data);
    if |data| < U32 {
      LeRoundTrip(|data|, 4);
    }
  }

  /** Decompression undoes compression exactly up to the decompression limit. */
  lemma DecompressUndoesCompress(env: Env, scheme: Scheme, data: Bytes)
    requires LawfulLz4(env)
    ensures Decompress(env, scheme, Compress(env, scheme, data), |data|) ==
            if scheme == Plain || |data| <= MAX_DECOMPRESSED_SIZE then Ok(data) else Err
  {
    match scheme
    case Plain =>
    case Lz4 =>
      Lz4Facts(env, data);
    case ByteGrouping4Lz4 =>
      Lz4Facts(env, Split(data));
      RegroupSplit(data);
  }

  /** The bound the reader places on a compressed chunk. */
  function MaxCompressedLen(scheme: Scheme, uncompressedLen: nat): nat {
    match scheme
    case Plain => uncompressedLen
    case Lz4 => uncompressedLen + uncompressedLen / 255 + 20
    case ByteGrouping4Lz4 => uncompressedLen + uncompressedLen / 255 + 20
  }

  lemma CompressedLenBounded(env: Env, scheme: Scheme, data: Bytes)
    requires LawfulLz4(env)
    ensures |Compress(env, scheme, data)| <= MaxCompressedLen(scheme, |data|)
  {
    Lz4Facts(env, data);
    Lz4Facts(env, Split(data));
  }
}
