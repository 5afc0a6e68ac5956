/** Byte strings, fixed-width little-endian integers and fixed-width record codecs. */
module Bytes {

  datatype Option<+T> = None | Some(value: T)

  /** An operation that may fail. The error texts of the program are not kept. */
  datatype Result<+T> = Err | Ok(value: T) {
    predicate IsFailure() { Err? }

    function PropagateFailure<U>(): Result<U>
      requires Err?
    {
      Err
    }

    function Extract(): T
      requires Ok?
    {
      value
    }
  }

  type byte = x: int | 0 <= x < 256
  type Bytes = seq<byte>

  const U24: nat := 0x100_0000
  const U32: nat := 0x1_0000_0000
  const U64: nat := 0x1_0000_0000_0000_0000

  type u32 = x: nat | x < U32
  type u64 = x: nat | x < U64

  /** A 256-bit hash, kept as its 32 bytes. */
  type Hash = b: Bytes | |b| == 32 witness Zeros(32)

  function Min(a: nat, b: nat): nat { if a < b then a else b }

  function Max(a: nat, b: nat): nat { if a < b then b else a }

  /** The value left in an unsigned 32-bit register. */
  function Wrap32(x: nat): u32 { x % U32 }

  lemma WrapExact(x: nat)
    requires x < U32
    ensures Wrap32(x) == x
  {
  }

  lemma WrapAdd(a: nat, b: nat)
    ensures Wrap32(Wrap32(a) + b) == Wrap32(a + b) && Wrap32(a + Wrap32(b)) == Wrap32(a + b)
  {
  }

  function Wrap64(x: nat): u64 { x % U64 }

  function Zeros(n: nat): (b: Bytes)
    ensures |b| == n
  {
    seq(n, _ => 0)
  }

  const ZERO_HASH: Hash := Zeros(32)

  // ----- concatenation and sums -----

  function Flatten<T>(parts: seq<seq<T>>): seq<T> {
    if parts == [] then [] else parts[0] + Flatten(parts[1..])
  }

  lemma Assoc<T>(a: seq<T>, b: seq<T>, c: seq<T>)
    ensures (a + b) + c == a + (b + c)
  {
  }

  /** Cutting a concatenation inside its first part. */
  lemma SliceAppend<T>(a: seq<T>, b: seq<T>, n: nat)
    requires n <= |a|
    ensures (a + b)[..n] == a[..n] && (a + b)[n..] == a[n..] + b
  {
  }

  lemma SliceJoin<T>(a: seq<T>, i: nat, j: nat, k: nat)
    requires i <= j <= k <= |a|
    ensures a[i..j] + a[j..k] == a[i..k]
  {
  }

  lemma SliceSlice<T>(a: seq<T>, i: nat, j: nat, k: nat, l: nat)
    requires i <= j <= |a| && k <= l <= j - i
    ensures a[i..j][k..l] == a[i + k..i + l]
  {
    var outer := a[i..j];
    forall n | 0 <= n < l - k
      ensures outer[k..l][n] == a[i + k..i + l][n]
    {
      assert outer[k..l][n] == outer[k + n];
    }
    assert |outer[k..l]| == |a[i + k..i + l]|;
  }

  lemma SplitConcat<T>(a: seq<T>, b: seq<T>)
    ensures (a + b)[..|a|] == a && (a + b)[|a|..] == b
  {
  }

  lemma {:induction false} FlattenAppend<T>(a: seq<seq<T>>, b: seq<seq<T>>)
    ensures Flatten(a + b) == Flatten(a) + Flatten(b)
  {
    if a == [] {
      assert a + b == b;
    } else {
      FlattenAppend(a[1..], b);
      assert (a + b)[1..] == a[1..] + b;
      Assoc(a[0], Flatten(a[1..]), Flatten(b));
    }
  }

  lemma FlattenSnoc<T>(a: seq<seq<T>>, x: seq<T>)
    ensures Flatten(a + [x]) == Flatten(a) + x
  {
    FlattenAppend(a, [x]);
    assert Flatten([x]) == x + Flatten([]) == x;
  }

  /** Where part `i` of a concatenation starts. */
  function Offset<T>(parts: seq<seq<T>>, i: nat): nat
    requires i <= |parts|
  {
    |Flatten(parts[..i])|
  }

  lemma OffsetStep<T>(parts: seq<seq<T>>, i: nat)
    requires i < |parts|
    ensures Offset(parts, 0) == 0
    ensures Offset(parts, i + 1) == Offset(parts, i) + |parts[i]|
    ensures Flatten(parts[..i + 1]) == Flatten(parts[..i]) + parts[i]
  {
    assert parts[..i + 1] == parts[..i] + [parts[i]];
    FlattenSnoc(parts[..i], parts[i]);
  }

  lemma OffsetEnd<T>(parts: seq<seq<T>>, i: nat)
    requires i <= |parts|
    ensures Offset(parts, i) <= |Flatten(parts)| == Offset(parts, |parts|)
    ensures Flatten(parts) == Flatten(parts[..i]) + Flatten(parts[i..])
  {
    assert parts[..|parts|] == parts == parts[..i] + parts[i..];
    FlattenAppend(parts[..i], parts[i..]);
  }

  lemma OffsetZero<T>(parts: seq<seq<T>>)
    ensures Offset(parts, 0) == 0
  {
  }

  lemma OffsetOfPrefix<T>(parts: seq<seq<T>>, more: seq<seq<T>>, i: nat)
    requires i <= |parts|
    ensures Offset(parts + more, i) == Offset(parts, i)
  {
    assert (parts + more)[..i] == parts[..i];
  }

  lemma OffsetCons<T>(x: seq<T>, parts: seq<seq<T>>, i: nat)
    requires i <= |parts|
    ensures Offset([x] + parts, i + 1) == |x| + Offset(parts, i)
  {
    assert ([x] + parts)[..i + 1] == [x] + parts[..i];
    assert ([x] + parts[..i])[1..] == parts[..i];
  }

  /** Every part is found at its offset, whatever follows the concatenation. */
  lemma PartAt<T>(parts: seq<seq<T>>, i: nat, tail: seq<T>)
    requires i < |parts|
    ensures Offset(parts, i) <= Offset(parts, i + 1) <= |Flatten(parts)|
    ensures (Flatten(parts) + tail)[Offset(parts, i)..Offset(parts, i + 1)] == parts[i]
  {
    OffsetStep(parts, i);
    OffsetEnd(parts, i + 1);
    var a, b, c := Flatten(parts[..i]), parts[i], Flatten(parts[i + 1..]) + tail;
    Assoc(a + b, Flatten(parts[i + 1..]), tail);
    assert ((a + b) + c)[|a|..|a + b|] == b;
  }

  function Sum(xs: seq<nat>): nat {
    if xs == [] then 0 else xs[0] + Sum(xs[1..])
  }

  lemma {:induction false} SumAppend(a: seq<nat>, b: seq<nat>)
    ensures Sum(a + b) == Sum(a) + Sum(b)
  {
    if a == [] {
      assert a + b == b;
    } else {
      SumAppend(a[1..], b);
      assert (a + b)[1..] == a[1..] + b;
    }
  }

  lemma SumSnoc(a: seq<nat>, x: nat)
    ensures Sum(a + [x]) == Sum(a) + x
  {
    SumAppend(a, [x]);
  }

  // ----- little-endian integers -----

  /** The low `n` bytes of `x`, least significant first. */
  function Le(x: nat, n: nat): (b: Bytes)
    ensures |b| == n
  {
    if n == 0 then [] else [x % 256] + Le(x / 256, n - 1)
  }

  function UnLe(b: Bytes): nat {
    if b == [] then 0 else b[0] + 256 * UnLe(b[1..])
  }

  function Pow256(n: nat): (p: nat)
    ensures p > 0
  {
    if n == 0 then 1 else 256 * Pow256(n - 1)
  }

  /** The bytes of a number, least significant first. */
  lemma FourBytes(x: u32)
    ensures Le(x, 4) == [x % 256, x / 0x100 % 256, x / 0x1_0000 % 256, x / 0x100_0000]
  {
    hide Le;
    LeStep(x, 3);
    ThreeBytes(x / 0x100);
    assert x / 0x100 / 0x100 == x / 0x1_0000 && x / 0x100 / 0x1_0000 == x / 0x100_0000;
  }

  lemma ThreeBytes(x: nat)
    ensures Le(x, 3) == [x % 256, x / 0x100 % 256, x / 0x1_0000 % 256]
  {
    hide Le;
    LeStep(x, 2);
    LeStep(x / 0x100, 1);
    LeStep(x / 0x100 / 0x100, 0);
    assert x / 0x100 / 0x100 == x / 0x1_0000;
  }

  lemma LeStep(x: nat, n: nat)
    ensures Le(x, n + 1) == [x % 256] + Le(x / 256, n)
  {
  }

  /** The number read from three bytes. */
  lemma ThreeBytesRead(b: Bytes)
    requires |b| == 3
    ensures UnLe(b) == b[0] as nat + 0x100 * (b[1] as nat) + 0x1_0000 * (b[2] as nat)
  {
    assert UnLe(b) == b[0] + 256 * UnLe(b[1..]);
    assert UnLe(b[1..]) == b[1] + 256 * UnLe(b[2..]) by { assert b[1..][1..] == b[2..]; }
    assert UnLe(b[2..]) == b[2] + 256 * UnLe(b[3..]) by { assert b[2..][1..] == b[3..]; }
  }

  /** The number read from four bytes. */
  lemma FourBytesRead(b: Bytes)
    requires |b| == 4
    ensures DecodeU32(b)
         == b[0] as nat + 0x100 * (b[1] as nat) + 0x1_0000 * (b[2] as nat) + 0x100_0000 * (b[3] as nat)
  {
    assert UnLe(b) == b[0] + 256 * UnLe(b[1..]);
    ThreeBytesRead(b[1..]);
  }

  lemma {:induction false} LeRoundTrip(x: nat, n: nat)
    requires x < Pow256(n)
    ensures UnLe(Le(x, n)) == x
  {
    if n > 0 {
      LeRoundTrip(x / 256, n - 1);
      assert Le(x, n)[1..] == Le(x / 256, n - 1);
    }
  }

  lemma {:induction false} UnLeRoundTrip(b: Bytes)
    ensures UnLe(b) < Pow256(|b|)
    ensures Le(UnLe(b), |b|) == b
  {
    hide Le;
    if b == [] {
      assert Le(0, 0) == b;
    } else {
      UnLeRoundTrip(b[1..]);
      var high := UnLe(b[1..]);
      assert (b[0] + 256 * high) % 256 == b[0] && (b[0] + 256 * high) / 256 == high;
      LeStep(b[0] + 256 * high, |b| - 1);
      assert b == [b[0]] + b[1..];
    }
  }

  lemma Widths()
    ensures Pow256(3) == U24 && Pow256(4) == U32 && Pow256(8) == U64
  {
    assert Pow256(4) == 256 * Pow256(3) == 256 * 256 * Pow256(2);
    assert Pow256(2) == 256 * Pow256(1) == 256 * 256 * Pow256(0);
    assert Pow256(8) == 256 * Pow256(7) == 256 * 256 * Pow256(6);
    assert Pow256(6) == 256 * Pow256(5) == 256 * 256 * Pow256(4);
  }

  // ----- fixed-width record codecs -----

  /** An encoding of `T` as byte strings of one width. */
  datatype Codec<!T> = Codec(width: nat, enc: T -> Bytes, dec: Bytes -> T)

  /** `enc` and `dec` are inverse bijections between `T` and the byte strings of the width. */
  ghost predicate Exact<T(!new)>(c: Codec<T>) {
    && c.width > 0
    && (forall t: T :: |c.enc(t)| == c.width && c.dec(c.enc(t)) == t)
    && (forall b: Bytes :: |b| == c.width ==> c.enc(c.dec(b)) == b)
  }

  function EncodeAll<T>(c: Codec<T>, xs: seq<T>): Bytes {
    if xs == [] then [] else c.enc(xs[0]) + EncodeAll(c, xs[1..])
  }

  /** Read `n` consecutive records: the records and the unread rest; a short input is an error. */
  function DecodeMany<T>(c: Codec<T>, b: Bytes, n: nat): (r: Result<(seq<T>, Bytes)>)
    ensures r.Ok? ==> |r.value.1| <= |b|
    decreases n
  {
    if n == 0 then Ok(([], b))
    else if |b| < c.width then Err
    else
      var (xs, rest) :- DecodeMany(c, b[c.width..], n - 1);
      Ok(([c.dec(b[..c.width])] + xs, rest))
  }

  /** Records are read back as written, whatever follows them. */
  lemma {:induction false} DecodeEncoded<T(!new)>(c: Codec<T>, xs: seq<T>, tail: Bytes)
    requires Exact(c)
    ensures DecodeMany(c, EncodeAll(c, xs) + tail, |xs|) == Ok((xs, tail))
  {
    if xs == [] {
      assert EncodeAll(c, xs) + tail == tail;
    } else {
      var rest := EncodeAll(c, xs[1..]);
      DecodeEncoded(c, xs[1..], tail);
      Assoc(c.enc(xs[0]), rest, tail);
      SplitConcat(c.enc(xs[0]), rest + tail);
      assert xs == [xs[0]] + xs[1..];
    }
  }

  /** Whatever was read is the encoding of the records, followed by the rest. */
  lemma {:induction false} DecodedIsEncoding<T(!new)>(c: Codec<T>, b: Bytes, n: nat)
    requires Exact(c)
    requires DecodeMany(c, b, n).Ok?
    ensures |DecodeMany(c, b, n).value.0| == n
    ensures b == EncodeAll(c, DecodeMany(c, b, n).value.0) + DecodeMany(c, b, n).value.1
    decreases n
  {
    if n > 0 {
      var w := c.width;
      DecodedIsEncoding(c, b[w..], n - 1);
      var (xs, rest) := DecodeMany(c, b[w..], n - 1).value;
      var all := [c.dec(b[..w])] + xs;
      assert all[1..] == xs;
      assert EncodeAll(c, all) == b[..w] + EncodeAll(c, xs);
      Assoc(b[..w], EncodeAll(c, xs), rest);
      assert b == b[..w] + b[w..];
    }
  }

  /** A read succeeds exactly when enough bytes are there. */
  lemma {:induction false} DecodeManyDefined<T(!new)>(c: Codec<T>, b: Bytes, n: nat)
    requires c.width > 0
    ensures DecodeMany(c, b, n).Ok? <==> c.width * n <= |b|
    decreases n
  {
    if n > 0 {
      assert c.width * n == c.width + c.width * (n - 1);
      if |b| >= c.width {
        DecodeManyDefined(c, b[c.width..], n - 1);
      } else {
        MulNonNegative(c.width, n - 1);
      }
    }
  }

  lemma MulSucc(a: nat, b: nat)
    ensures a * (b + 1) == a + a * b
  {
  }

  lemma MulNonNegative(a: nat, b: nat)
    ensures a * b >= 0
  {
  }

  lemma {:induction false} EncodeAllLength<T(!new)>(c: Codec<T>, xs: seq<T>)
    requires Exact(c)
    ensures |EncodeAll(c, xs)| == c.width * |xs|
  {
    if xs != [] {
      EncodeAllLength(c, xs[1..]);
      assert c.width * |xs| == c.width + c.width * |xs[1..]|;
    }
  }

  lemma {:induction false} EncodeAllAppend<T>(c: Codec<T>, a: seq<T>, b: seq<T>)
    ensures EncodeAll(c, a + b) == EncodeAll(c, a) + EncodeAll(c, b)
  {
    if a == [] {
      assert a + b == b;
    } else {
      EncodeAllAppend(c, a[1..], b);
      assert (a + b)[1..] == a[1..] + b;
      Assoc(c.enc(a[0]), EncodeAll(c, a[1..]), EncodeAll(c, b));
    }
  }

  lemma RecordWidth<T(!new)>(c: Codec<T>, x: T)
    requires Exact(c)
    ensures |c.enc(x)| == c.width
  {
  }

  lemma EncodeAllCons<T>(c: Codec<T>, x: T, xs: seq<T>)
    ensures EncodeAll(c, [x] + xs) == c.enc(x) + EncodeAll(c, xs)
  {
    assert ([x] + xs)[1..] == xs;
  }

  /** Record `i` of a table is found at `i` times the width. */
  lemma EncodedAt<T(!new)>(c: Codec<T>, xs: seq<T>, i: nat)
    requires Exact(c) && i < |xs|
    ensures c.width * i + c.width <= |EncodeAll(c, xs)|
    ensures EncodeAll(c, xs)[c.width * i..c.width * i + c.width] == c.enc(xs[i])
  {
    hide EncodeAll, Exact;
    assert |c.enc(xs[i])| == c.width by { RecordWidth(c, xs[i]); }
    EncodeAllCons(c, xs[i], xs[i + 1..]);
    var front, x, back := xs[..i], xs[i], xs[i + 1..];
    assert xs == front + ([x] + back);
    EncodeAllAppend(c, front, [x] + back);
    EncodeAllLength(c, front);
    SplitConcat(EncodeAll(c, front), c.enc(x) + EncodeAll(c, back));
    assert EncodeAll(c, xs)[c.width * i..] == c.enc(x) + EncodeAll(c, back);
    assert EncodeAll(c, xs)[c.width * i..][..c.width] == c.enc(x);
  }

  /** An entry of a table that lies at `at`. */
  lemma TableEntry<T(!new)>(c: Codec<T>, xs: seq<T>, b: Bytes, at: nat, i: nat)
    requires Exact(c) && i < |xs|
    requires at + |EncodeAll(c, xs)| <= |b| && b[at..at + |EncodeAll(c, xs)|] == EncodeAll(c, xs)
    ensures at + c.width * i + c.width <= |b|
    ensures b[at + c.width * i..at + c.width * i + c.width] == c.enc(xs[i])
  {
    hide EncodeAll, Exact;
    EncodedAt(c, xs, i);
    InnerSlice(b, at, EncodeAll(c, xs), c.width * i, c.width);
  }

  lemma InnerSlice(b: Bytes, at: nat, t: Bytes, k: nat, w: nat)
    requires at + |t| <= |b| && b[at..at + |t|] == t && k + w <= |t|
    ensures b[at + k..at + k + w] == t[k..k + w]
  {
    SliceSlice(b, at, at + |t|, k, k + w);
  }

  lemma EncodeAllSnoc<T>(c: Codec<T>, a: seq<T>, x: T)
    ensures EncodeAll(c, a + [x]) == EncodeAll(c, a) + c.enc(x)
  {
    EncodeAllAppend(c, a, [x]);
    assert EncodeAll(c, [x]) == c.enc(x) + EncodeAll(c, []);
  }

  /** The loop that reads `n` records one after the other. */
  method ReadMany<T>(c: Codec<T>, b: Bytes, n: nat) returns (r: Result<(seq<T>, Bytes)>)
    ensures r == DecodeMany(c, b, n)
  {
    var xs, rest := [], b;
    AfterNothing(DecodeMany(c, b, n));
    for i := 0 to n
      invariant DecodeMany(c, b, n) == After(xs, DecodeMany(c, rest, n - i))
    {
      if |rest| < c.width {
        return Err;
      }
      AfterStep(xs, c.dec(rest[..c.width]), DecodeMany(c, rest[c.width..], n - i - 1));
      xs := xs + [c.dec(rest[..c.width])];
      rest := rest[c.width..];
    }
    assert xs + [] == xs;
    r := Ok((xs, rest));
  }

  /** A read that had already produced `xs`. */
  function After<T>(xs: seq<T>, r: Result<(seq<T>, Bytes)>): Result<(seq<T>, Bytes)> {
    match r case Err => Err case Ok((ys, rest)) => Ok((xs + ys, rest))
  }

  lemma AfterNothing<T>(r: Result<(seq<T>, Bytes)>)
    ensures After([], r) == r
  {
    if r.Ok? {
      assert [] + r.value.0 == r.value.0;
    }
  }

  lemma AfterStep<T>(xs: seq<T>, x: T, r: Result<(seq<T>, Bytes)>)
    ensures r.Ok? ==> After(xs, Ok(([x] + r.value.0, r.value.1))) == After(xs + [x], r)
    ensures r.Err? ==> After(xs + [x], r) == Err
  {
    if r.Ok? {
      Assoc(xs, [x], r.value.0);
    }
  }

  // ----- fixed byte strings in a format -----

  /** Skip an expected byte string. */
  function Expect(b: Bytes, literal: Bytes): Result<Bytes> {
    if literal <= b then Ok(b[|literal|..]) else Err
  }

  lemma ExpectExact(b: Bytes, literal: Bytes, rest: Bytes)
    ensures Expect(b, literal) == Ok(rest) <==> b == literal + rest
  {
    if b == literal + rest {
      SplitConcat(literal, rest);
    } else if literal <= b {
      assert b == literal + b[|literal|..];
    }
  }

  function EncodeHash(h: Hash): Bytes { h }

  function DecodeHash(b: Bytes): Hash { if |b| == 32 then b else ZERO_HASH }

  const HASH_CODEC: Codec<Hash> := Codec(32, EncodeHash, DecodeHash)

  function DecodeU32(b: Bytes): u32 {
    if |b| == 4 then UnLeRoundTrip(b); Widths(); UnLe(b) else 0
  }

  function DecodeU64(b: Bytes): u64 {
    if |b| == 8 then UnLeRoundTrip(b); Widths(); UnLe(b) else 0
  }

  const U32_CODEC: Codec<u32> := Codec(4, (x: u32) => Le(x, 4), DecodeU32)

  const U64_CODEC: Codec<u64> := Codec(8, (x: u64) => Le(x, 8), DecodeU64)

  lemma HashCodecExact()
    ensures Exact(HASH_CODEC)
  {
  }

  lemma U32CodecExact()
    ensures Exact(U32_CODEC)
  {
    Widths();
    forall t: u32
      ensures |U32_CODEC.enc(t)| == 4 && U32_CODEC.dec(U32_CODEC.enc(t)) == t
    {
      LeRoundTrip(t, 4);
    }
    forall b: Bytes | |b| == 4
      ensures U32_CODEC.enc(U32_CODEC.dec(b)) == b
    {
      UnLeRoundTrip(b);
    }
  }

  lemma U64CodecExact()
    ensures Exact(U64_CODEC)
  {
    Widths();
    forall t: u64
      ensures |U64_CODEC.enc(t)| == 8 && U64_CODEC.dec(U64_CODEC.enc(t)) == t
    {
      LeRoundTrip(t, 8);
    }
    forall b: Bytes | |b| == 8
      ensures U64_CODEC.enc(U64_CODEC.dec(b)) == b
    {
      UnLeRoundTrip(b);
    }
  }
}
