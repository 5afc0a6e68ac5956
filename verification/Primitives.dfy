/** The library functions the system is built on, as uninterpreted parameters. */
module Primitives {
  import opened Bytes

  /**
   * Keyed BLAKE3 under the data key, under the internal-node key and under a hash as key,
   * SHA-256, and LZ4 with a prepended size.
   */
  datatype Env = Env(
    dataDigest: Bytes -> Hash,
    nodeDigest: Bytes -> Hash,
    keyedDigest: (Hash, Hash) -> Hash,
    shaDigest: Bytes -> Hash,
    lz4: Bytes -> Bytes,
    unLz4: Bytes -> Option<Bytes>)
  {
    function DataHash(b: Bytes): Hash { dataDigest(b) }

    function NodeHash(text: Bytes): Hash { nodeDigest(text) }

    function Hmac(key: Hash, message: Hash): Hash { keyedDigest(key, message) }

    function Sha256(b: Bytes): Hash { shaDigest(b) }

    function Lz4(b: Bytes): Bytes { lz4(b) }

    function UnLz4(b: Bytes): Option<Bytes> { unLz4(b) }
  }

  /** What is relied on about LZ4: it is undone, it announces the size, its growth is bounded. */
  ghost predicate LawfulLz4(env: Env) { forall b: Bytes :: LawfulFor(env, b) }

  ghost predicate LawfulFor(env: Env, b: Bytes) {
    && env.UnLz4(env.Lz4(b)) == Some(b)
    && 4 <= |env.Lz4(b)| <= |b| + |b| / 255 + 20 && env.Lz4(b)[..4] == Le(|b|, 4)
  }

  /** `f` has no collision among the strings of `s`. */
  ghost predicate CollisionFreeOn(f: Bytes -> Hash, s: set<Bytes>) {
    forall a, b | a in s && b in s :: f(a) == f(b) ==> a == b
  }

  function StoreSized(b: Bytes): Bytes { Le(|b|, 4) + b }

  function LoadSized(b: Bytes): Option<Bytes> { if |b| < 4 then None else Some(b[4..]) }

  /** The codec laws can be met: storing the bytes behind their size is one such codec. */
  lemma LawfulLz4Exists(env: Env)
    requires env.lz4 == StoreSized && env.unLz4 == LoadSized
    ensures LawfulLz4(env)
  {
    forall b: Bytes
      ensures LawfulFor(env, b)
    {
      SplitConcat(Le(|b|, 4), b);
      assert env.Lz4(b) == StoreSized(b) && env.UnLz4(StoreSized(b)) == LoadSized(StoreSized(b));
    }
  }
}
