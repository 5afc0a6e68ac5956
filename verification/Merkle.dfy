/** Merkle aggregation with variable fan-out. */
module Merkle {
  import opened Bytes
  import opened Primitives
  import opened NodeText

  const MEAN_BRANCHING_FACTOR: nat := 4
  const MIN_GROUP_SIZE: nat := 2
  const MAX_GROUP_SIZE: nat := 2 * MEAN_BRANCHING_FACTOR + 1

  /** The low 64 bits modulo 4 are the low byte modulo 4. */
  predicate IsNaturalCut(h: Hash) { h[0] % MEAN_BRANCHING_FACTOR == 0 }

  /** The first natural cut at or after `i`, or the end of the window. */
  function CutFrom(nodes: seq<Node>, i: nat, end: nat): (cut: nat)
    requires i <= end <= |nodes|
    ensures i <= cut <= end
    ensures i < end ==> i < cut
    ensures forall j | i <= j < cut - 1 :: !IsNaturalCut(nodes[j].hash)
    ensures cut < end ==> IsNaturalCut(nodes[cut - 1].hash)
    decreases end - i
  {
    if i == end then end
    else if IsNaturalCut(nodes[i].hash) then i + 1
    else CutFrom(nodes, i + 1, end)
  }

  /** The size of the next group: at least three nodes unless fewer remain, at most nine. */
  function NextCut(nodes: seq<Node>): (cut: nat)
    ensures cut <= |nodes| && cut <= MAX_GROUP_SIZE
    ensures nodes != [] ==> 0 < cut
    ensures |nodes| > MIN_GROUP_SIZE ==> MIN_GROUP_SIZE < cut
  {
    if |nodes| <= MIN_GROUP_SIZE then |nodes|
    else CutFrom(nodes, MIN_GROUP_SIZE, Min(MAX_GROUP_SIZE, |nodes|))
  }

  function TotalSize(nodes: seq<Node>): nat {
    if nodes == [] then 0 else nodes[0].size + TotalSize(nodes[1..])
  }

  function Merge(env: Env, group: seq<Node>): Node {
    Node(env.NodeHash(GroupText(group)), TotalSize(group))
  }

  /** One level up. Every level but a single node strictly shrinks, to at most a third rounded up. */
  function Level(env: Env, nodes: seq<Node>): (up: seq<Node>)
    ensures |up| <= (|nodes| + 2) / 3
    ensures nodes != [] ==> up != []
  {
    if nodes == [] then []
    else
      var cut := NextCut(nodes);
      [Merge(env, nodes[..cut])] + Level(env, nodes[cut..])
  }

  function Root(env: Env, nodes: seq<Node>): Hash
    decreases |nodes|
  {
    if nodes == [] then ZERO_HASH
    else if |nodes| == 1 then nodes[0].hash
    else Root(env, Level(env, nodes))
  }

  function FileHash(env: Env, nodes: seq<Node>): Hash {
    if nodes == [] then ZERO_HASH else env.Hmac(ZERO_HASH, Root(env, nodes))
  }

  // ----- the groups of a level -----

  function Groups(nodes: seq<Node>): seq<seq<Node>> {
    if nodes == [] then [] else [nodes[..NextCut(nodes)]] + Groups(nodes[NextCut(nodes)..])
  }

  /** The groups partition the level in order, and there is one merged node for each. */
  lemma {:induction false} LevelMergesGroups(env: Env, nodes: seq<Node>)
    ensures Flatten(Groups(nodes)) == nodes
    ensures |Level(env, nodes)| == |Groups(nodes)|
    ensures forall i | 0 <= i < |Groups(nodes)| :: Level(env, nodes)[i] == Merge(env, Groups(nodes)[i])
  {
    if nodes != [] {
      var cut := NextCut(nodes);
      LevelMergesGroups(env, nodes[cut..]);
      assert nodes == nodes[..cut] + nodes[cut..];
    }
  }

  lemma {:induction false} TotalSizeAppend(a: seq<Node>, b: seq<Node>)
    ensures TotalSize(a + b) == TotalSize(a) + TotalSize(b)
  {
    if a == [] {
      assert a + b == b;
    } else {
      TotalSizeAppend(a[1..], b);
      assert (a + b)[1..] == a[1..] + b;
    }
  }

  /** Sizes are conserved from a level to the next. */
  lemma {:induction false} LevelConservesSize(env: Env, nodes: seq<Node>)
    ensures TotalSize(Level(env, nodes)) == TotalSize(nodes)
  {
    if nodes != [] {
      var cut := NextCut(nodes);
      LevelConservesSize(env, nodes[cut..]);
      TotalSizeAppend(nodes[..cut], nodes[cut..]);
      assert nodes == nodes[..cut] + nodes[cut..];
      assert Level(env, nodes)[1..] == Level(env, nodes[cut..]);
    }
  }

  /** A natural cut: the first 64 bits, least significant byte first, are a multiple of four. */
  ghost predicate Natural(h: Hash) { UnLe(h[..8]) % 4 == 0 }

  lemma NaturalIsLowByte(h: Hash)
    ensures Natural(h) <==> IsNaturalCut(h)
  {
    assert UnLe(h[..8]) == h[0] as nat + 256 * UnLe(h[..8][1..]);
  }

  /**
   * How many of the remaining nodes form the next group: all if there are at most two; else up to and including the
   * first natural one from the third on, and nine at most.
   */
  ghost predicate CutNaturally(rest: seq<Node>, n: nat) {
    if |rest| <= 2 then n == |rest|
    else
      var end := if |rest| < 9 then |rest| else 9;
      && 2 < n <= end
      && (forall j | 2 <= j < n - 1 :: !Natural(rest[j].hash))
      && (n < end ==> Natural(rest[n - 1].hash))
  }

  lemma NextCutNaturally(nodes: seq<Node>)
    ensures CutNaturally(nodes, NextCut(nodes))
  {
    hide Natural, IsNaturalCut;
    forall h: Hash
      ensures Natural(h) <==> IsNaturalCut(h)
    {
      NaturalIsLowByte(h);
    }
  }

  lemma SliceBehind(nodes: seq<Node>, cut: nat, start: nat, n: nat)
    requires cut + start + n <= |nodes|
    ensures nodes[cut..][start..] == nodes[cut + start..]
    ensures nodes[cut..][start..start + n] == nodes[cut + start..cut + start + n]
  {
    SliceSlice(nodes, cut, |nodes|, start, start + n);
    assert nodes[cut..|nodes|] == nodes[cut..];
  }

  /** Every group is cut naturally from the nodes that remain. */
  lemma {:induction false} GroupsCutNaturally(nodes: seq<Node>, i: nat)
    requires i < |Groups(nodes)|
    ensures var start, group := Offset(Groups(nodes), i), Groups(nodes)[i];
            && start + |group| <= |nodes| && group == nodes[start..start + |group|]
            && CutNaturally(nodes[start..], |group|)
  {
    hide CutNaturally, NextCut, Offset;
    var cut := NextCut(nodes);
    var rest := Groups(nodes[cut..]);
    if i == 0 {
      OffsetZero(Groups(nodes));
      NextCutNaturally(nodes);
      assert nodes[0..] == nodes;
    } else {
      GroupsCutNaturally(nodes[cut..], i - 1);
      OffsetCons(nodes[..cut], rest, i - 1);
      SliceBehind(nodes, cut, Offset(rest, i - 1), |rest[i - 1]|);
    }
  }

  /** Node `i` of the level above hashes a group that is cut naturally, and carries its total size. */
  lemma LevelCutNaturally(env: Env, nodes: seq<Node>, i: nat)
    requires i < |Level(env, nodes)|
    ensures exists start: nat, n: nat ::
              && start + n <= |nodes| && CutNaturally(nodes[start..], n)
              && Level(env, nodes)[i]
                 == Node(env.nodeDigest(GroupText(nodes[start..start + n])), TotalSize(nodes[start..start + n]))
  {
    hide CutNaturally, NextCut, Offset, GroupText, TotalSize, Level, Groups;
    LevelMergesGroups(env, nodes);
    GroupsCutNaturally(nodes, i);
    var start: nat, n: nat := Offset(Groups(nodes), i), |Groups(nodes)[i]|;
    assert CutNaturally(nodes[start..], n);
  }

  // ----- binding: equal roots come from equal leaves -----

  function Hashes(nodes: seq<Node>): (hs: seq<Hash>)
    ensures |hs| == |nodes|
  {
    seq(|nodes|, i requires 0 <= i < |nodes| => nodes[i].hash)
  }

  /** The texts hashed to go up one level. */
  function LevelTexts(nodes: seq<Node>): set<Bytes> {
    if nodes == [] then {} else {GroupText(nodes[..NextCut(nodes)])} + LevelTexts(nodes[NextCut(nodes)..])
  }

  /** The texts hashed while a root is computed. */
  function AllTexts(env: Env, nodes: seq<Node>): set<Bytes>
    decreases |nodes|
  {
    if |nodes| <= 1 then {} else LevelTexts(nodes) + AllTexts(env, Level(env, nodes))
  }

  /** A level determines the level below it. */
  lemma {:induction false} LevelInjective(env: Env, a: seq<Node>, b: seq<Node>, texts: set<Bytes>)
    requires LevelTexts(a) <= texts && LevelTexts(b) <= texts && CollisionFreeOn(env.nodeDigest, texts)
    requires Hashes(Level(env, a)) == Hashes(Level(env, b))
    ensures a == b
  {
    hide GroupText, Hashes;
    HashesLength(Level(env, a), Level(env, b));
    if a != [] && b != [] {
      var i, j := NextCut(a), NextCut(b);
      HashesTail(Level(env, a), Level(env, b));
      GroupTextInjective(a[..i], b[..j]);
      LevelInjective(env, a[i..], b[j..], texts);
      assert a == a[..i] + a[i..] && b == b[..j] + b[j..];
    }
  }

  lemma HashesLength(a: seq<Node>, b: seq<Node>)
    requires Hashes(a) == Hashes(b)
    ensures |a| == |b|
  {
    assert |Hashes(a)| == |Hashes(b)|;
  }

  lemma HashesTail(a: seq<Node>, b: seq<Node>)
    requires Hashes(a) == Hashes(b) && a != [] && b != []
    ensures a[0].hash == b[0].hash
    ensures Hashes(a[1..]) == Hashes(b[1..])
  {
    assert a[0].hash == Hashes(a)[0] && b[0].hash == Hashes(b)[0];
    assert Hashes(a[1..]) == Hashes(a)[1..] && Hashes(b[1..]) == Hashes(b)[1..];
  }

  function Depth(env: Env, nodes: seq<Node>): nat
    decreases |nodes|
  {
    if |nodes| <= 1 then 0 else 1 + Depth(env, Level(env, nodes))
  }

  function Up(env: Env, nodes: seq<Node>, k: nat): seq<Node>
    decreases k
  {
    if k == 0 then nodes else Up(env, Level(env, nodes), k - 1)
  }

  lemma {:induction false} UpStep(env: Env, nodes: seq<Node>, k: nat)
    ensures Up(env, nodes, k + 1) == Level(env, Up(env, nodes, k))
    decreases k
  {
    hide Level;
    if k > 0 {
      UpStep(env, Level(env, nodes), k - 1);
    }
  }

  /** Below the top every level has more than one node. */
  lemma {:induction false} LevelsAboveLeaves(env: Env, nodes: seq<Node>, k: nat)
    requires k < Depth(env, nodes)
    ensures |Up(env, nodes, k)| > 1
    decreases k
  {
    if k > 0 {
      LevelsAboveLeaves(env, Level(env, nodes), k - 1);
    }
  }

  /** The file hash is the hash of the top node, keyed with zero; no chunks give the zero hash. */
  lemma FileHashIsKeyedTop(env: Env, nodes: seq<Node>)
    ensures nodes == [] ==> FileHash(env, nodes) == ZERO_HASH
    ensures nodes != [] ==>
              && |Up(env, nodes, Depth(env, nodes))| == 1
              && FileHash(env, nodes) == env.keyedDigest(ZERO_HASH, Up(env, nodes, Depth(env, nodes))[0].hash)
  {
    hide Up, Depth, Root;
    if nodes != [] {
      RootIsTop(env, nodes);
    }
  }

  /** Sizes are conserved over any number of levels. */
  lemma {:induction false} UpConservesSize(env: Env, nodes: seq<Node>, k: nat)
    ensures TotalSize(Up(env, nodes, k)) == TotalSize(nodes)
    decreases k
  {
    hide Level, TotalSize;
    if k > 0 {
      LevelConservesSize(env, nodes);
      UpConservesSize(env, Level(env, nodes), k - 1);
    }
  }

  /** The single node at the top has the total size of the leaves. */
  lemma RootConservesSize(env: Env, nodes: seq<Node>)
    requires nodes != []
    ensures |Up(env, nodes, Depth(env, nodes))| == 1
    ensures Up(env, nodes, Depth(env, nodes))[0].size == TotalSize(nodes)
  {
    hide Up, Depth, Root;
    RootIsTop(env, nodes);
    UpConservesSize(env, nodes, Depth(env, nodes));
    OneNodeSize(Up(env, nodes, Depth(env, nodes)));
  }

  lemma OneNodeSize(nodes: seq<Node>)
    requires |nodes| == 1
    ensures TotalSize(nodes) == nodes[0].size
  {
    assert TotalSize(nodes[1..]) == 0;
  }

  /** Below the root, the texts of a level are among those hashed for the root. */
  lemma {:induction false} UpTexts(env: Env, nodes: seq<Node>, k: nat)
    requires k < Depth(env, nodes)
    ensures LevelTexts(Up(env, nodes, k)) <= AllTexts(env, nodes)
    decreases k
  {
    if k > 0 {
      UpTexts(env, Level(env, nodes), k - 1);
    }
  }

  lemma {:induction false} RootIsTop(env: Env, nodes: seq<Node>)
    requires nodes != []
    ensures |Up(env, nodes, Depth(env, nodes))| == 1
    ensures Root(env, nodes) == Up(env, nodes, Depth(env, nodes))[0].hash
    decreases |nodes|
  {
    hide Level;
    if |nodes| > 1 {
      RootIsTop(env, Level(env, nodes));
    }
  }

  /** Every node above the leaves is the hash of a text hashed for the root. */
  lemma InnerNodeIsHashed(env: Env, nodes: seq<Node>, k: nat)
    requires 0 < k <= Depth(env, nodes) && Up(env, nodes, k - 1) != []
    ensures Up(env, nodes, k) != []
    ensures exists t :: t in AllTexts(env, nodes) && Up(env, nodes, k)[0].hash == env.NodeHash(t)
  {
    var below := Up(env, nodes, k - 1);
    UpStep(env, nodes, k - 1);
    UpTexts(env, nodes, k - 1);
    assert GroupText(below[..NextCut(below)]) in LevelTexts(below);
  }

  lemma {:induction false} UpNonEmpty(env: Env, nodes: seq<Node>, k: nat)
    requires nodes != []
    ensures Up(env, nodes, k) != []
    decreases k
  {
    if k > 0 {
      UpNonEmpty(env, Level(env, nodes), k - 1);
    }
  }

  /** Going down in step from two levels with the same hashes. */
  lemma {:induction false} Descend(env: Env, xs: seq<Node>, k: nat, ys: seq<Node>, m: nat, texts: set<Bytes>)
    requires k <= Depth(env, xs) && k <= m <= Depth(env, ys)
    requires AllTexts(env, xs) <= texts && AllTexts(env, ys) <= texts && CollisionFreeOn(env.nodeDigest, texts)
    requires Hashes(Up(env, xs, k)) == Hashes(Up(env, ys, m))
    ensures Hashes(xs) == Hashes(Up(env, ys, m - k))
    ensures k > 0 ==> xs == Up(env, ys, m - k)
    decreases k
  {
    hide Level, LevelTexts, Hashes;
    if k > 0 {
      Descend(env, Level(env, xs), k - 1, ys, m, texts);
      UpStep(env, ys, m - k);
      UpTexts(env, ys, m - k);
      LevelInjective(env, xs, Up(env, ys, m - k), texts);
    }
  }

  /** Node hashes collide neither with one another nor with a leaf hash nor with the zero hash. */
  ghost predicate Separated(env: Env, xs: seq<Node>, ys: seq<Node>) {
    var texts := AllTexts(env, xs) + AllTexts(env, ys);
    && CollisionFreeOn(env.nodeDigest, texts)
    && (forall t | t in texts :: env.NodeHash(t) != ZERO_HASH)
    && (forall t, n | t in texts && n in xs + ys :: env.NodeHash(t) != n.hash)
    && (forall n | n in xs + ys :: n.hash != ZERO_HASH)
  }

  /** A leaf hash determines the size of the leaf. */
  ghost predicate SizesBound(xs: seq<Node>, ys: seq<Node>) {
    forall a, b | a in xs + ys && b in xs + ys :: a.hash == b.hash ==> a.size == b.size
  }

  lemma RootNonZero(env: Env, xs: seq<Node>, ys: seq<Node>)
    requires Separated(env, xs, ys) && ys != []
    ensures Root(env, ys) != ZERO_HASH
  {
    hide Up, AllTexts, Depth, Root;
    var d := Depth(env, ys);
    RootIsTop(env, ys);
    if d > 0 {
      UpNonEmpty(env, ys, d - 1);
      InnerNodeIsHashed(env, ys, d);
    } else {
      UpZero(env, ys);
      assert ys[0] in xs + ys;
    }
  }

  /** A level above the leaves of one tree never shows the leaf hashes of the other. */
  lemma InnerLevelIsNoLeafList(env: Env, xs: seq<Node>, ys: seq<Node>, k: nat)
    requires Separated(env, xs, ys) && xs != [] && ys != [] && 0 < k <= Depth(env, ys)
    ensures Hashes(xs) != Hashes(Up(env, ys, k))
  {
    hide Up, AllTexts, Depth;
    UpNonEmpty(env, ys, k - 1);
    InnerNodeIsHashed(env, ys, k);
    assert xs[0] in xs + ys;
    assert Hashes(xs)[0] == xs[0].hash && Hashes(Up(env, ys, k))[0] == Up(env, ys, k)[0].hash;
  }

  lemma TopHashes(env: Env, nodes: seq<Node>)
    requires nodes != []
    ensures Hashes(Up(env, nodes, Depth(env, nodes))) == [Root(env, nodes)]
  {
    RootIsTop(env, nodes);
  }

  lemma SameDepth(env: Env, xs: seq<Node>, ys: seq<Node>)
    requires Separated(env, xs, ys) && xs != [] && ys != []
    requires Root(env, xs) == Root(env, ys) && Depth(env, xs) <= Depth(env, ys)
    ensures Hashes(xs) == Hashes(ys)
    ensures Depth(env, xs) > 0 ==> xs == ys
  {
    hide Up, AllTexts, Depth, Root, Hashes, Separated, CollisionFreeOn;
    var k, m := Depth(env, xs), Depth(env, ys);
    SeparatedTexts(env, xs, ys);
    TopHashes(env, xs);
    TopHashes(env, ys);
    Descend(env, xs, k, ys, m, AllTexts(env, xs) + AllTexts(env, ys));
    if m > k {
      InnerLevelIsNoLeafList(env, xs, ys, m - k);
    } else {
      UpZero(env, ys);
    }
  }

  lemma SeparatedTexts(env: Env, xs: seq<Node>, ys: seq<Node>)
    requires Separated(env, xs, ys)
    ensures CollisionFreeOn(env.nodeDigest, AllTexts(env, xs) + AllTexts(env, ys))
  {
  }

  lemma UpZero(env: Env, nodes: seq<Node>)
    ensures Up(env, nodes, 0) == nodes
  {
  }

  lemma SeparatedSwap(env: Env, xs: seq<Node>, ys: seq<Node>)
    requires Separated(env, xs, ys)
    ensures Separated(env, ys, xs)
  {
    assert AllTexts(env, xs) + AllTexts(env, ys) == AllTexts(env, ys) + AllTexts(env, xs);
    assert forall n :: n in ys + xs ==> n in xs + ys;
  }

  /** The root binds the whole leaf list: hashes, sizes and order. */
  lemma RootBinds(env: Env, xs: seq<Node>, ys: seq<Node>)
    requires Separated(env, xs, ys) && SizesBound(xs, ys)
    requires Root(env, xs) == Root(env, ys)
    ensures xs == ys
  {
    SeparatedSwap(env, xs, ys);
    if xs == [] || ys == [] {
      if ys != [] {
        RootNonZero(env, xs, ys);
      } else if xs != [] {
        RootNonZero(env, ys, xs);
      }
    } else {
      if Depth(env, xs) <= Depth(env, ys) {
        SameDepth(env, xs, ys);
      } else {
        SameDepth(env, ys, xs);
      }
      SameHashesSameNodes(xs, ys);
    }
  }

  lemma SameHashesSameNodes(xs: seq<Node>, ys: seq<Node>)
    requires Hashes(xs) == Hashes(ys) && SizesBound(xs, ys)
    ensures xs == ys
  {
    assert |xs| == |Hashes(xs)| == |ys|;
    forall i | 0 <= i < |xs|
      ensures xs[i] == ys[i]
    {
      assert Hashes(xs)[i] == Hashes(ys)[i];
      assert xs[i] in xs + ys && ys[i] in xs + ys;
    }
  }

  // ----- the loops -----

  method NextMergeCut(nodes: seq<Node>) returns (cut: nat)
    ensures cut == NextCut(nodes)
  {
    if |nodes| <= MIN_GROUP_SIZE {
      return |nodes|;
    }
    var end := Min(MAX_GROUP_SIZE, |nodes|);
    for i := MIN_GROUP_SIZE to end
      invariant CutFrom(nodes, i, end) == CutFrom(nodes, MIN_GROUP_SIZE, end)
    {
      if IsNaturalCut(nodes[i].hash) {
        return i + 1;
      }
    }
    return end;
  }

  method MergedHashOfSequence(env: Env, nodes: seq<Node>) returns (merged: Node)
    ensures merged == Merge(env, nodes)
  {
    var buf, total := [], 0;
    for i := 0 to |nodes|
      invariant buf == GroupText(nodes[..i]) && total == TotalSize(nodes[..i])
    {
      assert nodes[..i + 1] == nodes[..i] + [nodes[i]];
      GroupTextSnoc(nodes[..i], nodes[i]);
      TotalSizeAppend(nodes[..i], [nodes[i]]);
      buf := buf + NodeLine(nodes[i]);
      total := total + nodes[i].size;
    }
    assert nodes[..|nodes|] == nodes;
    merged := Node(env.NodeHash(buf), total);
  }

  lemma LevelStep(env: Env, nodes: seq<Node>, readIdx: nat, done: seq<Node>)
    requires readIdx < |nodes|
    ensures var cut := NextCut(nodes[readIdx..]);
            && 0 < cut && readIdx + cut <= |nodes|
            && done + Level(env, nodes[readIdx..])
               == (done + [Merge(env, nodes[readIdx..readIdx + cut])]) + Level(env, nodes[readIdx + cut..])
  {
    hide NextCut, Merge;
    var cut := NextCut(nodes[readIdx..]);
    var group := nodes[readIdx..readIdx + cut];
    assert nodes[readIdx..][..cut] == group && nodes[readIdx..][cut..] == nodes[readIdx + cut..];
    Assoc(done, [Merge(env, group)], Level(env, nodes[readIdx + cut..]));
  }

  lemma LevelEnds(env: Env, nodes: seq<Node>)
    ensures nodes[0..] == nodes && nodes[|nodes|..] == [] && Level(env, []) == []
  {
  }

  method CollapseLevel(env: Env, nodes: seq<Node>) returns (newNodes: seq<Node>)
    ensures newNodes == Level(env, nodes)
  {
    hide Level, NextCut, Merge;
    newNodes := [];
    var readIdx := 0;
    LevelEnds(env, nodes);
    while readIdx < |nodes|
      invariant readIdx <= |nodes|
      invariant Level(env, nodes) == newNodes + Level(env, nodes[readIdx..])
    {
      LevelStep(env, nodes, readIdx, newNodes);
      var cut := NextMergeCut(nodes[readIdx..]);
      var merged := MergedHashOfSequence(env, nodes[readIdx..readIdx + cut]);
      newNodes := newNodes + [merged];
      readIdx := readIdx + cut;
    }
  }

  method AggregatedNodeHash(env: Env, chunks: seq<Node>) returns (h: Hash)
    ensures h == Root(env, chunks)
  {
    if chunks == [] {
      return ZERO_HASH;
    }
    var nodes := chunks;
    while |nodes| > 1
      invariant nodes != [] && Root(env, nodes) == Root(env, chunks)
    {
      nodes := CollapseLevel(env, nodes);
    }
    h := nodes[0].hash;
  }
}
