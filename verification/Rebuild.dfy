/** Rebuilding the index from the stored shards at start-up. */
module Rebuild {
  import opened Bytes
  import opened Primitives
  import opened ShardParser
  import opened Reconstruction
  import opened Index
  import opened Validation

  const BATCH_SIZE: nat := 10

  /** What fetching, parsing and validating one listed shard gives. */
  function ShardOutcome(env: Env, st: Storage, id: Hash): Option<Registration> {
    if id !in st.shards then None
    else match Parse(st.shards[id])
      case Err => None
      case Ok(s) =>
        match Validate(env, id, s, st.xorbs)
        case Err => None
        case Ok(reg) => Some(reg)
  }

  function Outcomes(env: Env, st: Storage, keys: seq<Hash>): (outs: seq<Option<Registration>>)
    ensures |outs| == |keys|
  {
    seq(|keys|, i requires 0 <= i < |keys| => ShardOutcome(env, st, keys[i]))
  }

  /** A listing is a stream of keys that may break off with an error; how many keys come before that. */
  function ListedCount(listing: seq<Result<Hash>>): (n: nat)
    ensures n <= |listing|
    ensures forall i | 0 <= i < n :: listing[i].Ok?
    ensures n < |listing| ==> listing[n].Err?
  {
    if listing == [] || listing[0].Err? then 0 else 1 + ListedCount(listing[1..])
  }

  function Listed(listing: seq<Result<Hash>>): (keys: seq<Hash>)
    ensures |keys| == ListedCount(listing)
  {
    seq(ListedCount(listing), i requires 0 <= i < ListedCount(listing) => listing[i].value)
  }

  predicate Breaks(listing: seq<Result<Hash>>) { ListedCount(listing) < |listing| }

  /** Up to ten more keys from the listing, and whether it broke off. */
  method NextBatch(listing: seq<Result<Hash>>, pos: nat) returns (batch: seq<Hash>, failed: bool)
    requires pos <= ListedCount(listing)
    ensures pos + |batch| <= ListedCount(listing) && batch == Listed(listing)[pos..pos + |batch|]
    ensures failed ==> Breaks(listing) && pos + |batch| == ListedCount(listing)
    ensures !failed && batch == [] ==> !Breaks(listing) && pos == ListedCount(listing)
  {
    batch, failed := [], false;
    while |batch| < BATCH_SIZE
      invariant |batch| <= BATCH_SIZE && pos + |batch| <= ListedCount(listing)
      invariant batch == Listed(listing)[pos..pos + |batch|]
    {
      var next := pos + |batch|;
      if next == |listing| {
        return batch, false;
      }
      if listing[next].Err? {
        return batch, true;
      }
      batch := batch + [listing[next].value];
    }
  }

  /** The tasks of one batch; their results are awaited in the order of the keys. */
  method ValidateBatch(env: Env, st: Storage, batch: seq<Hash>) returns (outs: seq<Option<Registration>>)
    ensures outs == Outcomes(env, st, batch)
  {
    hide Parse, Validate;
    outs := [];
    for i := 0 to |batch|
      invariant outs == Outcomes(env, st, batch)[..i]
    {
      var out := None;
      if batch[i] in st.shards {
        var parsed := ParseShard(st.shards[batch[i]]);
        if parsed.Ok? {
          var reg := ValidateShardForIndex(env, batch[i], parsed.value, st.xorbs);
          if reg.Ok? {
            out := Some(reg.value);
          }
        }
      }
      outs := outs + [out];
    }
  }

  lemma OutcomesSlice(env: Env, st: Storage, keys: seq<Hash>, i: nat, j: nat)
    requires i <= j <= |keys|
    ensures Outcomes(env, st, keys[i..j]) == Outcomes(env, st, keys)[i..j]
  {
    hide ShardOutcome;
  }

  /** The batched rebuild is the plain fold over the listed shards, and succeeds only when all of them were indexed. */
  method RebuildFromStorage(index: MetadataIndex, env: Env, st: Storage, listing: seq<Result<Hash>>)
    returns (r: Result<nat>)
    modifies index
    ensures var outs := Outcomes(env, st, Listed(listing));
            && index.State() == Folded(old(index.State()), outs, |outs|)
            && (r.Ok? <==> !Breaks(listing) && Failures(old(index.State()), outs, |outs|) == 0)
            && (r.Ok? ==> r.value == |Listed(listing)|)
  {
    hide Outcomes, Register, Accepts, Listed;
    var keys := Listed(listing);
    ghost var start, outs := index.State(), Outcomes(env, st, keys);
    var pos, total: nat, failures: nat, listingFailed := 0, 0, 0, false;
    while true
      invariant pos <= |keys| && total + failures == pos
      invariant index.State() == Folded(start, outs, pos) && failures == Failures(start, outs, pos)
      invariant !listingFailed
      decreases |keys| - pos
    {
      var batch;
      batch, listingFailed := NextBatch(listing, pos);
      if batch == [] {
        break;
      }
      OutcomesSlice(env, st, keys, pos, pos + |batch|);
      var results := ValidateBatch(env, st, batch);
      for i := 0 to |results|
        invariant total + failures == pos + i
        invariant index.State() == Folded(start, outs, pos + i) && failures == Failures(start, outs, pos + i)
      {
        assert results[i] == outs[pos + i];
        if results[i].Some? {
          var ok := index.RegisterVerifiedShard(results[i].value);
          if ok {
            total := total + 1;
          } else {
            failures := failures + 1;
          }
        } else {
          failures := failures + 1;
        }
      }
      pos := pos + |batch|;
      if listingFailed {
        break;
      }
    }
    r := if failures > 0 || listingFailed then Err else Ok(total);
  }

  /** Any listing order of the same shards gives the same outcome, references and chunk keys. */
  lemma ListingOrderDoesNotMatter(env: Env, st: Storage, a: seq<Hash>, b: seq<Hash>, h: Hash)
    requires forall id :: id in a <==> id in b
    ensures var x, y := Outcomes(env, st, a), Outcomes(env, st, b);
            && (Failures(EMPTY_INDEX, x, |x|) == 0 <==> Failures(EMPTY_INDEX, y, |y|) == 0)
            && (Failures(EMPTY_INDEX, x, |x|) == 0 ==>
                  && RefSet(Folded(EMPTY_INDEX, x, |x|).files, h) == RefSet(Folded(EMPTY_INDEX, y, |y|).files, h)
                  && Folded(EMPTY_INDEX, x, |x|).chunks.Keys == Folded(EMPTY_INDEX, y, |y|).chunks.Keys)
  {
    hide ShardOutcome, Failures, Folded, RefSet;
    OutcomesIncluded(env, st, a, b);
    OutcomesIncluded(env, st, b, a);
    OrderDoesNotMatter(Outcomes(env, st, a), Outcomes(env, st, b), h);
  }

  lemma OutcomesIncluded(env: Env, st: Storage, a: seq<Hash>, b: seq<Hash>)
    requires forall id :: id in a ==> id in b
    ensures forall out :: out in Outcomes(env, st, a) ==> out in Outcomes(env, st, b)
  {
    hide ShardOutcome;
    forall out | out in Outcomes(env, st, a)
      ensures out in Outcomes(env, st, b)
    {
      var i :| 0 <= i < |a| && ShardOutcome(env, st, a[i]) == out;
      assert a[i] in a && a[i] in b;
      var j :| 0 <= j < |b| && b[j] == a[i];
      assert Outcomes(env, st, b)[j] == out;
    }
  }

  // ----- whatever the rebuild indexes is true of the storage -----

  ghost predicate RefSound(env: Env, st: Storage, h: Hash, r: FileRef) {
    var rebuilt := RebuildRef(env, st, h, r);
    rebuilt.Rebuilt? && |rebuilt.bytes| == r.fileSize && Genuine(env, h, rebuilt.bytes)
  }

  /** Every reference rebuilds its file at its size, and every chunk location holds a chunk with that raw hash. */
  ghost predicate IndexSound(env: Env, st: Storage, idx: IndexState) {
    && (forall h, r | r in RefsOf(idx.files, h) :: RefSound(env, st, h, r))
    && (forall h | h in idx.chunks ::
          PointsAtItsChunk(env, st.xorbs, ChunkMapping(h, idx.chunks[h].0, idx.chunks[h].1)))
  }

  lemma ValidatedRefSound(env: Env, st: Storage, id: Hash, k: nat)
    requires ShardOutcome(env, st, id).Some? && k < |ShardOutcome(env, st, id).value.files|
    ensures var reg := ShardOutcome(env, st, id).value;
            RefSound(env, st, reg.files[k].fileHash, RefOf(reg, reg.files[k]))
  {
    hide Parse, Validates, RebuildRef, KeptLookups, UsedChunks, Genuine, FileResult;
    var reg := ShardOutcome(env, st, id).value;
    RegisteredFilesAreSound(env, st, reg, Parse(st.shards[id]).value, st.xorbs, k);
  }

  lemma NewRefSound(env: Env, st: Storage, id: Hash, h: Hash, r: FileRef)
    requires ShardOutcome(env, st, id).Some?
    requires var reg := ShardOutcome(env, st, id).value; r in NewRefs(reg, h, |reg.files|)
    ensures RefSound(env, st, h, r)
  {
    hide ShardOutcome, RefSound;
    var reg := ShardOutcome(env, st, id).value;
    var k :| 0 <= k < |reg.files| && reg.files[k].fileHash == h && RefOf(reg, reg.files[k]) == r;
    ValidatedRefSound(env, st, id, k);
  }

  lemma RegisterKeepsSound(env: Env, st: Storage, idx: IndexState, id: Hash)
    requires IndexSound(env, st, idx) && ShardOutcome(env, st, id).Some?
    ensures IndexSound(env, st, Register(idx, ShardOutcome(env, st, id).value))
  {
    hide ShardOutcome, RefSound, PointsAtItsChunk, RefsOf, Accepts, AddFiles, AddChunks;
    var reg := ShardOutcome(env, st, id).value;
    var idx' := Register(idx, reg);
    if Accepts(idx, reg) {
      forall h, r | r in RefsOf(idx'.files, h)
        ensures RefSound(env, st, h, r)
      {
        RegisteredContents(idx, reg, h);
        assert r in RefSet(idx'.files, h);
        if r !in RefSet(idx.files, h) {
          NewRefSound(env, st, id, h, r);
        }
      }
      forall h | h in idx'.chunks
        ensures PointsAtItsChunk(env, st.xorbs, ChunkMapping(h, idx'.chunks[h].0, idx'.chunks[h].1))
      {
        LocationIsOldOrAdded(idx.chunks, reg.chunks, |reg.chunks|, h);
        NewChunkSound(env, st, id, ChunkMapping(h, idx'.chunks[h].0, idx'.chunks[h].1));
      }
    }
  }

  lemma NewChunkSound(env: Env, st: Storage, id: Hash, c: ChunkMapping)
    requires ShardOutcome(env, st, id).Some?
    ensures c in ShardOutcome(env, st, id).value.chunks ==> PointsAtItsChunk(env, st.xorbs, c)
  {
    hide Parse, Validates, PointsAtItsChunk, FileMappings, KeptLookups, UsedChunks;
    if c in ShardOutcome(env, st, id).value.chunks {
      RegisteredChunksAreSound(env, id, Parse(st.shards[id]).value, st.xorbs, c);
    }
  }

  /** Whatever was listed and however much of it failed, the rebuilt index is sound. */
  lemma {:induction false} RebuiltIndexIsSound(env: Env, st: Storage, keys: seq<Hash>, n: nat)
    requires n <= |keys|
    ensures IndexSound(env, st, Folded(EMPTY_INDEX, Outcomes(env, st, keys), n))
  {
    hide ShardOutcome, IndexSound, Register;
    if n > 0 {
      RebuiltIndexIsSound(env, st, keys, n - 1);
      if ShardOutcome(env, st, keys[n - 1]).Some? {
        RegisterKeepsSound(env, st, Folded(EMPTY_INDEX, Outcomes(env, st, keys), n - 1), keys[n - 1]);
      }
    } else {
      EmptyIsSound(env, st);
    }
  }

  lemma EmptyIsSound(env: Env, st: Storage)
    ensures IndexSound(env, st, EMPTY_INDEX)
  {
    hide RefSound, PointsAtItsChunk;
  }
}
