/** Content-defined chunking: the one-shot chunker and the block-by-block chunker. */
module Chunking {
  import opened Bytes

  const GEAR_WINDOW: nat := 64

  datatype Config = Config(minChunk: nat, maxChunk: nat) {
    /** Bytes of a chunk that are skipped before boundaries are searched. */
    function Skip(): nat {
      if minChunk > GEAR_WINDOW + 1 then minChunk - (GEAR_WINDOW + 1) else 0
    }

    /** A search window is never empty, so blocks can be cut without seeing the end of the input. */
    predicate Streamable() { 0 < minChunk && Skip() < maxChunk }
  }

  const DEFAULT_CONFIG: Config := Config(64 * 1024 / 8, 64 * 1024 * 2)

  datatype Chunk = Chunk(offset: nat, size: nat)

  /** GearHash: from a rolling state and a window, a match position and the state left behind. */
  datatype Gear = Gear(nextMatch: (nat, Bytes) -> (Option<nat>, nat)) {
    function Match(state: nat, window: Bytes): Option<nat> { nextMatch(state, window).0 }

    function StateAfter(state: nat, window: Bytes): nat { nextMatch(state, window).1 }
  }

  /** A match never lies past the window. */
  ghost predicate Lawful(g: Gear) {
    forall state: nat, window: Bytes ::
      g.Match(state, window).Some? ==> g.Match(state, window).value <= |window|
  }

  function Boundary(found: Option<nat>, start: nat, end: nat): nat {
    match found case Some(pos) => start + pos case None => end
  }

  // ----- specification: where the first chunk of the remaining input ends -----

  function CutSize(g: Gear, cfg: Config, rest: Bytes): (n: nat)
    requires Lawful(g) && 0 < cfg.minChunk && rest != []
    ensures 0 < n <= |rest|
  {
    var start, end := cfg.Skip(), Min(cfg.maxChunk, |rest|);
    if |rest| < cfg.minChunk || start >= |rest| || start >= end then |rest|
    else
      Max(Boundary(g.Match(0, rest[start..end]), start, end), Min(cfg.minChunk, |rest|))
  }

  function Pieces(g: Gear, cfg: Config, rest: Bytes): seq<Bytes>
    requires Lawful(g) && 0 < cfg.minChunk
    decreases |rest|
  {
    if rest == [] then []
    else
      var n := CutSize(g, cfg, rest);
      [rest[..n]] + Pieces(g, cfg, rest[n..])
  }

  /** Offsets and sizes of consecutive pieces. */
  function Located(pieces: seq<Bytes>, offset: nat): seq<Chunk> {
    if pieces == [] then []
    else [Chunk(offset, |pieces[0]|)] + Located(pieces[1..], offset + |pieces[0]|)
  }

  /** The pieces, in order, are the input. */
  lemma {:induction false} PiecesCoverInput(g: Gear, cfg: Config, rest: Bytes)
    requires Lawful(g) && 0 < cfg.minChunk
    ensures Flatten(Pieces(g, cfg, rest)) == rest
    decreases |rest|
  {
    if rest != [] {
      var n := CutSize(g, cfg, rest);
      PiecesCoverInput(g, cfg, rest[n..]);
      assert rest == rest[..n] + rest[n..];
    }
  }

  lemma CutBounds(g: Gear, cfg: Config, rest: Bytes)
    requires Lawful(g) && cfg.Streamable() && rest != []
    ensures CutSize(g, cfg, rest) <= Max(cfg.minChunk, cfg.maxChunk)
    ensures CutSize(g, cfg, rest) < |rest| ==> cfg.minChunk <= CutSize(g, cfg, rest)
  {
  }

  /** No piece is empty or oversized, and only the last one may be short. */
  lemma {:induction false} PieceSizes(g: Gear, cfg: Config, rest: Bytes, i: nat)
    requires Lawful(g) && cfg.Streamable() && i < |Pieces(g, cfg, rest)|
    ensures 0 < |Pieces(g, cfg, rest)[i]| <= Max(cfg.minChunk, cfg.maxChunk)
    ensures i < |Pieces(g, cfg, rest)| - 1 ==> cfg.minChunk <= |Pieces(g, cfg, rest)[i]|
    decreases |rest|
  {
    CutBounds(g, cfg, rest);
    if i > 0 {
      PieceSizes(g, cfg, rest[CutSize(g, cfg, rest)..], i - 1);
    }
  }

  /** All pieces but the last are long, so there are few of them. */
  lemma {:induction false} PieceCount(g: Gear, cfg: Config, rest: Bytes)
    requires Lawful(g) && cfg.Streamable() && rest != []
    ensures cfg.minChunk * (|Pieces(g, cfg, rest)| - 1) < |rest|
    decreases |rest|
  {
    var n := CutSize(g, cfg, rest);
    CutBounds(g, cfg, rest);
    if n < |rest| {
      PieceCount(g, cfg, rest[n..]);
      MulSucc(cfg.minChunk, |Pieces(g, cfg, rest[n..])| - 1);
    }
  }

  /**
   * Where a piece ends, given the input from its start: all of it if it is short or leaves no window; else at the
   * first match in the window, or at the end of the window without one, but never before the minimum size.
   */
  ghost predicate CutByMatch(g: Gear, cfg: Config, rest: Bytes, n: nat) {
    var skip := if cfg.minChunk > 64 + 1 then cfg.minChunk - (64 + 1) else 0;
    var end := if cfg.maxChunk < |rest| then cfg.maxChunk else |rest|;
    if |rest| < cfg.minChunk || skip >= end then n == |rest|
    else
      match g.nextMatch(0, rest[skip..end]).0
      case Some(pos) => n == if skip + pos < cfg.minChunk then cfg.minChunk else skip + pos
      case None => n == if end < cfg.minChunk then cfg.minChunk else end
  }

  lemma CutSizeByMatch(g: Gear, cfg: Config, rest: Bytes)
    requires Lawful(g) && 0 < cfg.minChunk && rest != []
    ensures CutByMatch(g, cfg, rest, CutSize(g, cfg, rest))
  {
    hide Lawful;
  }

  /** Every piece ends where the first match after its start says. */
  lemma {:induction false} PiecesEndAtMatches(g: Gear, cfg: Config, data: Bytes, i: nat)
    requires Lawful(g) && 0 < cfg.minChunk && i < |Pieces(g, cfg, data)|
    ensures var pieces := Pieces(g, cfg, data);
            var start := Offset(pieces, i);
            && start + |pieces[i]| <= |data| && pieces[i] == data[start..start + |pieces[i]|]
            && CutByMatch(g, cfg, data[start..], |pieces[i]|)
    decreases |data|
  {
    hide CutSize, CutByMatch, Offset, Lawful;
    var n := CutSize(g, cfg, data);
    var rest := Pieces(g, cfg, data[n..]);
    if i == 0 {
      OffsetZero(Pieces(g, cfg, data));
      assert data[0..] == data;
      CutSizeByMatch(g, cfg, data);
    } else {
      PiecesEndAtMatches(g, cfg, data[n..], i - 1);
      OffsetCons(data[..n], rest, i - 1);
      assert data[n..][Offset(rest, i - 1)..] == data[n + Offset(rest, i - 1)..];
    }
  }

  /** The cut at `offset`, in the coordinates of the whole buffer. */
  function CutAt(g: Gear, cfg: Config, data: Bytes, offset: nat): (n: nat)
    requires Lawful(g) && 0 < cfg.minChunk && offset < |data|
    ensures 0 < n <= |data| - offset
  {
    var remaining := |data| - offset;
    var start, end := offset + cfg.Skip(), Min(offset + cfg.maxChunk, |data|);
    if remaining < cfg.minChunk || start >= |data| || start >= end then remaining
    else
      Max(Boundary(g.Match(0, data[start..end]), start, end) - offset, Min(cfg.minChunk, remaining))
  }

  lemma CutAtIsCut(g: Gear, cfg: Config, data: Bytes, offset: nat)
    requires Lawful(g) && 0 < cfg.minChunk && offset < |data|
    ensures CutAt(g, cfg, data, offset) == CutSize(g, cfg, data[offset..])
  {
    var start, end := offset + cfg.Skip(), Min(offset + cfg.maxChunk, |data|);
    if start < end {
      assert data[offset..][cfg.Skip()..end - offset] == data[start..end];
    }
  }

  /** What is still to be emitted once `offset` is reached, in a buffer that starts at `base`. */
  ghost function ToEmit(g: Gear, cfg: Config, data: Bytes, offset: nat, base: nat): seq<Chunk>
    requires Lawful(g) && 0 < cfg.minChunk && offset <= |data|
  {
    Located(Pieces(g, cfg, data[offset..]), base + offset)
  }

  lemma EmitStep(g: Gear, cfg: Config, data: Bytes, offset: nat, base: nat, acc: seq<Chunk>)
    requires Lawful(g) && 0 < cfg.minChunk && offset < |data|
    ensures var cut := CutAt(g, cfg, data, offset);
            acc + ToEmit(g, cfg, data, offset, base)
            == (acc + [Chunk(base + offset, cut)]) + ToEmit(g, cfg, data, offset + cut, base)
  {
    var rest := data[offset..];
    var cut := CutAt(g, cfg, data, offset);
    CutAtIsCut(g, cfg, data, offset);
    assert rest[cut..] == data[offset + cut..];
    var p := Pieces(g, cfg, rest);
    assert p[1..] == Pieces(g, cfg, data[offset + cut..]);
    Assoc(acc, [Chunk(base + offset, cut)], Located(p[1..], base + offset + cut));
  }

  lemma EmitAll(g: Gear, cfg: Config, data: Bytes, base: nat)
    requires Lawful(g) && 0 < cfg.minChunk
    ensures ToEmit(g, cfg, data, |data|, base) == []
    ensures ToEmit(g, cfg, data, 0, base) == Located(Pieces(g, cfg, data), base)
  {
    assert data[0..] == data;
  }

  /** Chunk `i` starts where the pieces before it end. */
  lemma {:induction false} LocatedExact(pieces: seq<Bytes>, offset: nat, i: nat)
    requires i < |pieces|
    ensures |Located(pieces, offset)| == |pieces|
    ensures Located(pieces, offset)[i] == Chunk(offset + Offset(pieces, i), |pieces[i]|)
  {
    LocatedCount(pieces, offset);
    if i > 0 {
      LocatedExact(pieces[1..], offset + |pieces[0]|, i - 1);
      OffsetCons(pieces[0], pieces[1..], i - 1);
      assert pieces == [pieces[0]] + pieces[1..];
    } else {
      assert Offset(pieces, 0) == 0;
    }
  }

  lemma {:induction false} LocatedCount(pieces: seq<Bytes>, offset: nat)
    ensures |Located(pieces, offset)| == |pieces|
  {
    if pieces != [] {
      LocatedCount(pieces[1..], offset + |pieces[0]|);
    }
  }

  lemma {:induction false} LocatedAppend(a: seq<Bytes>, b: seq<Bytes>, offset: nat)
    ensures Located(a + b, offset) == Located(a, offset) + Located(b, offset + |Flatten(a)|)
  {
    if a == [] {
      assert a + b == b;
    } else {
      LocatedAppend(a[1..], b, offset + |a[0]|);
      assert (a + b)[1..] == a[1..] + b;
    }
  }

  // ----- specification of the streaming form -----

  predicate Ready(cfg: Config, buffer: Bytes) { cfg.minChunk <= |buffer| && cfg.maxChunk <= |buffer| }

  function StreamCut(g: Gear, cfg: Config, buffer: Bytes): (n: nat)
    requires Lawful(g) && 0 < cfg.minChunk && cfg.Skip() <= cfg.maxChunk && Ready(cfg, buffer)
    ensures 0 < n <= |buffer|
  {
    var start, end := cfg.Skip(), cfg.maxChunk;
    Max(Boundary(g.Match(0, buffer[start..end]), start, end), Min(cfg.minChunk, |buffer|))
  }

  datatype Drained = Drained(pieces: seq<Bytes>, rest: Bytes)

  /** The pieces a buffer yields before the end of the input is known, and what stays buffered. */
  function Drain(g: Gear, cfg: Config, buffer: Bytes): (d: Drained)
    requires Lawful(g) && 0 < cfg.minChunk && cfg.Skip() <= cfg.maxChunk
    ensures !Ready(cfg, d.rest)
    decreases |buffer|
  {
    if !Ready(cfg, buffer) then Drained([], buffer)
    else
      var n := StreamCut(g, cfg, buffer);
      var d := Drain(g, cfg, buffer[n..]);
      Drained([buffer[..n]] + d.pieces, d.rest)
  }

  lemma DrainStep(g: Gear, cfg: Config, buffer: Bytes, offset: nat, acc: seq<Chunk>)
    requires Lawful(g) && 0 < cfg.minChunk && cfg.Skip() <= cfg.maxChunk && Ready(cfg, buffer)
    ensures var n := StreamCut(g, cfg, buffer);
            var d, next := Drain(g, cfg, buffer), Drain(g, cfg, buffer[n..]);
            && d.rest == next.rest
            && |Flatten(d.pieces)| == n + |Flatten(next.pieces)|
            && acc + Located(d.pieces, offset) == (acc + [Chunk(offset, n)]) + Located(next.pieces, offset + n)
  {
    var n := StreamCut(g, cfg, buffer);
    var d, next := Drain(g, cfg, buffer), Drain(g, cfg, buffer[n..]);
    assert d.pieces[1..] == next.pieces;
    Assoc(acc, [Chunk(offset, n)], Located(next.pieces, offset + n));
  }

  lemma DrainDone(g: Gear, cfg: Config, buffer: Bytes, offset: nat)
    requires Lawful(g) && 0 < cfg.minChunk && cfg.Skip() <= cfg.maxChunk && !Ready(cfg, buffer)
    ensures Drain(g, cfg, buffer) == Drained([], buffer)
    ensures Located([], offset) == [] && |Flatten<byte>([])| == 0
  {
  }

  /** Everything emitted for a sequence of blocks, `finalize` included. */
  function Streamed(g: Gear, cfg: Config, buffer: Bytes, blocks: seq<Bytes>): seq<Bytes>
    requires Lawful(g) && 0 < cfg.minChunk && cfg.Skip() <= cfg.maxChunk
    decreases blocks
  {
    if blocks == [] then Pieces(g, cfg, buffer)
    else
      var d := Drain(g, cfg, buffer + blocks[0]);
      d.pieces + Streamed(g, cfg, d.rest, blocks[1..])
  }

  /** With a full window in the buffer, bytes that arrive later cannot move the cut. */
  lemma CutIgnoresLaterBytes(g: Gear, cfg: Config, buffer: Bytes, later: Bytes)
    requires Lawful(g) && cfg.Streamable() && Ready(cfg, buffer)
    ensures CutSize(g, cfg, buffer + later) == StreamCut(g, cfg, buffer)
  {
    var start, end := cfg.Skip(), cfg.maxChunk;
    assert (buffer + later)[start..end] == buffer[start..end];
  }

  lemma {:induction false} DrainIsPrefix(g: Gear, cfg: Config, buffer: Bytes, later: Bytes)
    requires Lawful(g) && cfg.Streamable()
    ensures var d := Drain(g, cfg, buffer);
            Pieces(g, cfg, buffer + later) == d.pieces + Pieces(g, cfg, d.rest + later)
    decreases |buffer|
  {
    if Ready(cfg, buffer) {
      var n := StreamCut(g, cfg, buffer);
      CutIgnoresLaterBytes(g, cfg, buffer, later);
      DrainIsPrefix(g, cfg, buffer[n..], later);
      SliceAppend(buffer, later, n);
      var d := Drain(g, cfg, buffer[n..]);
      Assoc([buffer[..n]], d.pieces, Pieces(g, cfg, d.rest + later));
    }
  }

  lemma StreamCutByMatch(g: Gear, cfg: Config, buffer: Bytes)
    requires Lawful(g) && cfg.Streamable() && Ready(cfg, buffer)
    ensures CutByMatch(g, cfg, buffer, StreamCut(g, cfg, buffer))
  {
    hide Lawful;
  }

  /** What is drained are the pieces of the buffer that have a full window, each ending at its match. */
  lemma {:induction false} DrainedEndAtMatches(g: Gear, cfg: Config, buffer: Bytes, i: nat)
    requires Lawful(g) && cfg.Streamable() && i < |Drain(g, cfg, buffer).pieces|
    ensures var pieces := Drain(g, cfg, buffer).pieces;
            var start := Offset(pieces, i);
            && start + |pieces[i]| <= |buffer| && pieces[i] == buffer[start..start + |pieces[i]|]
            && cfg.maxChunk <= |buffer[start..]| && CutByMatch(g, cfg, buffer[start..], |pieces[i]|)
    decreases |buffer|
  {
    hide StreamCut, CutByMatch, Offset, Lawful;
    var n := StreamCut(g, cfg, buffer);
    var rest := Drain(g, cfg, buffer[n..]).pieces;
    if i == 0 {
      OffsetZero(Drain(g, cfg, buffer).pieces);
      assert buffer[0..] == buffer;
      StreamCutByMatch(g, cfg, buffer);
    } else {
      DrainedEndAtMatches(g, cfg, buffer[n..], i - 1);
      OffsetCons(buffer[..n], rest, i - 1);
      assert buffer[n..][Offset(rest, i - 1)..] == buffer[n + Offset(rest, i - 1)..];
    }
  }

  /** However the input is cut into blocks, streaming emits the pieces of the whole input. */
  lemma {:induction false} StreamingEqualsOneShot(g: Gear, cfg: Config, buffer: Bytes, blocks: seq<Bytes>)
    requires Lawful(g) && cfg.Streamable()
    ensures Streamed(g, cfg, buffer, blocks) == Pieces(g, cfg, buffer + Flatten(blocks))
    decreases blocks
  {
    if blocks == [] {
      assert buffer + Flatten(blocks) == buffer;
    } else {
      var d := Drain(g, cfg, buffer + blocks[0]);
      DrainIsPrefix(g, cfg, buffer + blocks[0], Flatten(blocks[1..]));
      StreamingEqualsOneShot(g, cfg, d.rest, blocks[1..]);
      Assoc(buffer, blocks[0], Flatten(blocks[1..]));
    }
  }

  /** The condition on the configuration is needed: with an empty window the two forms differ. */
  lemma EmptyWindowDiffers(g: Gear, cfg: Config)
    requires Lawful(g) && 0 < cfg.minChunk && cfg.Skip() == cfg.maxChunk
    ensures var data := Zeros(2 * cfg.minChunk);
            Streamed(g, cfg, [], [data]) != Pieces(g, cfg, data)
  {
    var data := Zeros(2 * cfg.minChunk);
    assert [] + data == data;
    assert Streamed(g, cfg, [], [data])[0] == data[..cfg.minChunk];
    assert Pieces(g, cfg, data)[0] == data;
  }

  /** Wherever streaming does not read out of bounds, it equals the one-shot form exactly for non-empty windows. */
  lemma StreamingExactlyWhenWindowNonEmpty(g: Gear, cfg: Config)
    requires Lawful(g) && 0 < cfg.minChunk && cfg.Skip() <= cfg.maxChunk
    ensures (forall blocks: seq<Bytes> :: Streamed(g, cfg, [], blocks) == Pieces(g, cfg, Flatten(blocks)))
            <==> cfg.Streamable()
  {
    hide Streamed, Pieces, Lawful;
    if cfg.Streamable() {
      forall blocks: seq<Bytes>
        ensures Streamed(g, cfg, [], blocks) == Pieces(g, cfg, Flatten(blocks))
      {
        StreamingEqualsOneShot(g, cfg, [], blocks);
        assert [] + Flatten(blocks) == Flatten(blocks);
      }
    } else {
      var data := Zeros(2 * cfg.minChunk);
      EmptyWindowDiffers(g, cfg);
      assert Flatten([data]) == data + Flatten([]) == data;
      assert Streamed(g, cfg, [], [data]) != Pieces(g, cfg, Flatten([data]));
    }
  }

  // ----- the chunkers -----

  /** The search both chunkers make at `offset`; the rolling state is reset after a match attempt. */
  method SearchCut(gear: Gear, config: Config, hash: nat, data: Bytes, offset: nat)
    returns (cut: nat, left: nat)
    requires Lawful(gear) && 0 < config.minChunk && offset < |data| && hash == 0
    ensures cut == CutAt(gear, config, data, offset)
    ensures left == 0
  {
    left := hash;
    var remaining := |data| - offset;
    if remaining < config.minChunk {
      return remaining, left;
    }
    var searchStart := offset + config.Skip();
    var searchEnd := Min(offset + config.maxChunk, |data|);
    if searchStart >= |data| || searchStart >= searchEnd {
      return remaining, left;
    }
    var window := data[searchStart..searchEnd];
    var found := gear.Match(left, window);
    left := gear.StateAfter(left, window);
    cut := Boundary(found, searchStart, searchEnd) - offset;
    cut := Max(cut, Min(config.minChunk, remaining));
    left := 0;
  }

  /** The search of the streaming chunker, once a full window is buffered. */
  method SearchFullWindow(gear: Gear, config: Config, hash: nat, buffer: Bytes) returns (cut: nat, left: nat)
    requires Lawful(gear) && 0 < config.minChunk && config.Skip() <= config.maxChunk
    requires Ready(config, buffer) && hash == 0
    ensures cut == StreamCut(gear, config, buffer)
    ensures left == 0
  {
    var searchStart, searchEnd := config.Skip(), config.maxChunk;
    var window := buffer[searchStart..searchEnd];
    var found := gear.Match(hash, window);
    left := gear.StateAfter(hash, window);
    cut := Boundary(found, searchStart, searchEnd);
    cut := Max(cut, Min(config.minChunk, |buffer|));
    left := 0;
  }

  class Chunker {
    const gear: Gear
    const config: Config
    var hash: nat

    constructor (gear: Gear, config: Config)
      ensures this.gear == gear && this.config == config && hash == 0
    {
      this.gear, this.config, hash := gear, config, 0;
    }

    method ChunkData(data: Bytes) returns (chunks: seq<Chunk>)
      requires Lawful(gear) && 0 < config.minChunk && hash == 0
      modifies this
      ensures hash == 0
      ensures chunks == Located(Pieces(gear, config, data), 0)
    {
      hide Pieces, Located, ToEmit, CutAt, Lawful;
      EmitAll(gear, config, data, 0);
      if data == [] {
        return [];
      }
      chunks := [];
      var offset := 0;
      while offset < |data|
        invariant offset <= |data| && hash == 0
        invariant ToEmit(gear, config, data, 0, 0) == chunks + ToEmit(gear, config, data, offset, 0)
      {
        EmitStep(gear, config, data, offset, 0, chunks);
        var chunkSize;
        chunkSize, hash := SearchCut(gear, config, hash, data, offset);
        chunks := chunks + [Chunk(offset, chunkSize)];
        offset := offset + chunkSize;
      }
    }
  }

  class StreamingChunker {
    const gear: Gear
    const config: Config
    var hash: nat
    var buffer: Bytes
    var totalOffset: nat

    ghost predicate Valid()
      reads this
    {
      Lawful(gear) && 0 < config.minChunk && config.Skip() <= config.maxChunk && hash == 0
    }

    constructor (gear: Gear, config: Config)
      requires Lawful(gear) && 0 < config.minChunk && config.Skip() <= config.maxChunk
      ensures Valid() && this.gear == gear && this.config == config
      ensures buffer == [] && totalOffset == 0
    {
      this.gear, this.config := gear, config;
      hash, buffer, totalOffset := 0, [], 0;
    }

    method NextBlock(data: Bytes) returns (chunks: seq<Chunk>)
      requires Valid()
      modifies this
      ensures Valid()
      ensures var d := Drain(gear, config, old(buffer) + data);
              && chunks == Located(d.pieces, old(totalOffset))
              && buffer == d.rest
              && totalOffset == old(totalOffset) + |Flatten(d.pieces)|
      ensures config.minChunk <= config.maxChunk ==> |buffer| < config.maxChunk
    {
      buffer := buffer + data;
      chunks := DrainCompleteChunks();
    }

    method DrainCompleteChunks() returns (chunks: seq<Chunk>)
      requires Valid()
      modifies this
      ensures Valid()
      ensures var d := Drain(gear, config, old(buffer));
              && chunks == Located(d.pieces, old(totalOffset))
              && buffer == d.rest
              && totalOffset == old(totalOffset) + |Flatten(d.pieces)|
    {
      hide Drain, Located, Flatten, StreamCut;
      chunks := [];
      ghost var all := Drain(gear, config, buffer);
      while Ready(config, buffer)
        invariant Valid()
        invariant Located(all.pieces, old(totalOffset))
                  == chunks + Located(Drain(gear, config, buffer).pieces, totalOffset)
        invariant Drain(gear, config, buffer).rest == all.rest
        invariant totalOffset + |Flatten(Drain(gear, config, buffer).pieces)|
                  == old(totalOffset) + |Flatten(all.pieces)|
        decreases |buffer|
      {
        DrainStep(gear, config, buffer, totalOffset, chunks);
        var chunkSize;
        chunkSize, hash := SearchFullWindow(gear, config, hash, buffer);
        chunks := chunks + [Chunk(totalOffset, chunkSize)];
        totalOffset := totalOffset + chunkSize;
        buffer := buffer[chunkSize..];
      }
      DrainDone(gear, config, buffer, totalOffset);
    }

    /** Flush what is buffered; the chunker is not used afterwards. */
    method Finalize() returns (chunks: seq<Chunk>)
      requires Valid()
      modifies this
      ensures Valid() && buffer == [] && totalOffset == old(totalOffset) + |old(buffer)|
      ensures chunks == Located(Pieces(gear, config, old(buffer)), old(totalOffset))
    {
      hide Pieces, Located, ToEmit, CutAt, Lawful;
      EmitAll(gear, config, buffer, totalOffset);
      if buffer == [] {
        return [];
      }
      chunks := [];
      var data, base := buffer, totalOffset;
      var bufOffset := 0;
      while bufOffset < |data|
        invariant bufOffset <= |data| && Valid()
        invariant ToEmit(gear, config, data, 0, base) == chunks + ToEmit(gear, config, data, bufOffset, base)
      {
        EmitStep(gear, config, data, bufOffset, base, chunks);
        var chunkSize;
        chunkSize, hash := SearchCut(gear, config, hash, data, bufOffset);
        chunks := chunks + [Chunk(base + bufOffset, chunkSize)];
        bufOffset := bufOffset + chunkSize;
      }
      totalOffset := base + |data|;
      buffer := [];
    }
  }

  lemma StreamedStep(g: Gear, cfg: Config, done: seq<Bytes>, buffer: Bytes, blocks: seq<Bytes>, i: nat)
    requires Lawful(g) && cfg.Streamable() && i < |blocks|
    ensures var d := Drain(g, cfg, buffer + blocks[i]);
            && done + Streamed(g, cfg, buffer, blocks[i..])
               == (done + d.pieces) + Streamed(g, cfg, d.rest, blocks[i + 1..])
            && Located(done + d.pieces, 0) == Located(done, 0) + Located(d.pieces, |Flatten(done)|)
            && |Flatten(done + d.pieces)| == |Flatten(done)| + |Flatten(d.pieces)|
  {
    var d := Drain(g, cfg, buffer + blocks[i]);
    assert blocks[i..][1..] == blocks[i + 1..];
    Assoc(done, d.pieces, Streamed(g, cfg, d.rest, blocks[i + 1..]));
    LocatedAppend(done, d.pieces, 0);
    FlattenAppend(done, d.pieces);
  }

  /** Feed blocks one by one to a chunker. */
  method FeedBlocks(chunker: StreamingChunker, blocks: seq<Bytes>) returns (chunks: seq<Chunk>, ghost done: seq<Bytes>)
    requires chunker.Valid() && chunker.config.Streamable() && chunker.totalOffset == 0
    modifies chunker
    ensures chunker.Valid()
    ensures chunks == Located(done, 0) && chunker.totalOffset == |Flatten(done)|
    ensures done + Pieces(chunker.gear, chunker.config, chunker.buffer)
         == Streamed(chunker.gear, chunker.config, old(chunker.buffer), blocks)
  {
    chunks, done := [], [];
    assert blocks[0..] == blocks && blocks[|blocks|..] == [];
    for i := 0 to |blocks|
      invariant chunker.Valid()
      invariant chunks == Located(done, 0) && chunker.totalOffset == |Flatten(done)|
      invariant done + Streamed(chunker.gear, chunker.config, chunker.buffer, blocks[i..])
             == Streamed(chunker.gear, chunker.config, old(chunker.buffer), blocks)
    {
      StreamedStep(chunker.gear, chunker.config, done, chunker.buffer, blocks, i);
      done := done + Drain(chunker.gear, chunker.config, chunker.buffer + blocks[i]).pieces;
      var next := chunker.NextBlock(blocks[i]);
      chunks := chunks + next;
    }
  }

  /** A whole streaming run, for any way of cutting the input into blocks. */
  method ChunkBlocks(gear: Gear, config: Config, blocks: seq<Bytes>) returns (chunks: seq<Chunk>)
    requires Lawful(gear) && config.Streamable()
    ensures chunks == Located(Pieces(gear, config, Flatten(blocks)), 0)
  {
    hide Pieces, Located, Streamed, Flatten;
    var chunker := new StreamingChunker(gear, config);
    ghost var done;
    chunks, done := FeedBlocks(chunker, blocks);
    LocatedAppend(done, Pieces(gear, config, chunker.buffer), 0);
    var rest := chunker.Finalize();
    chunks := chunks + rest;
    StreamingEqualsOneShot(gear, config, [], blocks);
    assert [] + Flatten(blocks) == Flatten(blocks);
  }
}
