/**
 * The `GameState` of LifeGame.c as a class whose fields the operations update in place:
 * the world, `live_cell_count`, the three growable buffers (dirty chunks, positions to
 * check, updates) and the speed setting. Each method is proved to leave the state that
 * the functions of LifeWorld describe.
 */
module LifeEngine {
  import opened LifeChunk
  import opened LifeCoords
  import opened LifeWorld
  import opened LifeCells
  import opened LifeGeneration

  const MIN_SPEED_LEVEL: int := 1
  const MAX_SPEED_LEVEL: int := 10
  const DEFAULT_SPEED_LEVEL: int := 5

  /** The speed after `speed_level += change` and the two clamps. */
  function ClampSpeed(v: int): (r: int)
    ensures MIN_SPEED_LEVEL <= r <= MAX_SPEED_LEVEL
    ensures MIN_SPEED_LEVEL <= v <= MAX_SPEED_LEVEL ==> r == v
    ensures v < MIN_SPEED_LEVEL ==> r == MIN_SPEED_LEVEL
    ensures v > MAX_SPEED_LEVEL ==> r == MAX_SPEED_LEVEL
  {
    if v < MIN_SPEED_LEVEL then MIN_SPEED_LEVEL
    else if v > MAX_SPEED_LEVEL then MAX_SPEED_LEVEL
    else v
  }

  /** `1000 / (speed_level * 2)`, raised to at least 10 ms, as play_mode computes the frame
      time; None where the C division has a zero divisor. */
  function TargetFrameTime(speed: int): (r: Option<int>)
    ensures r.None? <==> speed == 0
    ensures r.Some? ==> r.value >= 10
  {
    if speed == 0 then None
    else
      var d := speed * 2;
      var q := if d > 0 then 1000 / d else -(1000 / -d);
      Some(if q < 10 then 10 else q)
  }

  /** Every speed adjust_speed can leave gives a frame time between 50 and 500 ms. */
  lemma FrameTimeInRange(speed: int)
    requires MIN_SPEED_LEVEL <= speed <= MAX_SPEED_LEVEL
    ensures TargetFrameTime(speed).Some? && 50 <= TargetFrameTime(speed).value <= 500
  {
  }

  /** A speed of 0, which the `# Speed:` line of a saved world may carry unchecked, makes
      play_mode divide by zero; adjust_speed never produces it. */
  lemma LoadedSpeedZero()
    ensures TargetFrameTime(0).None?
    ensures forall v :: TargetFrameTime(ClampSpeed(v)).Some?
  {
  }

  /** resize_array: the capacity after the call. `reallocOk` stands for whether realloc
      succeeded; on failure the old capacity is kept and nothing is reported. */
  function ResizeArray(capacity: nat, count: nat, reallocOk: bool): (r: nat)
    ensures r >= capacity
    ensures count < capacity ==> r == capacity
  {
    if count >= capacity then
      var newCapacity := if capacity == 0 then 64 else capacity * 2;
      if !reallocOk then capacity else newCapacity
    else capacity
  }

  /** When realloc succeeds the slot at `count`, which the add_to_* helpers write next, is
      inside the buffer. */
  lemma ResizeMakesRoom(capacity: nat, count: nat)
    requires count <= capacity
    ensures count < ResizeArray(capacity, count, true)
  {
  }

  /** When realloc fails on a full buffer the slot at `count` is outside it, and the
      add_to_* helpers write there anyway. */
  lemma ResizeFailureLeavesNoRoom(capacity: nat, count: nat)
    requires count == capacity
    ensures ResizeArray(capacity, count, false) <= count
  {
  }

  class GameState {
    var world: World
    var liveCellCount: int
    var dirtyChunks: seq<Pair>
    var positions: seq<Pair>
    var updates: seq<Update>
    var speedLevel: int
    var skipFrames: int

    /** The part of the state the cell accessors and the generation step work on. */
    function Snapshot(): Engine
      reads this
    {
      Engine(world, liveCellCount, dirtyChunks)
    }

    /** The engine invariant of LifeCells: valid chunks, and live_cell_count the number of
        live cells. */
    ghost predicate Valid()
      reads this
    {
      Inv(Snapshot())
    }

    /** init_game: an empty world, no live cells, empty buffers, the default speed. */
    constructor ()
      ensures Valid()
      ensures world == map[] && liveCellCount == 0
      ensures dirtyChunks == [] && positions == [] && updates == []
      ensures speedLevel == DEFAULT_SPEED_LEVEL && skipFrames == 0
    {
      world := map[];
      liveCellCount := 0;
      dirtyChunks := [];
      positions := [];
      updates := [];
      speedLevel := DEFAULT_SPEED_LEVEL;
      skipFrames := 0;
    }

    /** adjust_speed: add the change, clamp into [MIN_SPEED_LEVEL, MAX_SPEED_LEVEL], reset
        the frame skip counter. */
    method AdjustSpeed(change: int)
      modifies this
      ensures speedLevel == ClampSpeed(old(speedLevel) + change)
      ensures MIN_SPEED_LEVEL <= speedLevel <= MAX_SPEED_LEVEL && skipFrames == 0
      ensures world == old(world) && liveCellCount == old(liveCellCount)
      ensures dirtyChunks == old(dirtyChunks) && positions == old(positions) && updates == old(updates)
    {
      speedLevel := speedLevel + change;
      if speedLevel < MIN_SPEED_LEVEL {
        speedLevel := MIN_SPEED_LEVEL;
      }
      if speedLevel > MAX_SPEED_LEVEL {
        speedLevel := MAX_SPEED_LEVEL;
      }
      skipFrames := 0;
    }

    /** add_to_dirty_chunks: append one key. */
    method AddToDirtyChunks(chunkX: int, chunkY: int)
      modifies this
      ensures dirtyChunks == old(dirtyChunks) + [Pair(chunkX, chunkY)]
      ensures world == old(world) && liveCellCount == old(liveCellCount)
      ensures positions == old(positions) && updates == old(updates)
      ensures speedLevel == old(speedLevel) && skipFrames == old(skipFrames)
    {
      dirtyChunks := dirtyChunks + [Pair(chunkX, chunkY)];
    }

    /** add_to_positions: append one position. */
    method AddToPositions(x: int, y: int)
      modifies this
      ensures positions == old(positions) + [Pair(x, y)]
      ensures world == old(world) && liveCellCount == old(liveCellCount)
      ensures dirtyChunks == old(dirtyChunks) && updates == old(updates)
      ensures speedLevel == old(speedLevel) && skipFrames == old(skipFrames)
    {
      positions := positions + [Pair(x, y)];
    }

    /** add_to_updates: append one update. */
    method AddToUpdates(x: int, y: int, alive: bool)
      modifies this
      ensures updates == old(updates) + [Update(x, y, alive)]
      ensures world == old(world) && liveCellCount == old(liveCellCount)
      ensures dirtyChunks == old(dirtyChunks) && positions == old(positions)
      ensures speedLevel == old(speedLevel) && skipFrames == old(skipFrames)
    {
      updates := updates + [Update(x, y, alive)];
    }

    /** get_chunk: the chunk holding (x, y), inserted zeroed when missing; nothing out of
        range. */
    method GetChunk(x: int, y: int) returns (r: Option<Chunk>)
      requires WorldValid(world)
      modifies this
      ensures (world, r) == LifeWorld.GetChunk(old(world), x, y)
      ensures liveCellCount == old(liveCellCount) && dirtyChunks == old(dirtyChunks)
      ensures positions == old(positions) && updates == old(updates)
      ensures speedLevel == old(speedLevel) && skipFrames == old(skipFrames)
    {
      if x < HALF_MIN || x > HALF_MAX || y < HALF_MIN || y > HALF_MAX {
        return None;
      }
      var key := Pair(ChunkKey(x), ChunkKey(y));
      if key in world {
        return Some(world[key]);
      }
      var chunk := EmptyChunk();
      world := world[key := chunk];
      return Some(chunk);
    }

    /** set_cell: write the cell's bit when it differs, moving live_cell_count and
        recording the chunk as dirty. */
    method SetCell(x: int, y: int, alive: bool)
      requires WorldValid(world)
      modifies this
      ensures Snapshot() == LifeWorld.SetCell(old(Snapshot()), x, y, alive)
      ensures old(Valid()) ==> Valid()
      ensures positions == old(positions) && updates == old(updates)
      ensures speedLevel == old(speedLevel) && skipFrames == old(skipFrames)
    {
      ghost var e := Snapshot();
      if Valid() {
        SetCellKeepsInv(e, x, y, alive);
      }
      if x < HALF_MIN || x > HALF_MAX || y < HALF_MIN || y > HALF_MAX {
        return;
      }
      var chunk := GetChunk(x, y);
      assert (world, chunk) == LifeWorld.GetChunk(e.world, x, y);
      if chunk.None? {
        return;
      }
      var localX := LocalCoord(x);
      var localY := LocalCoord(y);
      var current := ChunkGetBit(chunk.value, localX, localY);
      if current != alive {
        world := world[KeyOf(x, y) := ChunkSetBit(chunk.value, localX, localY, alive)];
        if alive {
          liveCellCount := liveCellCount + 1;
        } else {
          liveCellCount := liveCellCount - 1;
        }
        AddToDirtyChunks(ChunkKey(x), ChunkKey(y));
      }
    }

    /** The i < 8 loop of compute_generation and the add after it: the eight neighbours of
        a live cell, then the cell itself. */
    method AddCellCandidates(worldX: int, worldY: int)
      modifies this
      ensures world == old(world) && liveCellCount == old(liveCellCount)
      ensures dirtyChunks == old(dirtyChunks) && updates == old(updates)
      ensures speedLevel == old(speedLevel) && skipFrames == old(skipFrames)
      ensures positions == old(positions) + Candidates(Pair(worldX, worldY))
    {
      ghost var cs := Candidates(Pair(worldX, worldY));
      var i := 0;
      while i < 8
        invariant 0 <= i <= 8
        invariant world == old(world) && liveCellCount == old(liveCellCount)
        invariant dirtyChunks == old(dirtyChunks) && updates == old(updates)
        invariant speedLevel == old(speedLevel) && skipFrames == old(skipFrames)
        invariant positions == old(positions) + cs[..i]
      {
        AddToPositions(worldX + NEIGHBOR_OFFSETS[i].first, worldY + NEIGHBOR_OFFSETS[i].second);
        assert cs[..i + 1] == cs[..i] + [cs[i]];
        i := i + 1;
      }
      AddToPositions(worldX, worldY);
      assert cs == cs[..8] + [cs[8]];
    }

    /** The body of the x loop: a live cell (x, y) adds its candidates. */
    method VisitCell(chunk: Chunk, key: Pair, x: int, y: int, ghost cells: seq<bool>, ghost prefix: seq<Pair>)
      requires WellFormed(chunk) && |cells| == CELLS && 0 <= x < CHUNK_SIZE && 0 <= y < CHUNK_SIZE
      requires ChunkGetBit(chunk, x, y) == cells[y * CHUNK_SIZE + x]
      requires positions == prefix + RowCandidates(cells, key, y, x)
      modifies this
      ensures world == old(world) && liveCellCount == old(liveCellCount)
      ensures dirtyChunks == old(dirtyChunks) && updates == old(updates)
      ensures speedLevel == old(speedLevel) && skipFrames == old(skipFrames)
      ensures positions == prefix + RowCandidates(cells, key, y, x + 1)
    {
      ghost var done := RowCandidates(cells, key, y, x);
      if ChunkGetBit(chunk, x, y) {
        AddCellCandidates(key.first * CHUNK_SIZE + x, key.second * CHUNK_SIZE + y);
        ghost var added := Candidates(Reported(key, x, y));
        assert positions == prefix + done + added;
        assert RowCandidates(cells, key, y, x + 1) == done + added;
      } else {
        assert RowCandidates(cells, key, y, x + 1) == done;
      }
    }

    /** The x loop of compute_generation over row y of one chunk. */
    method AddRowCandidates(chunk: Chunk, key: Pair, y: int, ghost cells: seq<bool>, ghost prefix: seq<Pair>)
      requires WellFormed(chunk) && |cells| == CELLS && 0 <= y < CHUNK_SIZE
      requires forall x :: 0 <= x < CHUNK_SIZE ==> ChunkGetBit(chunk, x, y) == cells[y * CHUNK_SIZE + x]
      requires positions == prefix
      modifies this
      ensures world == old(world) && liveCellCount == old(liveCellCount)
      ensures dirtyChunks == old(dirtyChunks) && updates == old(updates)
      ensures speedLevel == old(speedLevel) && skipFrames == old(skipFrames)
      ensures positions == prefix + RowCandidates(cells, key, y, CHUNK_SIZE)
    {
      var x := 0;
      while x < CHUNK_SIZE
        invariant 0 <= x <= CHUNK_SIZE
        invariant world == old(world) && liveCellCount == old(liveCellCount)
        invariant dirtyChunks == old(dirtyChunks) && updates == old(updates)
        invariant speedLevel == old(speedLevel) && skipFrames == old(skipFrames)
        invariant positions == prefix + RowCandidates(cells, key, y, x)
      {
        VisitCell(chunk, key, x, y, cells, prefix);
        x := x + 1;
      }
    }

    /** The y loop of compute_generation over one chunk: nine candidates per live cell. */
    method AddChunkCandidates(chunk: Chunk, key: Pair)
      requires WellFormed(chunk)
      modifies this
      ensures world == old(world) && liveCellCount == old(liveCellCount)
      ensures dirtyChunks == old(dirtyChunks) && updates == old(updates)
      ensures speedLevel == old(speedLevel) && skipFrames == old(skipFrames)
      ensures positions == old(positions) + ChunkCandidates(chunk, key)
    {
      ghost var cells := Cells(chunk.bitmap);
      ChunkGetBitCells(chunk);
      var y := 0;
      while y < CHUNK_SIZE
        invariant 0 <= y <= CHUNK_SIZE
        invariant world == old(world) && liveCellCount == old(liveCellCount)
        invariant dirtyChunks == old(dirtyChunks) && updates == old(updates)
        invariant speedLevel == old(speedLevel) && skipFrames == old(skipFrames)
        invariant positions == old(positions) + RowsCandidates(cells, key, y)
      {
        ghost var before := positions;
        AddRowCandidates(chunk, key, y, cells, before);
        assert positions == old(positions) + RowsCandidates(cells, key, y + 1);
        y := y + 1;
      }
    }

    /** One pass of the chunk loops: a chunk with a non-zero live_count adds its
        candidates, an empty one is skipped. */
    method VisitChunk(key: Pair, ghost visited: seq<Pair>, ghost prefix: seq<Pair>)
      requires WorldValid(world) && key in world
      requires forall i :: 0 <= i < |visited| ==> visited[i] in world
      requires positions == prefix + Collect(world, visited)
      modifies this
      ensures world == old(world) && liveCellCount == old(liveCellCount)
      ensures dirtyChunks == old(dirtyChunks) && updates == old(updates)
      ensures speedLevel == old(speedLevel) && skipFrames == old(skipFrames)
      ensures positions == prefix + Collect(world, visited + [key])
    {
      var chunk := world[key];
      ghost var next := visited + [key];
      assert next[..|next| - 1] == visited;
      if chunk.liveCount != 0 {
        AddChunkCandidates(chunk, key);
        assert Collect(world, next) == Collect(world, visited) + ChunkCandidates(chunk, key);
      }
    }

    /** The chunk loops of compute_generation: every chunk, in whatever order the world
        lists them, is visited once. */
    method CollectCandidates()
      requires WorldValid(world)
      modifies this
      ensures world == old(world) && liveCellCount == old(liveCellCount)
      ensures forall p :: p in positions <==> p in old(positions) || p in CandidateSet(world)
      ensures dirtyChunks == old(dirtyChunks) && updates == old(updates)
      ensures speedLevel == old(speedLevel) && skipFrames == old(skipFrames)
    {
      var remaining := world.Keys;
      ghost var visited: seq<Pair> := [];
      while remaining != {}
        invariant remaining <= world.Keys
        invariant forall k :: k in visited <==> k in world && k !in remaining
        invariant forall i :: 0 <= i < |visited| ==> visited[i] in world
        invariant world == old(world) && liveCellCount == old(liveCellCount)
        invariant positions == old(positions) + Collect(world, visited)
        invariant dirtyChunks == old(dirtyChunks) && updates == old(updates)
        invariant speedLevel == old(speedLevel) && skipFrames == old(skipFrames)
        decreases |remaining|
      {
        var key :| key in remaining;
        VisitChunk(key, visited, old(positions));
        remaining := remaining - {key};
        visited := visited + [key];
      }
      CollectAll(world, visited);
    }

    /** compute_generation. Nothing happens when live_cell_count is 0. Otherwise the
        candidates are collected, sorted, collapsed to distinct positions, every one is
        evaluated against the unchanged world, and the updates are committed with set_cell.
        The engine state afterwards is NextGeneration of the state before. */
    method ComputeGeneration()
      requires WorldValid(world)
      modifies this
      ensures Snapshot() == NextGeneration(old(Snapshot()))
      ensures old(Valid()) ==> Valid()
      ensures old(liveCellCount) != 0 ==>
        positions == Enumerate(CandidateSet(old(world))) && updates == Transitions(old(world), positions)
      ensures old(liveCellCount) == 0 ==> positions == old(positions) && updates == old(updates)
      ensures speedLevel == old(speedLevel) && skipFrames == old(skipFrames)
    {
      if liveCellCount == 0 {
        return;
      }
      ghost var e0 := Snapshot();
      if Valid() {
        ApplyUpdatesKeepsInv(e0, Transitions(e0.world, Enumerate(CandidateSet(e0.world))));
      }
      ghost var ts := Transitions(e0.world, Enumerate(CandidateSet(e0.world)));
      assert NextGeneration(e0) == ApplyUpdates(e0, ts);
      GatherCandidates();
      assert Snapshot() == e0;
      if |positions| == 0 {
        assert ts == [];
        return;
      }
      EvaluateCandidates();
      assert updates == ts;
      CommitUpdates(e0);
    }

    /** The first half of compute_generation: both buffers are cleared, every chunk adds
        its candidates, and the list is sorted and collapsed to distinct positions. */
    method GatherCandidates()
      requires WorldValid(world)
      modifies this
      ensures world == old(world) && liveCellCount == old(liveCellCount)
      ensures positions == Enumerate(CandidateSet(world)) && updates == []
      ensures dirtyChunks == old(dirtyChunks)
      ensures speedLevel == old(speedLevel) && skipFrames == old(skipFrames)
    {
      positions := [];
      updates := [];
      CollectCandidates();
      ghost var collected := positions;
      SortCollapseEnumerates(collected, CandidateSet(world));
      if |positions| == 0 {
        return;
      }
      positions := SortPairs(positions);
      CollapseInPlace();
    }

    /** The in-place removal of adjacent duplicates after the sort. */
    method CollapseInPlace()
      modifies this
      ensures positions == Collapse(old(positions))
      ensures world == old(world) && liveCellCount == old(liveCellCount)
      ensures dirtyChunks == old(dirtyChunks) && updates == old(updates)
      ensures speedLevel == old(speedLevel) && skipFrames == old(skipFrames)
    {
      ghost var sorted := positions;
      var uniqueCount := 0;
      var i := 0;
      while i < |positions|
        invariant |positions| == |sorted|
        invariant 0 <= uniqueCount <= i <= |sorted|
        invariant positions[..uniqueCount] == Collapse(sorted[..i])
        invariant positions[i..] == sorted[i..]
        invariant i > 0 ==> positions[i - 1] == sorted[i - 1]
        invariant world == old(world) && liveCellCount == old(liveCellCount)
        invariant dirtyChunks == old(dirtyChunks) && updates == old(updates)
        invariant speedLevel == old(speedLevel) && skipFrames == old(skipFrames)
      {
        assert positions[i] == sorted[i];
        assert sorted[..i + 1][..i] == sorted[..i];
        if i == 0 || positions[i].first != positions[i - 1].first || positions[i].second != positions[i - 1].second {
          positions := positions[uniqueCount := positions[i]];
          uniqueCount := uniqueCount + 1;
        }
        i := i + 1;
      }
      assert sorted[..i] == sorted;
      positions := positions[..uniqueCount];
    }

    /** The j < 8 loop of the evaluation: the live neighbours of (worldX, worldY), each
        read with peek_cell. */
    method CountNeighbors(worldX: int, worldY: int) returns (neighbors: int)
      requires WorldValid(world)
      ensures neighbors == NeighborCount(world, Pair(worldX, worldY))
    {
      neighbors := 0;
      var j := 0;
      while j < 8
        invariant 0 <= j <= 8
        invariant neighbors == NeighborsBelow(world, Pair(worldX, worldY), j)
      {
        var nx := worldX + NEIGHBOR_OFFSETS[j].first;
        var ny := worldY + NEIGHBOR_OFFSETS[j].second;
        assert Shift(Pair(worldX, worldY), NEIGHBOR_OFFSETS[j]) == Pair(nx, ny);
        ghost var live := PeekCell(world, nx, ny);
        assert NeighborsBelow(world, Pair(worldX, worldY), j + 1)
            == NeighborsBelow(world, Pair(worldX, worldY), j) + (if live then 1 else 0);
        if PeekCell(world, nx, ny) {
          neighbors := neighbors + 1;
        }
        j := j + 1;
      }
    }

    /** The body of the evaluation loop: the rule applied to one position; an update is
        recorded only for a cell that changes. */
    method EvaluateCell(worldX: int, worldY: int)
      requires WorldValid(world)
      modifies this
      ensures world == old(world) && liveCellCount == old(liveCellCount)
      ensures dirtyChunks == old(dirtyChunks) && positions == old(positions)
      ensures speedLevel == old(speedLevel) && skipFrames == old(skipFrames)
      ensures updates == old(updates) + Evaluate(world, Pair(worldX, worldY))
    {
      var neighbors := CountNeighbors(worldX, worldY);
      var current := PeekCell(world, worldX, worldY);
      if current {
        if neighbors < 2 || neighbors > 3 {
          AddToUpdates(worldX, worldY, false);
        }
      } else {
        if neighbors == 3 {
          AddToUpdates(worldX, worldY, true);
        }
      }
    }

    /** The i-th pass of the evaluation loop. */
    method EvaluateAt(i: int, ghost prefix: seq<Update>)
      requires WorldValid(world) && 0 <= i < |positions|
      requires updates == prefix + Transitions(world, positions[..i])
      modifies this
      ensures world == old(world) && liveCellCount == old(liveCellCount)
      ensures dirtyChunks == old(dirtyChunks) && positions == old(positions)
      ensures speedLevel == old(speedLevel) && skipFrames == old(skipFrames)
      ensures updates == prefix + Transitions(world, positions[..i + 1])
    {
      TransitionsStep(world, positions, i);
      EvaluateCell(positions[i].first, positions[i].second);
    }

    /** The evaluation loop: every position is evaluated against the unchanged world. */
    method EvaluateCandidates()
      requires WorldValid(world)
      modifies this
      ensures world == old(world) && liveCellCount == old(liveCellCount)
      ensures updates == old(updates) + Transitions(world, positions)
      ensures dirtyChunks == old(dirtyChunks) && positions == old(positions)
      ensures speedLevel == old(speedLevel) && skipFrames == old(skipFrames)
    {
      var i := 0;
      while i < |positions|
        invariant 0 <= i <= |positions|
        invariant world == old(world) && liveCellCount == old(liveCellCount)
        invariant updates == old(updates) + Transitions(world, positions[..i])
        invariant dirtyChunks == old(dirtyChunks) && positions == old(positions)
        invariant speedLevel == old(speedLevel) && skipFrames == old(skipFrames)
      {
        EvaluateAt(i, old(updates));
        i := i + 1;
      }
      assert positions[..i] == positions;
    }

    /** The commit loop: set_cell for every recorded update, in order. */
    method CommitUpdates(ghost e0: Engine)
      requires WorldValid(world) && Snapshot() == e0
      modifies this
      ensures Snapshot() == ApplyUpdates(e0, updates)
      ensures positions == old(positions) && updates == old(updates)
      ensures speedLevel == old(speedLevel) && skipFrames == old(skipFrames)
    {
      var i := 0;
      while i < |updates|
        invariant 0 <= i <= |updates|
        invariant WorldValid(world)
        invariant WorldValid(e0.world)
        invariant Snapshot() == ApplyUpdates(e0, updates[..i])
        invariant positions == old(positions) && updates == old(updates)
        invariant speedLevel == old(speedLevel) && skipFrames == old(skipFrames)
      {
        SetCell(updates[i].x, updates[i].y, updates[i].alive);
        assert updates[..i + 1][..i] == updates[..i];
        i := i + 1;
      }
      assert updates[..i] == updates;
    }
  }
}
