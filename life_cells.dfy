/**
 * What the cell accessors of LifeGame.c promise: lookups find what `get_chunk` inserted,
 * `set_cell` writes exactly one bit and keeps `live_cell_count` equal to the number of
 * live cells, and no-op writes change nothing but may create the chunk.
 */
module LifeCells {
  import opened LifeChunk
  import opened LifeCoords
  import opened LifeWorld

  /** After get_chunk, get_chunk_if_exists returns the same chunk; before, it returned it
      already when it existed. */
  lemma GetChunkThenLookup(w: World, x: int, y: int)
    requires WorldValid(w)
    ensures GetChunkIfExists(GetChunk(w, x, y).0, x, y) == GetChunk(w, x, y).1
    ensures GetChunkIfExists(w, x, y).Some? ==> GetChunk(w, x, y) == (w, GetChunkIfExists(w, x, y))
    ensures InChunkRange(x, y) && KeyOf(x, y) !in w ==>
      GetChunk(w, x, y).1 == Some(EmptyChunk()) && GetChunk(w, x, y).0 == w[KeyOf(x, y) := EmptyChunk()]
  {
  }

  /** The effect of set_cell on the counter, the dirty list and the set of chunks. */
  lemma SetCellEffect(e: Engine, x: int, y: int, alive: bool)
    requires WorldValid(e.world)
    ensures var r := SetCell(e, x, y, alive);
      var changed := InChunkRange(x, y) && PeekCell(e.world, x, y) != alive;
      && r.liveCellCount == e.liveCellCount + (if changed then (if alive then 1 else -1) else 0)
      && r.dirtyChunks == e.dirtyChunks + (if changed then [KeyOf(x, y)] else [])
      && r.world.Keys == (if InChunkRange(x, y) then e.world.Keys + {KeyOf(x, y)} else e.world.Keys)
      && (!InChunkRange(x, y) ==> r == e)
  {
    if InChunkRange(x, y) {
      var chunk := GetChunk(e.world, x, y).1.value;
      assert ChunkGetBit(chunk, LocalCoord(x), LocalCoord(y)) == PeekCell(e.world, x, y);
    }
  }

  /** After set_cell(x, y, alive), the cell (x, y) reads `alive` and every cell stored in a
      different bit reads as before. */
  lemma SetCellPeek(e: Engine, x: int, y: int, alive: bool)
    requires WorldValid(e.world)
    ensures var r := SetCell(e, x, y, alive);
      forall u, v :: PeekCell(r.world, u, v) == if SameCell(u, v, x, y) then alive else PeekCell(e.world, u, v)
  {
    var r := SetCell(e, x, y, alive);
    if InChunkRange(x, y) {
      var k := KeyOf(x, y);
      var chunk := GetChunk(e.world, x, y).1.value;
      var pos := CellPos(x, y);
      assert Cells(r.world[k].bitmap) == Cells(chunk.bitmap)[pos := alive] by {
        if Cells(chunk.bitmap)[pos] == alive {
          assert r.world[k] == chunk;
        }
      }
      forall u, v
        ensures PeekCell(r.world, u, v) == if SameCell(u, v, x, y) then alive else PeekCell(e.world, u, v)
      {
        if InChunkRange(u, v) && KeyOf(u, v) == k && k !in e.world {
          assert !Cells(chunk.bitmap)[CellPos(u, v)];
        }
      }
    }
  }

  /** For non-negative coordinates the cell written is exactly the cell named: (x, y)
      reads `alive` and every other non-negative cell reads as before. */
  lemma SetCellPeekNonNegative(e: Engine, x: int, y: int, alive: bool, u: int, v: int)
    requires WorldValid(e.world) && InChunkRange(x, y) && x >= 0 && y >= 0 && u >= 0 && v >= 0
    ensures PeekCell(SetCell(e, x, y, alive).world, u, v) ==
      if u == x && v == y then alive else PeekCell(e.world, u, v)
  {
    SetCellPeek(e, x, y, alive);
    NonNegativeCellsDistinct(x, u);
    NonNegativeCellsDistinct(y, v);
  }

  /** set_cell(-1, 0) writes the bit that set_cell(CHUNK_SIZE - 1, 0) writes. */
  lemma SetCellAliases(e: Engine)
    requires WorldValid(e.world)
    ensures PeekCell(SetCell(e, -1, 0, true).world, CHUNK_SIZE - 1, 0)
  {
    NegativeCoordinatesAlias();
    SetCellPeek(e, -1, 0, true);
    assert SameCell(CHUNK_SIZE - 1, 0, -1, 0);
  }

  // ---------------------------------------------------------------------------
  // live_cell_count

  /** The sum of the live counts of the chunks under the keys K. */
  ghost function SumOver(w: World, K: set<Pair>): int
    requires K <= w.Keys
    decreases |K|
  {
    if K == {} then 0
    else
      var k :| k in K;
      w[k].liveCount + SumOver(w, K - {k})
  }

  /** The sum of all chunks' live counts. */
  ghost function SumLive(w: World): int {
    SumOver(w, w.Keys)
  }

  /** The engine invariant: every chunk is valid and live_cell_count is the sum of the
      chunks' live counts, that is the number of live cells. */
  ghost predicate Inv(e: Engine) {
    WorldValid(e.world) && e.liveCellCount == SumLive(e.world)
  }

  /** SumOver can be split at any key, not only the one it happens to pick. */
  lemma {:induction false} SumOverRemove(w: World, K: set<Pair>, k: Pair)
    requires K <= w.Keys && k in K
    ensures SumOver(w, K) == w[k].liveCount + SumOver(w, K - {k})
    decreases |K|
  {
    var j :| j in K && SumOver(w, K) == w[j].liveCount + SumOver(w, K - {j});
    if j != k {
      SumOverRemove(w, K - {j}, k);
      SumOverRemove(w, K - {k}, j);
      assert K - {j} - {k} == K - {k} - {j};
    }
  }

  /** Sums over the same keys of two worlds that agree on those keys are equal. */
  lemma {:induction false} SumOverSame(w: World, w': World, K: set<Pair>)
    requires K <= w.Keys && K <= w'.Keys
    requires forall k :: k in K ==> w[k].liveCount == w'[k].liveCount
    ensures SumOver(w, K) == SumOver(w', K)
    decreases |K|
  {
    if K != {} {
      var j :| j in K && SumOver(w, K) == w[j].liveCount + SumOver(w, K - {j});
      SumOverRemove(w', K, j);
      SumOverSame(w, w', K - {j});
    }
  }

  lemma SumLiveUpdate(w: World, k: Pair, c: Chunk)
    ensures SumLive(w[k := c]) == SumLive(w) - (if k in w then w[k].liveCount else 0) + c.liveCount
  {
    var w' := w[k := c];
    SumOverRemove(w', w'.Keys, k);
    var K := w.Keys - {k};
    assert w'.Keys - {k} == K;
    SumOverSame(w, w', K);
    if k in w {
      SumOverRemove(w, w.Keys, k);
    } else {
      assert w.Keys == K;
    }
  }

  /** set_cell keeps the engine invariant. */
  lemma SetCellKeepsInv(e: Engine, x: int, y: int, alive: bool)
    requires Inv(e)
    ensures Inv(SetCell(e, x, y, alive))
  {
    var r := SetCell(e, x, y, alive);
    assert WorldValid(r.world);
    if InChunkRange(x, y) {
      SetCellCount(e, x, y, alive);
    }
  }

  lemma SetCellCount(e: Engine, x: int, y: int, alive: bool)
    requires Inv(e) && InChunkRange(x, y)
    ensures SetCell(e, x, y, alive).liveCellCount == SumLive(SetCell(e, x, y, alive).world)
  {
    var k := KeyOf(x, y);
    var (w, chunk) := GetChunk(e.world, x, y);
    assert SumLive(w) == e.liveCellCount by {
      if k !in e.world {
        SumLiveUpdate(e.world, k, EmptyChunk());
      }
    }
    var lx := LocalCoord(x);
    var ly := LocalCoord(y);
    if ChunkGetBit(chunk.value, lx, ly) != alive {
      var c' := ChunkSetBit(chunk.value, lx, ly, alive);
      SumLiveUpdate(w, k, c');
    }
  }

  /** The commit loop keeps the engine invariant. */
  lemma {:induction false} ApplyUpdatesKeepsInv(e: Engine, us: seq<Update>)
    requires Inv(e)
    ensures Inv(ApplyUpdates(e, us))
  {
    if us != [] {
      var u := us[|us| - 1];
      ApplyUpdatesKeepsInv(e, us[..|us| - 1]);
      SetCellKeepsInv(ApplyUpdates(e, us[..|us| - 1]), u.x, u.y, u.alive);
    }
  }

  /** Each chunk's count is part of the sum. */
  lemma SumLiveAtLeast(w: World, k: Pair)
    requires WorldValid(w) && k in w
    ensures SumLive(w) >= w[k].liveCount
  {
    SumOverRemove(w, w.Keys, k);
    SumOverNonNegative(w, w.Keys - {k});
  }

  lemma {:induction false} SumOverNonNegative(w: World, K: set<Pair>)
    requires WorldValid(w) && K <= w.Keys
    ensures SumOver(w, K) >= 0
    decreases |K|
  {
    if K != {} {
      var k :| k in K && SumOver(w, K) == w[k].liveCount + SumOver(w, K - {k});
      SumOverNonNegative(w, K - {k});
    }
  }

  /** With the invariant, a zero live_cell_count means no cell is alive. */
  lemma NoLiveCells(e: Engine, x: int, y: int)
    requires Inv(e) && e.liveCellCount == 0
    ensures !PeekCell(e.world, x, y)
  {
    if PeekCell(e.world, x, y) {
      var k := KeyOf(x, y);
      SetBitMeansLive(e.world[k], CellPos(x, y));
      SumLiveAtLeast(e.world, k);
    }
  }
}
