/**
 * The world of the sparse Game-of-Life engine (LifeGame.c) as values: a map from chunk
 * keys to chunks in place of the two-level list of rows and chunks, the cell accessors
 * `get_chunk_if_exists`, `get_chunk`, `peek_cell`, `set_cell`, and the generation step
 * of `compute_generation` as functions. The class in LifeEngine carries out the same
 * steps in place and is proved equal to these functions.
 */
module LifeWorld {
  import opened LifeChunk
  import opened LifeCoords

  datatype Option<T> = None | Some(value: T)

  /** The `Update` struct: a cell and its new state. */
  datatype Update = Update(x: int, y: int, alive: bool)

  /** Chunks by key (chunk_x, chunk_y). */
  type World = map<Pair, Chunk>

  predicate WorldValid(w: World) {
    forall k :: k in w ==> Valid(w[k])
  }

  /** The engine's state that the cell accessors touch: the world, `live_cell_count`
      and the list of dirty chunk keys. */
  datatype Engine = Engine(world: World, liveCellCount: int, dirtyChunks: seq<Pair>)

  /** The position of a world cell inside its chunk: local_y * CHUNK_SIZE + local_x. */
  function CellPos(x: int, y: int): (pos: int)
    ensures 0 <= pos < CELLS
  {
    LocalCoord(y) * CHUNK_SIZE + LocalCoord(x)
  }

  /** Two world positions that `set_cell` and `peek_cell` map to the same bit. */
  predicate SameCell(u: int, v: int, x: int, y: int) {
    InChunkRange(u, v) && InChunkRange(x, y) && KeyOf(u, v) == KeyOf(x, y) && CellPos(u, v) == CellPos(x, y)
  }

  /** get_chunk_if_exists: the chunk holding the position, if the position is in range and
      its chunk exists. It never inserts. */
  function GetChunkIfExists(w: World, x: int, y: int): (r: Option<Chunk>)
    ensures r.Some? <==> InChunkRange(x, y) && KeyOf(x, y) in w
    ensures r.Some? ==> r.value == w[KeyOf(x, y)]
  {
    if !InChunkRange(x, y) then None
    else if KeyOf(x, y) in w then Some(w[KeyOf(x, y)])
    else None
  }

  /** get_chunk: the existing chunk, or a zeroed chunk inserted under the key; nothing when
      the position is out of range. Allocation is taken to succeed. */
  function GetChunk(w: World, x: int, y: int): (r: (World, Option<Chunk>))
    requires WorldValid(w)
    ensures WorldValid(r.0)
    ensures r.1.Some? <==> InChunkRange(x, y)
    ensures r.1.Some? ==> KeyOf(x, y) in r.0 && r.0[KeyOf(x, y)] == r.1.value
    ensures r.0.Keys == if InChunkRange(x, y) then w.Keys + {KeyOf(x, y)} else w.Keys
    ensures forall k :: k in w ==> r.0[k] == w[k]
  {
    if !InChunkRange(x, y) then (w, None)
    else if KeyOf(x, y) in w then (w, Some(w[KeyOf(x, y)]))
    else (w[KeyOf(x, y) := EmptyChunk()], Some(EmptyChunk()))
  }

  /** peek_cell: the state of a cell; false outside the peek range and when the chunk does
      not exist. Since the chunk range lies inside the peek range, the answer is the bit of
      the cell's chunk exactly when the position is in chunk range. */
  function PeekCell(w: World, x: int, y: int): (r: bool)
    requires WorldValid(w)
    ensures r <==> InChunkRange(x, y) && KeyOf(x, y) in w && Cells(w[KeyOf(x, y)].bitmap)[CellPos(x, y)]
  {
    if !InPeekRange(x, y) then false
    else
      match GetChunkIfExists(w, x, y)
      case None => false
      case Some(c) => ChunkGetBit(c, LocalCoord(x), LocalCoord(y))
  }

  /** set_cell: out of range nothing happens. Otherwise the chunk is fetched or created,
      and only if the bit differs from `alive` is it written, `live_cell_count` moved by
      one and the chunk key appended to the dirty list. */
  function SetCell(e: Engine, x: int, y: int, alive: bool): (r: Engine)
    requires WorldValid(e.world)
    ensures WorldValid(r.world)
  {
    if !InChunkRange(x, y) then e
    else
      var (w, chunk) := GetChunk(e.world, x, y);
      var lx := LocalCoord(x);
      var ly := LocalCoord(y);
      var current := ChunkGetBit(chunk.value, lx, ly);
      if current != alive then
        var c' := ChunkSetBit(chunk.value, lx, ly, alive);
        Engine(w[KeyOf(x, y) := c'], e.liveCellCount + (if alive then 1 else -1), e.dirtyChunks + [KeyOf(x, y)])
      else
        Engine(w, e.liveCellCount, e.dirtyChunks)
  }

  // ---------------------------------------------------------------------------
  // The generation step

  /** neighbor_offsets, in the source's order. */
  const NEIGHBOR_OFFSETS: seq<Pair> :=
    [Pair(-1, -1), Pair(0, -1), Pair(1, -1), Pair(-1, 0), Pair(1, 0), Pair(-1, 1), Pair(0, 1), Pair(1, 1)]

  function Shift(p: Pair, d: Pair): Pair {
    Pair(p.first + d.first, p.second + d.second)
  }

  /** The nine candidates a live cell contributes: its eight neighbours, then itself. */
  function Candidates(p: Pair): (r: seq<Pair>)
    ensures |r| == 9
  {
    seq(8, i requires 0 <= i < 8 => Shift(p, NEIGHBOR_OFFSETS[i])) + [p]
  }

  /** The candidates of the live cells in row y of a chunk, columns below n, in the order
      of the x loop; cell (x, y) of chunk k is reported at k * CHUNK_SIZE + (x, y). */
  function RowCandidates(cells: seq<bool>, k: Pair, y: int, n: int): seq<Pair>
    requires |cells| == CELLS && 0 <= y < CHUNK_SIZE && 0 <= n <= CHUNK_SIZE
  {
    if n == 0 then []
    else
      RowCandidates(cells, k, y, n - 1) +
        (if cells[y * CHUNK_SIZE + n - 1] then Candidates(Reported(k, n - 1, y)) else [])
  }

  /** The candidates of the rows below m, in the order of the y loop. */
  function RowsCandidates(cells: seq<bool>, k: Pair, m: int): seq<Pair>
    requires |cells| == CELLS && 0 <= m <= CHUNK_SIZE
  {
    if m == 0 then [] else RowsCandidates(cells, k, m - 1) + RowCandidates(cells, k, m - 1, CHUNK_SIZE)
  }

  /** The candidates a chunk contributes: nine for every live cell. */
  function ChunkCandidates(c: Chunk, k: Pair): seq<Pair>
    requires WellFormed(c)
  {
    RowsCandidates(Cells(c.bitmap), k, CHUNK_SIZE)
  }

  /** The candidate list collected over chunks visited in the given key order; chunks with
      a zero live_count are skipped. */
  function Collect(w: World, keys: seq<Pair>): seq<Pair>
    requires WorldValid(w) && forall i :: 0 <= i < |keys| ==> keys[i] in w
  {
    if keys == [] then []
    else
      var k := keys[|keys| - 1];
      Collect(w, keys[..|keys| - 1]) + (if w[k].liveCount == 0 then [] else ChunkCandidates(w[k], k))
  }

  /** Every candidate of the world, whatever order the chunks are visited in. */
  ghost function CandidateSet(w: World): set<Pair>
    requires WorldValid(w)
  {
    set k, p | k in w && p in ChunkCandidates(w[k], k) :: p
  }

  /** Sorted by PairCompare (each element not below the one before). */
  predicate Sorted(s: seq<Pair>) {
    forall i, j :: 0 <= i < j < |s| ==> !PairLess(s[j], s[i])
  }

  /** Strictly increasing under PairCompare: sorted and without repetition. */
  predicate StrictlySorted(s: seq<Pair>) {
    forall i, j :: 0 <= i < j < |s| ==> PairLess(s[i], s[j])
  }

  /** The candidates in increasing order, each once: what the sort and the collapse of
      adjacent duplicates leave in positions_to_check. */
  ghost function Enumerate(S: set<Pair>): (r: seq<Pair>)
    ensures StrictlySorted(r) && (forall p :: p in r <==> p in S) && |r| == |S|
    decreases |S|
  {
    if S == {} then []
    else
      MinimumExists(S);
      var m :| m in S && forall q :: q in S ==> !PairLess(q, m);
      var rest := Enumerate(S - {m});
      assert forall q :: q in rest ==> PairLess(m, q);
      [m] + rest
  }

  lemma {:induction false} MinimumExists(S: set<Pair>)
    requires S != {}
    ensures exists m :: m in S && forall q :: q in S ==> !PairLess(q, m)
    decreases |S|
  {
    var x :| x in S;
    if S - {x} != {} {
      MinimumExists(S - {x});
      var m :| m in S - {x} && forall q :: q in S - {x} ==> !PairLess(q, m);
      if PairLess(x, m) {
        forall q | q in S
          ensures !PairLess(q, x)
        {
          if q != x && PairLess(q, x) {
            PairLessTransitive(q, x, m);
          }
        }
      } else {
        assert forall q :: q in S ==> !PairLess(q, m);
      }
    } else {
      assert S == {x};
    }
  }

  lemma PairLessTransitive(a: Pair, b: Pair, c: Pair)
    requires PairLess(a, b) && PairLess(b, c)
    ensures PairLess(a, c)
  {
  }

  /** The number of live cells among the first j neighbours, counted with peek_cell. */
  function NeighborsBelow(w: World, p: Pair, j: int): (n: int)
    requires WorldValid(w) && 0 <= j <= 8
    ensures 0 <= n <= j
  {
    if j == 0 then 0
    else
      var q := Shift(p, NEIGHBOR_OFFSETS[j - 1]);
      NeighborsBelow(w, p, j - 1) + (if PeekCell(w, q.first, q.second) then 1 else 0)
  }

  function NeighborCount(w: World, p: Pair): int
    requires WorldValid(w)
  {
    NeighborsBelow(w, p, 8)
  }

  /** The update the evaluation loop records for one candidate: a live cell with fewer
      than 2 or more than 3 live neighbours dies, a dead cell with exactly 3 is born, any
      other cell records nothing. So at most one update is recorded, for p itself, and it
      changes p's state. */
  function Evaluate(w: World, p: Pair): (r: seq<Update>)
    requires WorldValid(w)
    ensures |r| <= 1
    ensures forall k :: 0 <= k < |r| ==> r[k] == Update(p.first, p.second, !PeekCell(w, p.first, p.second))
  {
    var neighbors := NeighborCount(w, p);
    if PeekCell(w, p.first, p.second) then
      if neighbors < 2 || neighbors > 3 then [Update(p.first, p.second, false)] else []
    else
      if neighbors == 3 then [Update(p.first, p.second, true)] else []
  }

  /** The update list of the evaluation loop over the candidates, all read from one world:
      at most one update per candidate, each changing its cell's state in w. */
  function Transitions(w: World, ps: seq<Pair>): (r: seq<Update>)
    requires WorldValid(w)
    ensures |r| <= |ps|
    ensures forall k :: 0 <= k < |r| ==> r[k].alive != PeekCell(w, r[k].x, r[k].y)
  {
    if ps == [] then [] else Transitions(w, ps[..|ps| - 1]) + Evaluate(w, ps[|ps| - 1])
  }

  /** One more position evaluated appends its update list. */
  lemma TransitionsStep(w: World, ps: seq<Pair>, i: int)
    requires WorldValid(w) && 0 <= i < |ps|
    ensures Transitions(w, ps[..i + 1]) == Transitions(w, ps[..i]) + Evaluate(w, ps[i])
  {
    assert ps[..i + 1][..i] == ps[..i];
  }

  /** The commit loop: set_cell for every update in order. */
  function ApplyUpdates(e: Engine, us: seq<Update>): (r: Engine)
    requires WorldValid(e.world)
    ensures WorldValid(r.world)
  {
    if us == [] then e
    else
      var u := us[|us| - 1];
      SetCell(ApplyUpdates(e, us[..|us| - 1]), u.x, u.y, u.alive)
  }

  /** compute_generation: nothing when live_cell_count is 0; otherwise every candidate is
      evaluated against the current world and then the updates are committed. */
  ghost function NextGeneration(e: Engine): (r: Engine)
    requires WorldValid(e.world)
    ensures WorldValid(r.world)
  {
    if e.liveCellCount == 0 then e
    else ApplyUpdates(e, Transitions(e.world, Enumerate(CandidateSet(e.world))))
  }
}
