/**
 * Coordinate arithmetic of the sparse Game-of-Life engine (LifeGame.c): C's truncating
 * division and remainder, the chunk key and local offset of a world coordinate, the
 * range guards, and the three-way comparison `pair_compare` used to sort candidates.
 */
module LifeCoords {
  import opened LifeChunk

  const INT_MIN: int := -0x8000_0000
  const INT_MAX: int := 0x7fff_ffff
  /** INT_MIN / 2 and INT_MAX / 2 in C (division truncates toward zero) */
  const HALF_MIN: int := -0x4000_0000
  const HALF_MAX: int := 0x3fff_ffff

  /** A pair of ints, the `Pair` struct: a chunk key or a world position. */
  datatype Pair = Pair(first: int, second: int)

  /** The chunk coordinate of a world coordinate, `world_x / CHUNK_SIZE` in C: the
      quotient truncated toward zero. */
  function ChunkKey(x: int): (k: int)
    ensures x >= 0 ==> k * CHUNK_SIZE <= x < k * CHUNK_SIZE + CHUNK_SIZE
    ensures x < 0 ==> k * CHUNK_SIZE - CHUNK_SIZE < x <= k * CHUNK_SIZE
  {
    if x >= 0 then x / CHUNK_SIZE else -((-x) / CHUNK_SIZE)
  }

  /** `world_x % CHUNK_SIZE` in C: the remainder takes the sign of the dividend. */
  function CRem(x: int): (r: int)
    ensures x == ChunkKey(x) * CHUNK_SIZE + r
    ensures -CHUNK_SIZE < r < CHUNK_SIZE && (x >= 0 ==> r >= 0) && (x < 0 ==> r <= 0)
  {
    x - ChunkKey(x) * CHUNK_SIZE
  }

  /** The local coordinate inside the chunk: the C remainder, plus CHUNK_SIZE when
      negative. It is the floored remainder. */
  function LocalCoord(x: int): (l: int)
    ensures 0 <= l < CHUNK_SIZE
    ensures l == x % CHUNK_SIZE
  {
    var r := CRem(x);
    if r < 0 then r + CHUNK_SIZE else r
  }

  /** The guard of `get_chunk_if_exists`, `get_chunk` and `set_cell`. */
  predicate InChunkRange(x: int, y: int) {
    HALF_MIN <= x <= HALF_MAX && HALF_MIN <= y <= HALF_MAX
  }

  /** The first guard of `peek_cell`. */
  predicate InPeekRange(x: int, y: int) {
    INT_MIN + CHUNK_SIZE <= x <= INT_MAX - CHUNK_SIZE && INT_MIN + CHUNK_SIZE <= y <= INT_MAX - CHUNK_SIZE
  }

  /** The key of the chunk a world position is stored in. */
  function KeyOf(x: int, y: int): Pair {
    Pair(ChunkKey(x), ChunkKey(y))
  }

  /** Where `compute_generation` and `save_world` report local cell (lx, ly) of chunk k:
      `key * CHUNK_SIZE + local`. */
  function Reported(k: Pair, lx: int, ly: int): Pair {
    Pair(k.first * CHUNK_SIZE + lx, k.second * CHUNK_SIZE + ly)
  }

  /** The coordinate at which a world coordinate's cell is reported back. It is the
      coordinate itself when it is non-negative or a multiple of CHUNK_SIZE, and
      CHUNK_SIZE more otherwise: the truncating key and the floored local offset
      disagree there. */
  lemma ReportedCoord(x: int)
    ensures ChunkKey(x) * CHUNK_SIZE + LocalCoord(x) ==
      if x >= 0 || x % CHUNK_SIZE == 0 then x else x + CHUNK_SIZE
  {
  }

  /** Two coordinates select the same (chunk, local) cell exactly when they are equal,
      as long as both are non-negative. */
  lemma {:induction false} NonNegativeCellsDistinct(x: int, x': int)
    requires x >= 0 && x' >= 0
    ensures (ChunkKey(x) == ChunkKey(x') && LocalCoord(x) == LocalCoord(x')) <==> x == x'
  {
    ReportedCoord(x);
    ReportedCoord(x');
  }

  /** A cell reported at a non-negative key is found again at its reported coordinate. */
  lemma ReportedRoundTrip(k: int, l: int)
    requires k >= 0 && 0 <= l < CHUNK_SIZE
    ensures ChunkKey(k * CHUNK_SIZE + l) == k && LocalCoord(k * CHUNK_SIZE + l) == l
  {
  }

  /** -1 and CHUNK_SIZE - 1 are stored in the same cell: chunk 0, local offset 31. */
  lemma NegativeCoordinatesAlias()
    ensures ChunkKey(-1) == ChunkKey(CHUNK_SIZE - 1) == 0
    ensures LocalCoord(-1) == LocalCoord(CHUNK_SIZE - 1) == CHUNK_SIZE - 1
  {
  }

  /** The chunk coordinate the local offset's +CHUNK_SIZE correction calls for: the
      quotient rounded down rather than toward zero. */
  function FloorKey(x: int): (k: int)
    ensures k * CHUNK_SIZE <= x < k * CHUNK_SIZE + CHUNK_SIZE
    ensures x >= 0 ==> k == ChunkKey(x)
  {
    x / CHUNK_SIZE
  }

  /** With the rounded-down key every coordinate, negative ones included, is reported at
      itself and has a cell of its own. */
  lemma FloorCellsDistinct(x: int, x': int)
    ensures FloorKey(x) * CHUNK_SIZE + LocalCoord(x) == x
    ensures (FloorKey(x) == FloorKey(x') && LocalCoord(x) == LocalCoord(x')) <==> x == x'
  {
  }

  /** Every position in chunk range also passes the `peek_cell` guard. */
  lemma ChunkRangeInsidePeekRange(x: int, y: int)
    requires InChunkRange(x, y)
    ensures InPeekRange(x, y)
  {
  }

  // ---------------------------------------------------------------------------
  // pair_compare

  /** Lexicographic order on pairs: first coordinate, then second. */
  predicate PairLess(a: Pair, b: Pair) {
    a.first < b.first || (a.first == b.first && a.second < b.second)
  }

  /** `pair_compare` on mathematical integers: the difference of the first coordinates,
      or of the second when the first are equal. Its sign is the lexicographic order. */
  function PairCompare(a: Pair, b: Pair): (r: int)
    ensures r < 0 <==> PairLess(a, b)
    ensures r == 0 <==> a == b
    ensures r > 0 <==> PairLess(b, a)
  {
    if a.first != b.first then a.first - b.first else a.second - b.second
  }

  /** A 32-bit two's-complement int holding the low 32 bits of v. */
  function Wrap32(v: int): (r: int)
    ensures INT_MIN <= r <= INT_MAX
    ensures (r - v) % 0x1_0000_0000 == 0
  {
    var m := v % 0x1_0000_0000;
    if m > INT_MAX then m - 0x1_0000_0000 else m
  }

  /** `pair_compare` as the C code computes it: the subtraction wraps around in 32 bits
      (signed overflow, in practice two's complement). The result is an int congruent to
      the true difference modulo 2^32, and it is 0 exactly for equal pairs: the wrap-around
      can turn the sign but never makes different pairs compare equal. */
  function PairCompareC(a: Pair, b: Pair): (r: int)
    requires INT_MIN <= a.first <= INT_MAX && INT_MIN <= a.second <= INT_MAX
    requires INT_MIN <= b.first <= INT_MAX && INT_MIN <= b.second <= INT_MAX
    ensures INT_MIN <= r <= INT_MAX && (r - PairCompare(a, b)) % 0x1_0000_0000 == 0
    ensures r == 0 <==> a == b
  {
    if a.first != b.first then Wrap32(a.first - b.first) else Wrap32(a.second - b.second)
  }

  /** While the differences fit in an int the C comparison is the mathematical one. */
  lemma PairCompareCAgrees(a: Pair, b: Pair)
    requires INT_MIN <= a.first <= INT_MAX && INT_MIN <= a.second <= INT_MAX
    requires INT_MIN <= b.first <= INT_MAX && INT_MIN <= b.second <= INT_MAX
    requires INT_MIN <= a.first - b.first <= INT_MAX && INT_MIN <= a.second - b.second <= INT_MAX
    ensures PairCompareC(a, b) == PairCompare(a, b)
  {
  }

  /** Candidates lie one cell beyond [INT_MIN/2, INT_MAX/2]. With live cells near both
      ends of the range the C comparison puts the larger candidate first and stops being
      transitive: a > c and c > b, yet a < b. */
  lemma PairCompareOverflow()
    ensures var a := Pair(HALF_MAX + 1, 0);
      var b := Pair(HALF_MIN - 1, 0);
      var c := Pair(0, 0);
      && PairLess(b, a)
      && PairCompareC(a, b) < 0
      && PairCompareC(a, c) > 0 && PairCompareC(c, b) > 0
  {
    assert Wrap32(0x8000_0001) == -0x7fff_ffff;
  }
}
