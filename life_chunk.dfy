/**
 * The chunk of the sparse Game-of-Life engine (LifeGame.c): a CHUNK_SIZE x CHUNK_SIZE
 * bitmap packed into 32-bit words, with a live-cell counter and a dirty flag.
 * This is the generic build configuration of the source (CHUNK_SIZE 32, uint32_t words).
 */
module LifeChunk {

  const CHUNK_SIZE: int := 32
  const BITS_PER_UNIT: int := 32
  /** Number of cells in one chunk, CHUNK_SIZE * CHUNK_SIZE */
  const CELLS: int := 1024
  /** Words in the bitmap, (CELLS + BITS_PER_UNIT - 1) / BITS_PER_UNIT */
  const BITMAP_SIZE: int := 32

  datatype Chunk = Chunk(bitmap: seq<bv32>, dirty: bool, liveCount: int)

  /** The bitmap has the size of the C array `bitmap[BITMAP_SIZE]`. */
  predicate WellFormed(c: Chunk) {
    |c.bitmap| == BITMAP_SIZE
  }

  /** Bit `i` of a word. */
  predicate WordBit(w: bv32, i: bv32)
    requires i < 32
  {
    (w >> i) & 1 == 1
  }

  /** A bit offset 0 .. 31 converted to the word type, as the shift operand. */
  function BitIndex(i: int): (b: bv32)
    requires 0 <= i < 32
    ensures b < 32
  {
    OffsetValue(i);
    Offset(i)
  }

  function Offset(i: int): bv32
    requires 0 <= i < 32
  {
    if i == 0 then 0 else Offset(i - 1) + 1
  }

  lemma {:induction false} OffsetValue(i: int)
    requires 0 <= i < 32
    ensures Offset(i) as int == i
  {
    if i > 0 {
      OffsetValue(i - 1);
    }
  }

  /** Bit number `pos` of the packed bitmap (word pos / 32, offset pos % 32). */
  predicate BitAt(bitmap: seq<bv32>, pos: int)
    requires |bitmap| == BITMAP_SIZE && 0 <= pos < CELLS
  {
    WordBit(bitmap[pos / BITS_PER_UNIT], BitIndex(pos % BITS_PER_UNIT))
  }

  /** The cells of a bitmap in position order: entry pos is bit pos (CellsAt). */
  function Cells(bitmap: seq<bv32>): (s: seq<bool>)
    requires |bitmap| == BITMAP_SIZE
    ensures |s| == CELLS
  {
    CellsBelow(bitmap, CELLS)
  }

  /** The first n cells of a bitmap. */
  function CellsBelow(bitmap: seq<bv32>, n: int): (s: seq<bool>)
    requires |bitmap| == BITMAP_SIZE && 0 <= n <= CELLS
    ensures |s| == n
  {
    if n == 0 then [] else CellsBelow(bitmap, n - 1) + [BitAt(bitmap, n - 1)]
  }

  lemma {:induction false} CellsBelowAt(bitmap: seq<bv32>, n: int)
    requires |bitmap| == BITMAP_SIZE && 0 <= n <= CELLS
    ensures forall pos :: 0 <= pos < n ==> CellsBelow(bitmap, n)[pos] == BitAt(bitmap, pos)
  {
    if n > 0 {
      CellsBelowAt(bitmap, n - 1);
    }
  }

  /** Entry pos of the cells is bit pos of the packed bitmap. */
  lemma CellsAt(bitmap: seq<bv32>)
    requires |bitmap| == BITMAP_SIZE
    ensures forall pos :: 0 <= pos < CELLS ==> Cells(bitmap)[pos] == BitAt(bitmap, pos)
  {
    CellsBelowAt(bitmap, CELLS);
  }

  lemma CellAt(bitmap: seq<bv32>, pos: int)
    requires |bitmap| == BITMAP_SIZE && 0 <= pos < CELLS
    ensures Cells(bitmap)[pos] == BitAt(bitmap, pos)
  {
    CellsAt(bitmap);
  }

  /** The number of true entries of a sequence. */
  function CountTrue(s: seq<bool>): nat {
    if s == [] then 0 else CountTrue(s[..|s| - 1]) + (if s[|s| - 1] then 1 else 0)
  }

  /** The population count of a bitmap: the number of set bits. */
  function Popcount(bitmap: seq<bv32>): nat
    requires |bitmap| == BITMAP_SIZE
  {
    CountTrue(Cells(bitmap))
  }

  /** The chunk invariant: live_count is the population count of the bitmap. */
  predicate Valid(c: Chunk) {
    WellFormed(c) && c.liveCount == Popcount(c.bitmap)
  }

  /** A chunk as `calloc` returns it: all bits clear, not dirty, live_count 0. */
  function EmptyChunk(): (c: Chunk)
    ensures Valid(c) && !c.dirty
    ensures forall pos :: 0 <= pos < CELLS ==> !Cells(c.bitmap)[pos]
  {
    var words := seq(BITMAP_SIZE, _ => 0 as bv32);
    ZeroWordsClear(words);
    CellsAt(words);
    CountTrueAllFalse(Cells(words));
    Chunk(words, false, 0)
  }

  /** chunk_get_bit: the bit at local position pos = y * CHUNK_SIZE + x, false when pos
      falls outside [0, CHUNK_SIZE * CHUNK_SIZE). */
  function ChunkGetBit(c: Chunk, x: int, y: int): (r: bool)
    requires WellFormed(c)
    ensures r <==> (0 <= y * CHUNK_SIZE + x < CELLS && Cells(c.bitmap)[y * CHUNK_SIZE + x])
  {
    var pos := y * CHUNK_SIZE + x;
    if pos < 0 || pos >= CELLS then false
    else
      var idx := pos / BITS_PER_UNIT;
      CellAt(c.bitmap, pos);
      (c.bitmap[idx] >> BitIndex(pos % BITS_PER_UNIT)) & 1 == 1
  }

  /** Inside the chunk, chunk_get_bit reads the cell at y * CHUNK_SIZE + x. */
  lemma ChunkGetBitCells(c: Chunk)
    requires WellFormed(c)
    ensures forall x, y :: 0 <= x < CHUNK_SIZE && 0 <= y < CHUNK_SIZE ==>
      ChunkGetBit(c, x, y) == Cells(c.bitmap)[y * CHUNK_SIZE + x]
  {
  }

  /** chunk_set_bit: a write that changes the bit flips exactly that bit, moves live_count
      by one and sets dirty; a write of the current value, or outside the chunk, is a no-op. */
  function ChunkSetBit(c: Chunk, x: int, y: int, value: bool): (r: Chunk)
    requires Valid(c)
    ensures Valid(r)
    ensures var pos := y * CHUNK_SIZE + x;
      if 0 <= pos < CELLS && Cells(c.bitmap)[pos] != value then
        && r.dirty
        && r.liveCount == c.liveCount + (if value then 1 else -1)
        && Cells(r.bitmap) == Cells(c.bitmap)[pos := value]
      else r == c
  {
    var pos := y * CHUNK_SIZE + x;
    if pos < 0 || pos >= CELLS then c
    else
      var idx := pos / BITS_PER_UNIT;
      var mask: bv32 := 1 << BitIndex(pos % BITS_PER_UNIT);
      var current := c.bitmap[idx] & mask != 0;
      assert current == Cells(c.bitmap)[pos] by {
        MaskBit(c.bitmap[idx], BitIndex(pos % BITS_PER_UNIT));
        CellAt(c.bitmap, pos);
      }
      if current == value then c
      else
        var w := SetWord(c.bitmap[idx], BitIndex(pos % BITS_PER_UNIT), value);
        FlipFacts(c.bitmap, pos, value);
        Chunk(c.bitmap[idx := w], true, c.liveCount + (if value then 1 else -1))
  }

  /** The word after `|= 1 << off` (value true) or `&= ~(1 << off)` (value false). */
  function SetWord(w: bv32, off: bv32, value: bool): bv32
    requires off < 32
  {
    if value then w | (1 << off) else w & !(1 << off)
  }

  /** What writing a changed bit into a packed bitmap does to its cells and its count. */
  lemma FlipFacts(bitmap: seq<bv32>, pos: int, value: bool)
    requires |bitmap| == BITMAP_SIZE && 0 <= pos < CELLS && Cells(bitmap)[pos] != value
    ensures var bitmap' := bitmap[pos / BITS_PER_UNIT := SetWord(bitmap[pos / BITS_PER_UNIT], BitIndex(pos % BITS_PER_UNIT), value)];
      && Cells(bitmap') == Cells(bitmap)[pos := value]
      && Popcount(bitmap') == Popcount(bitmap) + (if value then 1 else -1)
  {
    var idx := pos / BITS_PER_UNIT;
    var w := SetWord(bitmap[idx], BitIndex(pos % BITS_PER_UNIT), value);
    var bitmap' := bitmap[idx := w];
    SetWordFacts(bitmap[idx], BitIndex(pos % BITS_PER_UNIT), value);
    OtherPositionsKept(bitmap, pos, w);
    CellsAt(bitmap);
    CellsAt(bitmap');
    assert Cells(bitmap') == Cells(bitmap)[pos := value];
    CountTrueUpdate(Cells(bitmap), pos, value);
  }

  lemma OtherPositionsKept(bitmap: seq<bv32>, pos: int, w: bv32)
    requires |bitmap| == BITMAP_SIZE && 0 <= pos < CELLS
    requires forall j: bv32 :: j < 32 && j != BitIndex(pos % BITS_PER_UNIT) ==>
      WordBit(w, j) == WordBit(bitmap[pos / BITS_PER_UNIT], j)
    ensures forall q :: 0 <= q < CELLS && q != pos ==>
      BitAt(bitmap[pos / BITS_PER_UNIT := w], q) == BitAt(bitmap, q)
  {
    forall q | 0 <= q < CELLS && q != pos
      ensures BitAt(bitmap[pos / BITS_PER_UNIT := w], q) == BitAt(bitmap, q)
    {
      if q / BITS_PER_UNIT == pos / BITS_PER_UNIT {
        OffsetsDiffer(pos, q);
      }
    }
  }

  lemma OffsetsDiffer(p: int, q: int)
    requires 0 <= p < CELLS && 0 <= q < CELLS && p != q && p / BITS_PER_UNIT == q / BITS_PER_UNIT
    ensures BitIndex(p % BITS_PER_UNIT) != BitIndex(q % BITS_PER_UNIT)
  {
    OffsetValue(p % BITS_PER_UNIT);
    OffsetValue(q % BITS_PER_UNIT);
  }

  // ---------------------------------------------------------------------------
  // Bit-level facts

  lemma MaskBit(w: bv32, off: bv32)
    requires off < 32
    ensures (w & (1 << off) != 0) == WordBit(w, off)
    ensures WordBit(w | (1 << off), off)
    ensures !WordBit(w & !(1 << off), off)
  {
  }

  lemma OtherBitsKept(w: bv32, off: bv32, j: bv32, value: bool)
    requires off < 32 && j < 32 && j != off
    ensures WordBit(SetWord(w, off, value), j) == WordBit(w, j)
  {
  }

  /** Writing a bit of a word changes that bit only. */
  lemma SetWordFacts(w: bv32, off: bv32, value: bool)
    requires off < 32
    ensures WordBit(SetWord(w, off, value), off) == value
    ensures forall j: bv32 :: j < 32 && j != off ==> WordBit(SetWord(w, off, value), j) == WordBit(w, j)
  {
    MaskBit(w, off);
    forall j: bv32 | j < 32 && j != off
      ensures WordBit(SetWord(w, off, value), j) == WordBit(w, j)
    {
      OtherBitsKept(w, off, j, value);
    }
  }

  lemma ZeroWordsClear(words: seq<bv32>)
    requires |words| == BITMAP_SIZE && forall i :: 0 <= i < |words| ==> words[i] == 0
    ensures forall pos :: 0 <= pos < CELLS ==> !BitAt(words, pos)
  {
  }

  // ---------------------------------------------------------------------------
  // Counting

  lemma {:induction false} CountTrueAllFalse(s: seq<bool>)
    requires forall i :: 0 <= i < |s| ==> !s[i]
    ensures CountTrue(s) == 0
  {
    if s != [] {
      CountTrueAllFalse(s[..|s| - 1]);
    }
  }

  /** Setting one entry to a new value moves the count by one. */
  lemma {:induction false} CountTrueUpdate(s: seq<bool>, i: int, v: bool)
    requires 0 <= i < |s| && s[i] != v
    ensures CountTrue(s[i := v]) == CountTrue(s) + (if v then 1 else -1)
  {
    var last := |s| - 1;
    if i < last {
      assert s[i := v][..last] == s[..last][i := v];
      CountTrueUpdate(s[..last], i, v);
    } else {
      assert s[i := v][..last] == s[..last];
    }
  }

  /** A sequence with a true entry has a positive count. */
  lemma {:induction false} CountTruePositive(s: seq<bool>, i: int)
    requires 0 <= i < |s| && s[i]
    ensures CountTrue(s) > 0
  {
    var last := |s| - 1;
    if i < last {
      CountTruePositive(s[..last], i);
    }
  }

  /** A chunk with a set bit has a positive live count. */
  lemma SetBitMeansLive(c: Chunk, pos: int)
    requires Valid(c) && 0 <= pos < CELLS && Cells(c.bitmap)[pos]
    ensures c.liveCount > 0
  {
    CountTruePositive(Cells(c.bitmap), pos);
  }
}
