/**
 * The bounded Game of Life of LifeGame.cpp: a rows by cols grid held in two buffers,
 * `current` and `next`, that swap after every generation. Cells off the grid count as
 * dead. Also modelled: the cursor and toggle of the design mode and the `rand` command
 * of the command mode, whose coin flips are an oracle.
 *
 * A generation of this grid is the Life successor (LifeRule.Step) cut down to the grid,
 * and on a pattern whose candidates all lie inside the grid the sparse engine of
 * LifeGame.c computes the same successor.
 */
module LifeGrid {
  import opened LifeCoords
  import opened LifeRule
  import opened LifeCells
  import opened LifeWorld
  import opened LifeTheorems
  import opened Decimal

  const KEY_DOWN := 258
  const KEY_UP := 259
  const KEY_LEFT := 260
  const KEY_RIGHT := 261
  const KEY_BACKSPACE := 263
  const ESC := 27
  const DEL := 127
  const NEWLINE := 10

  datatype Mode = Design | Command | Play

  // ---------------------------------------------------------------------------
  // The rule on the grid

  /** 1 when (y, x) is on the grid and alive; 0 off the grid. */
  function AliveAt(a: array2<bool>, y: int, x: int): int
    reads a
  {
    if 0 <= y < a.Length0 && 0 <= x < a.Length1 && a[y, x] then 1 else 0
  }

  /** The live neighbours in row y + dy at the column steps dx in [-1, end), the cell
      itself excluded. */
  function RowBelow(a: array2<bool>, y: int, x: int, dy: int, end: int): int
    requires -1 <= end <= 2
    reads a
  {
    if end == -1 then 0
    else RowBelow(a, y, x, dy, end - 1) + if dy == 0 && end - 1 == 0 then 0 else AliveAt(a, y + dy, x + end - 1)
  }

  /** The live neighbours in the rows y + dy for dy in [-1, end). */
  function RowsBelow(a: array2<bool>, y: int, x: int, end: int): int
    requires -1 <= end <= 2
    reads a
  {
    if end == -1 then 0 else RowsBelow(a, y, x, end - 1) + RowBelow(a, y, x, end - 1, 2)
  }

  /** The value count_neighbors returns: dy and dx run over -1, 0, 1, dx fastest. */
  function Neighbors(a: array2<bool>, y: int, x: int): int
    reads a
  {
    RowsBelow(a, y, x, 2)
  }

  /** The live cells of a grid, as (x, y) positions. */
  ghost function LiveCells(a: array2<bool>): set<Pair>
    reads a
  {
    set y, x | 0 <= y < a.Length0 && 0 <= x < a.Length1 && a[y, x] :: Pair(x, y)
  }

  predicate InBox(p: Pair, rows: int, cols: int) {
    0 <= p.first < cols && 0 <= p.second < rows
  }

  /** The Life successor of S, cut down to the grid: inside the grid it agrees with the
      unbounded successor, and it has no cell outside. */
  ghost function GridStep(S: set<Pair>, rows: int, cols: int): (r: set<Pair>)
    ensures forall p :: InBox(p, rows, cols) ==> (p in r <==> p in Step(S))
    ensures forall p :: p in r ==> InBox(p, rows, cols)
  {
    set p | p in Step(S) && InBox(p, rows, cols)
  }

  lemma LiveCellsMember(a: array2<bool>, y: int, x: int)
    ensures Pair(x, y) in LiveCells(a) <==> AliveAt(a, y, x) == 1
  {
    if AliveAt(a, y, x) == 1 {
      assert 0 <= y < a.Length0 && 0 <= x < a.Length1 && a[y, x];
    }
  }

  lemma RowBelowAll(a: array2<bool>, y: int, x: int, dy: int)
    ensures RowBelow(a, y, x, dy, 2) ==
      AliveAt(a, y + dy, x - 1) + (if dy == 0 then 0 else AliveAt(a, y + dy, x)) + AliveAt(a, y + dy, x + 1)
  {
    assert RowBelow(a, y, x, dy, 0) == AliveAt(a, y + dy, x - 1);
    assert RowBelow(a, y, x, dy, 1) == RowBelow(a, y, x, dy, 0) + (if dy == 0 then 0 else AliveAt(a, y + dy, x));
  }

  /** count_neighbors counts exactly the live neighbours the rule counts, off-grid cells
      being dead; so its result lies in [0, 8]. */
  lemma NeighborsIsRule(a: array2<bool>, y: int, x: int)
    ensures Neighbors(a, y, x) == NeighborsIn(LiveCells(a), Pair(x, y))
    ensures 0 <= Neighbors(a, y, x) <= 8
  {
    var S := LiveCells(a);
    LiveCellsMember(a, y - 1, x - 1);
    LiveCellsMember(a, y - 1, x);
    LiveCellsMember(a, y - 1, x + 1);
    LiveCellsMember(a, y, x - 1);
    LiveCellsMember(a, y, x + 1);
    LiveCellsMember(a, y + 1, x - 1);
    LiveCellsMember(a, y + 1, x);
    LiveCellsMember(a, y + 1, x + 1);
    RowBelowAll(a, y, x, -1);
    RowBelowAll(a, y, x, 0);
    RowBelowAll(a, y, x, 1);
    assert RowsBelow(a, y, x, 0) == RowBelow(a, y, x, -1, 2);
    assert RowsBelow(a, y, x, 1) == RowsBelow(a, y, x, 0) + RowBelow(a, y, x, 0, 2);
  }

  /** A grid each of whose cells is the rule applied to the old grid holds the successor of
      the old grid's pattern, cut down to the grid. */
  lemma EvolvedIsGridStep(before: array2<bool>, after: array2<bool>)
    requires after.Length0 == before.Length0 && after.Length1 == before.Length1
    requires forall y, x :: 0 <= y < before.Length0 && 0 <= x < before.Length1 ==>
      after[y, x] == NextAlive(before[y, x], Neighbors(before, y, x))
    ensures LiveCells(after) == GridStep(LiveCells(before), before.Length0, before.Length1)
  {
    var S := LiveCells(before);
    forall p
      ensures p in LiveCells(after) <==> p in GridStep(S, before.Length0, before.Length1)
    {
      var x, y := p.first, p.second;
      LiveCellsMember(after, y, x);
      LiveCellsMember(before, y, x);
      StepMembership(S, p);
      if InBox(p, before.Length0, before.Length1) {
        NeighborsIsRule(before, y, x);
      }
    }
  }

  /** On a pattern whose candidates all lie inside the grid, one generation of the sparse
      engine of LifeGame.c yields the same cells as one generation of the grid. */
  lemma SparseAgreesWithGrid(e: Engine, rows: int, cols: int)
    requires Inv(e) && Confined(LiveSet(e.world), 2)
    requires forall p :: p in Around(LiveSet(e.world)) ==> InBox(p, rows, cols)
    ensures LiveSet(NextGeneration(e).world) == GridStep(LiveSet(e.world), rows, cols)
  {
    GenerationIsStep(e);
  }

  // ---------------------------------------------------------------------------
  // Cursor and rectangle arithmetic

  /** The cursor after an arrow key: it moves one step unless that leaves the grid. */
  function MoveCursor(ch: int, y: int, x: int, rows: int, cols: int): (r: (int, int))
    ensures 0 <= y < rows && 0 <= x < cols ==> 0 <= r.0 < rows && 0 <= r.1 < cols
    ensures -1 <= r.0 - y <= 1 && -1 <= r.1 - x <= 1 && (r.0 == y || r.1 == x)
    ensures ch !in {KEY_UP, KEY_DOWN, KEY_LEFT, KEY_RIGHT} ==> r == (y, x)
  {
    if ch == KEY_UP then (if y > 0 then y - 1 else y, x)
    else if ch == KEY_DOWN then (if y < rows - 1 then y + 1 else y, x)
    else if ch == KEY_LEFT then (y, if x > 0 then x - 1 else x)
    else if ch == KEY_RIGHT then (y, if x < cols - 1 then x + 1 else x)
    else (y, x)
  }

  /** max(lo, min(v, hi)). */
  function Clamp(v: int, lo: int, hi: int): int {
    if v < hi then (if lo < v then v else lo) else (if lo < hi then hi else lo)
  }

  datatype Rect = Rect(y1: int, x1: int, y2: int, x2: int) {
    predicate Contains(y: int, x: int) {
      y1 <= y <= y2 && x1 <= x <= x2
    }
  }

  /** The rectangle of `rand y1 x1 y2 x2`: both corners clamped into the grid, then
      ordered. */
  function ClampRect(rows: int, cols: int, y1: int, x1: int, y2: int, x2: int): (r: Rect)
    requires rows >= 1 && cols >= 1
    ensures 0 <= r.y1 <= r.y2 < rows && 0 <= r.x1 <= r.x2 < cols
    ensures {r.y1, r.y2} == {Clamp(y1, 0, rows - 1), Clamp(y2, 0, rows - 1)}
    ensures {r.x1, r.x2} == {Clamp(x1, 0, cols - 1), Clamp(x2, 0, cols - 1)}
    ensures 0 <= y1 <= y2 < rows && 0 <= x1 <= x2 < cols ==> r == Rect(y1, x1, y2, x2)
  {
    var a, b := Clamp(y1, 0, rows - 1), Clamp(y2, 0, rows - 1);
    var c, d := Clamp(x1, 0, cols - 1), Clamp(x2, 0, cols - 1);
    Rect(if a > b then b else a, if c > d then d else c, if a > b then a else b, if c > d then c else d)
  }

  // ---------------------------------------------------------------------------
  // The command line `rand %d %d %d %d`, read as sscanf reads it

  predicate IsSpace(c: char) {
    c == ' ' || c == '\t' || c == '\n' || c == '\U{0B}' || c == '\U{0C}' || c == '\r'
  }

  /** The number of leading white-space characters. */
  function SpaceRun(s: string): (n: nat)
    ensures n <= |s|
    ensures forall i :: 0 <= i < n ==> IsSpace(s[i])
    ensures n < |s| ==> !IsSpace(s[n])
  {
    if s != [] && IsSpace(s[0]) then 1 + SpaceRun(s[1..]) else 0
  }

  /** The number of leading decimal digits. */
  function DigitRun(s: string): (n: nat)
    ensures n <= |s|
    ensures forall i :: 0 <= i < n ==> IsDigit(s[i])
    ensures n < |s| ==> !IsDigit(s[n])
  {
    if s != [] && IsDigit(s[0]) then 1 + DigitRun(s[1..]) else 0
  }

  /** One or more decimal digits, read greedily: their value and the rest. */
  function ScanDigits(t: string): (r: Option<(int, string)>)
    ensures r.Some? ==> |r.value.1| < |t|
  {
    var n := DigitRun(t);
    if n == 0 then None else Some((DigitsValue(t[..n]), t[n..]))
  }

  /** An optional sign, then the digits. */
  function ScanSigned(t: string): (r: Option<(int, string)>)
    ensures r.Some? ==> |r.value.1| < |t|
  {
    if t != [] && t[0] == '-' then
      match ScanDigits(t[1..])
      case None => None
      case Some((v, rest)) => Some((-v, rest))
    else if t != [] && t[0] == '+' then ScanDigits(t[1..])
    else ScanDigits(t)
  }

  /** %d: white space, an optional sign, then one or more digits, read greedily; the value
      and the rest of the string, or None on a matching failure. */
  function ScanInt(s: string): (r: Option<(int, string)>)
    ensures r.Some? ==> |r.value.1| < |s|
  {
    ScanSigned(s[SpaceRun(s)..])
  }

  /** k conversions %d in a row: their values and the rest, or None when one fails. */
  function ScanInts(t: string, k: nat): Option<(seq<int>, string)> {
    if k == 0 then Some(([], t))
    else
      match ScanInt(t)
      case None => None
      case Some((v, rest)) =>
        match ScanInts(rest, k - 1)
        case None => None
        case Some((vs, rest')) => Some(([v] + vs, rest'))
  }

  /** sscanf(command, "rand %d %d %d %d", &y1, &x1, &y2, &x2) == 4: the literal "rand",
      then four numbers; what follows them is ignored. */
  function ScanRand(s: string): (r: Option<Rect>)
    ensures r.Some? ==> |s| >= 4 && s[..4] == "rand"
  {
    if |s| < 4 || s[..4] != "rand" then None
    else
      match ScanInts(s[4..], 4)
      case None => None
      case Some((vs, _)) =>
        if |vs| == 4 then Some(Rect(vs[0], vs[1], vs[2], vs[3])) else None
  }

  lemma {:induction false} DigitRunAppend(ds: string, rest: string)
    requires forall i :: 0 <= i < |ds| ==> IsDigit(ds[i])
    requires rest == [] || !IsDigit(rest[0])
    ensures DigitRun(ds + rest) == |ds|
    decreases |ds|
  {
    if ds == [] {
      assert ds + rest == rest;
    } else {
      assert (ds + rest)[0] == ds[0] && (ds + rest)[1..] == ds[1..] + rest;
      DigitRunAppend(ds[1..], rest);
    }
  }

  /** The digits of m, then anything but a digit: the digits read back as m. */
  lemma ScanDigitsShow(m: nat, rest: string)
    requires rest == [] || !IsDigit(rest[0])
    ensures ScanDigits(ShowNat(m) + rest) == Some((m, rest))
  {
    var ds := ShowNat(m);
    ShowNatValue(m);
    DigitRunAppend(ds, rest);
    assert (ds + rest)[..|ds|] == ds;
    assert (ds + rest)[|ds|..] == rest;
  }

  /** The sign and digits ShowInt writes read back as n. */
  lemma ScanSignedShow(n: int, rest: string)
    requires rest == [] || !IsDigit(rest[0])
    ensures ScanSigned(ShowInt(n) + rest) == Some((n, rest))
  {
    if n < 0 {
      var u := ShowNat(-n) + rest;
      ScanDigitsShow(-n, rest);
      ScanMinus(u, -n, rest);
      assert ShowInt(n) + rest == "-" + u;
    } else {
      ScanDigitsShow(n, rest);
      NatHead(n, rest);
      ScanUnsigned(ShowNat(n) + rest);
    }
  }

  /** A minus sign in front of digits negates their value. */
  lemma ScanMinus(u: string, m: int, rest: string)
    requires ScanDigits(u) == Some((m, rest))
    ensures ScanSigned("-" + u) == Some((-m, rest))
  {
    assert ("-" + u)[1..] == u;
  }

  /** Digits without a sign are read as they are. */
  lemma ScanUnsigned(u: string)
    requires u != [] && IsDigit(u[0])
    ensures ScanSigned(u) == ScanDigits(u)
  {
  }

  /** ShowNat writes a digit first. */
  lemma NatHead(n: nat, rest: string)
    ensures ShowNat(n) + rest != [] && IsDigit((ShowNat(n) + rest)[0])
  {
    assert (ShowNat(n) + rest)[0] == ShowNat(n)[0];
  }

  /** %d skips a leading space. */
  lemma ScanIntSpace(t: string)
    ensures ScanInt(" " + t) == ScanInt(t)
  {
    var s := " " + t;
    assert s[1..] == t;
    assert s[SpaceRun(s)..] == t[SpaceRun(t)..];
  }

  /** %d reads back the number ShowInt writes, after any number of spaces, and stops where
      it ends. */
  lemma ScanShowInt(n: int, rest: string)
    requires rest == [] || !IsDigit(rest[0])
    ensures ScanInt(ShowInt(n) + rest) == Some((n, rest))
    ensures ScanInt(" " + ShowInt(n) + rest) == Some((n, rest))
  {
    var t := ShowInt(n) + rest;
    ScanSignedShow(n, rest);
    ShowIntHead(n, rest);
    ScanIntLead(t, n, rest);
    assert " " + ShowInt(n) + rest == " " + t;
  }

  /** A sign or digits in front read the same with or without one space before them. */
  lemma ScanIntLead(t: string, v: int, rest: string)
    requires t != [] && !IsSpace(t[0]) && ScanSigned(t) == Some((v, rest))
    ensures ScanInt(t) == Some((v, rest)) && ScanInt(" " + t) == Some((v, rest))
  {
    ScanIntUnspaced(t);
    ScanIntSpace(t);
  }

  /** ShowInt writes a sign or a digit first, never white space. */
  lemma ShowIntHead(n: int, rest: string)
    ensures ShowInt(n) + rest != [] && !IsSpace((ShowInt(n) + rest)[0])
  {
    if n < 0 {
      assert (ShowInt(n) + rest)[0] == '-';
    } else {
      NatHead(n, rest);
    }
  }

  /** With no white space in front, %d starts reading at once. */
  lemma ScanIntUnspaced(t: string)
    requires t == [] || !IsSpace(t[0])
    ensures ScanInt(t) == ScanSigned(t)
  {
    assert t[0..] == t;
  }

  /** The numbers of vs, each after one space. */
  function Spaced(vs: seq<int>): string {
    if vs == [] then [] else " " + ShowInt(vs[0]) + Spaced(vs[1..])
  }

  /** Numbers written one space apart read back, one %d each. */
  lemma {:induction false} ScanIntsSpaced(vs: seq<int>)
    ensures ScanInts(Spaced(vs), |vs|) == Some((vs, []))
  {
    if vs != [] {
      var rest := Spaced(vs[1..]);
      assert rest == [] || rest[0] == ' ';
      ScanShowInt(vs[0], rest);
      ScanIntsSpaced(vs[1..]);
      assert [vs[0]] + vs[1..] == vs;
    }
  }

  /** The command the user types for a rectangle, `rand y1 x1 y2 x2`, parses back to that
      rectangle. */
  lemma ScanRandShow(r: Rect)
    ensures ScanRand("rand" + Spaced([r.y1, r.x1, r.y2, r.x2])) == Some(r)
  {
    var vs := [r.y1, r.x1, r.y2, r.x2];
    var s := "rand" + Spaced(vs);
    assert s[..4] == "rand" && s[4..] == Spaced(vs);
    ScanIntsSpaced(vs);
  }

  /** The rectangle Enter fills for a command line, if the line is a rand command. */
  function RandTarget(command: string, rows: int, cols: int): (r: Option<Rect>)
    requires rows >= 1 && cols >= 1
    ensures r.Some? <==> ScanRand(command).Some?
    ensures r.Some? ==> 0 <= r.value.y1 <= r.value.y2 < rows && 0 <= r.value.x1 <= r.value.x2 < cols
  {
    match ScanRand(command)
    case None => None
    case Some(q) => Some(ClampRect(rows, cols, q.y1, q.x1, q.y2, q.x2))
  }

  // ---------------------------------------------------------------------------
  // The state

  class GameState {
    const rows: int
    const cols: int
    const grid1: array2<bool>
    const grid2: array2<bool>
    var current: array2<bool>
    var next: array2<bool>
    var cursorY: int
    var cursorX: int
    var commandStr: string
    var mode: Mode
    var running: bool
    var precompute: bool

    /** Both buffers have the grid's size, and current and next are the two of them. */
    ghost predicate Valid()
      reads this
    {
      rows >= 1 && cols >= 1 &&
      grid1.Length0 == rows && grid1.Length1 == cols && grid2.Length0 == rows && grid2.Length1 == cols &&
      grid1 != grid2 &&
      ((current == grid1 && next == grid2) || (current == grid2 && next == grid1)) &&
      current.Length0 == rows && current.Length1 == cols && next.Length0 == rows && next.Length1 == cols &&
      current != next
    }

    /** init_game: two dead grids, the cursor in the middle, -z requests precomputing. */
    constructor (lines: int, columns: int, precomputeFlag: bool)
      requires lines >= 1 && columns >= 1
      ensures Valid() && rows == lines && cols == columns
      ensures current == grid1 && next == grid2 && fresh(grid1) && fresh(grid2)
      ensures LiveCells(current) == {} && LiveCells(next) == {}
      ensures cursorY == lines / 2 && cursorX == columns / 2 && 0 <= cursorY < rows && 0 <= cursorX < cols
      ensures mode == Design && running && precompute == precomputeFlag && commandStr == ""
    {
      rows, cols := lines, columns;
      var g1 := new bool[lines, columns]((_, _) => false);
      var g2 := new bool[lines, columns]((_, _) => false);
      grid1, grid2 := g1, g2;
      current, next := g1, g2;
      cursorY, cursorX := lines / 2, columns / 2;
      commandStr := "";
      mode := Design;
      running := true;
      precompute := precomputeFlag;
    }

    /** swap_buffers: current and next change places; no cell changes. */
    method SwapBuffers()
      requires Valid()
      modifies this`current, this`next
      ensures Valid() && current == old(next) && next == old(current)
    {
      current, next := next, current;
    }

    /** count_neighbors: the live cells among the eight in-grid neighbours of (y, x). */
    method CountNeighbors(y: int, x: int) returns (count: int)
      requires Valid()
      ensures count == Neighbors(current, y, x)
      ensures count == NeighborsIn(LiveCells(current), Pair(x, y)) && 0 <= count <= 8
    {
      count := 0;
      for dy := -1 to 2
        invariant count == RowsBelow(current, y, x, dy)
      {
        for dx := -1 to 2
          invariant count == RowsBelow(current, y, x, dy) + RowBelow(current, y, x, dy, dx)
        {
          if dy == 0 && dx == 0 {
            continue;
          }
          var ny := y + dy;
          var nx := x + dx;
          if ny >= 0 && ny < rows && nx >= 0 && nx < cols {
            if current[ny, nx] {
              count := count + 1;
            }
          }
        }
      }
      NeighborsIsRule(current, y, x);
    }

    /** compute_generation: every cell of next gets the rule applied to current, then the
        buffers swap. The new pattern is the successor of the old one, cut to the grid. */
    method ComputeGeneration()
      requires Valid()
      modifies this`current, this`next, next
      ensures Valid() && current == old(next) && next == old(current) && unchanged(next)
      ensures forall y, x :: 0 <= y < rows && 0 <= x < cols ==>
        current[y, x] == NextAlive(next[y, x], Neighbors(next, y, x))
      ensures LiveCells(current) == GridStep(LiveCells(next), rows, cols)
    {
      var y := 0;
      while y < rows
        invariant Valid() && current == old(current) && next == old(next)
        invariant 0 <= y <= rows
        invariant forall i, j :: 0 <= i < y && 0 <= j < cols ==>
          next[i, j] == NextAlive(current[i, j], Neighbors(current, i, j))
      {
        UpdateRow(y);
        y := y + 1;
      }
      EvolvedIsGridStep(current, next);
      SwapBuffers();
    }

    /** One row of compute_generation's loop. */
    method UpdateRow(y: int)
      requires Valid() && 0 <= y < rows
      modifies next
      ensures forall i, j :: 0 <= i < rows && 0 <= j < cols && i != y ==> next[i, j] == old(next[i, j])
      ensures forall j :: 0 <= j < cols ==> next[y, j] == NextAlive(current[y, j], Neighbors(current, y, j))
    {
      var x := 0;
      while x < cols
        invariant 0 <= x <= cols
        invariant forall i, j :: 0 <= i < rows && 0 <= j < cols && i != y ==> next[i, j] == old(next[i, j])
        invariant forall j :: 0 <= j < x ==> next[y, j] == NextAlive(current[y, j], Neighbors(current, y, j))
      {
        var neighbors := CountNeighbors(y, x);
        if current[y, x] {
          next[y, x] := neighbors == 2 || neighbors == 3;
        } else {
          next[y, x] := neighbors == 3;
        }
        x := x + 1;
      }
    }

    /** A key in the design mode: q quits, c enters the command mode with an empty line,
        y starts playing, the arrows move the cursor inside the grid, and Enter or space
        flips the cell under the cursor. */
    method DesignKey(ch: int)
      requires Valid()
      modifies this`running, this`mode, this`commandStr, this`cursorY, this`cursorX, current
      ensures Valid()
      ensures running == (old(running) && ch != 'q' as int && ch != 'Q' as int)
      ensures mode == if ch in {'c' as int, 'C' as int} then Command
        else if ch in {'y' as int, 'Y' as int} then Play else old(mode)
      ensures commandStr == if ch in {'c' as int, 'C' as int} then "" else old(commandStr)
      ensures (cursorY, cursorX) == MoveCursor(ch, old(cursorY), old(cursorX), rows, cols)
      ensures forall y, x :: 0 <= y < rows && 0 <= x < cols ==>
        current[y, x] == if (ch == NEWLINE || ch == ' ' as int) && (y, x) == (cursorY, cursorX)
          then !old(current[y, x]) else old(current[y, x])
    {
      if ch == 'q' as int || ch == 'Q' as int {
        running := false;
      } else if ch == 'c' as int || ch == 'C' as int {
        mode := Command;
        commandStr := "";
      } else if ch == 'y' as int || ch == 'Y' as int {
        mode := Play;
      } else if ch == KEY_UP {
        if cursorY > 0 { cursorY := cursorY - 1; }
      } else if ch == KEY_DOWN {
        if cursorY < rows - 1 { cursorY := cursorY + 1; }
      } else if ch == KEY_LEFT {
        if cursorX > 0 { cursorX := cursorX - 1; }
      } else if ch == KEY_RIGHT {
        if cursorX < cols - 1 { cursorX := cursorX + 1; }
      } else if ch == NEWLINE || ch == ' ' as int {
        if cursorY >= 0 && cursorY < rows && cursorX >= 0 && cursorX < cols {
          current[cursorY, cursorX] := !current[cursorY, cursorX];
        }
      }
    }

    /** The rand command: every cell of the clamped rectangle takes its coin flip
        (rand() % 2 == 0), every other cell keeps its state. */
    method RandomRect(r: Rect, coin: (int, int) -> bool)
      requires Valid()
      modifies current
      ensures var c := ClampRect(rows, cols, r.y1, r.x1, r.y2, r.x2);
        forall y, x :: 0 <= y < rows && 0 <= x < cols ==>
          current[y, x] == if c.Contains(y, x) then coin(y, x) else old(current[y, x])
    {
      var y1 := Clamp(r.y1, 0, rows - 1);
      var x1 := Clamp(r.x1, 0, cols - 1);
      var y2 := Clamp(r.y2, 0, rows - 1);
      var x2 := Clamp(r.x2, 0, cols - 1);
      if y1 > y2 { y1, y2 := y2, y1; }
      if x1 > x2 { x1, x2 := x2, x1; }
      ghost var c := Rect(y1, x1, y2, x2);
      assert c == ClampRect(rows, cols, r.y1, r.x1, r.y2, r.x2);
      var y := y1;
      while y <= y2
        invariant y1 <= y <= y2 + 1
        invariant forall i, j :: 0 <= i < rows && 0 <= j < cols ==>
          current[i, j] == if c.Contains(i, j) && i < y then coin(i, j) else old(current[i, j])
      {
        var x := x1;
        while x <= x2
          invariant x1 <= x <= x2 + 1
          invariant forall i, j :: 0 <= i < rows && 0 <= j < cols ==>
            current[i, j] == if c.Contains(i, j) && (i < y || (i == y && j < x)) then coin(i, j) else old(current[i, j])
        {
          current[y, x] := coin(y, x);
          x := x + 1;
        }
        y := y + 1;
      }
    }

    /** A key in the command mode: ESC returns to the design mode, Enter runs the line
        (only `rand` with four numbers does anything) and returns to the design mode,
        backspace drops the last character, a printable character is appended. */
    method CommandKey(ch: int, coin: (int, int) -> bool)
      requires Valid()
      modifies this`mode, this`commandStr, current
      ensures Valid()
      ensures mode == if ch == ESC || ch == NEWLINE then Design else old(mode)
      ensures commandStr ==
        if (ch == DEL || ch == KEY_BACKSPACE) && old(commandStr) != [] then old(commandStr)[..|old(commandStr)| - 1]
        else if ch != ESC && ch != NEWLINE && 32 <= ch <= 126 then old(commandStr) + [ch as char]
        else old(commandStr)
      ensures forall y, x :: 0 <= y < rows && 0 <= x < cols ==>
        current[y, x] ==
          if ch == NEWLINE && RandTarget(old(commandStr), rows, cols).Some? &&
            RandTarget(old(commandStr), rows, cols).value.Contains(y, x)
          then coin(y, x) else old(current[y, x])
    {
      if ch == ESC {
        mode := Design;
      } else if ch == NEWLINE {
        var parsed := ScanRand(commandStr);
        if parsed.Some? {
          RandomRect(parsed.value, coin);
        }
        mode := Design;
      } else if ch == DEL || ch == KEY_BACKSPACE {
        if commandStr != [] {
          commandStr := commandStr[..|commandStr| - 1];
        }
      } else if 32 <= ch <= 126 {
        commandStr := commandStr + [ch as char];
      }
    }
  }
}
