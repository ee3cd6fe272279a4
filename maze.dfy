/**
 * The maze game: a 15x30 maze carved by a randomised depth-first backtracker from the
 * cell (1, 1), with the exit at (28, 13), and the player's moves, after each of which a
 * new maze is generated around the player.
 *
 * The maze is the grid of characters the generator returns: `#` for a wall, a space for
 * a path and `E` for the exit. The shuffle of the four directions, which the program
 * draws from a Mersenne Twister seeded by the random device, is an oracle: shuffle(n)
 * is the order the n-th step tries.
 */
module Maze {

  const ROWS := 15
  const COLS := 30

  /** A position: column x, row y. */
  datatype Cell = Cell(x: int, y: int)

  const START := Cell(1, 1)
  const EXIT := Cell(COLS - 2, ROWS - 2)

  type Grid = seq<seq<char>>

  predicate IsGrid(g: Grid) {
    |g| == ROWS && forall y :: 0 <= y < ROWS ==> |g[y]| == COLS
  }

  predicate InGrid(c: Cell) {
    0 <= c.x < COLS && 0 <= c.y < ROWS
  }

  function At(g: Grid, c: Cell): char
    requires IsGrid(g) && InGrid(c)
  {
    g[c.y][c.x]
  }

  /** maze[y][x] = ch. */
  function Put(g: Grid, c: Cell, ch: char): (r: Grid)
    requires IsGrid(g) && InGrid(c)
    ensures IsGrid(r)
    ensures forall e :: InGrid(e) ==> At(r, e) == if e == c then ch else At(g, e)
  {
    g[c.y := g[c.y][c.x := ch]]
  }

  /** The grid the generator starts from: walls everywhere. */
  function Walls(): (g: Grid)
    ensures IsGrid(g) && forall c :: InGrid(c) ==> At(g, c) == '#'
  {
    seq(ROWS, _ => seq(COLS, _ => '#'))
  }

  /** Strictly inside the outer wall. */
  predicate Interior(c: Cell) {
    0 < c.x < COLS - 1 && 0 < c.y < ROWS - 1
  }

  /** The cells the backtracker carves and steps between: odd column and odd row. */
  predicate IsRoom(c: Cell) {
    Interior(c) && c.x % 2 == 1 && c.y % 2 == 1
  }

  /** The cells between two rooms: one coordinate odd, the other even. */
  predicate IsDoor(c: Cell) {
    Interior(c) && c.x % 2 != c.y % 2
  }

  /** The four steps of the backtracker: right, left, down and up two cells. */
  const DX: seq<int> := [2, -2, 0, 0]
  const DY: seq<int> := [0, 0, 2, -2]

  function Next(c: Cell, d: int): Cell
    requires 0 <= d < 4
  {
    Cell(c.x + DX[d], c.y + DY[d])
  }

  /** The cell between c and Next(c, d). */
  function Between(c: Cell, d: int): Cell
    requires 0 <= d < 4
  {
    Cell(c.x + DX[d] / 2, c.y + DY[d] / 2)
  }

  /** From a room, an interior step lands on a room, through a door next to both. */
  lemma StepShape(c: Cell, d: int)
    requires IsRoom(c) && 0 <= d < 4 && Interior(Next(c, d))
    ensures IsRoom(Next(c, d)) && IsDoor(Between(c, d))
    ensures Adjacent(c, Between(c, d)) && Adjacent(Between(c, d), Next(c, d))
  {
  }

  /** Direction d may be carved from c: the cell two steps away is inside the outer wall
      and still a wall. */
  predicate CanCarve(g: Grid, c: Cell, d: int)
    requires IsGrid(g) && 0 <= d < 4
  {
    Interior(Next(c, d)) && At(g, Next(c, d)) == '#'
  }

  /** A shuffle of the four directions. */
  predicate IsOrder(o: seq<int>) {
    |o| == 4 && (forall i :: 0 <= i < 4 ==> 0 <= o[i] < 4) && forall d :: 0 <= d < 4 ==> d in o
  }

  // ---------------------------------------------------------------------------
  // Paths

  predicate Adjacent(a: Cell, b: Cell) {
    (a.x == b.x && (a.y - b.y == 1 || b.y - a.y == 1)) || (a.y == b.y && (a.x - b.x == 1 || b.x - a.x == 1))
  }

  /** A walk through cells that are not walls, one orthogonal step at a time. */
  ghost predicate IsPath(g: Grid, p: seq<Cell>)
    requires IsGrid(g)
  {
    |p| >= 1 && (forall i :: 0 <= i < |p| ==> InGrid(p[i]) && At(g, p[i]) != '#') &&
    forall i :: 0 < i < |p| ==> Adjacent(p[i - 1], p[i])
  }

  /** c can be reached from the start without crossing a wall. */
  ghost predicate Connected(g: Grid, c: Cell)
    requires IsGrid(g)
  {
    exists p :: IsPath(g, p) && p[0] == START && p[|p| - 1] == c
  }

  /** A walk extended by two more steps. */
  lemma ExtendPath(g: Grid, p: seq<Cell>, a: Cell, b: Cell)
    requires IsGrid(g) && IsPath(g, p) && Adjacent(p[|p| - 1], a) && Adjacent(a, b)
    requires InGrid(a) && At(g, a) != '#' && InGrid(b) && At(g, b) != '#'
    ensures IsPath(g, p + [a, b])
  {
    var q := p + [a, b];
    assert q[|p|] == a && q[|p| + 1] == b && q[|p| - 1] == p[|p| - 1];
    forall i | 0 < i < |q|
      ensures Adjacent(q[i - 1], q[i])
    {
      if i < |p| {
        assert q[i - 1] == p[i - 1] && q[i] == p[i];
      }
    }
  }

  /** A walk extended by one more step. */
  lemma ExtendPath1(g: Grid, p: seq<Cell>, a: Cell)
    requires IsGrid(g) && IsPath(g, p) && Adjacent(p[|p| - 1], a)
    requires InGrid(a) && At(g, a) != '#'
    ensures IsPath(g, p + [a])
  {
    var q := p + [a];
    forall i | 0 < i < |q|
      ensures Adjacent(q[i - 1], q[i])
    {
      if i < |p| {
        assert q[i - 1] == p[i - 1] && q[i] == p[i];
      }
    }
  }

  /** h has every path cell of g. */
  ghost predicate Opens(g: Grid, h: Grid)
    requires IsGrid(g) && IsGrid(h)
  {
    forall c :: InGrid(c) && At(g, c) != '#' ==> At(h, c) != '#'
  }

  lemma PathMono(g: Grid, h: Grid, p: seq<Cell>)
    requires IsGrid(g) && IsGrid(h) && Opens(g, h) && IsPath(g, p)
    ensures IsPath(h, p)
  {
  }

  /** The carving so far, as a tree: order lists the rooms in the order they were
      carved, and room k was carved from room parent[k] in direction dirs[k], through an
      opened door. */
  ghost predicate Tree(g: Grid, order: seq<Cell>, parent: seq<int>, dirs: seq<int>)
    requires IsGrid(g)
  {
    |order| >= 1 && order[0] == START && |parent| == |order| && |dirs| == |order| &&
    (forall k :: 0 <= k < |order| ==> IsRoom(order[k]) && At(g, order[k]) != '#') &&
    forall k :: 0 < k < |order| ==>
      0 <= parent[k] < k && 0 <= dirs[k] < 4 && order[k] == Next(order[parent[k]], dirs[k]) &&
      InGrid(Between(order[parent[k]], dirs[k])) && At(g, Between(order[parent[k]], dirs[k])) != '#'
  }

  lemma TreeMono(g: Grid, h: Grid, order: seq<Cell>, parent: seq<int>, dirs: seq<int>)
    requires IsGrid(g) && IsGrid(h) && Opens(g, h) && Tree(g, order, parent, dirs)
    ensures Tree(h, order, parent, dirs)
  {
  }

  /** The walk from the start along the tree to room k. */
  ghost function PathTo(g: Grid, order: seq<Cell>, parent: seq<int>, dirs: seq<int>, k: int): (p: seq<Cell>)
    requires IsGrid(g) && Tree(g, order, parent, dirs) && 0 <= k < |order|
    ensures IsPath(g, p) && p[0] == START && p[|p| - 1] == order[k]
    decreases k
  {
    if k == 0 then [START]
    else
      var c := order[parent[k]];
      var q := PathTo(g, order, parent, dirs, parent[k]);
      StepShape(c, dirs[k]);
      ExtendPath(g, q, Between(c, dirs[k]), order[k]);
      q + [Between(c, dirs[k]), order[k]]
  }

  // ---------------------------------------------------------------------------
  // Carving

  /** The inner loop of one backtracking step: the first direction of the shuffle that
      can be carved, with the door and the room behind it opened, or none. */
  method Carve(maze: Grid, c: Cell, order: seq<int>) returns (r: Grid, found: bool, dir: int)
    requires IsGrid(maze) && IsRoom(c) && IsOrder(order)
    ensures IsGrid(r)
    ensures found ==> 0 <= dir < 4 && CanCarve(maze, c, dir)
    ensures found ==> r == Put(Put(maze, Between(c, dir), ' '), Next(c, dir), ' ')
    ensures !found ==> r == maze && forall d :: 0 <= d < 4 ==> !CanCarve(maze, c, d)
  {
    r := maze;
    found := false;
    dir := 0;
    var k := 0;
    while k < 4
      invariant 0 <= k <= 4
      invariant forall i :: 0 <= i < k ==> !CanCarve(maze, c, order[i])
    {
      var d := order[k];
      var n := Next(c, d);
      if 0 < n.x < COLS - 1 && 0 < n.y < ROWS - 1 && At(maze, n) == '#' {
        StepShape(c, d);
        r := Put(maze, Between(c, d), ' ');
        r := Put(r, n, ' ');
        found := true;
        dir := d;
        return;
      }
      k := k + 1;
    }
    forall d | 0 <= d < 4
      ensures !CanCarve(maze, c, d)
    {
      assert d in order;
      var i :| 0 <= i < 4 && order[i] == d;
    }
  }

  /** The rooms, all 14 x 7 of them. */
  function AllRooms(): set<Cell> {
    set x, y | 0 < x < COLS - 1 && 0 < y < ROWS - 1 && x % 2 == 1 && y % 2 == 1 :: Cell(x, y)
  }

  lemma InAllRooms(c: Cell)
    requires IsRoom(c)
    ensures c in AllRooms()
  {
    assert c == Cell(c.x, c.y);
  }

  /** The grid of a carving: an outer wall, walls and paths only, paths on rooms and
      doors only, and open rooms exactly the visited ones, the start among them. */
  ghost predicate CarvedGrid(maze: Grid, visited: set<Cell>) {
    IsGrid(maze) &&
    (forall c :: InGrid(c) && !Interior(c) ==> At(maze, c) == '#') &&
    (forall c :: InGrid(c) ==> At(maze, c) == '#' || At(maze, c) == ' ') &&
    (forall c :: InGrid(c) && At(maze, c) != '#' ==> IsRoom(c) || IsDoor(c)) &&
    (forall c :: IsRoom(c) ==> (At(maze, c) != '#' <==> c in visited)) &&
    (forall c :: c in visited ==> IsRoom(c)) &&
    START in visited
  }

  /** The state of the backtracker: border intact, only spaces carved, the carved cells
      are rooms and doors, the carved rooms are the visited ones and form a tree from the
      start, and every visited room off the stack has all its neighbours visited. */
  ghost predicate Carving(maze: Grid, stack: seq<Cell>, visited: set<Cell>, order: seq<Cell>, parent: seq<int>,
                          dirs: seq<int>, stackIdx: seq<int>)
  {
    CarvedGrid(maze, visited) &&
    (forall i :: 0 <= i < |stack| ==> stack[i] in visited) &&
    (forall i, j :: 0 <= i < j < |stack| ==> stack[i] != stack[j]) &&
    (forall c, d :: c in visited && c !in stack && 0 <= d < 4 && Interior(Next(c, d)) ==> Next(c, d) in visited) &&
    Tree(maze, order, parent, dirs) && (forall c :: c in visited ==> c in order) &&
    |stackIdx| == |stack| && (forall i :: 0 <= i < |stack| ==> 0 <= stackIdx[i] < |order| && order[stackIdx[i]] == stack[i])
  }

  lemma CarvingStart()
    ensures var g := Put(Walls(), START, ' ');
      Carving(g, [START], {START}, [START], [0], [0], [0])
  {
    var g := Put(Walls(), START, ' ');
    forall c | IsRoom(c)
      ensures At(g, c) != '#' <==> c in {START}
    {
    }
  }

  /** A carved step keeps the state: the new room joins the visited rooms, the tree and
      the top of the stack. */
  lemma CarvingPush(maze: Grid, stack: seq<Cell>, visited: set<Cell>, order: seq<Cell>, parent: seq<int>,
                    dirs: seq<int>, stackIdx: seq<int>, d: int)
    requires Carving(maze, stack, visited, order, parent, dirs, stackIdx) && stack != [] && 0 <= d < 4
    requires CanCarve(maze, stack[|stack| - 1], d)
    ensures var c := stack[|stack| - 1];
      var n := Next(c, d);
      var r := Put(Put(maze, Between(c, d), ' '), n, ' ');
      Carving(r, stack + [n], visited + {n}, order + [n], parent + [stackIdx[|stack| - 1]], dirs + [d], stackIdx + [|order|]) &&
      n !in visited && n in AllRooms()
  {
    var c := stack[|stack| - 1];
    var n := Next(c, d);
    var b := Between(c, d);
    var r := Put(Put(maze, b, ' '), n, ' ');
    InAllRooms(n);
    CarveGrid(maze, visited, c, d);
    TreeMono(maze, r, order, parent, dirs);
    TreePush(r, order, parent, dirs, stackIdx[|stack| - 1], d);
    var stack' := stack + [n];
    var visited' := visited + {n};
    forall c', d' | c' in visited' && c' !in stack' && 0 <= d' < 4 && Interior(Next(c', d'))
      ensures Next(c', d') in visited'
    {
      assert c' in visited && c' !in stack;
    }
    forall i, j | 0 <= i < j < |stack'|
      ensures stack'[i] != stack'[j]
    {
      if j == |stack| {
        assert stack'[i] in visited;
      }
    }
  }

  /** Carving room Next(c, d) from a visited room opens the door and the room and adds the
      room, which is new, to the visited rooms. */
  lemma CarveGrid(maze: Grid, visited: set<Cell>, c: Cell, d: int)
    requires CarvedGrid(maze, visited) && c in visited && 0 <= d < 4 && CanCarve(maze, c, d)
    ensures var n := Next(c, d);
      var r := Put(Put(maze, Between(c, d), ' '), n, ' ');
      CarvedGrid(r, visited + {n}) && Opens(maze, r) && n !in visited && IsRoom(n) &&
      At(r, Between(c, d)) != '#' && At(r, n) != '#'
  {
    var n := Next(c, d);
    var b := Between(c, d);
    StepShape(c, d);
    var r := Put(Put(maze, b, ' '), n, ' ');
    forall c' | IsRoom(c')
      ensures At(r, c') != '#' <==> c' in visited + {n}
    {
      assert c' != b;
    }
  }

  /** A room carved from room order[p] in direction d through an open door extends the
      tree. */
  lemma TreePush(g: Grid, order: seq<Cell>, parent: seq<int>, dirs: seq<int>, p: int, d: int)
    requires IsGrid(g) && Tree(g, order, parent, dirs) && 0 <= p < |order| && 0 <= d < 4
    requires IsRoom(Next(order[p], d)) && At(g, Next(order[p], d)) != '#'
    requires InGrid(Between(order[p], d)) && At(g, Between(order[p], d)) != '#'
    ensures Tree(g, order + [Next(order[p], d)], parent + [p], dirs + [d])
  {
    var order' := order + [Next(order[p], d)];
    var parent' := parent + [p];
    var dirs' := dirs + [d];
    assert order'[|order|] == Next(order[p], d) && parent'[|order|] == p && dirs'[|order|] == d;
    assert order'[p] == order[p];
  }

  /** A step that carves nothing pops the stack: every neighbour of the popped room was
      checked and is visited. */
  lemma CarvingPop(maze: Grid, stack: seq<Cell>, visited: set<Cell>, order: seq<Cell>, parent: seq<int>,
                   dirs: seq<int>, stackIdx: seq<int>, top: Cell)
    requires Carving(maze, stack, visited, order, parent, dirs, stackIdx) && stack != [] && top == stack[|stack| - 1]
    requires forall d :: 0 <= d < 4 ==> !CanCarve(maze, top, d)
    ensures Carving(maze, stack[..|stack| - 1], visited, order, parent, dirs, stackIdx[..|stack| - 1])
  {
    var stack' := stack[..|stack| - 1];
    forall c, d | c in visited && c !in stack' && 0 <= d < 4 && Interior(Next(c, d))
      ensures Next(c, d) in visited
    {
      if c == top {
        StepShape(c, d);
        assert !CanCarve(maze, top, d);
      } else {
        assert c !in stack;
      }
    }
  }

  /** A visited set that is closed under the four steps and holds the start holds every
      room. */
  lemma ClosedHoldsRooms(visited: set<Cell>)
    requires START in visited
    requires forall c, d :: c in visited && 0 <= d < 4 && Interior(Next(c, d)) ==> Next(c, d) in visited
    ensures forall c :: IsRoom(c) ==> c in visited
  {
    forall c | IsRoom(c)
      ensures c in visited
    {
      ColumnHeld(visited, (c.y - 1) / 2);
      RowHeld(visited, (c.x - 1) / 2, (c.y - 1) / 2);
    }
  }

  lemma {:induction false} ColumnHeld(visited: set<Cell>, j: nat)
    requires START in visited
    requires forall c, d :: c in visited && 0 <= d < 4 && Interior(Next(c, d)) ==> Next(c, d) in visited
    requires j <= 6
    ensures Cell(1, 1 + 2 * j) in visited
  {
    if j > 0 {
      ColumnHeld(visited, j - 1);
      assert Next(Cell(1, 1 + 2 * (j - 1)), 2) == Cell(1, 1 + 2 * j);
    }
  }

  lemma {:induction false} RowHeld(visited: set<Cell>, i: nat, j: nat)
    requires START in visited
    requires forall c, d :: c in visited && 0 <= d < 4 && Interior(Next(c, d)) ==> Next(c, d) in visited
    requires i <= 13 && j <= 6
    ensures Cell(1 + 2 * i, 1 + 2 * j) in visited
  {
    if i == 0 {
      ColumnHeld(visited, j);
    } else {
      RowHeld(visited, i - 1, j);
      assert Next(Cell(1 + 2 * (i - 1), 1 + 2 * j), 0) == Cell(1 + 2 * i, 1 + 2 * j);
    }
  }

  /** What generate_maze returns: a 15x30 grid of walls, spaces and the exit; the outer
      wall intact; the start open and the exit marked; every room carved; and every cell
      that is not a wall, the exit included, reachable from the start. So the exit can be
      reached, and a player at the start has a playable maze. */
  ghost predicate WellFormedMaze(g: Grid)
    ensures WellFormedMaze(g) ==> IsGrid(g) && Connected(g, EXIT) && Playable(g, START)
  {
    IsGrid(g) &&
    (forall c :: InGrid(c) ==> At(g, c) == '#' || At(g, c) == ' ' || At(g, c) == 'E') &&
    (forall c :: InGrid(c) && !Interior(c) ==> At(g, c) == '#') &&
    At(g, START) == ' ' && At(g, EXIT) == 'E' && (forall c :: InGrid(c) && At(g, c) == 'E' ==> c == EXIT) &&
    (forall c :: IsRoom(c) ==> At(g, c) == ' ') &&
    Reachable(g)
  }

  /** Every cell that is not a wall is a room or a door and can be reached from the start. */
  ghost predicate Reachable(g: Grid)
    requires IsGrid(g)
  {
    forall c :: InGrid(c) && At(g, c) != '#' ==> (IsRoom(c) || IsDoor(c)) && Connected(g, c)
  }

  /** A door whose neighbouring rooms are all reachable is reachable once it is open. */
  lemma DoorConnected(g: Grid, c: Cell)
    requires IsGrid(g) && IsDoor(c) && At(g, c) != '#'
    requires forall r :: IsRoom(r) ==> At(g, r) != '#' && Connected(g, r)
    ensures Connected(g, c)
  {
    var r := if c.x % 2 == 0 then Cell(c.x - 1, c.y) else Cell(c.x, c.y - 1);
    assert IsRoom(r);
    var p :| IsPath(g, p) && p[0] == START && p[|p| - 1] == r;
    ExtendPath1(g, p, c);
    assert (p + [c])[0] == START;
  }

  /** generate_maze. */
  method GenerateMaze(shuffle: nat -> seq<int>) returns (maze: Grid)
    requires forall n :: IsOrder(shuffle(n))
    ensures WellFormedMaze(maze)
  {
    maze := Walls();
    maze := Put(maze, START, ' ');
    var stack := [START];
    var step := 0;
    ghost var visited := {START};
    ghost var order := [START];
    ghost var parent := [0];
    ghost var dirs := [0];
    ghost var stackIdx := [0];
    CarvingStart();
    while stack != []
      invariant Carving(maze, stack, visited, order, parent, dirs, stackIdx)
      decreases AllRooms() - visited, |stack|
    {
      var c := stack[|stack| - 1];
      var r, found, d := Carve(maze, c, shuffle(step));
      step := step + 1;
      if found {
        CarvingPush(maze, stack, visited, order, parent, dirs, stackIdx, d);
        var n := Next(c, d);
        maze := r;
        stack := stack + [n];
        visited := visited + {n};
        parent := parent + [stackIdx[|stackIdx| - 1]];
        stackIdx := stackIdx + [|order|];
        order := order + [n];
        dirs := dirs + [d];
      } else {
        CarvingPop(maze, stack, visited, order, parent, dirs, stackIdx, c);
        stack := stack[..|stack| - 1];
        stackIdx := stackIdx[..|stackIdx| - 1];
      }
    }
    ClosedHoldsRooms(visited);
    ghost var carved := maze;
    maze := Put(maze, START, ' ');
    maze := Put(maze, EXIT, 'E');
    Finish(carved, maze, visited, order, parent, dirs);
  }

  /** The carved grid, with the start reopened and the exit marked, is a well-formed maze. */
  lemma Finish(carved: Grid, g: Grid, visited: set<Cell>, order: seq<Cell>, parent: seq<int>, dirs: seq<int>)
    requires Carving(carved, [], visited, order, parent, dirs, [])
    requires forall c :: IsRoom(c) ==> c in visited
    requires g == Put(Put(carved, START, ' '), EXIT, 'E')
    ensures WellFormedMaze(g)
  {
    FinishCells(carved, g, visited);
    assert Opens(carved, g);
    TreeMono(carved, g, order, parent, dirs);
    RoomsConnected(g, visited, order, parent, dirs);
    forall c | InGrid(c) && At(g, c) != '#'
      ensures (IsRoom(c) || IsDoor(c)) && Connected(g, c)
    {
      if !IsRoom(c) {
        DoorConnected(g, c);
      }
    }
  }

  /** The cells of the finished maze: walls, spaces and the exit, the outer wall intact,
      every room open, and the open cells are rooms and doors. */
  lemma FinishCells(carved: Grid, g: Grid, visited: set<Cell>)
    requires IsGrid(carved)
    requires forall c :: InGrid(c) && !Interior(c) ==> At(carved, c) == '#'
    requires forall c :: InGrid(c) ==> At(carved, c) == '#' || At(carved, c) == ' '
    requires forall c :: InGrid(c) && At(carved, c) != '#' ==> IsRoom(c) || IsDoor(c)
    requires forall c :: IsRoom(c) ==> (At(carved, c) != '#' <==> c in visited)
    requires forall c :: IsRoom(c) ==> c in visited
    requires g == Put(Put(carved, START, ' '), EXIT, 'E')
    ensures IsGrid(g)
    ensures forall c :: InGrid(c) ==> At(g, c) == '#' || At(g, c) == ' ' || At(g, c) == 'E'
    ensures forall c :: InGrid(c) && !Interior(c) ==> At(g, c) == '#'
    ensures At(g, START) == ' ' && At(g, EXIT) == 'E'
    ensures forall c :: InGrid(c) && At(g, c) == 'E' ==> c == EXIT
    ensures forall c :: IsRoom(c) ==> At(g, c) == ' '
    ensures forall c :: InGrid(c) && At(g, c) != '#' ==> IsRoom(c) || IsDoor(c)
  {
  }

  /** Every room of the tree is reachable along it. */
  lemma RoomsConnected(g: Grid, visited: set<Cell>, order: seq<Cell>, parent: seq<int>, dirs: seq<int>)
    requires IsGrid(g) && Tree(g, order, parent, dirs)
    requires forall c :: IsRoom(c) ==> c in visited
    requires forall c :: c in visited ==> c in order
    ensures forall r :: IsRoom(r) ==> At(g, r) != '#' && Connected(g, r)
  {
    forall r | IsRoom(r)
      ensures At(g, r) != '#' && Connected(g, r)
    {
      assert r in order;
      var k :| 0 <= k < |order| && order[k] == r;
      var p := PathTo(g, order, parent, dirs, k);
    }
  }

  // ---------------------------------------------------------------------------
  // Playing

  datatype Key = KeyUp | KeyDown | KeyLeft | KeyRight | Quit | OtherKey

  function Clamp(v: int, hi: int): (r: int)
    requires 0 < hi
    ensures 0 <= r < hi
    ensures 0 <= v < hi ==> r == v
  {
    if v < 0 then 0 else if v >= hi then hi - 1 else v
  }

  /** The cell an arrow key aims at: one step, clamped into the grid. From a cell of the
      grid it is a cell of the grid, next to it or, against the edge, the cell itself. */
  function Target(p: Cell, key: Key): (t: Cell)
    requires key != Quit && key != OtherKey
    ensures InGrid(p) ==> InGrid(t) && (t == p || Adjacent(p, t))
  {
    var n := match key
      case KeyUp => Cell(p.x, p.y - 1)
      case KeyDown => Cell(p.x, p.y + 1)
      case KeyLeft => Cell(p.x - 1, p.y)
      case KeyRight => Cell(p.x + 1, p.y);
    Cell(Clamp(n.x, COLS), Clamp(n.y, ROWS))
  }

  ghost predicate Opened(g: Grid, c: Cell)
    requires IsGrid(g) && InGrid(c)
  {
    At(g, c) != '#'
  }

  /** A maze the player stands in: outer wall intact, every room open, the exit the one
      `E`, the player's cell open, and every open cell reachable from the start. So both
      the player's cell and the exit can be reached from the start. */
  ghost predicate Playable(g: Grid, p: Cell)
    ensures Playable(g, p) ==> IsGrid(g) && Connected(g, p) && Connected(g, EXIT)
  {
    IsGrid(g) && InGrid(p) && At(g, p) != '#' &&
    (forall c :: InGrid(c) && !Interior(c) ==> At(g, c) == '#') &&
    At(g, EXIT) == 'E' && (forall c :: InGrid(c) && At(g, c) == 'E' ==> c == EXIT) &&
    (forall c :: IsRoom(c) ==> At(g, c) == ' ') &&
    Reachable(g)
  }

  lemma ConnectedMono(g: Grid, h: Grid, c: Cell)
    requires IsGrid(g) && IsGrid(h) && Opens(g, h) && Connected(g, c)
    ensures Connected(h, c)
  {
    var p :| IsPath(g, p) && p[0] == START && p[|p| - 1] == c;
    PathMono(g, h, p);
  }

  /** Opening the player's cell in a fresh maze keeps it playable: the cell is a room,
      already open, or a door next to an open room. */
  lemma OpenPlayerCell(g: Grid, p: Cell)
    requires WellFormedMaze(g) && (IsRoom(p) || IsDoor(p))
    ensures var h := if At(g, p) == '#' then Put(g, p, ' ') else g;
      Playable(h, p)
  {
    if At(g, p) == '#' {
      var h := Put(g, p, ' ');
      assert Opens(g, h);
      forall c | InGrid(c) && At(g, c) != '#'
        ensures Connected(h, c)
      {
        ConnectedMono(g, h, c);
      }
      DoorConnected(h, p);
    }
  }

  /** The game of main: the maze, the player, and whether the loop is still running. */
  class Game {
    var maze: Grid
    var player: Cell
    var running: bool
    var won: bool

    ghost predicate Valid()
      reads this
    {
      Playable(maze, player) && (IsRoom(player) || IsDoor(player)) && (won ==> !running)
    }

    /** The player at (1, 1) in a freshly generated maze. */
    constructor (shuffle: nat -> seq<int>)
      requires forall n :: IsOrder(shuffle(n))
      ensures Valid() && running && !won && player == START && WellFormedMaze(maze)
    {
      var m := GenerateMaze(shuffle);
      player := START;
      maze := m;
      running := true;
      won := false;
    }

    /** One pass of the main loop, for a key read by getch. */
    method HandleKey(key: Key, shuffle: nat -> seq<int>)
      requires Valid() && running
      requires forall n :: IsOrder(shuffle(n))
      modifies this
      ensures Valid()
      ensures key == Quit ==> !running && !won && maze == old(maze) && player == old(player)
      ensures key == OtherKey ==> running && !won && maze == old(maze) && player == old(player)
      ensures key != Quit && key != OtherKey ==>
        player == (if Opened(old(maze), Target(old(player), key)) then Target(old(player), key) else old(player))
      ensures key != Quit && key != OtherKey ==> won == (player == EXIT) && running == !won
      ensures won ==> maze == old(maze)
    {
      if key == Quit {
        running := false;
        return;
      }
      if key == OtherKey {
        return;
      }
      var target := Target(player, key);
      if At(maze, target) != '#' {
        player := target;
      }
      if At(maze, player) == 'E' {
        won := true;
        running := false;
        return;
      }
      Regenerate(shuffle);
    }

    /** A new maze after a move that did not win: the player's cell is opened if the new
        maze walls it, and the exit restored if missing. */
    method Regenerate(shuffle: nat -> seq<int>)
      requires InGrid(player) && (IsRoom(player) || IsDoor(player)) && player != EXIT && running && !won
      requires forall n :: IsOrder(shuffle(n))
      modifies this
      ensures Valid() && player == old(player) && running && !won
    {
      var m := GenerateMaze(shuffle);
      OpenPlayerCell(m, player);
      if At(m, player) == '#' {
        m := Put(m, player, ' ');
      }
      if At(m, EXIT) != 'E' {
        // Restoring the exit never happens: a generated maze has it, and the player's
        // cell is not the exit, or the game would have been won.
        assert false;
      }
      maze := m;
    }
  }
}
