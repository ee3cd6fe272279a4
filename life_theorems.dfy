/**
 * What one call of `compute_generation` (LifeGame.c) does to the pattern: the candidates
 * it collects are the cells next to a live cell, the updates it commits are exactly
 * the cells the rule changes, and so the live cells afterwards are the Life successor of
 * the live cells before. This holds for patterns kept away from the negative
 * coordinates, where the truncating chunk key makes cells alias, and from the range
 * limit, where set_cell ignores writes.
 */
module LifeTheorems {
  import opened LifeChunk
  import opened LifeCoords
  import opened LifeWorld
  import opened LifeCells
  import opened LifeGeneration
  import opened LifeRule

  /** Bit (lx, ly) of the chunk stored under k is set. */
  predicate Bit(w: World, k: Pair, lx: int, ly: int)
    requires WorldValid(w)
  {
    k in w && 0 <= lx < CHUNK_SIZE && 0 <= ly < CHUNK_SIZE && Cells(w[k].bitmap)[ly * CHUNK_SIZE + lx]
  }

  /** The live cells as `compute_generation` and `save_world` report them: every set bit,
      at key * CHUNK_SIZE + local. */
  ghost function LiveSet(w: World): set<Pair>
    requires WorldValid(w)
  {
    set k, lx, ly | k in w && 0 <= lx < CHUNK_SIZE && 0 <= ly < CHUNK_SIZE && Bit(w, k, lx, ly) :: Reported(k, lx, ly)
  }

  /** A position with both coordinates in [0, INT_MAX / 2]: stored in its own cell. */
  predicate InQuadrant(p: Pair) {
    0 <= p.first <= HALF_MAX && 0 <= p.second <= HALF_MAX
  }

  /** Every position of S lies at least m cells inside the quadrant on each side. */
  predicate Confined(S: set<Pair>, m: int) {
    forall p :: p in S ==> m <= p.first <= HALF_MAX - m && m <= p.second <= HALF_MAX - m
  }

  // ---------------------------------------------------------------------------
  // Cells of the quadrant

  /** In the quadrant, a position names the bit (k, lx, ly) exactly when it is reported
      there. */
  lemma QuadrantCell(p: Pair, k: Pair, lx: int, ly: int)
    requires InQuadrant(p) && 0 <= lx < CHUNK_SIZE && 0 <= ly < CHUNK_SIZE
    ensures (k == KeyOf(p.first, p.second) && lx == LocalCoord(p.first) && ly == LocalCoord(p.second))
      <==> p == Reported(k, lx, ly)
  {
    ReportedCoord(p.first);
    ReportedCoord(p.second);
    if p == Reported(k, lx, ly) {
      ReportedRoundTrip(k.first, lx);
      ReportedRoundTrip(k.second, ly);
    }
  }

  /** In the quadrant, a position is live exactly when the bit it is stored in is set. */
  lemma LiveSetBit(w: World, p: Pair)
    requires WorldValid(w) && InQuadrant(p)
    ensures p in LiveSet(w) <==> Bit(w, KeyOf(p.first, p.second), LocalCoord(p.first), LocalCoord(p.second))
  {
    var k, lx, ly := KeyOf(p.first, p.second), LocalCoord(p.first), LocalCoord(p.second);
    QuadrantCell(p, k, lx, ly);
    if p in LiveSet(w) {
      var k', lx', ly' :| k' in w && 0 <= lx' < CHUNK_SIZE && 0 <= ly' < CHUNK_SIZE && Bit(w, k', lx', ly')
        && p == Reported(k', lx', ly');
      QuadrantCell(p, k', lx', ly');
    }
    if Bit(w, k, lx, ly) {
      assert p == Reported(k, lx, ly);
    }
  }

  /** In the quadrant, peek_cell reads exactly the reported live cells. */
  lemma PeekIsLive(w: World, p: Pair)
    requires WorldValid(w) && InQuadrant(p)
    ensures PeekCell(w, p.first, p.second) <==> p in LiveSet(w)
  {
    LiveSetBit(w, p);
  }

  // ---------------------------------------------------------------------------
  // The candidates

  /** The live cell (x, y) of chunk k makes p a candidate. */
  ghost predicate Feeds(cells: seq<bool>, k: Pair, x: int, y: int, p: Pair)
    requires |cells| == CELLS && 0 <= x < CHUNK_SIZE && 0 <= y < CHUNK_SIZE
  {
    cells[y * CHUNK_SIZE + x] && p in Candidates(Reported(k, x, y))
  }

  /** A row's candidates are the candidates of its live cells. */
  lemma {:induction false} RowCandidatesMembers(cells: seq<bool>, k: Pair, y: int, n: int, p: Pair)
    requires |cells| == CELLS && 0 <= y < CHUNK_SIZE && 0 <= n <= CHUNK_SIZE
    ensures p in RowCandidates(cells, k, y, n) <==> exists x :: 0 <= x < n && Feeds(cells, k, x, y, p)
  {
    if n > 0 {
      RowCandidatesMembers(cells, k, y, n - 1, p);
      if Feeds(cells, k, n - 1, y, p) {
        assert 0 <= n - 1 < n;
      }
    }
  }

  /** Every candidate of a chunk's rows below m comes from a live cell of those rows. */
  lemma {:induction false} RowsCandidatesFrom(cells: seq<bool>, k: Pair, m: int, p: Pair)
    requires |cells| == CELLS && 0 <= m <= CHUNK_SIZE && p in RowsCandidates(cells, k, m)
    ensures exists x, y :: 0 <= y < m && 0 <= x < CHUNK_SIZE && Feeds(cells, k, x, y, p)
  {
    var rows, row := RowsCandidates(cells, k, m - 1), RowCandidates(cells, k, m - 1, CHUNK_SIZE);
    assert RowsCandidates(cells, k, m) == rows + row;
    if p in row {
      RowCandidatesMembers(cells, k, m - 1, CHUNK_SIZE, p);
      var x :| 0 <= x < CHUNK_SIZE && Feeds(cells, k, x, m - 1, p);
      assert 0 <= m - 1 < m;
    } else {
      RowsCandidatesFrom(cells, k, m - 1, p);
      var x, y :| 0 <= y < m - 1 && 0 <= x < CHUNK_SIZE && Feeds(cells, k, x, y, p);
      assert 0 <= y < m;
    }
  }

  /** Every live cell of a chunk's rows below m contributes its candidates. */
  lemma {:induction false} RowsCandidatesHas(cells: seq<bool>, k: Pair, m: int, x: int, y: int, p: Pair)
    requires |cells| == CELLS && 0 <= m <= CHUNK_SIZE && 0 <= y < m && 0 <= x < CHUNK_SIZE
    requires Feeds(cells, k, x, y, p)
    ensures p in RowsCandidates(cells, k, m)
  {
    var rows, row := RowsCandidates(cells, k, m - 1), RowCandidates(cells, k, m - 1, CHUNK_SIZE);
    assert RowsCandidates(cells, k, m) == rows + row;
    if y == m - 1 {
      assert p in row by {
        RowCandidatesMembers(cells, k, y, CHUNK_SIZE, p);
        assert 0 <= x < CHUNK_SIZE && Feeds(cells, k, x, y, p);
      }
    } else {
      RowsCandidatesHas(cells, k, m - 1, x, y, p);
      assert p in rows;
    }
  }

  /** The candidates of compute_generation are the cells next to (or at) a live cell. */
  lemma CandidateSetIsAround(w: World)
    requires WorldValid(w)
    ensures CandidateSet(w) == Around(LiveSet(w))
  {
    var S := LiveSet(w);
    forall p
      ensures p in CandidateSet(w) <==> p in Around(S)
    {
      if p in CandidateSet(w) {
        var k :| k in w && p in ChunkCandidates(w[k], k);
        RowsCandidatesFrom(Cells(w[k].bitmap), k, CHUNK_SIZE, p);
        var x, y :| 0 <= y < CHUNK_SIZE && 0 <= x < CHUNK_SIZE && Feeds(Cells(w[k].bitmap), k, x, y, p);
        assert Bit(w, k, x, y);
        assert Reported(k, x, y) in S;
      }
      if p in Around(S) {
        var q :| q in S && p in Candidates(q);
        var k, x, y :| k in w && 0 <= x < CHUNK_SIZE && 0 <= y < CHUNK_SIZE && Bit(w, k, x, y) && q == Reported(k, x, y);
        assert Feeds(Cells(w[k].bitmap), k, x, y, p);
        RowsCandidatesHas(Cells(w[k].bitmap), k, CHUNK_SIZE, x, y, p);
        assert p in ChunkCandidates(w[k], k);
      }
    }
  }

  // ---------------------------------------------------------------------------
  // The counts and the updates

  /** The live cells among the first j neighbours of p in S, in the order of
      neighbor_offsets. */
  function NeighborsInBelow(S: set<Pair>, p: Pair, j: int): int
    requires 0 <= j <= 8
  {
    if j == 0 then 0 else NeighborsInBelow(S, p, j - 1) + Alive(S, Shift(p, NEIGHBOR_OFFSETS[j - 1]))
  }

  /** All eight offsets, in order, are the neighbours NeighborsIn counts. */
  lemma NeighborsInBelowAll(S: set<Pair>, p: Pair)
    ensures NeighborsInBelow(S, p, 8) == NeighborsIn(S, p)
  {
    var x, y := p.first, p.second;
    assert NeighborsInBelow(S, p, 1) == Alive(S, Pair(x - 1, y - 1));
    assert NeighborsInBelow(S, p, 2) == NeighborsInBelow(S, p, 1) + Alive(S, Pair(x, y - 1));
    assert NeighborsInBelow(S, p, 3) == NeighborsInBelow(S, p, 2) + Alive(S, Pair(x + 1, y - 1));
    assert NeighborsInBelow(S, p, 4) == NeighborsInBelow(S, p, 3) + Alive(S, Pair(x - 1, y));
    assert NeighborsInBelow(S, p, 5) == NeighborsInBelow(S, p, 4) + Alive(S, Pair(x + 1, y));
    assert NeighborsInBelow(S, p, 6) == NeighborsInBelow(S, p, 5) + Alive(S, Pair(x - 1, y + 1));
    assert NeighborsInBelow(S, p, 7) == NeighborsInBelow(S, p, 6) + Alive(S, Pair(x, y + 1));
  }

  /** One more neighbour read with peek_cell is one more neighbour looked up in S. */
  lemma NeighborStep(w: World, p: Pair, j: int)
    requires WorldValid(w) && Confined({p}, 1) && 0 < j <= 8
    ensures NeighborsBelow(w, p, j) == NeighborsBelow(w, p, j - 1) + Alive(LiveSet(w), Shift(p, NEIGHBOR_OFFSETS[j - 1]))
  {
    var d := NEIGHBOR_OFFSETS[j - 1];
    assert -1 <= d.first <= 1 && -1 <= d.second <= 1;
    PeekIsLive(w, Shift(p, d));
  }

  lemma {:induction false} NeighborsBelowIsIn(w: World, p: Pair, j: int)
    requires WorldValid(w) && Confined({p}, 1) && 0 <= j <= 8
    ensures NeighborsBelow(w, p, j) == NeighborsInBelow(LiveSet(w), p, j)
  {
    if j > 0 {
      NeighborsBelowIsIn(w, p, j - 1);
      NeighborStep(w, p, j);
    }
  }

  /** Inside the quadrant, the neighbour count taken with peek_cell is the number of live
      neighbours. */
  lemma NeighborCountIsNeighborsIn(w: World, p: Pair)
    requires WorldValid(w) && Confined({p}, 1)
    ensures NeighborCount(w, p) == NeighborsIn(LiveSet(w), p)
  {
    NeighborsBelowIsIn(w, p, 8);
    NeighborsInBelowAll(LiveSet(w), p);
  }

  /** The state the last update in us for position p writes, if there is one. */
  function LastWrite(us: seq<Update>, p: Pair): (r: Option<bool>)
    ensures r.Some? <==> exists i :: 0 <= i < |us| && Pair(us[i].x, us[i].y) == p
  {
    if us == [] then None
    else
      var u := us[|us| - 1];
      if Pair(u.x, u.y) == p then Some(u.alive)
      else
        var r := LastWrite(us[..|us| - 1], p);
        assert forall i :: 0 <= i < |us| - 1 ==> us[..|us| - 1][i] == us[i];
        r
  }

  /** The later list's writes win. */
  lemma {:induction false} LastWriteAppend(a: seq<Update>, b: seq<Update>, p: Pair)
    ensures LastWrite(a + b, p) == if LastWrite(b, p).Some? then LastWrite(b, p) else LastWrite(a, p)
  {
    if b == [] {
      assert a + b == a;
    } else {
      var b', u := b[..|b| - 1], b[|b| - 1];
      assert (a + b)[..|a + b| - 1] == a + b';
      assert (a + b)[|a + b| - 1] == u;
      LastWriteAppend(a, b', p);
      if Pair(u.x, u.y) != p {
        assert LastWrite(b, p) == LastWrite(b', p);
        assert LastWrite(a + b, p) == LastWrite(a + b', p);
      }
    }
  }

  /** The update the rule asks for at p: the new state, only when it differs from the
      current one. */
  function RuleWrite(S: set<Pair>, p: Pair): Option<bool> {
    var next := NextAlive(p in S, NeighborsIn(S, p));
    if next != (p in S) then Some(next) else None
  }

  /** Evaluate records the rule's update, read through peek_cell. */
  lemma EvaluateShape(w: World, p: Pair)
    requires WorldValid(w)
    ensures var alive := PeekCell(w, p.first, p.second);
      var next := NextAlive(alive, NeighborCount(w, p));
      Evaluate(w, p) == if next != alive then [Update(p.first, p.second, next)] else []
  {
  }

  /** Away from the edges, the update Evaluate records is the rule's. */
  lemma EvaluateIsRule(w: World, p: Pair)
    requires WorldValid(w) && Confined({p}, 1)
    ensures LastWrite(Evaluate(w, p), p) == RuleWrite(LiveSet(w), p)
    ensures forall q :: q != p ==> LastWrite(Evaluate(w, p), q) == None
  {
    NeighborCountIsNeighborsIn(w, p);
    PeekIsLive(w, p);
    EvaluateShape(w, p);
  }

  /** The evaluation loop writes each listed position at most once, with the rule's
      verdict, and writes nothing else. */
  lemma {:induction false} TransitionsLastWrite(w: World, ps: seq<Pair>, p: Pair)
    requires WorldValid(w) && Confined(set q | q in ps, 1)
    ensures LastWrite(Transitions(w, ps), p) == if p in ps then RuleWrite(LiveSet(w), p) else None
  {
    if ps != [] {
      var init, q := ps[..|ps| - 1], ps[|ps| - 1];
      assert ps == init + [q];
      assert (set r | r in init) <= (set r | r in ps);
      assert Confined({q}, 1) by { assert q in ps; }
      TransitionsLastWrite(w, init, p);
      EvaluateIsRule(w, q);
      TransitionsSnoc(w, init, q, p);
      assert p in ps <==> p in init || p == q;
    }
  }

  /** The updates for one more position are written after those for the earlier ones. */
  lemma TransitionsSnoc(w: World, init: seq<Pair>, q: Pair, p: Pair)
    requires WorldValid(w)
    ensures var last := LastWrite(Evaluate(w, q), p);
      LastWrite(Transitions(w, init + [q]), p) == if last.Some? then last else LastWrite(Transitions(w, init), p)
  {
    var ps := init + [q];
    assert ps[..|ps| - 1] == init;
    LastWriteAppend(Transitions(w, init), Evaluate(w, q), p);
  }

  /** Every update of the evaluation loop is at a listed position. */
  lemma {:induction false} TransitionsTargets(w: World, ps: seq<Pair>)
    requires WorldValid(w)
    ensures forall i :: 0 <= i < |Transitions(w, ps)| ==>
      Pair(Transitions(w, ps)[i].x, Transitions(w, ps)[i].y) in ps
  {
    if ps != [] {
      var init := ps[..|ps| - 1];
      TransitionsTargets(w, init);
      assert forall r :: r in init ==> r in ps;
    }
  }

  // ---------------------------------------------------------------------------
  // The commit

  /** set_cell changes the one bit its position is stored in and no other. */
  lemma SetCellBit(e: Engine, x: int, y: int, alive: bool, k: Pair, lx: int, ly: int)
    requires WorldValid(e.world) && 0 <= lx < CHUNK_SIZE && 0 <= ly < CHUNK_SIZE
    ensures Bit(SetCell(e, x, y, alive).world, k, lx, ly) ==
      if InChunkRange(x, y) && k == KeyOf(x, y) && lx == LocalCoord(x) && ly == LocalCoord(y) then alive
      else Bit(e.world, k, lx, ly)
  {
    if InChunkRange(x, y) {
      var r := SetCell(e, x, y, alive);
      var key := KeyOf(x, y);
      var chunk := GetChunk(e.world, x, y).1.value;
      var pos := CellPos(x, y);
      assert Cells(r.world[key].bitmap) == Cells(chunk.bitmap)[pos := alive] by {
        if Cells(chunk.bitmap)[pos] == alive {
          assert r.world[key] == chunk;
        }
      }
      if k == key && key !in e.world {
        assert !Cells(chunk.bitmap)[ly * CHUNK_SIZE + lx];
      }
    }
  }

  /** The commit loop: a bit holds the last state written to its position, or its old
      state when nothing was written there, as long as every update is in the quadrant. */
  lemma {:induction false} ApplyUpdatesBit(e: Engine, us: seq<Update>, k: Pair, lx: int, ly: int)
    requires WorldValid(e.world) && 0 <= lx < CHUNK_SIZE && 0 <= ly < CHUNK_SIZE
    requires forall i :: 0 <= i < |us| ==> InQuadrant(Pair(us[i].x, us[i].y))
    ensures Bit(ApplyUpdates(e, us).world, k, lx, ly) ==
      match LastWrite(us, Reported(k, lx, ly))
      case None => Bit(e.world, k, lx, ly)
      case Some(v) => v
  {
    if us != [] {
      var init, u := us[..|us| - 1], us[|us| - 1];
      ApplyUpdatesBit(e, init, k, lx, ly);
      SetCellBit(ApplyUpdates(e, init), u.x, u.y, u.alive, k, lx, ly);
      QuadrantCell(Pair(u.x, u.y), k, lx, ly);
    }
  }

  /** The bits after a commit whose writes are the rule's updates on the candidates. */
  ghost predicate Committed(w: World, r: World, S: set<Pair>)
    requires WorldValid(w) && WorldValid(r)
  {
    forall k, lx, ly :: 0 <= lx < CHUNK_SIZE && 0 <= ly < CHUNK_SIZE ==>
      Bit(r, k, lx, ly) ==
        var q := Reported(k, lx, ly);
        if q in Around(S) && RuleWrite(S, q).Some? then RuleWrite(S, q).value else Bit(w, k, lx, ly)
  }

  /** The generation's commit writes the rule's updates and nothing else. */
  lemma GenerationCommits(e: Engine)
    requires WorldValid(e.world) && Confined(LiveSet(e.world), 2)
    ensures var ps := Enumerate(CandidateSet(e.world));
      Committed(e.world, ApplyUpdates(e, Transitions(e.world, ps)).world, LiveSet(e.world))
  {
    var w, S := e.world, LiveSet(e.world);
    var ps := Enumerate(CandidateSet(w));
    CandidateSetIsAround(w);
    forall p | p in ps
      ensures 1 <= p.first <= HALF_MAX - 1 && 1 <= p.second <= HALF_MAX - 1
    {
      AroundNear(S, p);
    }
    var us := Transitions(w, ps);
    TransitionsTargets(w, ps);
    var r := ApplyUpdates(e, us).world;
    forall k, lx, ly | 0 <= lx < CHUNK_SIZE && 0 <= ly < CHUNK_SIZE
      ensures Bit(r, k, lx, ly) ==
        var q := Reported(k, lx, ly);
        if q in Around(S) && RuleWrite(S, q).Some? then RuleWrite(S, q).value else Bit(w, k, lx, ly)
    {
      ApplyUpdatesBit(e, us, k, lx, ly);
      TransitionsLastWrite(w, ps, Reported(k, lx, ly));
    }
  }

  // ---------------------------------------------------------------------------
  // One generation

  /** A committed world's live cells are the successor, for a pattern whose cells all lie
      at least two cells inside the quadrant. */
  lemma CommittedIsStep(w: World, r: World, S: set<Pair>)
    requires WorldValid(w) && WorldValid(r) && S == LiveSet(w) && Confined(S, 2)
    requires Committed(w, r, S)
    ensures LiveSet(r) == Step(S)
  {
    forall p | p in LiveSet(r)
      ensures p in Step(S)
    {
      NextLiveInStep(w, r, S, p);
    }
    forall p | p in Step(S)
      ensures p in LiveSet(r)
    {
      StepInNextLive(w, r, S, p);
    }
  }

  lemma NextLiveInStep(w: World, r: World, S: set<Pair>, p: Pair)
    requires WorldValid(w) && WorldValid(r) && S == LiveSet(w) && Confined(S, 2)
    requires Committed(w, r, S) && p in LiveSet(r)
    ensures p in Step(S)
  {
    var k, lx, ly :| k in r && 0 <= lx < CHUNK_SIZE && 0 <= ly < CHUNK_SIZE && Bit(r, k, lx, ly) && p == Reported(k, lx, ly);
    StepMembership(S, p);
    if !(p in Around(S) && RuleWrite(S, p).Some?) {
      assert Bit(w, k, lx, ly);
      assert p in S;
      assert p in Candidates(p);
    }
  }

  lemma StepInNextLive(w: World, r: World, S: set<Pair>, p: Pair)
    requires WorldValid(w) && WorldValid(r) && S == LiveSet(w) && Confined(S, 2)
    requires Committed(w, r, S) && p in Step(S)
    ensures p in LiveSet(r)
  {
    StepMembership(S, p);
    assert p in Around(S) && NextAlive(p in S, NeighborsIn(S, p));
    StepInQuadrant(S, p);
    var k, lx, ly := KeyOf(p.first, p.second), LocalCoord(p.first), LocalCoord(p.second);
    QuadrantCell(p, k, lx, ly);
    LiveSetBit(w, p);
    assert Bit(r, k, lx, ly);
    LiveSetBit(r, p);
  }

  /** A candidate of a pattern two cells inside the quadrant is in the quadrant. */
  lemma StepInQuadrant(S: set<Pair>, p: Pair)
    requires Confined(S, 2) && p in Around(S)
    ensures InQuadrant(p)
  {
    AroundNear(S, p);
  }

  /** compute_generation replaces the live cells by their Life successor, for a pattern
      whose cells all lie at least two cells inside the quadrant. */
  lemma GenerationIsStep(e: Engine)
    requires Inv(e) && Confined(LiveSet(e.world), 2)
    ensures LiveSet(NextGeneration(e).world) == Step(LiveSet(e.world))
  {
    var w, S := e.world, LiveSet(e.world);
    if e.liveCellCount == 0 {
      forall p | p in S
        ensures false
      {
        NoLiveCells(e, p.first, p.second);
        PeekIsLive(w, p);
      }
      assert S == {};
      assert Around(S) == {};
    } else {
      GenerationCommits(e);
      CommittedIsStep(w, NextGeneration(e).world, S);
    }
  }

  /** The rule cell by cell: away from the edges of the quadrant, peek_cell after the
      generation is the rule applied to the neighbour count taken before it. */
  lemma GenerationRule(e: Engine, p: Pair)
    requires Inv(e) && Confined(LiveSet(e.world), 2) && Confined({p}, 1)
    ensures PeekCell(NextGeneration(e).world, p.first, p.second) ==
      NextAlive(PeekCell(e.world, p.first, p.second), NeighborCount(e.world, p))
  {
    GenerationIsStep(e);
    PeekIsLive(NextGeneration(e).world, p);
    PeekIsLive(e.world, p);
    NeighborCountIsNeighborsIn(e.world, p);
    StepMembership(LiveSet(e.world), p);
  }

  /** compute_generation keeps the engine invariant. */
  lemma GenerationKeepsInv(e: Engine)
    requires Inv(e)
    ensures Inv(NextGeneration(e))
  {
    if e.liveCellCount != 0 {
      ApplyUpdatesKeepsInv(e, Transitions(e.world, Enumerate(CandidateSet(e.world))));
    }
  }

  /** A block in the quadrant stays as it is. */
  lemma BlockStaysPut(e: Engine, a: int, b: int)
    requires Inv(e) && LiveSet(e.world) == Block(a, b)
    requires 2 <= a <= HALF_MAX - 3 && 2 <= b <= HALF_MAX - 3
    ensures LiveSet(NextGeneration(e).world) == Block(a, b)
  {
    BlockConfined(a, b);
    GenerationIsStep(e);
    BlockIsStill(a, b);
  }

  lemma BlockConfined(a: int, b: int)
    requires 2 <= a <= HALF_MAX - 3 && 2 <= b <= HALF_MAX - 3
    ensures Confined(Block(a, b), 2)
  {
  }

  lemma BlinkersConfined(a: int, b: int)
    requires 3 <= a <= HALF_MAX - 3 && 3 <= b <= HALF_MAX - 3
    ensures Confined(VerticalBlinker(a, b), 2) && Confined(HorizontalBlinker(a, b), 2)
  {
  }

  /** One generation of a blinker in the quadrant turns it by a quarter. */
  lemma BlinkerTurns(e: Engine, a: int, b: int, vertical: bool)
    requires Inv(e) && 3 <= a <= HALF_MAX - 3 && 3 <= b <= HALF_MAX - 3
    requires LiveSet(e.world) == if vertical then VerticalBlinker(a, b) else HorizontalBlinker(a, b)
    ensures Inv(NextGeneration(e))
    ensures LiveSet(NextGeneration(e).world) == if vertical then HorizontalBlinker(a, b) else VerticalBlinker(a, b)
  {
    BlinkersConfined(a, b);
    BlinkerOscillates(a, b);
    GenerationIsStep(e);
    GenerationKeepsInv(e);
  }

  /** A blinker in the quadrant returns after two generations. */
  lemma BlinkerPeriodTwo(e: Engine, a: int, b: int)
    requires Inv(e) && LiveSet(e.world) == VerticalBlinker(a, b)
    requires 3 <= a <= HALF_MAX - 3 && 3 <= b <= HALF_MAX - 3
    ensures LiveSet(NextGeneration(e).world) == HorizontalBlinker(a, b)
    ensures LiveSet(NextGeneration(NextGeneration(e)).world) == VerticalBlinker(a, b)
  {
    BlinkerTurns(e, a, b, true);
    BlinkerTurns(NextGeneration(e), a, b, false);
  }
}
