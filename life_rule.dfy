/**
 * The rule of Conway's Game of Life on a set of live positions, independent of any
 * storage: the eight neighbours in the order of `neighbor_offsets`, the survival and
 * birth rule both engines apply, and the successor of a whole pattern. The sparse
 * engine (LifeTheorems) and the dense grid (LifeGrid) are both proved to compute it.
 */
module LifeRule {
  import opened LifeCoords
  import opened LifeWorld

  /** 1 when q is alive in S. */
  function Alive(S: set<Pair>, q: Pair): (n: int)
    ensures n == 1 <==> q in S
    ensures n == 0 <==> q !in S
  {
    if q in S then 1 else 0
  }

  /** The live cells among the eight neighbours of p. */
  function NeighborsIn(S: set<Pair>, p: Pair): (n: int)
    ensures 0 <= n <= 8
  {
    var x, y := p.first, p.second;
    Alive(S, Pair(x - 1, y - 1)) + Alive(S, Pair(x, y - 1)) + Alive(S, Pair(x + 1, y - 1)) +
    Alive(S, Pair(x - 1, y)) + Alive(S, Pair(x + 1, y)) +
    Alive(S, Pair(x - 1, y + 1)) + Alive(S, Pair(x, y + 1)) + Alive(S, Pair(x + 1, y + 1))
  }

  /** A live cell survives with two or three live neighbours; a dead cell is born with
      exactly three. */
  predicate NextAlive(alive: bool, n: int) {
    if alive then n == 2 || n == 3 else n == 3
  }

  /** Every position some live cell makes a candidate of. */
  ghost function Around(S: set<Pair>): set<Pair> {
    set q, p | q in S && p in Candidates(q) :: p
  }

  /** The successor pattern: the candidates the rule keeps or makes alive. */
  ghost function Step(S: set<Pair>): set<Pair> {
    set p | p in Around(S) && NextAlive(p in S, NeighborsIn(S, p))
  }

  /** A live cell, and any cell with a live neighbour, is a candidate. */
  lemma NeighborInAround(S: set<Pair>, p: Pair)
    requires p in S || NeighborsIn(S, p) > 0
    ensures p in Around(S)
  {
    var x, y := p.first, p.second;
    var q: Pair;
    var i: int;
    if p in S {
      q, i := p, 8;
    } else if Pair(x - 1, y - 1) in S {
      q, i := Pair(x - 1, y - 1), 7;
    } else if Pair(x, y - 1) in S {
      q, i := Pair(x, y - 1), 6;
    } else if Pair(x + 1, y - 1) in S {
      q, i := Pair(x + 1, y - 1), 5;
    } else if Pair(x - 1, y) in S {
      q, i := Pair(x - 1, y), 4;
    } else if Pair(x + 1, y) in S {
      q, i := Pair(x + 1, y), 3;
    } else if Pair(x - 1, y + 1) in S {
      q, i := Pair(x - 1, y + 1), 2;
    } else if Pair(x, y + 1) in S {
      q, i := Pair(x, y + 1), 1;
    } else {
      q, i := Pair(x + 1, y + 1), 0;
    }
    assert Candidates(q)[i] == p;
    assert q in S && p in Candidates(q);
  }

  /** Membership in the successor is exactly the rule applied to the cell. */
  lemma StepMembership(S: set<Pair>, p: Pair)
    ensures p in Step(S) <==> NextAlive(p in S, NeighborsIn(S, p))
  {
    if NextAlive(p in S, NeighborsIn(S, p)) {
      NeighborInAround(S, p);
    }
  }

  /** Every candidate lies within one step of a live cell on both axes. */
  lemma AroundNear(S: set<Pair>, p: Pair)
    requires p in Around(S)
    ensures exists q :: q in S && q.first - 1 <= p.first <= q.first + 1 && q.second - 1 <= p.second <= q.second + 1
  {
    var q :| q in S && p in Candidates(q);
    var i :| 0 <= i < 9 && Candidates(q)[i] == p;
  }

  /** The 2 by 2 block with lower corner (a, b). */
  function Block(a: int, b: int): set<Pair> {
    {Pair(a, b), Pair(a + 1, b), Pair(a, b + 1), Pair(a + 1, b + 1)}
  }

  /** The blinker standing vertically and lying horizontally around (a, b). */
  function VerticalBlinker(a: int, b: int): set<Pair> {
    {Pair(a, b - 1), Pair(a, b), Pair(a, b + 1)}
  }

  function HorizontalBlinker(a: int, b: int): set<Pair> {
    {Pair(a - 1, b), Pair(a, b), Pair(a + 1, b)}
  }

  /** The block is a still life. */
  lemma BlockIsStill(a: int, b: int)
    ensures Step(Block(a, b)) == Block(a, b)
  {
    forall p
      ensures p in Step(Block(a, b)) <==> p in Block(a, b)
    {
      BlockCell(a, b, p);
    }
  }

  lemma BlockCell(a: int, b: int, p: Pair)
    ensures p in Step(Block(a, b)) <==> p in Block(a, b)
  {
    StepMembership(Block(a, b), p);
  }

  /** The blinker alternates between its two phases, so it has period 2. */
  lemma BlinkerOscillates(a: int, b: int)
    ensures Step(VerticalBlinker(a, b)) == HorizontalBlinker(a, b)
    ensures Step(HorizontalBlinker(a, b)) == VerticalBlinker(a, b)
    ensures Step(Step(VerticalBlinker(a, b))) == VerticalBlinker(a, b)
  {
    VerticalPhase(a, b);
    HorizontalPhase(a, b);
  }

  lemma VerticalPhase(a: int, b: int)
    ensures Step(VerticalBlinker(a, b)) == HorizontalBlinker(a, b)
  {
    forall p
      ensures p in Step(VerticalBlinker(a, b)) <==> p in HorizontalBlinker(a, b)
    {
      VerticalCell(a, b, p);
    }
  }

  lemma HorizontalPhase(a: int, b: int)
    ensures Step(HorizontalBlinker(a, b)) == VerticalBlinker(a, b)
  {
    forall p
      ensures p in Step(HorizontalBlinker(a, b)) <==> p in VerticalBlinker(a, b)
    {
      HorizontalCell(a, b, p);
    }
  }

  lemma VerticalCell(a: int, b: int, p: Pair)
    ensures p in Step(VerticalBlinker(a, b)) <==> p in HorizontalBlinker(a, b)
  {
    StepMembership(VerticalBlinker(a, b), p);
  }

  lemma HorizontalCell(a: int, b: int, p: Pair)
    ensures p in Step(HorizontalBlinker(a, b)) <==> p in VerticalBlinker(a, b)
  {
    StepMembership(HorizontalBlinker(a, b), p);
  }
}
