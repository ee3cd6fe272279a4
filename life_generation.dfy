/**
 * The middle of `compute_generation` (LifeGame.c): the candidate list collected over the
 * chunks, its sort with `pair_compare` and the collapse of adjacent duplicates. Whatever
 * order the chunks are visited in, the result is the candidate set in increasing order,
 * each candidate once.
 */
module LifeGeneration {
  import opened LifeChunk
  import opened LifeCoords
  import opened LifeWorld

  // ---------------------------------------------------------------------------
  // qsort with pair_compare

  lemma PairLessTotal(a: Pair, b: Pair)
    ensures a == b || PairLess(a, b) || PairLess(b, a)
    ensures !(PairLess(a, b) && PairLess(b, a))
    ensures !PairLess(a, a)
  {
  }

  /** Inserting one pair into a sorted sequence. */
  function Insert(p: Pair, s: seq<Pair>): (r: seq<Pair>)
    requires Sorted(s)
    ensures Sorted(r) && multiset(r) == multiset(s) + multiset{p}
    ensures forall q :: q in r <==> q == p || q in s
  {
    if s == [] then [p]
    else if !PairLess(s[0], p) then
      assert forall q :: q in s ==> !PairLess(q, p) by {
        forall q | q in s
          ensures !PairLess(q, p)
        {
          if PairLess(q, p) {
            PairLessTransitive(s[0], q, p);
          }
        }
      }
      [p] + s
    else
      var r := Insert(p, s[1..]);
      assert s == [s[0]] + s[1..];
      assert forall q :: q in r ==> !PairLess(q, s[0]) by {
        forall q | q in r
          ensures !PairLess(q, s[0])
        {
          PairLessTotal(q, s[0]);
        }
      }
      [s[0]] + r
  }

  /** What qsort(positions, count, sizeof(Pair), pair_compare) leaves: the same pairs,
      sorted by pair_compare taken on mathematical integers. */
  function SortPairs(s: seq<Pair>): (r: seq<Pair>)
    ensures Sorted(r) && multiset(r) == multiset(s)
    ensures forall q :: q in r <==> q in s
  {
    if s == [] then []
    else
      assert s == [s[0]] + s[1..];
      Insert(s[0], SortPairs(s[1..]))
  }

  /** The collapse loop: keep an element when it is the first or differs from the one
      before it. */
  function Collapse(s: seq<Pair>): seq<Pair> {
    if |s| <= 1 then s
    else
      var c := Collapse(s[..|s| - 1]);
      if s[|s| - 1] != s[|s| - 2] then c + [s[|s| - 1]] else c
  }

  /** On a sorted sequence the collapse is strictly increasing, keeps every element and
      ends with the last one. */
  lemma {:induction false} CollapseSorted(s: seq<Pair>)
    requires Sorted(s)
    ensures StrictlySorted(Collapse(s))
    ensures forall q :: q in Collapse(s) <==> q in s
    ensures |s| > 0 ==> |Collapse(s)| > 0 && Collapse(s)[|Collapse(s)| - 1] == s[|s| - 1]
  {
    if |s| > 1 {
      var n := |s|;
      var init := s[..n - 1];
      CollapseSorted(init);
      var c := Collapse(init);
      assert forall q :: q in s <==> q in init || q == s[n - 1];
      if s[n - 1] != s[n - 2] {
        PairLessTotal(s[n - 2], s[n - 1]);
        forall i | 0 <= i < |c|
          ensures PairLess(c[i], s[n - 1])
        {
          if i < |c| - 1 {
            PairLessTransitive(c[i], c[|c| - 1], s[n - 1]);
          }
        }
      }
    }
  }

  /** The head of a strictly increasing sequence is below every other element. */
  lemma HeadIsLeast(a: seq<Pair>)
    requires StrictlySorted(a) && a != []
    ensures forall q :: q in a ==> q == a[0] || PairLess(a[0], q)
  {
  }

  /** A strictly increasing sequence is determined by its elements. */
  lemma {:induction false} StrictlySortedUnique(a: seq<Pair>, b: seq<Pair>)
    requires StrictlySorted(a) && StrictlySorted(b)
    requires forall q :: q in a <==> q in b
    ensures a == b
    decreases |a|
  {
    if a != [] {
      assert a[0] in a;
    }
    if b != [] {
      assert b[0] in b;
    }
    if a != [] && b != [] {
      HeadIsLeast(a);
      HeadIsLeast(b);
      PairLessTotal(a[0], b[0]);
      assert a == [a[0]] + a[1..] && b == [b[0]] + b[1..];
      forall q
        ensures q in a[1..] <==> q in b[1..]
      {
        if q in a[1..] {
          var i :| 0 <= i < |a[1..]| && a[1..][i] == q;
          assert a[i + 1] == q && PairLess(a[0], q);
          PairLessTotal(q, q);
          assert q in b && q != b[0];
          assert q in b[1..];
        }
        if q in b[1..] {
          var i :| 0 <= i < |b[1..]| && b[1..][i] == q;
          assert b[i + 1] == q && PairLess(b[0], q);
          PairLessTotal(q, q);
          assert q in a && q != a[0];
          assert q in a[1..];
        }
      }
      StrictlySortedUnique(a[1..], b[1..]);
    }
  }

  /** Sorting then collapsing any list of the candidates gives Enumerate of their set. */
  lemma SortCollapseEnumerates(s: seq<Pair>, S: set<Pair>)
    requires forall q :: q in s <==> q in S
    ensures Collapse(SortPairs(s)) == Enumerate(S)
  {
    CollapseSorted(SortPairs(s));
    StrictlySortedUnique(Collapse(SortPairs(s)), Enumerate(S));
  }

  // ---------------------------------------------------------------------------
  // Collection over the chunks

  /** A row of dead cells contributes no candidates. */
  lemma {:induction false} DeadRowNoCandidates(cells: seq<bool>, k: Pair, y: int, n: int)
    requires |cells| == CELLS && 0 <= y < CHUNK_SIZE && 0 <= n <= CHUNK_SIZE
    requires forall i :: 0 <= i < CELLS ==> !cells[i]
    ensures RowCandidates(cells, k, y, n) == []
  {
    if n > 0 {
      DeadRowNoCandidates(cells, k, y, n - 1);
    }
  }

  lemma {:induction false} DeadRowsNoCandidates(cells: seq<bool>, k: Pair, m: int)
    requires |cells| == CELLS && 0 <= m <= CHUNK_SIZE
    requires forall i :: 0 <= i < CELLS ==> !cells[i]
    ensures RowsCandidates(cells, k, m) == []
  {
    if m > 0 {
      DeadRowsNoCandidates(cells, k, m - 1);
      DeadRowNoCandidates(cells, k, m - 1, CHUNK_SIZE);
    }
  }

  /** A chunk with a zero live_count contributes no candidates. */
  lemma EmptyChunkNoCandidates(c: Chunk, k: Pair)
    requires Valid(c) && c.liveCount == 0
    ensures ChunkCandidates(c, k) == []
  {
    forall i | 0 <= i < CELLS
      ensures !Cells(c.bitmap)[i]
    {
      if Cells(c.bitmap)[i] {
        SetBitMeansLive(c, i);
      }
    }
    DeadRowsNoCandidates(Cells(c.bitmap), k, CHUNK_SIZE);
  }

  /** The collected list holds exactly the candidates of the visited chunks. */
  lemma {:induction false} CollectMembers(w: World, keys: seq<Pair>, p: Pair)
    requires WorldValid(w) && forall i :: 0 <= i < |keys| ==> keys[i] in w
    ensures p in Collect(w, keys) <==> exists k :: k in keys && k in w && p in ChunkCandidates(w[k], k)
  {
    if keys != [] {
      var k := keys[|keys| - 1];
      var init := keys[..|keys| - 1];
      CollectMembers(w, init, p);
      if w[k].liveCount == 0 {
        EmptyChunkNoCandidates(w[k], k);
      }
      assert forall j :: j in keys <==> j in init || j == k;
    }
  }

  /** Visiting every chunk once, in any order, collects exactly the candidate set. */
  lemma CollectAll(w: World, keys: seq<Pair>)
    requires WorldValid(w) && forall k :: k in keys <==> k in w
    ensures forall p :: p in Collect(w, keys) <==> p in CandidateSet(w)
  {
    forall p
      ensures p in Collect(w, keys) <==> p in CandidateSet(w)
    {
      CollectMembers(w, keys, p);
    }
  }
}
