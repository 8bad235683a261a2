/**
 * The two heuristics of the solver: the Manhattan distance of the tiles from
 * their goal cells (with absolute values, as in Assignment.cpp, and the signed
 * variant without them, as in AStarWithBFS.cpp) and the count of misplaced
 * tiles. Each is a specification function summing one term per cell in
 * row-major order and a method with the source's nested loops proved equal to it.
 */
module Heuristics {
  import opened Board

  // ---------------------------------------------------------------------
  // Manhattan distance with absolute values
  // ---------------------------------------------------------------------

  /** What cell `p` adds: nothing for the blank, otherwise the row and column distance to the tile's goal cell. */
  function ManhattanTerm(c: Layout, p: nat): int
    requires p < 9
  {
    var v := c[p];
    if v != 0 then Abs(p / 3 - ActualRow(v, 3)) + Abs(p % 3 - ActualColumn(v, 3)) else 0
  }

  function ManhattanPrefix(c: Layout, n: nat): int
    requires n <= 9
  {
    if n == 0 then 0 else ManhattanPrefix(c, n - 1) + ManhattanTerm(c, n - 1)
  }

  function Manhattan(c: Layout): int
  {
    ManhattanPrefix(c, 9)
  }

  method ManhattanDistance(p: Board) returns (distance: int)
    ensures distance == Manhattan(p.cells)
  {
    distance := 0;
    for i := 0 to 3
      invariant distance == ManhattanPrefix(p.cells, 3 * i)
    {
      for j := 0 to 3
        invariant distance == ManhattanPrefix(p.cells, 3 * i + j)
      {
        Cell(i, j);
        var v := At(p.cells, i, j);
        if v != 0 {
          distance := distance + Abs(i - ActualRow(v, 3)) + Abs(j - ActualColumn(v, 3));
        }
      }
    }
  }

  // ---------------------------------------------------------------------
  // Manhattan distance without absolute values
  // ---------------------------------------------------------------------

  /** What cell `p` adds when the differences are summed with their signs. */
  function SignedManhattanTerm(c: Layout, p: nat): int
    requires p < 9
  {
    var v := c[p];
    if v != 0 then p / 3 - ActualRow(v, 3) + p % 3 - ActualColumn(v, 3) else 0
  }

  function SignedManhattanPrefix(c: Layout, n: nat): int
    requires n <= 9
  {
    if n == 0 then 0 else SignedManhattanPrefix(c, n - 1) + SignedManhattanTerm(c, n - 1)
  }

  function SignedManhattan(c: Layout): int
  {
    SignedManhattanPrefix(c, 9)
  }

  method SignedManhattanDistance(p: Board) returns (distance: int)
    ensures distance == SignedManhattan(p.cells)
  {
    distance := 0;
    for i := 0 to 3
      invariant distance == SignedManhattanPrefix(p.cells, 3 * i)
    {
      for j := 0 to 3
        invariant distance == SignedManhattanPrefix(p.cells, 3 * i + j)
      {
        Cell(i, j);
        var v := At(p.cells, i, j);
        if v != 0 {
          distance := distance + i - ActualRow(v, 3) + j - ActualColumn(v, 3);
        }
      }
    }
  }

  // ---------------------------------------------------------------------
  // Tile mismatch
  // ---------------------------------------------------------------------

  /** 1 when cell `p` holds a tile (not the blank) that is not in its goal cell. */
  function MismatchTerm(c: Layout, p: nat): int
    requires p < 9
  {
    var v := c[p];
    if v != 0 && (p / 3 != ActualRow(v, 3) || p % 3 != ActualColumn(v, 3)) then 1 else 0
  }

  function MismatchPrefix(c: Layout, n: nat): int
    requires n <= 9
  {
    if n == 0 then 0 else MismatchPrefix(c, n - 1) + MismatchTerm(c, n - 1)
  }

  function TileMismatch(c: Layout): int
  {
    MismatchPrefix(c, 9)
  }

  method TileMismatches(p: Board) returns (mismatches: int)
    ensures mismatches == TileMismatch(p.cells)
  {
    mismatches := 0;
    for i := 0 to 3
      invariant mismatches == MismatchPrefix(p.cells, 3 * i)
    {
      for j := 0 to 3
        invariant mismatches == MismatchPrefix(p.cells, 3 * i + j)
      {
        Cell(i, j);
        var v := At(p.cells, i, j);
        if v != 0 {
          if i != ActualRow(v, 3) || j != ActualColumn(v, 3) {
            mismatches := mismatches + 1;
          }
        }
      }
    }
  }

  // ---------------------------------------------------------------------
  // Properties
  // ---------------------------------------------------------------------

  /** A tile sits in its goal cell exactly when its value is its cell index. */
  lemma InPlace(c: Layout, p: nat)
    requires p < 9
    ensures c[p] != 0 ==> (ManhattanTerm(c, p) == 0 <==> c[p] == p)
    ensures c[p] != 0 ==> (MismatchTerm(c, p) == 0 <==> c[p] == p)
  {
    if c[p] != 0 {
      var v := c[p];
      var r, k := ActualRow(v, 3), ActualColumn(v, 3);
      assert 3 * r + k == v;
    }
  }

  /** Every misplaced tile is at least one step from its goal cell, so the
      Manhattan distance never falls below the tile mismatch count. */
  lemma {:induction false} ManhattanAtLeastMismatch(c: Layout, n: nat)
    requires n <= 9
    ensures 0 <= MismatchPrefix(c, n) <= ManhattanPrefix(c, n)
  {
    if n > 0 {
      ManhattanAtLeastMismatch(c, n - 1);
    }
  }

  /** With one blank among the first `n` cells, at most `n - 1` of them are misplaced tiles. */
  lemma {:induction false} MismatchBound(c: Layout, n: nat)
    requires n <= 9
    ensures MismatchPrefix(c, n) <= n - (if 0 in c[..n] then 1 else 0)
  {
    if n > 0 {
      MismatchBound(c, n - 1);
      assert c[..n] == c[..n - 1] + [c[n - 1]];
    }
  }

  /** On a permutation layout 0 <= tileMismatch <= 8 and tileMismatch <= manhattanDistance. */
  lemma HeuristicBounds(c: Layout)
    requires IsTilePermutation(c)
    ensures 0 <= TileMismatch(c) <= 8
    ensures TileMismatch(c) <= Manhattan(c)
  {
    PermutationFacts(c);
    assert c[..9] == c;
    MismatchBound(c, 9);
    ManhattanAtLeastMismatch(c, 9);
  }

  /** On every layout, permutation or not, neither estimate is negative and
      the Manhattan distance is at least the mismatch count. This is
      `ManhattanAtLeastMismatch` over all nine cells, quantified over layouts
      so that a function body (the priority keys) can use it in one call. */
  lemma EstimatesNonNegative()
    ensures forall c: Layout :: 0 <= TileMismatch(c) <= Manhattan(c)
  {
    forall c: Layout
      ensures 0 <= TileMismatch(c) <= Manhattan(c)
    {
      ManhattanAtLeastMismatch(c, 9);
    }
  }

  /** Both heuristics vanish on every prefix of the goal layout. */
  lemma {:induction false} GoalPrefixZero(n: nat)
    requires n <= 9
    ensures ManhattanPrefix(Goal, n) == 0 && MismatchPrefix(Goal, n) == 0
    ensures SignedManhattanPrefix(Goal, n) == 0
  {
    if n > 0 {
      GoalPrefixZero(n - 1);
      assert Goal[n - 1] == n - 1;
      InPlace(Goal, n - 1);
      SignedTermValue(Goal, n - 1);
    }
  }

  lemma GoalScoresZero()
    ensures Manhattan(Goal) == 0 && TileMismatch(Goal) == 0 && SignedManhattan(Goal) == 0
  {
    GoalPrefixZero(9);
  }

  /** If no tile among the first `n` cells is misplaced, each of them holds its own index or the blank. */
  lemma {:induction false} NoMismatchPrefix(c: Layout, n: nat)
    requires n <= 9
    requires MismatchPrefix(c, n) == 0
    ensures forall p :: 0 <= p < n && c[p] != 0 ==> c[p] == p
  {
    if n > 0 {
      ManhattanAtLeastMismatch(c, n - 1);
      NoMismatchPrefix(c, n - 1);
      InPlace(c, n - 1);
    }
  }

  /** On a permutation layout each heuristic is zero exactly on the goal layout. */
  lemma ZeroExactlyOnGoal(c: Layout)
    requires IsTilePermutation(c)
    ensures TileMismatch(c) == 0 <==> c == Goal
    ensures Manhattan(c) == 0 <==> c == Goal
  {
    GoalScoresZero();
    HeuristicBounds(c);
    if TileMismatch(c) == 0 {
      NoMismatchPrefix(c, 9);
      PlacedIsGoal(c);
    }
  }

  /** A permutation layout whose every tile holds its own index is the goal layout. */
  lemma PlacedIsGoal(c: Layout)
    requires IsTilePermutation(c)
    requires forall p :: 0 <= p < 9 && c[p] != 0 ==> c[p] == p
    ensures c == Goal
  {
    UniqueBlank(c);
    assert c[0] == 0;
    assert BlankIndex(c) == 0;
    forall p | 0 <= p < 9
      ensures c[p] == Goal[p]
    {
      if p != 0 {
        assert c[p] != 0;
      }
    }
  }

  // ---------------------------------------------------------------------
  // The signed sum telescopes
  // ---------------------------------------------------------------------

  /** Row plus column of cell `x`, also the goal row plus column of tile `x`. */
  function RowPlusColumn(x: int): int
  {
    x / 3 + x % 3
  }

  /** Sum of row plus column over the cells 0 .. n-1. */
  function PositionSum(n: nat): int
    requires n <= 9
  {
    if n == 0 then 0 else PositionSum(n - 1) + RowPlusColumn(n - 1)
  }

  /** Sum of goal row plus goal column over a sequence of tiles. */
  function TileSum(s: seq<int>): int
    decreases |s|
  {
    if s == [] then 0 else TileSum(s[..|s| - 1]) + RowPlusColumn(s[|s| - 1])
  }

  lemma {:induction false} TileSumAppend(a: seq<int>, b: seq<int>)
    ensures TileSum(a + b) == TileSum(a) + TileSum(b)
    decreases |b|
  {
    if b != [] {
      assert (a + b)[..|a + b| - 1] == a + b[..|b| - 1];
      TileSumAppend(a, b[..|b| - 1]);
    } else {
      assert a + b == a;
    }
  }

  /** The sum depends only on which tiles occur, not on their order. */
  lemma {:induction false} TileSumMultiset(s: seq<int>, t: seq<int>)
    requires multiset(s) == multiset(t)
    ensures TileSum(s) == TileSum(t)
    decreases |s|
  {
    if s == [] {
      assert |t| == |multiset(t)| == 0;
    } else {
      var x := s[|s| - 1];
      assert s == s[..|s| - 1] + [x];
      assert x in multiset(t);
      var k :| 0 <= k < |t| && t[k] == x;
      assert t == t[..k] + [x] + t[k + 1..];
      var rest := t[..k] + t[k + 1..];
      assert multiset(rest) == multiset(t) - multiset{x};
      assert multiset(s[..|s| - 1]) == multiset(s) - multiset{x};
      TileSumMultiset(s[..|s| - 1], rest);
      TileSumAppend(t[..k] + [x], t[k + 1..]);
      TileSumAppend(t[..k], [x]);
      TileSumAppend(t[..k], t[k + 1..]);
      assert TileSum([x]) == RowPlusColumn(x) by {
        assert [x][..0] == [];
      }
    }
  }

  /** The signed sum over the first `n` cells splits into cell positions minus
      tile goal positions, where the blank cell takes no part. */
  lemma {:induction false} SignedPrefixSplit(c: Layout, n: nat)
    requires IsTilePermutation(c)
    requires n <= 9
    ensures SignedManhattanPrefix(c, n)
            == PositionSum(n) - TileSum(c[..n])
               - (if BlankIndex(c) < n then RowPlusColumn(BlankIndex(c)) else 0)
  {
    if n > 0 {
      SignedPrefixSplit(c, n - 1);
      CellRange(c, n - 1);
      UniqueBlank(c);
      SignedTermValue(c, n - 1);
      assert c[..n][..n - 1] == c[..n - 1];
      assert TileSum(c[..n]) == TileSum(c[..n - 1]) + RowPlusColumn(c[n - 1]);
    }
  }

  /** A tile's signed term is its cell's row plus column minus its goal cell's. */
  lemma SignedTermValue(c: Layout, p: nat)
    requires p < 9 && 0 <= c[p] < 9
    ensures SignedManhattanTerm(c, p) == if c[p] == 0 then 0 else RowPlusColumn(p) - RowPlusColumn(c[p])
    ensures c[p] == 0 ==> RowPlusColumn(c[p]) == 0
  {
    RowMajor(c[p]);
  }

  /** AStarWithBFS.cpp sums `i - actualRow + j - actualColumn` without absolute
      values. On a permutation layout every tile's goal position is some cell,
      so the sum collapses to minus the blank's row plus column: never positive. */
  lemma SignedManhattanIsBlankOffset(c: Layout)
    requires IsTilePermutation(c)
    ensures SignedManhattan(c) == -(BlankIndex(c) / 3 + BlankIndex(c) % 3)
    ensures -4 <= SignedManhattan(c) <= 0
  {
    SignedPrefixSplit(c, 9);
    PermutationTileSum(c);
    assert c[..9] == c;
  }

  /** The abs-free sum of every permutation layout lies in -4..0. This is
      `SignedManhattanIsBlankOffset` quantified over layouts, so that a
      function body (the earlier variant's priority key) can use it in one
      call. */
  lemma SignedManhattanBounds()
    ensures forall c: Layout :: IsTilePermutation(c) ==> -4 <= SignedManhattan(c) <= 0
  {
    forall c: Layout | IsTilePermutation(c)
      ensures -4 <= SignedManhattan(c) <= 0
    {
      SignedManhattanIsBlankOffset(c);
    }
  }

  /** Any permutation layout has the goal layout's tile sum. */
  lemma PermutationTileSum(c: Layout)
    requires IsTilePermutation(c)
    ensures TileSum(c) == PositionSum(9)
  {
    assert c[..9] == c;
    GoalIsPermutation();
    PermutationTiles(c);
    PermutationTiles(Goal);
    TileSumMultiset(c, Goal);
    GoalTileSum(9);
    assert Goal[..9] == Goal;
  }

  /** The goal layout puts every tile on its own cell. */
  lemma {:induction false} GoalTileSum(n: nat)
    requires n <= 9
    ensures TileSum(Goal[..n]) == PositionSum(n)
  {
    if n > 0 {
      assert Goal[..n][..n - 1] == Goal[..n - 1];
      GoalTileSum(n - 1);
    }
  }
}
