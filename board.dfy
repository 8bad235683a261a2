/**
 * The 8-puzzle state shared by both solver variants: a 3x3 grid of tiles
 * (0 is the blank) stored row-major, the depth of the state in the search,
 * the index helpers, layout equality and the four moves of the blank.
 */
module Board {

  datatype Option<T> = None | Some(value: T)

  /** The nine cells of a grid, row-major: `positions[i][j]` is cell `3 * i + j`. */
  type Layout = s: seq<int> | |s| == 9 witness [0, 1, 2, 3, 4, 5, 6, 7, 8]

  /** A puzzle state: its tile layout and its depth (moves from the initial state). */
  datatype Board = Board(cells: Layout, depth: int)

  /** The goal layout [[0,1,2],[3,4,5],[6,7,8]]. */
  const Goal: Layout := [0, 1, 2, 3, 4, 5, 6, 7, 8]

  /** The tile at row `i`, column `j`. */
  function At(c: Layout, i: int, j: int): int
    requires 0 <= i < 3 && 0 <= j < 3
  {
    c[3 * i + j]
  }

  /** The values 0 .. n-1, each once. */
  function ValuesBelow(n: nat): multiset<int>
  {
    if n == 0 then multiset{} else ValuesBelow(n - 1) + multiset{n - 1}
  }

  /** Nine cells in which every value 0..8 occurs: the data invariant of a
      board. With nine cells and nine values, each value occurs exactly once
      (`PermutationTiles`). */
  predicate IsTilePermutation(c: seq<int>)
  {
    |c| == 9 && forall v :: 0 <= v < 9 ==> v in c
  }

  function Abs(x: int): int
  {
    if x < 0 then -x else x
  }

  // ---------------------------------------------------------------------
  // Index helpers (C++ integer division and remainder truncate toward zero)
  // ---------------------------------------------------------------------

  /** `num / totalColumns` with C++ semantics. */
  function ActualRow(num: int, totalColumns: int): (r: int)
    requires totalColumns != 0
    ensures 0 <= num && 0 < totalColumns ==>
              0 <= r && r * totalColumns <= num < r * totalColumns + totalColumns
  {
    var q := Abs(num) / Abs(totalColumns);
    DivBounds(Abs(num), Abs(totalColumns));
    if (num < 0) != (totalColumns < 0) then -q else q
  }

  lemma DivBounds(a: int, b: int)
    requires 0 <= a && 0 < b
    ensures 0 <= a / b && (a / b) * b <= a < (a / b) * b + b
  {
    assert a == b * (a / b) + a % b;
  }

  /** `num % totalColumns` with C++ semantics. */
  function ActualColumn(num: int, totalColumns: int): (r: int)
    requires totalColumns != 0
    ensures totalColumns * ActualRow(num, totalColumns) + r == num
    ensures Abs(r) < Abs(totalColumns)
    ensures num >= 0 ==> r >= 0
    ensures num <= 0 ==> r <= 0
  {
    num - totalColumns * ActualRow(num, totalColumns)
  }

  /** Row and column of cell `p` on a three-column grid, and back. */
  lemma RowMajor(p: int)
    requires 0 <= p < 9
    ensures 0 <= ActualRow(p, 3) < 3 && 0 <= ActualColumn(p, 3) < 3
    ensures 3 * ActualRow(p, 3) + ActualColumn(p, 3) == p
    ensures ActualRow(p, 3) == p / 3 && ActualColumn(p, 3) == p % 3
  {
  }

  /** Row and column of the cell at row `i`, column `j`. */
  lemma Cell(i: int, j: int)
    requires 0 <= i < 3 && 0 <= j < 3
    ensures (3 * i + j) / 3 == i && (3 * i + j) % 3 == j
  {
  }

  // ---------------------------------------------------------------------
  // Layout equality
  // ---------------------------------------------------------------------

  /** Two states are the same puzzle position when all nine tiles agree; depth is ignored. */
  function CheckEqualPositions(p1: Board, p2: Board): (r: bool)
    ensures r <==> p1.cells == p2.cells
  {
    forall k | 0 <= k < 9 :: p1.cells[k] == p2.cells[k]
  }

  // ---------------------------------------------------------------------
  // The blank and its moves
  // ---------------------------------------------------------------------

  /** Index of the last zero among the first `n` cells, scanning row-major; 0 if none. */
  function LastZeroBefore(c: Layout, n: nat): (p: nat)
    requires n <= 9
    ensures p < 9
    ensures 0 in c[..n] ==> p < n && c[p] == 0 && forall q :: p < q < n ==> c[q] != 0
  {
    if n == 0 then 0
    else if c[n - 1] == 0 then n - 1
    else
      assert c[..n] == c[..n - 1] + [c[n - 1]];
      LastZeroBefore(c, n - 1)
  }

  /** Where the blank-finding scan of `expand` ends up: the last zero in
      row-major order, since every zero it meets overwrites row and col. */
  function BlankIndex(c: Layout): (p: nat)
    ensures p < 9
    ensures 0 in c ==> c[p] == 0 && forall q :: p < q < 9 ==> c[q] != 0
  {
    assert c[..9] == c;
    LastZeroBefore(c, 9)
  }

  /** The blank of a layout whose only zero sits at `p`. */
  lemma BlankAt(c: Layout, p: nat)
    requires p < 9 && c[p] == 0 && forall q :: 0 <= q < 9 && q != p ==> c[q] != 0
    ensures BlankIndex(c) == p
  {
  }

  datatype Move = Up | Down | Left | Right

  /** Cells `p` and `q` share a side: one row or one column apart, not both. */
  predicate Adjacent(p: nat, q: nat)
  {
    p < 9 && q < 9 && Abs(p / 3 - q / 3) + Abs(p % 3 - q % 3) == 1
  }

  /** The cell the blank at `p` moves into, when the move stays on the grid. */
  function Target(p: nat, m: Move): (t: Option<nat>)
    requires p < 9
    ensures t.None? <==> match m
                         case Up => p / 3 == 0
                         case Down => p / 3 == 2
                         case Left => p % 3 == 0
                         case Right => p % 3 == 2
  {
    match m
    case Up => if p / 3 > 0 then Some(p - 3) else None
    case Down => if p / 3 < 2 then Some(p + 3) else None
    case Left => if p % 3 > 0 then Some(p - 1) else None
    case Right => if p % 3 < 2 then Some(p + 1) else None
  }

  /** A move that stays on the grid lands on a neighbouring cell. */
  lemma TargetAdjacent(p: nat, m: Move)
    requires p < 9 && Target(p, m).Some?
    ensures Adjacent(p, Target(p, m).value)
  {
  }

  /** Exchange the tiles of cells `p` and `q`; the tiles are only rearranged. */
  function Swap(c: Layout, p: nat, q: nat): (r: Layout)
    requires p < 9 && q < 9
    ensures r[p] == c[q] && r[q] == c[p]
    ensures forall k :: 0 <= k < 9 && k != p && k != q ==> r[k] == c[k]
  {
    c[p := c[q]][q := c[p]]
  }

  /** A swap only rearranges the tiles. */
  lemma SwapKeepsTiles(c: Layout, p: nat, q: nat)
    requires p < 9 && q < 9
    ensures multiset(Swap(c, p, q)) == multiset(c)
  {
  }

  /** The state reached by sliding the blank one step in direction `m`, one level deeper. */
  function Child(b: Board, m: Move): Option<Board>
  {
    var p := BlankIndex(b.cells);
    match Target(p, m)
    case None => None
    case Some(q) => Some(Board(Swap(b.cells, p, q), b.depth + 1))
  }

  /** The layout after move `m`, or the same layout if the move leaves the grid. */
  function Slide(c: Layout, m: Move): Layout
  {
    var p := BlankIndex(c);
    match Target(p, m)
    case None => c
    case Some(q) => Swap(c, p, q)
  }

  /** Play a sequence of moves, skipping the ones that would leave the grid. */
  function Play(c: Layout, moves: seq<Move>): Layout
    decreases |moves|
  {
    if moves == [] then c else Play(Slide(c, moves[0]), moves[1..])
  }

  // ---------------------------------------------------------------------
  // Facts about permutation layouts
  // ---------------------------------------------------------------------

  lemma {:induction false} TilesCount(n: nat, v: int)
    ensures ValuesBelow(n)[v] == if 0 <= v < n then 1 else 0
  {
    if n > 0 {
      TilesCount(n - 1, v);
    }
  }

  lemma {:induction false} ValuesBelowSize(n: nat)
    ensures |ValuesBelow(n)| == n
  {
    if n > 0 {
      ValuesBelowSize(n - 1);
    }
  }

  /** A permutation layout holds the values 0..8 exactly once each: the nine
      values fill the nine cells, so no room is left for a repeat. */
  lemma PermutationTiles(c: seq<int>)
    requires IsTilePermutation(c)
    ensures multiset(c) == ValuesBelow(9)
  {
    ValuesIncluded(c);
    ValuesBelowSize(9);
    FullSubMultiset(ValuesBelow(9), multiset(c));
  }

  lemma ValuesIncluded(c: seq<int>)
    requires IsTilePermutation(c)
    ensures ValuesBelow(9) <= multiset(c)
  {
    forall v
      ensures ValuesBelow(9)[v] <= multiset(c)[v]
    {
      TilesCount(9, v);
      if 0 <= v < 9 {
        assert v in c;
      }
    }
  }

  /** A sub-multiset as large as the whole is the whole. */
  lemma FullSubMultiset(a: multiset<int>, b: multiset<int>)
    requires a <= b && |a| == |b|
    ensures a == b
  {
    var d := b - a;
    assert b == a + d;
    assert |d| == 0;
  }

  /** A list of nine cells with the tiles of a permutation layout is one. */
  lemma SameTiles(c: seq<int>, d: seq<int>)
    requires IsTilePermutation(c) && |d| == 9 && multiset(d) == multiset(c)
    ensures IsTilePermutation(d)
  {
    forall v | 0 <= v < 9
      ensures v in d
    {
      assert v in c;
      assert v in multiset(d);
    }
  }

  /** The goal layout is a permutation layout. */
  lemma GoalIsPermutation()
    ensures IsTilePermutation(Goal)
  {
    forall v | 0 <= v < 9
      ensures v in Goal
    {
      assert Goal[v] == v;
    }
  }

  /** A permutation layout holds only the values 0..8, each at most once, and has a blank. */
  lemma PermutationFacts(c: Layout)
    requires IsTilePermutation(c)
    ensures forall k :: 0 <= k < 9 ==> 0 <= c[k] <= 8
    ensures forall i, j :: 0 <= i < 9 && 0 <= j < 9 && i != j ==> c[i] != c[j]
    ensures 0 in c
  {
    forall k | 0 <= k < 9
      ensures 0 <= c[k] <= 8
    {
      CellRange(c, k);
    }
    forall i, j | 0 <= i < 9 && 0 <= j < 9 && i != j
      ensures c[i] != c[j]
    {
      if i < j {
        DistinctCells(c, i, j);
      } else {
        DistinctCells(c, j, i);
      }
    }
    assert 0 in c;
  }

  /** A cell of a permutation layout holds one of the values 0..8. */
  lemma CellRange(c: Layout, k: nat)
    requires IsTilePermutation(c) && k < 9
    ensures 0 <= c[k] <= 8
  {
    PermutationTiles(c);
    assert c[k] in multiset(c);
    TilesCount(9, c[k]);
  }

  lemma DistinctCells(c: Layout, i: nat, j: nat)
    requires IsTilePermutation(c)
    requires i < j < 9
    ensures c[i] != c[j]
  {
    if c[i] == c[j] {
      assert c == c[..i] + [c[i]] + c[i + 1..j] + [c[j]] + c[j + 1..];
      assert multiset(c)[c[i]] >= 2;
      PermutationTiles(c);
      TilesCount(9, c[i]);
      assert false;
    }
  }

  /** On a permutation layout the blank is unique and `BlankIndex` finds it. */
  lemma UniqueBlank(c: Layout)
    requires IsTilePermutation(c)
    ensures c[BlankIndex(c)] == 0
    ensures forall k :: 0 <= k < 9 && k != BlankIndex(c) ==> c[k] != 0
  {
    PermutationFacts(c);
  }

  /** Moving the blank keeps a permutation layout a permutation layout. */
  lemma ChildIsPermutation(b: Board, m: Move)
    requires IsTilePermutation(b.cells)
    ensures Child(b, m).Some? ==> IsTilePermutation(Child(b, m).value.cells)
    ensures IsTilePermutation(Slide(b.cells, m))
  {
    var p := BlankIndex(b.cells);
    if Target(p, m).Some? {
      SwapKeepsTiles(b.cells, p, Target(p, m).value);
      SameTiles(b.cells, Swap(b.cells, p, Target(p, m).value));
    }
  }
}
