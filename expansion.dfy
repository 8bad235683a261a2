/**
 * Expanding a state: the children reached by sliding the blank up, down,
 * left and right (tried in that order), each one level deeper, leaving out
 * every child whose layout already occurs in a list supplied by the caller;
 * and the breadth-first waves of such expansions that the look-ahead runs.
 */
module Successors {
  import opened Board

  // ---------------------------------------------------------------------
  // Membership by layout
  // ---------------------------------------------------------------------

  /** Some element of `prev` has the layout of `s` (depths are not compared). */
  predicate InPrev(prev: seq<Board>, s: Board)
  {
    exists k :: 0 <= k < |prev| && prev[k].cells == s.cells
  }

  /** The linear scan of `prev` for the layout of `check`. */
  method IsInPreviousQueue(prev: seq<Board>, check: Board) returns (found: bool)
    ensures found <==> InPrev(prev, check)
  {
    if |prev| == 0 {
      return false;
    }
    for k := 0 to |prev|
      invariant forall i :: 0 <= i < k ==> prev[i].cells != check.cells
    {
      var curr := prev[k];
      if CheckEqualPositions(curr, check) {
        return true;
      }
    }
    return false;
  }

  lemma InPrevAppend(a: seq<Board>, b: seq<Board>, s: Board)
    ensures InPrev(a + b, s) <==> InPrev(a, s) || InPrev(b, s)
  {
    if InPrev(a + b, s) {
      var k :| 0 <= k < |a + b| && (a + b)[k].cells == s.cells;
      if k >= |a| {
        assert b[k - |a|].cells == s.cells;
      }
    }
    if InPrev(a, s) {
      var k :| 0 <= k < |a| && a[k].cells == s.cells;
      assert (a + b)[k] == a[k];
    }
    if InPrev(b, s) {
      var k :| 0 <= k < |b| && b[k].cells == s.cells;
      assert (a + b)[|a| + k] == b[k];
    }
  }

  /** Concatenation of two lists, element by element. */
  method Append(temp1: seq<Board>, temp3: seq<Board>) returns (r: seq<Board>)
    ensures r == temp1 + temp3
  {
    r := temp1;
    for k := 0 to |temp3|
      invariant r == temp1 + temp3[..k]
    {
      var next := temp3[k];
      r := r + [next];
      assert temp3[..k + 1] == temp3[..k] + [temp3[k]];
    }
    assert temp3[..|temp3|] == temp3;
  }

  // ---------------------------------------------------------------------
  // One expansion
  // ---------------------------------------------------------------------

  /** The child for move `m` as a list of at most one state: empty when the
      move leaves the grid or when the child's layout is already in `prev`. */
  function Kept(b: Board, m: Move, prev: seq<Board>): seq<Board>
  {
    match Child(b, m)
    case None => []
    case Some(t) => if InPrev(prev, t) then [] else [t]
  }

  /** The children of `b` in the order up, down, left, right, minus those in `prev`. */
  function Expansion(b: Board, prev: seq<Board>): seq<Board>
  {
    Kept(b, Up, prev) + Kept(b, Down, prev) + Kept(b, Left, prev) + Kept(b, Right, prev)
  }

  /** The scan for the blank: every zero met overwrites the row and column,
      so the scan ends on the last zero in row-major order. The source leaves
      both uninitialised; here they start at cell (0, 0), which is where
      `BlankIndex` puts the blank of a layout without one. */
  method FindBlank(C: Board) returns (row: int, col: int)
    ensures 0 <= row < 3 && 0 <= col < 3
    ensures 3 * row + col == BlankIndex(C.cells)
  {
    var c := C.cells;
    row, col := 0, 0;
    for i := 0 to 3
      invariant 0 <= row < 3 && 0 <= col < 3
      invariant 3 * row + col == LastZeroBefore(c, 3 * i)
    {
      for j := 0 to 3
        invariant 0 <= row < 3 && 0 <= col < 3
        invariant 3 * row + col == LastZeroBefore(c, 3 * i + j)
      {
        ScanStep(c, 3 * i + j);
        if At(c, i, j) == 0 {
          row, col := i, j;
        }
      }
    }
    assert c[..9] == c;
  }

  /** What one more cell does to the scan's result. */
  lemma ScanStep(c: Layout, n: nat)
    requires n < 9
    ensures c[n] == 0 ==> LastZeroBefore(c, n + 1) == n
    ensures c[n] != 0 ==> LastZeroBefore(c, n + 1) == LastZeroBefore(c, n)
  {
  }

  /** Finds the blank (the last zero in row-major order), then tries the four
      moves, copying the state, swapping the blank with its neighbour and
      keeping the copy when its layout is not in `prev`. */
  method Expand(C: Board, prev: seq<Board>) returns (expansion: seq<Board>)
    ensures expansion == Expansion(C, prev)
  {
    var row, col := FindBlank(C);
    BlankMoves(C, prev, row, col);
    expansion := [];
    if row > 0 {
      var temp := MovedCopy(C, row, col, row - 1, col);
      var seen := IsInPreviousQueue(prev, temp);
      if !seen {
        expansion := expansion + [temp];
      }
    }
    ghost var up := expansion;
    if row < 2 {
      var temp := MovedCopy(C, row, col, row + 1, col);
      var seen := IsInPreviousQueue(prev, temp);
      if !seen {
        expansion := expansion + [temp];
      }
    }
    ghost var down := expansion;
    if col > 0 {
      var temp := MovedCopy(C, row, col, row, col - 1);
      var seen := IsInPreviousQueue(prev, temp);
      if !seen {
        expansion := expansion + [temp];
      }
    }
    ghost var left := expansion;
    if col < 2 {
      var temp := MovedCopy(C, row, col, row, col + 1);
      var seen := IsInPreviousQueue(prev, temp);
      if !seen {
        expansion := expansion + [temp];
      }
    }
    assert up == Kept(C, Up, prev);
    assert down == up + Kept(C, Down, prev);
    assert left == down + Kept(C, Left, prev);
  }

  /** The copy of `C`, one level deeper, with the tiles at (row, col) and
      (r2, c2) exchanged through a temporary, as each move block does it. */
  function MovedCopy(C: Board, row: int, col: int, r2: int, c2: int): Board
    requires 0 <= row < 3 && 0 <= col < 3 && 0 <= r2 < 3 && 0 <= c2 < 3
  {
    var temp := C.cells;
    var swap := temp[3 * r2 + c2];
    var temp' := temp[3 * r2 + c2 := temp[3 * row + col]];
    Board(temp'[3 * row + col := swap], C.depth + 1)
  }

  /** What each move block contributes, for the blank at (row, col). */
  lemma BlankMoves(C: Board, prev: seq<Board>, row: int, col: int)
    requires 0 <= row < 3 && 0 <= col < 3 && 3 * row + col == BlankIndex(C.cells)
    ensures Kept(C, Up, prev) == if row > 0 then KeptCopy(MovedCopy(C, row, col, row - 1, col), prev) else []
    ensures Kept(C, Down, prev) == if row < 2 then KeptCopy(MovedCopy(C, row, col, row + 1, col), prev) else []
    ensures Kept(C, Left, prev) == if col > 0 then KeptCopy(MovedCopy(C, row, col, row, col - 1), prev) else []
    ensures Kept(C, Right, prev) == if col < 2 then KeptCopy(MovedCopy(C, row, col, row, col + 1), prev) else []
  {
    VerticalMoves(C, prev, row, col);
    HorizontalMoves(C, prev, row, col);
  }

  lemma VerticalMoves(C: Board, prev: seq<Board>, row: int, col: int)
    requires 0 <= row < 3 && 0 <= col < 3 && 3 * row + col == BlankIndex(C.cells)
    ensures Kept(C, Up, prev) == if row > 0 then KeptCopy(MovedCopy(C, row, col, row - 1, col), prev) else []
    ensures Kept(C, Down, prev) == if row < 2 then KeptCopy(MovedCopy(C, row, col, row + 1, col), prev) else []
  {
    Cell(row, col);
    MoveKept(C, Up, prev, row, col, row - 1, col);
    MoveKept(C, Down, prev, row, col, row + 1, col);
  }

  lemma HorizontalMoves(C: Board, prev: seq<Board>, row: int, col: int)
    requires 0 <= row < 3 && 0 <= col < 3 && 3 * row + col == BlankIndex(C.cells)
    ensures Kept(C, Left, prev) == if col > 0 then KeptCopy(MovedCopy(C, row, col, row, col - 1), prev) else []
    ensures Kept(C, Right, prev) == if col < 2 then KeptCopy(MovedCopy(C, row, col, row, col + 1), prev) else []
  {
    Cell(row, col);
    MoveKept(C, Left, prev, row, col, row, col - 1);
    MoveKept(C, Right, prev, row, col, row, col + 1);
  }

  /** One move block: nothing when the move leaves the board, otherwise the
      moved copy unless its layout was seen. */
  lemma MoveKept(C: Board, m: Move, prev: seq<Board>, row: int, col: int, r2: int, c2: int)
    requires 0 <= row < 3 && 0 <= col < 3 && 3 * row + col == BlankIndex(C.cells)
    requires Target(3 * row + col, m) == if 0 <= r2 < 3 && 0 <= c2 < 3 then Some(3 * r2 + c2) else None
    ensures Kept(C, m, prev) == if 0 <= r2 < 3 && 0 <= c2 < 3 then KeptCopy(MovedCopy(C, row, col, r2, c2), prev) else []
  {
    if 0 <= r2 < 3 && 0 <= c2 < 3 {
      SwapChild(C, m, row, col, r2, c2);
    }
  }

  function KeptCopy(t: Board, prev: seq<Board>): seq<Board>
  {
    if InPrev(prev, t) then [] else [t]
  }

  /** The child for move `m` is the moved copy the source builds. */
  lemma SwapChild(C: Board, m: Move, row: int, col: int, r2: int, c2: int)
    requires 0 <= row < 3 && 0 <= col < 3 && 0 <= r2 < 3 && 0 <= c2 < 3
    requires 3 * row + col == BlankIndex(C.cells)
    requires Target(3 * row + col, m) == Some(3 * r2 + c2)
    ensures Child(C, m) == Some(MovedCopy(C, row, col, r2, c2))
  {
    var c, p, q := C.cells, 3 * row + col, 3 * r2 + c2;
    assert Swap(c, p, q) == c[q := c[p]][p := c[q]];
  }

  // ---------------------------------------------------------------------
  // What an expansion holds
  // ---------------------------------------------------------------------

  /** Each child one move yields is one level deeper, is its parent with the
      blank exchanged for an orthogonal neighbour (so it holds the same
      tiles), and has a layout that is not in `prev`. */
  lemma KeptSound(b: Board, m: Move, prev: seq<Board>)
    ensures |Kept(b, m, prev)| <= 1
    ensures forall t :: t in Kept(b, m, prev) ==>
              && t.depth == b.depth + 1
              && !InPrev(prev, t)
              && multiset(t.cells) == multiset(b.cells)
              && Adjacent(BlankIndex(b.cells), Target(BlankIndex(b.cells), m).value)
              && t.cells == Swap(b.cells, BlankIndex(b.cells), Target(BlankIndex(b.cells), m).value)
  {
    var p := BlankIndex(b.cells);
    if Target(p, m).Some? {
      TargetAdjacent(p, m);
      SwapKeepsTiles(b.cells, p, Target(p, m).value);
    }
  }

  /** The whole expansion: at most four children, each as `KeptSound` says. */
  lemma ExpansionSound(b: Board, prev: seq<Board>)
    ensures |Expansion(b, prev)| <= 4
    ensures forall t :: t in Expansion(b, prev) ==>
              && t.depth == b.depth + 1
              && !InPrev(prev, t)
              && multiset(t.cells) == multiset(b.cells)
              && exists q: nat :: Adjacent(BlankIndex(b.cells), q) && t.cells == Swap(b.cells, BlankIndex(b.cells), q)
  {
    KeptSound(b, Up, prev);
    KeptSound(b, Down, prev);
    KeptSound(b, Left, prev);
    KeptSound(b, Right, prev);
  }

  /** Every legal move whose child is not in `prev` contributes that child. */
  lemma ExpansionComplete(b: Board, prev: seq<Board>, m: Move)
    requires Child(b, m).Some? && !InPrev(prev, Child(b, m).value)
    ensures Child(b, m).value in Expansion(b, prev)
  {
    assert Kept(b, m, prev) == [Child(b, m).value];
  }

  /** Children of a state with a blank have a blank. */
  lemma ExpansionKeepsBlank(b: Board, prev: seq<Board>)
    requires 0 in b.cells
    ensures forall t :: t in Expansion(b, prev) ==> 0 in t.cells
  {
    ExpansionSound(b, prev);
    forall t | t in Expansion(b, prev)
      ensures 0 in t.cells
    {
      assert 0 in multiset(b.cells);
    }
  }

  /** Children of a permutation layout are permutation layouts. */
  lemma ExpansionKeepsPermutation(b: Board, prev: seq<Board>)
    requires IsTilePermutation(b.cells)
    ensures AllPermutations(Expansion(b, prev))
  {
    ExpansionSound(b, prev);
    forall i | 0 <= i < |Expansion(b, prev)|
      ensures IsTilePermutation(Expansion(b, prev)[i].cells)
    {
      var t := Expansion(b, prev)[i];
      assert t in Expansion(b, prev);
      SameTiles(b.cells, t.cells);
    }
  }

  predicate AllPermutations(s: seq<Board>)
  {
    forall i :: 0 <= i < |s| ==> IsTilePermutation(s[i].cells)
  }

  // ---------------------------------------------------------------------
  // With nothing to filter against
  // ---------------------------------------------------------------------

  /** The position of a move in the order the moves are tried. */
  function Rank(m: Move): nat
  {
    match m
    case Up => 0
    case Down => 1
    case Left => 2
    case Right => 3
  }

  /** The moves that keep a blank at `p` on the grid, in the order they are tried. */
  function LegalMoves(p: nat): seq<Move>
    requires p < 9
  {
    (if p / 3 > 0 then [Up] else []) + (if p / 3 < 2 then [Down] else [])
    + (if p % 3 > 0 then [Left] else []) + (if p % 3 < 2 then [Right] else [])
  }

  /** `LegalMoves` lists exactly the moves that stay on the grid, in strictly
      increasing order; there are 2 for a corner, 3 for an edge and 4 for the centre. */
  lemma LegalMovesFacts(p: nat)
    requires p < 9
    ensures forall m :: m in LegalMoves(p) <==> Target(p, m).Some?
    ensures forall i, j :: 0 <= i < j < |LegalMoves(p)| ==> Rank(LegalMoves(p)[i]) < Rank(LegalMoves(p)[j])
    ensures |LegalMoves(p)| == if p == 4 then 4 else if p % 2 == 1 then 3 else 2
  {
  }

  /** `xs` is the list of the children of the moves `ms`, position by position. */
  predicate ChildrenOf(b: Board, xs: seq<Board>, ms: seq<Move>)
  {
    |xs| == |ms| && forall i :: 0 <= i < |xs| ==> Child(b, ms[i]) == Some(xs[i])
  }

  lemma ChildrenOfAppend(b: Board, xs: seq<Board>, ms: seq<Move>, ys: seq<Board>, ns: seq<Move>)
    requires ChildrenOf(b, xs, ms) && ChildrenOf(b, ys, ns)
    ensures ChildrenOf(b, xs + ys, ms + ns)
  {
    forall i | 0 <= i < |xs + ys|
      ensures Child(b, (ms + ns)[i]) == Some((xs + ys)[i])
    {
      if i >= |xs| {
        assert (ms + ns)[i] == ns[i - |xs|];
      }
    }
  }

  lemma KeptFresh(b: Board, m: Move)
    ensures ChildrenOf(b, Kept(b, m, []), if Child(b, m).Some? then [m] else [])
  {
  }

  /** Against an empty list nothing is filtered: the expansion holds the child
      of every legal move, in the order up, down, left, right. */
  lemma FreshExpansion(b: Board)
    ensures |Expansion(b, [])| == |LegalMoves(BlankIndex(b.cells))|
    ensures forall i :: 0 <= i < |Expansion(b, [])| ==>
              Child(b, LegalMoves(BlankIndex(b.cells))[i]) == Some(Expansion(b, [])[i])
  {
    var p := BlankIndex(b.cells);
    KeptFresh(b, Up);
    KeptFresh(b, Down);
    KeptFresh(b, Left);
    KeptFresh(b, Right);
    var u, d, l, r := Kept(b, Up, []), Kept(b, Down, []), Kept(b, Left, []), Kept(b, Right, []);
    var mu := if p / 3 > 0 then [Up] else [];
    var md := if p / 3 < 2 then [Down] else [];
    var ml := if p % 3 > 0 then [Left] else [];
    var mr := if p % 3 < 2 then [Right] else [];
    ChildrenOfAppend(b, u, mu, d, md);
    ChildrenOfAppend(b, u + d, mu + md, l, ml);
    ChildrenOfAppend(b, u + d + l, mu + md + ml, r, mr);
  }

  /** A corner blank yields 2 children, an edge blank 3, the centre 4. */
  lemma FreshExpansionSize(b: Board)
    ensures var p := BlankIndex(b.cells);
            |Expansion(b, [])| == if p == 4 then 4 else if p % 2 == 1 then 3 else 2
  {
    FreshExpansion(b);
    LegalMovesFacts(BlankIndex(b.cells));
  }

  // ---------------------------------------------------------------------
  // Distinct layouts
  // ---------------------------------------------------------------------

  predicate DistinctLayouts(s: seq<Board>)
  {
    forall i, j :: 0 <= i < j < |s| ==> s[i].cells != s[j].cells
  }

  /** Two lists without repeats, the second sharing no layout with the first,
      concatenate to a list without repeats. */
  lemma DistinctAppend(a: seq<Board>, e: seq<Board>)
    requires DistinctLayouts(a) && DistinctLayouts(e)
    requires forall x :: x in e ==> !InPrev(a, x)
    ensures DistinctLayouts(a + e)
  {
    forall i, j | 0 <= i < j < |a + e|
      ensures (a + e)[i].cells != (a + e)[j].cells
    {
      if i < |a| && j >= |a| {
        assert e[j - |a|] in e;
      }
    }
  }

  /** Different moves from a layout with a single blank (as every
      permutation layout has) give different layouts: the blank lands in
      different cells. */
  lemma ChildrenDiffer(b: Board, m1: Move, m2: Move)
    requires b.cells[BlankIndex(b.cells)] == 0
    requires forall k :: 0 <= k < 9 && k != BlankIndex(b.cells) ==> b.cells[k] != 0
    requires m1 != m2 && Child(b, m1).Some? && Child(b, m2).Some?
    ensures Child(b, m1).value.cells != Child(b, m2).value.cells
  {
    var c := b.cells;
    var p := BlankIndex(c);
    var q1, q2 := Target(p, m1).value, Target(p, m2).value;
    TargetsDiffer(p, m1, m2);
    SwapsDiffer(c, p, q1, q2);
  }

  /** Moving a blank into two different cells gives two different layouts. */
  lemma SwapsDiffer(c: Layout, p: nat, q1: nat, q2: nat)
    requires p < 9 && q1 < 9 && q2 < 9 && q1 != p && q1 != q2
    requires c[p] == 0 && c[q1] != 0
    ensures Swap(c, p, q1) != Swap(c, p, q2)
  {
    assert Swap(c, p, q1)[q1] != Swap(c, p, q2)[q1];
  }

  /** Different moves send the blank to different cells, none of them its own. */
  lemma TargetsDiffer(p: nat, m1: Move, m2: Move)
    requires p < 9 && m1 != m2 && Target(p, m1).Some? && Target(p, m2).Some?
    ensures Target(p, m1).value != p && Target(p, m1).value != Target(p, m2).value
  {
  }

  lemma KeptApart(b: Board, m1: Move, m2: Move, prev: seq<Board>)
    requires IsTilePermutation(b.cells) && m1 != m2
    ensures forall x :: x in Kept(b, m2, prev) ==> !InPrev(Kept(b, m1, prev), x)
  {
    forall x | x in Kept(b, m2, prev)
      ensures !InPrev(Kept(b, m1, prev), x)
    {
      KeptApartOne(b, m1, m2, prev, x);
    }
  }

  lemma KeptApartOne(b: Board, m1: Move, m2: Move, prev: seq<Board>, x: Board)
    requires IsTilePermutation(b.cells) && m1 != m2
    requires x in Kept(b, m2, prev)
    ensures !InPrev(Kept(b, m1, prev), x)
  {
    KeptShape(b, m2, prev);
    KeptShape(b, m1, prev);
    var k1 := Kept(b, m1, prev);
    if k1 != [] {
      var t1 := Child(b, m1).value;
      var t2 := Child(b, m2).value;
      assert k1 == [t1];
      assert x == t2;
      UniqueBlank(b.cells);
      ChildrenDiffer(b, m1, m2);
      assert t1.cells != t2.cells;
      InPrevSingleton(t1, x);
    }
  }

  lemma InPrevSingleton(t: Board, x: Board)
    ensures InPrev([t], x) <==> t.cells == x.cells
  {
    if t.cells == x.cells {
      assert [t][0].cells == x.cells;
    }
  }

  lemma KeptShape(b: Board, m: Move, prev: seq<Board>)
    ensures Kept(b, m, prev) == [] || (Child(b, m).Some? && Kept(b, m, prev) == [Child(b, m).value])
  {
  }

  /** The children of a permutation layout have pairwise distinct layouts. */
  lemma ExpansionDistinct(b: Board, prev: seq<Board>)
    requires IsTilePermutation(b.cells)
    ensures DistinctLayouts(Expansion(b, prev))
  {
    var u, d, l, r := Kept(b, Up, prev), Kept(b, Down, prev), Kept(b, Left, prev), Kept(b, Right, prev);
    KeptSound(b, Up, prev);
    KeptSound(b, Down, prev);
    KeptSound(b, Left, prev);
    KeptSound(b, Right, prev);
    KeptApart(b, Up, Down, prev);
    DistinctAppend(u, d);
    KeptApart(b, Up, Left, prev);
    KeptApart(b, Down, Left, prev);
    forall x | x in l
      ensures !InPrev(u + d, x)
    {
      InPrevAppend(u, d, x);
    }
    DistinctAppend(u + d, l);
    KeptApart(b, Up, Right, prev);
    KeptApart(b, Down, Right, prev);
    KeptApart(b, Left, Right, prev);
    forall x | x in r
      ensures !InPrev(u + d + l, x)
    {
      InPrevAppend(u, d, x);
      InPrevAppend(u + d, l, x);
    }
    DistinctAppend(u + d + l, r);
  }

  // ---------------------------------------------------------------------
  // Breadth-first waves of expansions
  // ---------------------------------------------------------------------

  /** The running state of the look-ahead: the states found so far (`temp1`),
      the list new children are checked against, how many expansions found
      something, and the result of the most recent expansion (`temp3`). */
  datatype Batch = Batch(found: seq<Board>, seen: seq<Board>, calls: nat, last: seq<Board>)

  /** One expansion of `C` folded into the running state: a non-empty result
      is appended to both lists and counted; either way it becomes `last`.
      So `calls` counts exactly the non-empty `expand` results, which is the
      count behind the look-ahead's `nodesExpanded`. */
  function Absorb(C: Board, acc: Batch): Batch
  {
    var e := Expansion(C, acc.seen);
    if e == [] then acc.(last := e)
    else Batch(acc.found + e, acc.seen + e, acc.calls + 1, e)
  }

  /** Expanding every state of one wave, front to back. */
  function Wave(wave: seq<Board>, acc: Batch): Batch
    decreases |wave|
  {
    if wave == [] then acc else Wave(wave[1..], Absorb(wave[0], acc))
  }

  /** `d` more waves. The wave after a wave is the result of the last
      expansion made so far, not everything that wave found. */
  function Waves(frontier: seq<Board>, d: int, acc: Batch): Batch
    decreases if d > 0 then d else 0
  {
    if d <= 0 then acc
    else
      var a := Wave(frontier, acc);
      Waves(a.last, d - 1, a)
  }

  /** The bookkeeping of a look-ahead that started from the list `base`: the
      seen list is `base` followed by every state found; the found layouts
      are pairwise distinct and none occurs in `base`; and every counted
      expansion found at least one state. */
  predicate Consistent(base: seq<Board>, acc: Batch)
  {
    && acc.seen == base + acc.found
    && DistinctLayouts(acc.found)
    && (forall x :: x in acc.found ==> !InPrev(base, x))
    && acc.calls <= |acc.found|
  }

  /** Absorbing an expansion of a permutation layout keeps the bookkeeping and
      only extends the found list. */
  lemma AbsorbKeeps(base: seq<Board>, C: Board, acc: Batch)
    requires Consistent(base, acc) && IsTilePermutation(C.cells)
    ensures Consistent(base, Absorb(C, acc))
    ensures acc.found <= Absorb(C, acc).found && acc.calls <= Absorb(C, acc).calls
  {
    var e := Expansion(C, acc.seen);
    if e != [] {
      ExpansionSound(C, acc.seen);
      ExpansionDistinct(C, acc.seen);
      ExtendKeeps(base, acc, e);
    }
  }

  /** Appending a non-empty list of distinct layouts not yet seen keeps the bookkeeping. */
  lemma ExtendKeeps(base: seq<Board>, acc: Batch, e: seq<Board>)
    requires Consistent(base, acc) && e != []
    requires DistinctLayouts(e)
    requires forall x :: x in e ==> !InPrev(acc.seen, x)
    ensures Consistent(base, Batch(acc.found + e, acc.seen + e, acc.calls + 1, e))
  {
    SeenSplit(base, acc.found, e);
    DistinctAppend(acc.found, e);
    FreshAppend(base, acc.found, e);
    assert acc.seen + e == base + (acc.found + e);
  }

  lemma SeenSplit(base: seq<Board>, a: seq<Board>, e: seq<Board>)
    requires forall x :: x in e ==> !InPrev(base + a, x)
    ensures forall x :: x in e ==> !InPrev(base, x) && !InPrev(a, x)
  {
    forall x | x in e
      ensures !InPrev(base, x) && !InPrev(a, x)
    {
      InPrevAppend(base, a, x);
    }
  }

  lemma FreshAppend(base: seq<Board>, a: seq<Board>, e: seq<Board>)
    requires forall x :: x in a ==> !InPrev(base, x)
    requires forall x :: x in e ==> !InPrev(base, x)
    ensures forall x :: x in a + e ==> !InPrev(base, x)
  {
  }

  lemma {:induction false} WaveKeeps(base: seq<Board>, wave: seq<Board>, acc: Batch)
    requires Consistent(base, acc) && AllPermutations(wave)
    ensures Consistent(base, Wave(wave, acc))
    ensures acc.found <= Wave(wave, acc).found && acc.calls <= Wave(wave, acc).calls
    decreases |wave|
  {
    if wave != [] {
      AbsorbKeeps(base, wave[0], acc);
      WaveKeeps(base, wave[1..], Absorb(wave[0], acc));
    }
  }

  /** Any number of waves from permutation layouts keeps the bookkeeping and
      only extends the found list. */
  lemma {:induction false} WavesKeep(base: seq<Board>, frontier: seq<Board>, d: int, acc: Batch)
    requires Consistent(base, acc) && AllPermutations(frontier) && Tiles(acc)
    ensures Consistent(base, Waves(frontier, d, acc))
    ensures acc.found <= Waves(frontier, d, acc).found && acc.calls <= Waves(frontier, d, acc).calls
    decreases if d > 0 then d else 0
  {
    if d > 0 {
      WaveKeeps(base, frontier, acc);
      WaveFoundTiles(frontier, acc);
      var a := Wave(frontier, acc);
      WavesKeep(base, a.last, d - 1, a);
    }
  }

  // ---------------------------------------------------------------------
  // Waves keep the tiles
  // ---------------------------------------------------------------------

  /** Everything the look-ahead holds is a permutation layout. */
  predicate Tiles(acc: Batch)
  {
    AllPermutations(acc.found) && AllPermutations(acc.last)
  }

  lemma AllPermutationsAppend(a: seq<Board>, e: seq<Board>)
    requires AllPermutations(a) && AllPermutations(e)
    ensures AllPermutations(a + e)
  {
    forall i | 0 <= i < |a + e|
      ensures IsTilePermutation((a + e)[i].cells)
    {
      if i >= |a| {
        assert (a + e)[i] == e[i - |a|];
      }
    }
  }

  lemma AbsorbTiles(C: Board, acc: Batch)
    requires Tiles(acc) && IsTilePermutation(C.cells)
    ensures Tiles(Absorb(C, acc))
  {
    var e := Expansion(C, acc.seen);
    ExpansionKeepsPermutation(C, acc.seen);
    AllPermutationsAppend(acc.found, e);
  }

  lemma {:induction false} WaveFoundTiles(wave: seq<Board>, acc: Batch)
    requires AllPermutations(wave) && Tiles(acc)
    ensures Tiles(Wave(wave, acc))
    decreases |wave|
  {
    if wave != [] {
      AbsorbTiles(wave[0], acc);
      WaveFoundTiles(wave[1..], Absorb(wave[0], acc));
    }
  }

  /** Waves from permutation layouts find only permutation layouts. */
  lemma {:induction false} WavesTiles(frontier: seq<Board>, d: int, acc: Batch)
    requires AllPermutations(frontier) && Tiles(acc)
    ensures Tiles(Waves(frontier, d, acc))
    decreases if d > 0 then d else 0
  {
    if d > 0 {
      WaveFoundTiles(frontier, acc);
      var a := Wave(frontier, acc);
      WavesTiles(a.last, d - 1, a);
    }
  }
}
