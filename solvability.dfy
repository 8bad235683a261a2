/**
 * The solvability test: count, in row-major reading order, the pairs of tiles
 * (blanks excluded) whose earlier tile is the larger one; a board is accepted
 * when that count is even. Sliding the blank never changes the parity, so
 * every board reached from the goal by moves passes the test.
 */
module Solvability {
  import opened Board

  /** 1 when tile `x`, read before tile `y`, is an inversion with it. */
  function Inverted(x: int, y: int): int
  {
    if x != 0 && y != 0 && x > y then 1 else 0
  }

  /** The inversions that tile `x` forms with the tiles read after it. */
  function Greater(x: int, t: seq<int>): int
    decreases |t|
  {
    if t == [] then 0 else Inverted(x, t[0]) + Greater(x, t[1..])
  }

  /** The number of inverted pairs (i, j), i < j, of the sequence. */
  function Inversions(s: seq<int>): int
    decreases |s|
  {
    if s == [] then 0 else Greater(s[0], s[1..]) + Inversions(s[1..])
  }

  predicate Solvable(c: Layout)
  {
    Inversions(c) % 2 == 0
  }

  method CheckSolvable(p: Board) returns (solvable: bool)
    ensures solvable <==> Solvable(p.cells)
  {
    var c := p.cells;
    var inversions := 0;
    for i := 0 to 9
      invariant inversions + Inversions(c[i..]) == Inversions(c)
    {
      assert c[i..][1..] == c[i + 1..];
      for j := i + 1 to 9
        invariant inversions + Greater(c[i], c[j..]) + Inversions(c[i + 1..]) == Inversions(c)
      {
        assert c[j..][1..] == c[j + 1..];
        RowMajor(i);
        RowMajor(j);
        var row1, col1 := ActualRow(i, 3), ActualColumn(i, 3);
        var row2, col2 := ActualRow(j, 3), ActualColumn(j, 3);
        if At(c, row1, col1) != 0 && At(c, row2, col2) != 0 && At(c, row1, col1) > At(c, row2, col2) {
          inversions := inversions + 1;
        }
      }
    }
    if inversions % 2 != 0 {
      solvable := false;
    } else {
      solvable := true;
    }
  }

  // ---------------------------------------------------------------------
  // How the count splits over concatenations
  // ---------------------------------------------------------------------

  /** The inversions between every element of `a` and every element of `t`, `a` read first. */
  function Cross(a: seq<int>, t: seq<int>): int
    decreases |a|
  {
    if a == [] then 0 else Greater(a[0], t) + Cross(a[1..], t)
  }

  lemma {:induction false} GreaterAppend(x: int, a: seq<int>, b: seq<int>)
    ensures Greater(x, a + b) == Greater(x, a) + Greater(x, b)
    decreases |a|
  {
    if a == [] {
      assert a + b == b;
    } else {
      assert (a + b)[1..] == a[1..] + b;
      GreaterAppend(x, a[1..], b);
    }
  }

  lemma {:induction false} CrossAppend(a: seq<int>, m: seq<int>, s: seq<int>)
    ensures Cross(a, m + s) == Cross(a, m) + Cross(a, s)
    decreases |a|
  {
    if a != [] {
      GreaterAppend(a[0], m, s);
      CrossAppend(a[1..], m, s);
    }
  }

  lemma {:induction false} InversionsAppend(a: seq<int>, b: seq<int>)
    ensures Inversions(a + b) == Inversions(a) + Inversions(b) + Cross(a, b)
    decreases |a|
  {
    if a == [] {
      assert a + b == b;
    } else {
      assert (a + b)[0] == a[0];
      assert (a + b)[1..] == a[1..] + b;
      GreaterAppend(a[0], a[1..], b);
      InversionsAppend(a[1..], b);
    }
  }

  /** Cross counts against two blocks that every tile sees alike are equal. */
  lemma {:induction false} CrossAlike(a: seq<int>, m1: seq<int>, m2: seq<int>)
    requires forall x :: Greater(x, m1) == Greater(x, m2)
    ensures Cross(a, m1) == Cross(a, m2)
    decreases |a|
  {
    if a != [] {
      CrossAlike(a[1..], m1, m2);
    }
  }

  /** Exchanging a middle block for one with the same inversion parity, seen
      alike from the left and seeing the right part alike, keeps the parity. */
  lemma BlockExchange(p: seq<int>, m1: seq<int>, m2: seq<int>, s: seq<int>)
    requires Inversions(m1) % 2 == Inversions(m2) % 2
    requires Cross(p, m1) == Cross(p, m2)
    requires Cross(m1, s) == Cross(m2, s)
    ensures Inversions(p + m1 + s) % 2 == Inversions(p + m2 + s) % 2
  {
    var rest := Inversions(p) + Inversions(s) + Cross(p, m1) + Cross(p, s) + Cross(m1, s);
    BlockSplit(p, m1, s);
    BlockSplit(p, m2, s);
    SameParityShift(Inversions(p + m1 + s), Inversions(p + m2 + s), Inversions(m1), Inversions(m2), rest);
  }

  lemma SameParityShift(x: int, y: int, a: int, b: int, k: int)
    requires a % 2 == b % 2 && x == a + k && y == b + k
    ensures x % 2 == y % 2
  {
  }

  lemma BlockSplit(p: seq<int>, m: seq<int>, s: seq<int>)
    ensures Inversions(p + m + s)
            == Inversions(p) + Inversions(m) + Inversions(s) + Cross(p, m) + Cross(p, s) + Cross(m, s)
  {
    assert p + m + s == p + (m + s);
    InversionsAppend(p, m + s);
    InversionsAppend(m, s);
    CrossAppend(p, m, s);
  }

  lemma {:induction false} BlankFormsNoInversion(t: seq<int>)
    ensures Greater(0, t) == 0
    decreases |t|
  {
    if t != [] {
      BlankFormsNoInversion(t[1..]);
    }
  }

  // The lemmas below unfold `Greater`, `Inversions` and `Cross` on short
  // displays. The verifier unfolds a recursive function on a display such
  // as `[a, b, c]` only once it is told what the tail `[a, b, c][1..]` is,
  // so each length gets its own lemma that asserts the tail.

  lemma Greater1(x: int, a: int)
    ensures Greater(x, [a]) == Inverted(x, a)
  {
    assert [a][1..] == [];
    assert Greater(x, [a]) == Inverted(x, a) + Greater(x, []);
  }

  lemma Greater2(x: int, a: int, b: int)
    ensures Greater(x, [a, b]) == Inverted(x, a) + Inverted(x, b)
  {
    assert [a, b][1..] == [b];
    assert Greater(x, [a, b]) == Inverted(x, a) + Greater(x, [b]);
    Greater1(x, b);
  }

  lemma Greater3(x: int, a: int, b: int, c: int)
    ensures Greater(x, [a, b, c]) == Inverted(x, a) + Inverted(x, b) + Inverted(x, c)
  {
    assert [a, b, c][1..] == [b, c];
    assert Greater(x, [a, b, c]) == Inverted(x, a) + Greater(x, [b, c]);
    Greater2(x, b, c);
  }

  lemma Greater4(x: int, a: int, b: int, c: int, d: int)
    ensures Greater(x, [a, b, c, d]) == Inverted(x, a) + Inverted(x, b) + Inverted(x, c) + Inverted(x, d)
  {
    assert [a, b, c, d][1..] == [b, c, d];
    assert Greater(x, [a, b, c, d]) == Inverted(x, a) + Greater(x, [b, c, d]);
    Greater3(x, b, c, d);
  }

  lemma Inversions4(a: int, b: int, c: int, d: int)
    ensures Inversions([a, b, c, d])
            == Inverted(a, b) + Inverted(a, c) + Inverted(a, d) + Inverted(b, c) + Inverted(b, d) + Inverted(c, d)
  {
    assert [a, b, c, d][1..] == [b, c, d];
    assert [b, c, d][1..] == [c, d];
    assert [c, d][1..] == [d];
    assert [d][1..] == [];
    assert Inversions([a, b, c, d]) == Greater(a, [b, c, d]) + Inversions([b, c, d]);
    assert Inversions([b, c, d]) == Greater(b, [c, d]) + Inversions([c, d]);
    assert Inversions([c, d]) == Greater(c, [d]) + Inversions([d]);
    assert Inversions([d]) == Greater(d, []) + Inversions([]);
    Greater3(a, b, c, d);
    Greater2(b, c, d);
    Greater1(c, d);
  }

  lemma Cross4(a: int, b: int, c: int, d: int, s: seq<int>)
    ensures Cross([a, b, c, d], s) == Greater(a, s) + Greater(b, s) + Greater(c, s) + Greater(d, s)
  {
    assert [a, b, c, d][1..] == [b, c, d];
    assert [b, c, d][1..] == [c, d];
    assert [c, d][1..] == [d];
    assert [d][1..] == [];
    assert Cross([a, b, c, d], s) == Greater(a, s) + Cross([b, c, d], s);
    assert Cross([b, c, d], s) == Greater(b, s) + Cross([c, d], s);
    assert Cross([c, d], s) == Greater(c, s) + Cross([d], s);
    assert Cross([d], s) == Greater(d, s) + Cross([], s);
  }

  lemma Cross2(a: int, b: int, s: seq<int>)
    ensures Cross([a, b], s) == Greater(a, s) + Greater(b, s)
  {
    assert [a, b][1..] == [b];
    assert [b][1..] == [];
    assert Cross([a, b], s) == Greater(a, s) + Cross([b], s);
    assert Cross([b], s) == Greater(b, s) + Cross([], s);
  }

  /** A tile moving over two others changes the count by an even amount:
      [t, a, b, 0] and [0, a, b, t] with t, a, b distinct tiles. */
  lemma VerticalBlock(p: seq<int>, t: int, a: int, b: int, s: seq<int>)
    requires t != 0 && a != 0 && b != 0 && t != a && t != b && a != b
    ensures Inversions([t, a, b, 0]) % 2 == Inversions([0, a, b, t]) % 2
    ensures Cross(p, [t, a, b, 0]) == Cross(p, [0, a, b, t])
    ensures Cross([t, a, b, 0], s) == Cross([0, a, b, t], s)
  {
    Inversions4(t, a, b, 0);
    Inversions4(0, a, b, t);
    forall x
      ensures Greater(x, [t, a, b, 0]) == Greater(x, [0, a, b, t])
    {
      Greater4(x, t, a, b, 0);
      Greater4(x, 0, a, b, t);
    }
    CrossAlike(p, [t, a, b, 0], [0, a, b, t]);
    Cross4(t, a, b, 0, s);
    Cross4(0, a, b, t, s);
    BlankFormsNoInversion(s);
  }

  /** A tile moving sideways past the blank leaves the count unchanged. */
  lemma HorizontalBlock(p: seq<int>, x: int, s: seq<int>)
    ensures Inversions([0, x]) == Inversions([x, 0]) == 0
    ensures Cross(p, [0, x]) == Cross(p, [x, 0])
    ensures Cross([0, x], s) == Cross([x, 0], s)
  {
    assert [0, x][1..] == [x];
    assert [x, 0][1..] == [0];
    assert Inversions([0, x]) == Greater(0, [x]) + Inversions([x]);
    assert Inversions([x, 0]) == Greater(x, [0]) + Inversions([0]);
    assert [x][1..] == [];
    assert [0][1..] == [];
    assert Inversions([x]) == Greater(x, []) + Inversions([]);
    assert Inversions([0]) == Greater(0, []) + Inversions([]);
    Greater1(0, x);
    Greater1(x, 0);
    forall y
      ensures Greater(y, [0, x]) == Greater(y, [x, 0])
    {
      Greater2(y, 0, x);
      Greater2(y, x, 0);
    }
    CrossAlike(p, [0, x], [x, 0]);
    Cross2(0, x, s);
    Cross2(x, 0, s);
    BlankFormsNoInversion(s);
  }

  // ---------------------------------------------------------------------
  // Moves keep the parity
  // ---------------------------------------------------------------------

  /** One blank move keeps a permutation layout's inversion parity, hence its solvability. */
  lemma MovePreservesParity(c: Layout, m: Move)
    requires IsTilePermutation(c)
    ensures Inversions(Slide(c, m)) % 2 == Inversions(c) % 2
    ensures Solvable(Slide(c, m)) == Solvable(c)
  {
    var p := BlankIndex(c);
    match Target(p, m)
    case None =>
    case Some(q) =>
      SwapParity(c, p, q);
  }

  /** Exchanging the blank with a tile one row or one column away keeps the parity. */
  lemma SwapParity(c: Layout, p: nat, q: nat)
    requires IsTilePermutation(c)
    requires p == BlankIndex(c) && q < 9
    requires q + 3 == p || p + 3 == q || q + 1 == p || p + 1 == q
    ensures Inversions(Swap(c, p, q)) % 2 == Inversions(c) % 2
  {
    UniqueBlank(c);
    PermutationFacts(c);
    var d := Swap(c, p, q);
    if q + 3 == p {
      VerticalParity(c, d, q);
    } else if p + 3 == q {
      VerticalParity(d, c, p);
    } else if q + 1 == p {
      HorizontalParity(c, d, q);
    } else {
      HorizontalParity(d, c, p);
    }
  }

  /** The blank at `q + 3` trades places with the tile at `q`, jumping over
      two tiles; all three are distinct tiles. */
  lemma VerticalParity(c: Layout, d: Layout, q: nat)
    requires q + 3 < 9 && c[q + 3] == 0
    requires c[q] != 0 && c[q + 1] != 0 && c[q + 2] != 0
    requires c[q] != c[q + 1] && c[q] != c[q + 2] && c[q + 1] != c[q + 2]
    requires d[q] == 0 && d[q + 3] == c[q]
    requires forall k :: 0 <= k < 9 && k != q && k != q + 3 ==> d[k] == c[k]
    ensures Inversions(d) % 2 == Inversions(c) % 2
  {
    var pre, post := c[..q], c[q + 4..];
    var m1 := [c[q], c[q + 1], c[q + 2], 0];
    var m2 := [0, c[q + 1], c[q + 2], c[q]];
    assert c == pre + m1 + post;
    assert d == pre + m2 + post;
    VerticalBlock(pre, c[q], c[q + 1], c[q + 2], post);
    BlockExchange(pre, m1, m2, post);
  }

  /** The blank at `q + 1` trades places with the tile at `q`. */
  lemma HorizontalParity(c: Layout, d: Layout, q: nat)
    requires q + 1 < 9 && c[q + 1] == 0
    requires d[q] == 0 && d[q + 1] == c[q]
    requires forall k :: 0 <= k < 9 && k != q && k != q + 1 ==> d[k] == c[k]
    ensures Inversions(d) % 2 == Inversions(c) % 2
  {
    var pre, post := c[..q], c[q + 2..];
    var m1 := [c[q], 0];
    var m2 := [0, c[q]];
    assert c == pre + m1 + post;
    assert d == pre + m2 + post;
    HorizontalBlock(pre, c[q], post);
    BlockExchange(pre, m1, m2, post);
  }

  /** Tiles in increasing order form no inversion. */
  lemma {:induction false} IncreasingHasNoInversions(s: seq<int>)
    requires forall i, j :: 0 <= i < j < |s| ==> s[i] < s[j]
    ensures Inversions(s) == 0
    decreases |s|
  {
    if s != [] {
      IncreasingNotGreater(s[0], s[1..]);
      IncreasingHasNoInversions(s[1..]);
    }
  }

  lemma {:induction false} IncreasingNotGreater(x: int, t: seq<int>)
    requires forall k :: 0 <= k < |t| ==> x < t[k]
    ensures Greater(x, t) == 0
    decreases |t|
  {
    if t != [] {
      IncreasingNotGreater(x, t[1..]);
    }
  }

  /** The goal layout is accepted. */
  lemma GoalIsSolvable()
    ensures Inversions(Goal) == 0
    ensures Solvable(Goal)
  {
    IncreasingHasNoInversions(Goal);
  }

  /** Every layout reached from a permutation layout by moves keeps its parity. */
  lemma {:induction false} PlayPreservesParity(c: Layout, moves: seq<Move>)
    requires IsTilePermutation(c)
    ensures IsTilePermutation(Play(c, moves))
    ensures Solvable(Play(c, moves)) == Solvable(c)
    decreases |moves|
  {
    if moves != [] {
      ChildIsPermutation(Board(c, 0), moves[0]);
      MovePreservesParity(c, moves[0]);
      PlayPreservesParity(Slide(c, moves[0]), moves[1..]);
    }
  }

  /** Boards built by moving the blank from the goal always pass the test. */
  lemma ScrambledFromGoalIsSolvable(moves: seq<Move>)
    ensures IsTilePermutation(Play(Goal, moves))
    ensures Solvable(Play(Goal, moves))
  {
    GoalIsPermutation();
    GoalIsSolvable();
    PlayPreservesParity(Goal, moves);
  }
}
