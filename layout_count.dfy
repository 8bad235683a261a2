/**
 * There are finitely many layouts: reading the nine cells of a layout as the
 * digits of a base-9 number gives different numbers to different layouts, so
 * a list of pairwise distinct permutation layouts has at most 9^9 elements.
 * This bounds how often the search can find a new state.
 */
module LayoutCount {
  import opened Board
  import opened Successors

  const LayoutBound: nat := 387420489

  function Pow9(n: nat): (r: nat)
    ensures r >= 1
  {
    if n == 0 then 1 else 9 * Pow9(n - 1)
  }

  predicate Digits(s: seq<int>)
  {
    forall k :: 0 <= k < |s| ==> 0 <= s[k] < 9
  }

  /** The cells read as a base-9 number, the first cell the least significant digit. */
  function Code(s: seq<int>): int
    decreases |s|
  {
    if s == [] then 0 else s[0] + 9 * Code(s[1..])
  }

  lemma {:induction false} CodeRange(s: seq<int>)
    requires Digits(s)
    ensures 0 <= Code(s) < Pow9(|s|)
    decreases |s|
  {
    if s != [] {
      CodeRange(s[1..]);
    }
  }

  lemma Digit(a: int, x: int)
    requires 0 <= a < 9 && 0 <= x
    ensures (a + 9 * x) % 9 == a && (a + 9 * x) / 9 == x
  {
  }

  /** Equal codes of equally long digit strings mean equal strings. */
  lemma {:induction false} CodeInjective(s: seq<int>, t: seq<int>)
    requires Digits(s) && Digits(t) && |s| == |t|
    requires Code(s) == Code(t)
    ensures s == t
    decreases |s|
  {
    if s != [] {
      CodeRange(s[1..]);
      CodeRange(t[1..]);
      Digit(s[0], Code(s[1..]));
      Digit(t[0], Code(t[1..]));
      CodeInjective(s[1..], t[1..]);
      assert s == [s[0]] + s[1..];
      assert t == [t[0]] + t[1..];
    }
  }

  /** A set of numbers below `n` has at most `n` elements. */
  lemma {:induction false} SmallSet(S: set<int>, n: nat)
    requires forall x :: x in S ==> 0 <= x < n
    ensures |S| <= n
    decreases n
  {
    if n > 0 {
      SmallSet(S - {n - 1}, n - 1);
    } else {
      assert forall x :: x !in S;
      assert S == {};
    }
  }

  function Codes(s: seq<Board>): set<int>
  {
    set i | 0 <= i < |s| :: Code(s[i].cells)
  }

  predicate AllDigits(s: seq<Board>)
  {
    forall i :: 0 <= i < |s| ==> Digits(s[i].cells)
  }

  lemma PermutationsAreDigits(s: seq<Board>)
    requires AllPermutations(s)
    ensures AllDigits(s)
  {
    forall i | 0 <= i < |s|
      ensures Digits(s[i].cells)
    {
      PermutationFacts(s[i].cells);
    }
  }

  /** Distinct layouts of digits have as many codes as elements. */
  lemma {:induction false} CodesCount(s: seq<Board>)
    requires DistinctLayouts(s) && AllDigits(s)
    ensures |Codes(s)| == |s|
    decreases |s|
  {
    if s != [] {
      var n := |s| - 1;
      var p := s[..n];
      assert DistinctLayouts(p);
      assert AllDigits(p);
      CodesCount(p);
      assert Codes(s) == Codes(p) + {Code(s[n].cells)};
      if Code(s[n].cells) in Codes(p) {
        var i :| 0 <= i < n && Code(p[i].cells) == Code(s[n].cells);
        CodeInjective(s[i].cells, s[n].cells);
        assert false;
      }
    }
  }

  /** A list of pairwise distinct permutation layouts has at most 9^9 elements. */
  lemma DistinctLayoutsBounded(s: seq<Board>)
    requires DistinctLayouts(s) && AllPermutations(s)
    ensures |s| <= LayoutBound
  {
    PermutationsAreDigits(s);
    CodesCount(s);
    forall x | x in Codes(s)
      ensures 0 <= x < LayoutBound
    {
      var i :| 0 <= i < |s| && x == Code(s[i].cells);
      CodeRange(s[i].cells);
    }
    SmallSet(Codes(s), LayoutBound);
  }
}
