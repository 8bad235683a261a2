/**
 * The fringe of the search: a `std::priority_queue` ordered so that its top
 * is a state of least priority `f`. Here it is a list; which of several
 * states of equal least priority comes out first is left open, as the
 * queue does not specify it.
 */
module Fringe {
  import opened Board

  /** Index `i` holds a state of least priority. */
  predicate IsMinimal(fringe: seq<Board>, f: Board -> int, i: int)
  {
    0 <= i < |fringe| && forall j :: 0 <= j < |fringe| ==> f(fringe[i]) <= f(fringe[j])
  }

  /** A state of least priority is at most every state of the fringe. */
  lemma MinimalBelowAll(fringe: seq<Board>, f: Board -> int, i: int)
    requires IsMinimal(fringe, f, i)
    ensures forall x :: x in fringe ==> f(fringe[i]) <= f(x)
  {
    forall x | x in fringe
      ensures f(fringe[i]) <= f(x)
    {
      var j :| 0 <= j < |fringe| && fringe[j] == x;
    }
  }

  /** The fringe without its `i`-th state: the states before it keep their
      places, the ones after it move up by one. */
  function Remove(fringe: seq<Board>, i: int): (r: seq<Board>)
    requires 0 <= i < |fringe|
    ensures |r| == |fringe| - 1
    ensures forall j :: 0 <= j < |r| ==> r[j] == if j < i then fringe[j] else fringe[j + 1]
  {
    fringe[..i] + fringe[i + 1..]
  }

  /** Removing takes exactly one copy of the `i`-th state out of the fringe. */
  lemma RemoveOne(fringe: seq<Board>, i: int)
    requires 0 <= i < |fringe|
    ensures multiset(Remove(fringe, i)) == multiset(fringe) - multiset{fringe[i]}
  {
    assert fringe == fringe[..i] + [fringe[i]] + fringe[i + 1..];
  }

  /** `top()` followed by `pop()`: a state of least priority and the fringe without it. */
  method PopMin(fringe: seq<Board>, f: Board -> int) returns (i: int, top: Board, rest: seq<Board>)
    requires |fringe| > 0
    ensures IsMinimal(fringe, f, i)
    ensures top == fringe[i] && rest == Remove(fringe, i)
  {
    i := 0;
    for k := 1 to |fringe|
      invariant 0 <= i < k
      invariant forall j :: 0 <= j < k ==> f(fringe[i]) <= f(fringe[j])
    {
      if f(fringe[k]) < f(fringe[i]) {
        i := k;
      }
    }
    top := fringe[i];
    rest := fringe[..i] + fringe[i + 1..];
  }
}
