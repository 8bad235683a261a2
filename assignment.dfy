/**
 * The newer solver (Assignment.cpp): the goal test on [[0,1,2],[3,4,5],[6,7,8]],
 * the breadth-first look-ahead that shares one seen list and one expansion
 * counter with the search, and the A* loop over a fringe ordered by
 * depth + heuristic.
 */
module Assignment {
  import opened Board
  import opened Heuristics
  import opened Successors
  import opened Fringe
  import opened LayoutCount
  import opened Runs

  /** The nine cells compared one by one with the goal layout. */
  function GoalTest(p: Board): (r: bool)
    ensures r <==> p.cells == Goal
  {
    var c := p.cells;
    At(c, 0, 0) == 0 && At(c, 0, 1) == 1 && At(c, 0, 2) == 2 &&
    At(c, 1, 0) == 3 && At(c, 1, 1) == 4 && At(c, 1, 2) == 5 &&
    At(c, 2, 0) == 6 && At(c, 2, 1) == 7 && At(c, 2, 2) == 8
  }

  /** The verdict printed beside a search's result: "YES" when the final
      state is the goal layout, "NO" otherwise. */
  function CheckOptimal(p: Board): (r: string)
    ensures r == "YES" <==> p.cells == Goal
    ensures r == "YES" || r == "NO"
  {
    if GoalTest(p) then "YES" else "NO"
  }

  // ---------------------------------------------------------------------
  // The look-ahead
  // ---------------------------------------------------------------------

  /** What one look-ahead from `S` computes, given the shared seen list
      `allnodes`: if `S` has no new child, nothing at all; otherwise its
      children, counted as one expansion and added to the seen list, followed
      by `depth - 1` waves. */
  function BatchExpand(S: Board, depth: int, allnodes: seq<Board>): Batch
  {
    var first := Expansion(S, allnodes);
    if first == [] then Batch([], allnodes, 0, [])
    else Waves(first, depth - 1, Batch(first, allnodes + first, 1, []))
  }

  /** The look-ahead's promises: the seen list grows by exactly what is
      returned; the returned layouts are pairwise distinct, none was seen
      before, and all are permutation layouts; every counted expansion found
      something; the result is empty exactly when `S` has no new child, and
      starts with those children. */
  lemma BatchExpandFacts(S: Board, depth: int, allnodes: seq<Board>)
    requires IsTilePermutation(S.cells)
    ensures var b := BatchExpand(S, depth, allnodes);
            && b.seen == allnodes + b.found
            && DistinctLayouts(b.found)
            && (forall x :: x in b.found ==> !InPrev(allnodes, x))
            && AllPermutations(b.found)
            && b.calls <= |b.found|
            && (b.found == [] <==> Expansion(S, allnodes) == [])
            && Expansion(S, allnodes) <= b.found
  {
    var first := Expansion(S, allnodes);
    if first != [] {
      var acc := Batch(first, allnodes + first, 1, []);
      ExpansionSound(S, allnodes);
      ExpansionDistinct(S, allnodes);
      ExpansionKeepsPermutation(S, allnodes);
      assert Consistent(allnodes, acc);
      assert Tiles(acc);
      WavesKeep(allnodes, first, depth - 1, acc);
      WavesTiles(first, depth - 1, acc);
    }
  }

  /** With a look-ahead depth of at most 1 the batch is the plain expansion
      of `S`, counted once when it is not empty and added to the seen list. */
  lemma ShallowBatch(S: Board, depth: int, allnodes: seq<Board>)
    requires depth <= 1
    ensures var b := BatchExpand(S, depth, allnodes);
            && b.found == Expansion(S, allnodes)
            && b.seen == allnodes + b.found
            && b.calls == if b.found == [] then 0 else 1
  {
  }

  /** The look-ahead as the source runs it: `allnodes` and `nodesExpanded`
      are passed by reference, so their new values are returned as well. */
  method ModifiedExpand(S: Board, depth: int, nodesExpanded: int, allnodes: seq<Board>)
    returns (temp1: seq<Board>, nodesExpanded': int, allnodes': seq<Board>)
    ensures var b := BatchExpand(S, depth, allnodes);
            temp1 == b.found && allnodes' == b.seen && nodesExpanded' == nodesExpanded + b.calls
  {
    temp1 := Expand(S, allnodes);
    if |temp1| == 0 {
      return temp1, nodesExpanded, allnodes;
    }
    nodesExpanded' := nodesExpanded + 1;
    allnodes' := Append(allnodes, temp1);
    var temp3: seq<Board>;
    temp1, nodesExpanded', allnodes', temp3 := ExpandWaves(temp1, depth - 1, temp1, nodesExpanded', allnodes', [], nodesExpanded);
  }

  /** The look-ahead's outer loop: `d` waves, each starting from what the
      last expansion of the previous wave returned. */
  method ExpandWaves(temp2: seq<Board>, d: int, temp1: seq<Board>, nodesExpanded: int, allnodes: seq<Board>,
                     temp3: seq<Board>, ghost base: int)
    returns (temp1': seq<Board>, nodesExpanded': int, allnodes': seq<Board>, temp3': seq<Board>)
    requires nodesExpanded >= base
    ensures nodesExpanded' >= base
    ensures Batch(temp1', allnodes', nodesExpanded' - base, temp3')
            == Waves(temp2, d, Batch(temp1, allnodes, nodesExpanded - base, temp3))
  {
    temp1', nodesExpanded', allnodes', temp3' := temp1, nodesExpanded, allnodes, temp3;
    var wave, togo := temp2, d;
    ghost var batch := Waves(temp2, d, Batch(temp1, allnodes, nodesExpanded - base, temp3));
    while togo > 0
      invariant nodesExpanded' >= base
      invariant Waves(wave, togo, Batch(temp1', allnodes', nodesExpanded' - base, temp3')) == batch
      decreases togo
    {
      temp1', nodesExpanded', allnodes', temp3' := ExpandWave(wave, temp1', nodesExpanded', allnodes', temp3', base);
      togo := togo - 1;
      wave := temp3';
    }
  }

  /** One pass of the look-ahead's inner loop over the wave `temp2`. The
      counter is kept relative to `base`, its value on entry to the look-ahead. */
  method ExpandWave(temp2: seq<Board>, temp1: seq<Board>, nodesExpanded: int, allnodes: seq<Board>,
                    temp3: seq<Board>, ghost base: int)
    returns (temp1': seq<Board>, nodesExpanded': int, allnodes': seq<Board>, temp3': seq<Board>)
    requires nodesExpanded >= base
    ensures nodesExpanded' >= base
    ensures Batch(temp1', allnodes', nodesExpanded' - base, temp3')
            == Wave(temp2, Batch(temp1, allnodes, nodesExpanded - base, temp3))
  {
    temp1', nodesExpanded', allnodes', temp3' := temp1, nodesExpanded, allnodes, temp3;
    for k := 0 to |temp2|
      invariant nodesExpanded' >= base
      invariant Wave(temp2[k..], Batch(temp1', allnodes', nodesExpanded' - base, temp3'))
                == Wave(temp2, Batch(temp1, allnodes, nodesExpanded - base, temp3))
    {
      assert temp2[k..][1..] == temp2[k + 1..];
      ghost var acc := Batch(temp1', allnodes', nodesExpanded' - base, temp3');
      var C := temp2[k];
      temp3' := Expand(C, allnodes');
      if |temp3'| == 0 {
      } else {
        allnodes' := Append(allnodes', temp3');
        nodesExpanded' := nodesExpanded' + 1;
        temp1' := Append(temp1', temp3');
      }
      assert Batch(temp1', allnodes', nodesExpanded' - base, temp3') == Absorb(C, acc);
    }
    assert temp2[|temp2|..] == [];
  }

  // ---------------------------------------------------------------------
  // The search
  // ---------------------------------------------------------------------

  /** The fringe's key: depth plus Manhattan distance for 'm', depth plus
      tile mismatches for any other heuristic character. */
  function Priority(heuristic: char): (key: Board -> int)
    ensures forall b: Board :: b.depth <= key(b)
    ensures forall b: Board :: b.cells == Goal ==> key(b) == b.depth
    ensures heuristic == 'm' ==> forall b: Board :: b.depth + TileMismatch(b.cells) <= key(b)
  {
    EstimatesNonNegative();
    GoalScoresZero();
    if heuristic == 'm' then (b: Board) => b.depth + Manhattan(b.cells)
    else (b: Board) => b.depth + TileMismatch(b.cells)
  }

  /** The search's variables at the head of its loop. */
  datatype Snapshot = Snapshot(current: Board, fringe: seq<Board>, allnodes: seq<Board>,
                               nodesExpanded: int, maxFringeSize: int)

  /** What the search returns: the largest fringe size, the expansion count
      and the final state; or the top of an empty fringe read by the
      tile-mismatch branch, which has no emptiness check. */
  datatype Outcome = Finished(maxFringeSize: int, nodesExpanded: int, final: Board) | TopOfEmptyFringe

  function Start(initialState: Board): Snapshot
  {
    Snapshot(initialState, [], [initialState], 0, 1)
  }

  /** The first half of an iteration: the look-ahead's states pushed and the
      largest fringe size updated. The largest size never shrinks and is at
      least the size just reached. */
  function Pushed(p: Snapshot, bfsDepth: int): (r: Snapshot)
    ensures r.current == p.current
    ensures r.maxFringeSize >= p.maxFringeSize && r.maxFringeSize >= |r.fringe|
    ensures |r.fringe| >= |p.fringe| && r.fringe[..|p.fringe|] == p.fringe
  {
    var b := BatchExpand(p.current, bfsDepth, p.allnodes);
    var fringe := p.fringe + b.found;
    Snapshot(p.current, fringe, b.seen, p.nodesExpanded + b.calls,
             if |fringe| > p.maxFringeSize then |fringe| else p.maxFringeSize)
  }

  /** One iteration: the current state is not the goal, the fringe after
      the push is not empty, and the next current state is one of least
      priority in it, taken out of the fringe. */
  ghost predicate Step(p: Snapshot, q: Snapshot, heuristic: char, bfsDepth: int)
    ensures Step(p, q, heuristic, bfsDepth) ==>
              var r := Pushed(p, bfsDepth);
              && !GoalTest(p.current)
              && q.current in r.fringe
              && |q.fringe| == |r.fringe| - 1
              && (forall x :: x in q.fringe ==> x in r.fringe)
  {
    !GoalTest(p.current) &&
    var r := Pushed(p, bfsDepth);
    exists i :: IsMinimal(r.fringe, Priority(heuristic), i) &&
      q == r.(current := r.fringe[i], fringe := Remove(r.fringe, i))
  }

  /** The state a step takes has a priority no larger than that of any
      state in the fringe after the push. */
  lemma StepTakesLeast(p: Snapshot, q: Snapshot, heuristic: char, bfsDepth: int)
    requires Step(p, q, heuristic, bfsDepth)
    ensures forall x :: x in Pushed(p, bfsDepth).fringe ==> Priority(heuristic)(q.current) <= Priority(heuristic)(x)
  {
    var r := Pushed(p, bfsDepth);
    var i :| IsMinimal(r.fringe, Priority(heuristic), i) && q == r.(current := r.fringe[i], fringe := Remove(r.fringe, i));
    MinimalBelowAll(r.fringe, Priority(heuristic), i);
  }

  /** What a step leaves of the push: the seen list and the counters as the
      push left them, and a fringe one state shorter. */
  lemma StepShape(p: Snapshot, q: Snapshot, heuristic: char, bfsDepth: int)
    requires Step(p, q, heuristic, bfsDepth)
    ensures var r := Pushed(p, bfsDepth);
            && q.allnodes == r.allnodes && q.nodesExpanded == r.nodesExpanded
            && q.maxFringeSize == r.maxFringeSize && |q.fringe| == |r.fringe| - 1
  {
  }

  /** How the search ends from `p`, if it ends there: on the goal, or on an
      empty fringe after the push. */
  function Final(p: Snapshot, heuristic: char, bfsDepth: int): (r: Option<Outcome>)
    ensures r.None? <==> !GoalTest(p.current) && Pushed(p, bfsDepth).fringe != []
    ensures r.Some? && r.value.Finished? ==>
              && r.value.final == p.current
              && (GoalTest(p.current) || (heuristic == 'm' && Pushed(p, bfsDepth).fringe == []))
    ensures r.Some? && r.value.TopOfEmptyFringe? ==> heuristic != 'm' && Pushed(p, bfsDepth).fringe == []
  {
    if GoalTest(p.current) then Some(Finished(p.maxFringeSize, p.nodesExpanded, p.current))
    else
      var r := Pushed(p, bfsDepth);
      if r.fringe != [] then None
      else if heuristic == 'm' then Some(Finished(r.maxFringeSize, r.nodesExpanded, p.current))
      else Some(TopOfEmptyFringe)
  }

  ghost function StepOf(heuristic: char, bfsDepth: int): (Snapshot, Snapshot) -> bool
  {
    (p, q) => Step(p, q, heuristic, bfsDepth)
  }

  /** Each snapshot of `run` follows from the one before by a step. */
  ghost predicate Steps(run: seq<Snapshot>, heuristic: char, bfsDepth: int)
  {
    Chain(run, StepOf(heuristic, bfsDepth))
  }

  lemma StepsExtend(run: seq<Snapshot>, q: Snapshot, heuristic: char, bfsDepth: int)
    requires |run| >= 1 && Steps(run, heuristic, bfsDepth) && Step(run[|run| - 1], q, heuristic, bfsDepth)
    ensures Steps(run + [q], heuristic, bfsDepth)
  {
    ChainExtend(run, q, StepOf(heuristic, bfsDepth));
  }

  lemma StepAt(run: seq<Snapshot>, k: int, heuristic: char, bfsDepth: int)
    requires Steps(run, heuristic, bfsDepth) && 0 <= k < |run| - 1
    ensures Step(run[k], run[k + 1], heuristic, bfsDepth)
  {
    assert StepOf(heuristic, bfsDepth)(run[k], run[k + 1]);
  }

  /** `run` is a search from `initialState` that ends with `result`. */
  ghost predicate IsRun(initialState: Board, heuristic: char, bfsDepth: int, run: seq<Snapshot>, result: Outcome)
  {
    && |run| >= 1 && run[0] == Start(initialState)
    && Steps(run, heuristic, bfsDepth)
    && Final(run[|run| - 1], heuristic, bfsDepth) == Some(result)
  }

  /** What the search keeps at the head of its loop: the seen list holds
      pairwise distinct permutation layouts, and so do the fringe and the
      current state. */
  predicate Tidy(p: Snapshot)
  {
    DistinctLayouts(p.allnodes) && AllPermutations(p.allnodes) &&
    AllPermutations(p.fringe) && IsTilePermutation(p.current.cells)
  }

  /** The counters: the largest fringe size is positive and above the
      present fringe size, and every counted expansion added to the seen
      list. */
  predicate Counted(p: Snapshot)
  {
    1 <= p.maxFringeSize && |p.fringe| < p.maxFringeSize &&
    0 <= p.nodesExpanded < |p.allnodes|
  }

  lemma StartFacts(initialState: Board)
    requires IsTilePermutation(initialState.cells)
    ensures Tidy(Start(initialState)) && Counted(Start(initialState))
  {
  }

  /** The push keeps the seen list distinct and grows it by what was
      pushed, so the search either finds a new layout or shrinks the fringe. */
  lemma PushedFacts(p: Snapshot, bfsDepth: int)
    requires Tidy(p) && Counted(p)
    ensures var r := Pushed(p, bfsDepth);
            && r.allnodes == p.allnodes + r.fringe[|p.fringe|..]
            && DistinctLayouts(r.allnodes) && AllPermutations(r.allnodes) && AllPermutations(r.fringe)
            && p.nodesExpanded <= r.nodesExpanded < |r.allnodes|
  {
    var b := BatchExpand(p.current, bfsDepth, p.allnodes);
    BatchExpandFacts(p.current, bfsDepth, p.allnodes);
    DistinctAppend(p.allnodes, b.found);
    AllPermutationsAppend(p.allnodes, b.found);
    AllPermutationsAppend(p.fringe, b.found);
    assert (p.fringe + b.found)[|p.fringe|..] == b.found;
  }

  /** A step keeps both invariants, never lowers the largest fringe size or
      the expansion count, and either lengthens the seen list or shortens
      the fringe. */
  lemma StepFacts(p: Snapshot, q: Snapshot, heuristic: char, bfsDepth: int)
    requires Tidy(p) && Counted(p) && Step(p, q, heuristic, bfsDepth)
    ensures Tidy(q) && Counted(q)
    ensures q.maxFringeSize >= p.maxFringeSize && q.nodesExpanded >= p.nodesExpanded
    ensures |q.allnodes| > |p.allnodes| || (|q.allnodes| == |p.allnodes| && |q.fringe| < |p.fringe|)
  {
    var r := Pushed(p, bfsDepth);
    PushedFacts(p, bfsDepth);
    var i :| IsMinimal(r.fringe, Priority(heuristic), i) &&
             q == r.(current := r.fringe[i], fringe := Remove(r.fringe, i));
    RemoveKeepsPermutations(r.fringe, i);
  }

  /** Taking a state out of a list of permutation layouts leaves a list of
      permutation layouts. */
  lemma RemoveKeepsPermutations(s: seq<Board>, i: int)
    requires AllPermutations(s) && 0 <= i < |s|
    ensures AllPermutations(Remove(s, i))
  {
    forall j | 0 <= j < |Remove(s, i)|
      ensures IsTilePermutation(Remove(s, i)[j].cells)
    {
      var k := if j < i then j else j + 1;
      assert Remove(s, i)[j] == s[k];
      assert IsTilePermutation(s[k].cells);
    }
  }

  /** Taking a state of least priority out of the pushed fringe is a step,
      and it moves the search forward in the loop's termination order. */
  lemma PopStep(p: Snapshot, i: int, heuristic: char, bfsDepth: int)
    requires Tidy(p) && Counted(p) && !GoalTest(p.current)
    requires IsMinimal(Pushed(p, bfsDepth).fringe, Priority(heuristic), i)
    ensures var r := Pushed(p, bfsDepth);
            var q := r.(current := r.fringe[i], fringe := Remove(r.fringe, i));
            && Step(p, q, heuristic, bfsDepth) && Tidy(q) && Counted(q)
            && |p.allnodes| <= |q.allnodes| <= LayoutBound
            && (|q.allnodes| > |p.allnodes| || |q.fringe| < |p.fringe|)
  {
    var r := Pushed(p, bfsDepth);
    var q := r.(current := r.fringe[i], fringe := Remove(r.fringe, i));
    assert Step(p, q, heuristic, bfsDepth);
    StepFacts(p, q, heuristic, bfsDepth);
    PushedFacts(p, bfsDepth);
    DistinctLayoutsBounded(q.allnodes);
  }

  /** The first half of an iteration as the source runs it: the look-ahead,
      each of its states pushed onto the fringe, and the largest fringe size
      updated. */
  method Push(S: Board, bfsDepth: int, fringe: seq<Board>, allnodes: seq<Board>, nodesExpanded: int,
              maxFringeSize: int)
    returns (fringe': seq<Board>, allnodes': seq<Board>, nodesExpanded': int, maxFringeSize': int)
    ensures Snapshot(S, fringe', allnodes', nodesExpanded', maxFringeSize')
            == Pushed(Snapshot(S, fringe, allnodes, nodesExpanded, maxFringeSize), bfsDepth)
  {
    var temp;
    temp, nodesExpanded', allnodes' := ModifiedExpand(S, bfsDepth, nodesExpanded, allnodes);
    fringe' := Append(fringe, temp);
    maxFringeSize' := maxFringeSize;
    if |fringe'| > maxFringeSize' {
      maxFringeSize' := |fringe'|;
    }
  }

  /** The A* loop. Both heuristic branches of the source are one loop here,
      told apart by `heuristic`: the Manhattan branch stops on an empty
      fringe and returns the state it stands on, the other reads the top of
      the empty fringe. The ghost `run` records the loop head of every
      iteration. */
  method ModifiedAStar(initialState: Board, heuristic: char, bfsDepth: int)
    returns (result: Outcome, ghost run: seq<Snapshot>)
    requires IsTilePermutation(initialState.cells)
    ensures IsRun(initialState, heuristic, bfsDepth, run, result)
  {
    var maxFringeSize := 1;
    var nodesExpanded := 0;
    var fringe: seq<Board> := [];
    var allnodes := [initialState];
    var S := initialState;
    run := [Start(initialState)];
    StartFacts(initialState);
    while !GoalTest(S)
      invariant |run| >= 1 && run[0] == Start(initialState)
      invariant Steps(run, heuristic, bfsDepth)
      invariant run[|run| - 1] == Snapshot(S, fringe, allnodes, nodesExpanded, maxFringeSize)
      invariant Tidy(run[|run| - 1]) && Counted(run[|run| - 1])
      decreases LayoutBound - |allnodes|, |fringe|
    {
      ghost var p := run[|run| - 1];
      fringe, allnodes, nodesExpanded, maxFringeSize := Push(S, bfsDepth, fringe, allnodes, nodesExpanded, maxFringeSize);
      if |fringe| == 0 {
        if heuristic == 'm' {
          return Finished(maxFringeSize, nodesExpanded, S), run;
        }
        return TopOfEmptyFringe, run;
      }
      var i;
      i, S, fringe := PopMin(fringe, Priority(heuristic));
      ghost var q := Snapshot(S, fringe, allnodes, nodesExpanded, maxFringeSize);
      PopStep(p, i, heuristic, bfsDepth);
      StepsExtend(run, q, heuristic, bfsDepth);
      run := run + [q];
    }
    result := Finished(maxFringeSize, nodesExpanded, S);
  }

  // ---------------------------------------------------------------------
  // What a run guarantees
  // ---------------------------------------------------------------------

  /** Along a run from a permutation layout every snapshot keeps the loop's
      invariants. */
  lemma {:induction false} RunInvariant(initialState: Board, heuristic: char, bfsDepth: int,
                                        run: seq<Snapshot>, k: nat)
    requires IsTilePermutation(initialState.cells)
    requires |run| >= 1 && run[0] == Start(initialState) && Steps(run, heuristic, bfsDepth)
    requires k < |run|
    ensures Tidy(run[k]) && Counted(run[k])
  {
    if k == 0 {
      StartFacts(initialState);
    } else {
      RunInvariant(initialState, heuristic, bfsDepth, run, k - 1);
      StepAt(run, k - 1, heuristic, bfsDepth);
      StepFacts(run[k - 1], run[k], heuristic, bfsDepth);
    }
  }

  /** Along a run the largest fringe size never goes down. */
  lemma {:induction false} RunMaxGrows(initialState: Board, heuristic: char, bfsDepth: int,
                                       run: seq<Snapshot>, j: nat, k: nat)
    requires |run| >= 1 && run[0] == Start(initialState) && Steps(run, heuristic, bfsDepth)
    requires j <= k < |run|
    ensures run[j].maxFringeSize <= run[k].maxFringeSize
    decreases k - j
  {
    if j < k {
      RunMaxGrows(initialState, heuristic, bfsDepth, run, j, k - 1);
      StepAt(run, k - 1, heuristic, bfsDepth);
      StepShape(run[k - 1], run[k], heuristic, bfsDepth);
    }
  }

  /** How a run ends: the largest fringe size is at least 1 and at least
      every fringe size reached after a push; the Manhattan branch returns
      only on the goal or on an empty fringe, the other branch returns only
      on the goal, and only the other branch reads an empty fringe. */
  lemma RunOutcome(initialState: Board, heuristic: char, bfsDepth: int, run: seq<Snapshot>, result: Outcome)
    requires IsTilePermutation(initialState.cells)
    requires IsRun(initialState, heuristic, bfsDepth, run, result)
    ensures result.Finished? ==> result.maxFringeSize >= 1 && result.nodesExpanded >= 0
    ensures result.Finished? ==>
              forall k :: 0 <= k < |run| - 1 ==> result.maxFringeSize >= |Pushed(run[k], bfsDepth).fringe|
    ensures result.Finished? ==>
              GoalTest(result.final) || (heuristic == 'm' && Pushed(run[|run| - 1], bfsDepth).fringe == [])
    ensures result.Finished? && heuristic != 'm' ==> result.final.cells == Goal
    ensures result.TopOfEmptyFringe? ==> heuristic != 'm'
  {
    var n := |run| - 1;
    var last := run[n];
    RunInvariant(initialState, heuristic, bfsDepth, run, n);
    if result.Finished? {
      assert result.maxFringeSize >= last.maxFringeSize by {
        if !GoalTest(last.current) {
          assert Pushed(last, bfsDepth).maxFringeSize >= last.maxFringeSize;
        }
      }
      forall k | 0 <= k < n
        ensures result.maxFringeSize >= |Pushed(run[k], bfsDepth).fringe|
      {
        StepAt(run, k, heuristic, bfsDepth);
        RunMaxGrows(initialState, heuristic, bfsDepth, run, k + 1, n);
        PushWithinStep(run[k], run[k + 1], heuristic, bfsDepth, result.maxFringeSize);
      }
    }
  }

  /** The fringe right after a push is no larger than the recorded maximum
      in the state the step reaches. */
  lemma PushWithinStep(p: Snapshot, q: Snapshot, heuristic: char, bfsDepth: int, m: int)
    requires Step(p, q, heuristic, bfsDepth) && q.maxFringeSize <= m
    ensures |Pushed(p, bfsDepth).fringe| <= m
  {
    StepShape(p, q, heuristic, bfsDepth);
  }

  // ---------------------------------------------------------------------
  // The built-in test board
  // ---------------------------------------------------------------------

  /** The test board: the blank in the top right corner, two moves from the goal. */
  function CreateTest(): (b: Board)
    ensures IsTilePermutation(b.cells) && b.depth == 0
  {
    var b := Board([1, 2, 0, 3, 4, 5, 6, 7, 8], 0);
    forall v | 0 <= v < 9
      ensures v in b.cells
    {
      assert b.cells[if v == 0 then 2 else if v <= 2 then v - 1 else v] == v;
    }
    b
  }

  const Down1 := Board([1, 2, 5, 3, 4, 0, 6, 7, 8], 1)
  const Left1 := Board([1, 0, 2, 3, 4, 5, 6, 7, 8], 1)
  const Down2 := Board([1, 4, 2, 3, 0, 5, 6, 7, 8], 2)
  const Goal2 := Board(Goal, 2)

  /** The test board's blank, in the top right corner, moves down and left. */
  lemma TestChildren()
    ensures Child(CreateTest(), Up) == None && Child(CreateTest(), Right) == None
    ensures Child(CreateTest(), Down) == Some(Down1) && Child(CreateTest(), Left) == Some(Left1)
  {
    var c := CreateTest().cells;
    BlankAt(c, 2);
    assert Swap(c, 2, 5) == Down1.cells;
    assert Swap(c, 2, 1) == Left1.cells;
  }

  /** The blank of `Left1`, in the top middle, moves down, left and right. */
  lemma Left1Children()
    ensures Child(Left1, Up) == None
    ensures Child(Left1, Down) == Some(Down2) && Child(Left1, Left) == Some(Goal2)
    ensures Child(Left1, Right) == Some(Board(CreateTest().cells, 2))
  {
    var c := Left1.cells;
    BlankAt(c, 1);
    assert Swap(c, 1, 4) == Down2.cells;
    assert Swap(c, 1, 0) == Goal;
    assert Swap(c, 1, 2) == CreateTest().cells;
  }

  lemma KeptOne(b: Board, m: Move, prev: seq<Board>, t: Board)
    requires Child(b, m) == Some(t) && !InPrev(prev, t)
    ensures Kept(b, m, prev) == [t]
  {
  }

  lemma KeptNone(b: Board, m: Move, prev: seq<Board>)
    requires Child(b, m).None? || InPrev(prev, Child(b, m).value)
    ensures Kept(b, m, prev) == []
  {
  }

  lemma DownAndLeft(b: Board, prev: seq<Board>, x: Board, y: Board)
    requires Kept(b, Up, prev) == [] && Kept(b, Down, prev) == [x]
    requires Kept(b, Left, prev) == [y] && Kept(b, Right, prev) == []
    ensures Expansion(b, prev) == [x, y]
  {
  }

  /** The test board's children, checked against the test board itself. */
  lemma FirstExpansion()
    ensures Expansion(CreateTest(), [CreateTest()]) == [Down1, Left1]
  {
    var s0 := CreateTest();
    TestChildren();
    assert !InPrev([s0], Down1) by { assert Down1.cells[2] != s0.cells[2]; }
    assert !InPrev([s0], Left1) by { assert Left1.cells[1] != s0.cells[1]; }
    KeptNone(s0, Up, [s0]);
    KeptOne(s0, Down, [s0], Down1);
    KeptOne(s0, Left, [s0], Left1);
    KeptNone(s0, Right, [s0]);
    DownAndLeft(s0, [s0], Down1, Left1);
  }

  /** The children of `Left1` against the seen list after the first push:
      down and left are new, right leads back to the test board's layout. */
  lemma SecondExpansion()
    ensures Expansion(Left1, [CreateTest(), Down1, Left1]) == [Down2, Goal2]
  {
    var seen := [CreateTest(), Down1, Left1];
    Left1Children();
    assert !InPrev(seen, Down2) by {
      assert forall k :: 0 <= k < 3 ==> seen[k].cells[4] != 0;
    }
    assert !InPrev(seen, Goal2) by {
      assert forall k :: 0 <= k < 3 ==> seen[k].cells[0] != 0;
    }
    assert InPrev(seen, Board(CreateTest().cells, 2)) by { assert seen[0].cells == CreateTest().cells; }
    KeptNone(Left1, Up, seen);
    KeptOne(Left1, Down, seen, Down2);
    KeptOne(Left1, Left, seen, Goal2);
    KeptNone(Left1, Right, seen);
    DownAndLeft(Left1, seen, Down2, Goal2);
  }

  /** The first iteration from the test board pushes its down and left children. */
  lemma TestFirstPush(s0: Board)
    requires s0 == CreateTest()
    ensures Pushed(Start(s0), 1) == Snapshot(s0, [Down1, Left1], [s0, Down1, Left1], 1, 2)
  {
    FirstExpansion();
  }

  /** The second iteration, from `Left1`, pushes `Down2` and the goal. */
  lemma TestSecondPush(s0: Board)
    requires s0 == CreateTest()
    ensures Pushed(Snapshot(Left1, [Down1], [s0, Down1, Left1], 1, 2), 1)
            == Snapshot(Left1, [Down1, Down2, Goal2], [s0, Down1, Left1, Down2, Goal2], 2, 3)
  {
    SecondExpansion();
  }

  /** What cell `p` adds to the Manhattan distance, with the goal cell of
      tile `v` at row `v / 3`, column `v % 3`. */
  lemma TermValue(c: Layout, p: nat)
    requires p < 9 && 0 <= c[p] < 9
    ensures ManhattanTerm(c, p) == if c[p] == 0 then 0 else Abs(p / 3 - c[p] / 3) + Abs(p % 3 - c[p] % 3)
  {
    RowMajor(c[p]);
  }

  /** The Manhattan distance of a layout near the goal, cell by cell. The
      nine prefix sums are unfolded one by one: the verifier unfolds the
      recursive `ManhattanPrefix` only a bounded number of times on its
      own, so each step is asserted. */
  lemma ManhattanOf(c: Layout, t: seq<int>)
    requires |t| == 9 && forall p :: 0 <= p < 9 ==> 0 <= c[p] < 9
    requires forall p :: 0 <= p < 9 ==>
               t[p] == if c[p] == 0 then 0 else Abs(p / 3 - c[p] / 3) + Abs(p % 3 - c[p] % 3)
    ensures Manhattan(c) == t[0] + t[1] + t[2] + t[3] + t[4] + t[5] + t[6] + t[7] + t[8]
  {
    TermValue(c, 0); TermValue(c, 1); TermValue(c, 2);
    TermValue(c, 3); TermValue(c, 4); TermValue(c, 5);
    TermValue(c, 6); TermValue(c, 7); TermValue(c, 8);
    assert Manhattan(c) == ManhattanPrefix(c, 9);
    assert ManhattanPrefix(c, 9) == ManhattanPrefix(c, 8) + ManhattanTerm(c, 8);
    assert ManhattanPrefix(c, 8) == ManhattanPrefix(c, 7) + ManhattanTerm(c, 7);
    assert ManhattanPrefix(c, 7) == ManhattanPrefix(c, 6) + ManhattanTerm(c, 6);
    assert ManhattanPrefix(c, 6) == ManhattanPrefix(c, 5) + ManhattanTerm(c, 5);
    assert ManhattanPrefix(c, 5) == ManhattanPrefix(c, 4) + ManhattanTerm(c, 4);
    assert ManhattanPrefix(c, 4) == ManhattanPrefix(c, 3) + ManhattanTerm(c, 3);
    assert ManhattanPrefix(c, 3) == ManhattanPrefix(c, 2) + ManhattanTerm(c, 2);
    assert ManhattanPrefix(c, 2) == ManhattanPrefix(c, 1) + ManhattanTerm(c, 1);
    assert ManhattanPrefix(c, 1) == ManhattanTerm(c, 0);
  }

  /** The Manhattan priorities of the states the test run meets: 1 + 3,
      1 + 1, 2 + 2 and 2 + 0. */
  lemma Down1Priority()
    ensures Priority('m')(Down1) == 4
  {
    ManhattanOf(Down1.cells, [1, 1, 1, 0, 0, 0, 0, 0, 0]);
  }

  lemma Left1Priority()
    ensures Priority('m')(Left1) == 2
  {
    ManhattanOf(Left1.cells, [1, 0, 0, 0, 0, 0, 0, 0, 0]);
  }

  lemma Down2Priority()
    ensures Priority('m')(Down2) == 4
  {
    ManhattanOf(Down2.cells, [1, 1, 0, 0, 0, 0, 0, 0, 0]);
  }

  lemma Goal2Priority()
    ensures Priority('m')(Goal2) == 2
  {
    GoalScoresZero();
  }

  /** The snapshots after the first and the second iteration from the test board `s0`. */
  function Step1(s0: Board): Snapshot
  {
    Snapshot(Left1, [Down1], [s0, Down1, Left1], 1, 2)
  }

  function Step2(s0: Board): Snapshot
  {
    Snapshot(Goal2, [Down1, Down2], [s0, Down1, Left1, Down2, Goal2], 2, 3)
  }

  /** A step takes the state of strictly least priority when there is one. */
  lemma StepTakes(p: Snapshot, q: Snapshot, heuristic: char, bfsDepth: int, j: int)
    requires Step(p, q, heuristic, bfsDepth)
    requires var r := Pushed(p, bfsDepth);
             0 <= j < |r.fringe| &&
             forall k :: 0 <= k < |r.fringe| && k != j ==> Priority(heuristic)(r.fringe[j]) < Priority(heuristic)(r.fringe[k])
    ensures var r := Pushed(p, bfsDepth);
            q == r.(current := r.fringe[j], fringe := Remove(r.fringe, j))
  {
    var r := Pushed(p, bfsDepth);
    var i :| IsMinimal(r.fringe, Priority(heuristic), i) && q == r.(current := r.fringe[i], fringe := Remove(r.fringe, i));
    assert i == j;
  }

  /** A step from a fringe `[x, y]` where `y` comes first takes `y`. */
  lemma TakesSecond(p: Snapshot, q: Snapshot, heuristic: char, bfsDepth: int, x: Board, y: Board)
    requires Step(p, q, heuristic, bfsDepth)
    requires Pushed(p, bfsDepth).fringe == [x, y]
    requires Priority(heuristic)(y) < Priority(heuristic)(x)
    ensures q == Pushed(p, bfsDepth).(current := y, fringe := [x])
  {
    StepTakes(p, q, heuristic, bfsDepth, 1);
    assert Remove([x, y], 1) == [x];
  }

  /** A step from a fringe `[x, y, z]` where `z` comes first takes `z`. */
  lemma TakesThird(p: Snapshot, q: Snapshot, heuristic: char, bfsDepth: int, x: Board, y: Board, z: Board)
    requires Step(p, q, heuristic, bfsDepth)
    requires Pushed(p, bfsDepth).fringe == [x, y, z]
    requires Priority(heuristic)(z) < Priority(heuristic)(x) && Priority(heuristic)(z) < Priority(heuristic)(y)
    ensures q == Pushed(p, bfsDepth).(current := z, fringe := [x, y])
  {
    StepTakes(p, q, heuristic, bfsDepth, 2);
    assert Remove([x, y, z], 2) == [x, y];
  }

  /** The first step from the test board takes `Left1`, the one state of least priority. */
  lemma FirstStep(s0: Board, q: Snapshot)
    requires s0 == CreateTest()
    requires Step(Start(s0), q, 'm', 1)
    ensures q == Step1(s0)
  {
    TestFirstPush(s0);
    Down1Priority();
    Left1Priority();
    TakesSecond(Start(s0), q, 'm', 1, Down1, Left1);
  }

  /** The second step takes the goal, the one state of least priority. */
  lemma SecondStep(s0: Board, q: Snapshot)
    requires s0 == CreateTest()
    requires Step(Step1(s0), q, 'm', 1)
    ensures q == Step2(s0)
  {
    TestSecondPush(s0);
    Down1Priority();
    Down2Priority();
    Goal2Priority();
    TakesThird(Step1(s0), q, 'm', 1, Down1, Down2, Goal2);
  }

  /** The search on the test board with the Manhattan priority and a
      look-ahead of one level: two iterations, three states at most on the
      fringe, two expansions, and the goal reached at depth 2. */
  lemma TestRun(run: seq<Snapshot>, result: Outcome)
    requires IsRun(CreateTest(), 'm', 1, run, result)
    ensures |run| == 3 && run[1] == Step1(CreateTest()) && run[2] == Step2(CreateTest())
    ensures result == Finished(3, 2, Goal2)
  {
    var s0 := CreateTest();
    TestFirstPush(s0);
    TestSecondPush(s0);
    assert !GoalTest(s0) && !GoalTest(Left1) && GoalTest(Goal2);
    assert |run| >= 2;
    StepAt(run, 0, 'm', 1);
    FirstStep(s0, run[1]);
    assert |run| >= 3;
    StepAt(run, 1, 'm', 1);
    SecondStep(s0, run[2]);
    if |run| > 3 {
      StepAt(run, 2, 'm', 1);
      assert false;
    }
  }
}
