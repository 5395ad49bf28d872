/** When the backtracking matcher finds a match. After a failed attempt the loop over the starts tests where
    the last path of the attempt stopped, not where the attempt started, and gives up when that was the end
    of the string. Where the last path stops is known beforehand: at each step it takes the choice that is
    explored last. */
module TreRetry {
  import opened TreAst
  import opened TrePositions
  import opened TreAutomaton
  import opened TreTnfa
  import opened TreParallel
  import opened TreLeftmost
  import opened TreBacktrack
  import opened TreOvertaken
  import opened TreEvaluate

  // ----- where the last path of an attempt stops -----

  /** The choice explored last: the first one is taken at once, the others are pushed, the last one on top. */
  function LastChoice<T>(xs: seq<T>): T
    requires xs != []
  {
    if |xs| == 1 then xs[0] else xs[1]
  }

  /** Where the transitions that read `c` lead, in order. */
  function Targets(steps: seq<Step>, c: nat): seq<nat>
    decreases |steps|
  {
    if steps == [] then []
    else
      var st := steps[|steps| - 1];
      Targets(steps[..|steps| - 1], c) + if Reads(st, c) then [st.target] else []
  }

  function NextStates(a: Automaton, q: nat, c: nat): seq<nat> { if q < |a.out| then Targets(a.out[q], c) else [] }

  /** Where the path that takes the last choice at every step stops: in the final state, at the end of the
      string, or behind the first byte that no transition reads. */
  function StuckAt(a: Automaton, s: Word, pos: nat, q: nat): (r: nat)
    requires pos <= |s|
    ensures pos <= r <= |s|
    decreases |s| - pos
  {
    if q == a.final || pos == |s| then pos
    else
      var next := NextStates(a, q, s[pos]);
      if next == [] then pos + 1 else StuckAt(a, s, pos + 1, LastChoice(next))
  }

  /** The same from the initial states on. */
  function LastStop(a: Automaton, s: Word, start: nat): (r: nat)
    requires start <= |s|
    ensures start <= r <= |s|
  {
    if a.initial == [] then start else StuckAt(a, s, start, LastChoice(a.initial).target)
  }

  lemma {:induction false} LeavingTargets(steps: seq<Step>, tags: seq<int>, c: nat, pos: nat)
    ensures var xs := Leaving(steps, tags, c, pos);
      |xs| == |Targets(steps, c)| && forall i | 0 <= i < |xs| :: xs[i].state == Targets(steps, c)[i]
    decreases |steps|
  {
    if steps != [] {
      LeavingTargets(steps[..|steps| - 1], tags, c, pos);
    }
  }

  lemma LastBranch(a: Automaton, s: Word, it: Item)
    requires it.pos < |s|
    ensures var bs, next := Branches(a, s, it), NextStates(a, it.state, s[it.pos]);
      |bs| == |next|
      && (bs != [] ==> bs[|bs| - 1].state == LastChoice(next) && bs[|bs| - 1].pos == it.pos + 1)
  {
    hide Leaving, Targets;
    if it.state < |a.out| {
      LeavingTargets(a.out[it.state], it.tags, s[it.pos], it.pos + 1);
    }
  }

  /** Where the last path of the stack stops. */
  function StackStop(a: Automaton, s: Word, stack: seq<Item>): nat
    requires stack != [] && stack[|stack| - 1].pos <= |s|
  {
    StuckAt(a, s, stack[|stack| - 1].pos, stack[|stack| - 1].state)
  }

  lemma StackStopStep(a: Automaton, s: Word, n: nat, stack: seq<Item>)
    requires stack != [] && Fine(s, n, stack) && Fine(s, n, NextStack(a, s, stack))
    ensures var next := NextStack(a, s, stack);
      StackStop(a, s, stack) == if next == [] then StopsAt(s, stack[0], a.final) else StackStop(a, s, next)
  {
    hide Branches, Targets;
    var it := stack[0];
    if it.state != a.final && it.pos < |s| {
      LastBranch(a, s, it);
    } else if it.pos >= |s| {
      NoBranches(a, s, it);
    }
  }

  lemma NoBranches(a: Automaton, s: Word, it: Item)
    requires it.pos >= |s|
    ensures Branches(a, s, it) == []
  {
  }

  lemma {:induction false} ExploreStops(a: Automaton, dirs: Directions, s: Word, wantTags: bool, stack: seq<Item>, o: Outcome, r: Outcome)
    requires Fine(s, |o.best.tags|, stack) && r == Explore(a, dirs, s, wantTags, stack, o)
    ensures r.last == if stack == [] then o.last else StackStop(a, s, stack)
    decreases Cost(MaxOut(a.out), |s|, stack)
  {
    hide NextStack, StackStop, Cost, MaxOut;
    if stack != [] {
      StackStep(a, s, |o.best.tags|, stack);
      var next, o1 := NextStack(a, s, stack), NextOutcome(a, dirs, s, wantTags, stack[0], o);
      ExploreStops(a, dirs, s, wantTags, next, o1, r);
      StackStopStep(a, s, |o.best.tags|, stack);
    }
  }

  /** An attempt ends where the path of the last choices does. */
  lemma AttemptStops(a: Automaton, dirs: Directions, s: Word, wantTags: bool, n: nat, start: nat)
    requires start <= |s|
    ensures Attempt(a, dirs, s, wantTags, n, start).last == LastStop(a, s, start)
  {
    hide Explore, StuckAt;
    var xs := StartEntries(a, start, n);
    ChoicesFine(s, xs, start, n);
    ExploreStops(a, dirs, s, wantTags, Choices(xs, start), Outcome(NoBest(n), start), Attempt(a, dirs, s, wantTags, n, start));
  }

  // ----- the starts that are reached -----

  /** The attempt at q fails, and the path of its last choices stops before the end of the string. */
  ghost predicate GoesOn(a: Automaton, s: Word, q: int) {
    0 <= q < |s| && (forall j :: !Accepted(a, s, q, j)) && LastStop(a, s, q) < |s|
  }

  /** The first start with a match, if the loop gets that far. */
  ghost predicate FoundAt(a: Automaton, s: Word, from: nat, p: int) {
    from <= p <= |s| && (exists j :: Accepted(a, s, p, j)) && forall q | from <= q < p :: GoesOn(a, s, q)
  }

  /** r is the match of the first start that is reached and has one. */
  ghost predicate FindsFrom(a: Automaton, s: Word, start: nat, r: Result) {
    && (r.Match? <==> exists p :: FoundAt(a, s, start, p))
    && forall p | FoundAt(a, s, start, p) :: r.Match? && Accepted(a, s, p, r.eo) && forall j | Accepted(a, s, p, j) :: j <= r.eo
  }

  lemma FoundHere(a: Automaton, s: Word, start: nat, eo: nat, tags: seq<int>)
    requires start <= |s| && Accepted(a, s, start, eo) && forall j | Accepted(a, s, start, j) :: j <= eo
    ensures FindsFrom(a, s, start, Match(eo, tags))
  {
    hide LastStop, Accepts;
    assert FoundAt(a, s, start, start);
    assert !GoesOn(a, s, start);
  }

  lemma StopsHere(a: Automaton, s: Word, start: nat)
    requires start <= |s| && !GoesOn(a, s, start) && forall j :: !Accepted(a, s, start, j)
    ensures FindsFrom(a, s, start, NoMatch)
  {
    hide GoesOn, Accepted;
    assert forall p :: !FoundAt(a, s, start, p);
  }

  lemma FoundLater(a: Automaton, s: Word, start: nat, next: nat, p: int)
    requires GoesOn(a, s, start) && next == start + 1
    ensures FoundAt(a, s, start, p) <==> FoundAt(a, s, next, p)
  {
    hide LastStop, Accepted;
  }

  lemma FindsLater(a: Automaton, s: Word, start: nat, next: nat, r: Result)
    requires GoesOn(a, s, start) && next == start + 1 && FindsFrom(a, s, next, r)
    ensures FindsFrom(a, s, start, r)
  {
    hide GoesOn, FoundAt, Accepted;
    forall p ensures FoundAt(a, s, start, p) <==> FoundAt(a, s, next, p) {
      FoundLater(a, s, start, next, p);
    }
  }

  /** The loop from `start` on finds the match of the first start that has one exactly when each start before
      it stops short of the end of the string. */
  lemma {:induction false} AttemptsFind(a: Automaton, dirs: Directions, s: Word, wantTags: bool, n: nat, start: nat)
    requires Closed(a) && a.out[a.final] == [] && start <= |s|
    ensures FindsFrom(a, s, start, Attempts(a, dirs, s, wantTags, n, start))
    decreases |s| - start
  {
    hide Attempt, Attempts, FindsFrom, LastStop, Accepts, Closed;
    var o := Attempt(a, dirs, s, wantTags, n, start);
    AttemptIsLongest(a, dirs, s, wantTags, n, start);
    AttemptStops(a, dirs, s, wantTags, n, start);
    AttemptsTurn(a, dirs, s, wantTags, n, start);
    if o.best.eo >= 0 {
      FoundHere(a, s, start, o.best.eo, o.best.tags);
    } else if o.last >= |s| || start == |s| {
      StopsHere(a, s, start);
    } else {
      AttemptsFind(a, dirs, s, wantTags, n, start + 1);
      FindsLater(a, s, start, start + 1, Attempts(a, dirs, s, wantTags, n, start + 1));
    }
  }

  // ----- when the match is the leftmost-longest one -----

  /** The leftmost start of a match. */
  ghost predicate StartsFirst(a: Automaton, s: Word, p: int) {
    0 <= p <= |s| && !NoneFrom(a, s, p) && forall q: nat | q < p :: NoneFrom(a, s, q)
  }

  /** No attempt before p has its last path end at the end of the string. */
  ghost predicate StopShort(a: Automaton, s: Word, p: int) {
    forall q: nat | q < p && q <= |s| :: LastStop(a, s, q) < |s|
  }

  /** The loop gets to the leftmost start of a match. */
  ghost predicate ReachesFirst(a: Automaton, s: Word) {
    forall p | StartsFirst(a, s, p) :: StopShort(a, s, p)
  }

  lemma FoundIsFirst(a: Automaton, s: Word, p: int)
    ensures FoundAt(a, s, 0, p) <==> StartsFirst(a, s, p) && StopShort(a, s, p)
  {
    hide LastStop, Accepted;
    if StartsFirst(a, s, p) && StopShort(a, s, p) {
      forall q | 0 <= q < p ensures GoesOn(a, s, q) {
        assert NoneFrom(a, s, q);
      }
    }
    if FoundAt(a, s, 0, p) {
      forall q: nat | q < p ensures NoneFrom(a, s, q) && LastStop(a, s, q) < |s| {
        assert GoesOn(a, s, q);
      }
    }
  }

  lemma FirstIsUnique(a: Automaton, s: Word, p: int, q: int)
    requires StartsFirst(a, s, p) && StartsFirst(a, s, q)
    ensures p == q
  {
    hide NoneFrom;
  }

  /** Tag 0 of the match is the start that was found. */
  lemma {:induction false} FoundStart(a: Automaton, dirs: Directions, s: Word, n: nat, start: nat)
    requires Closed(a) && a.out[a.final] == [] && TagZeroAtStart(a) && n > 0 && start <= |s|
    ensures var r := Attempts(a, dirs, s, true, n, start);
      r.Match? ==> |r.tags| == n && FoundAt(a, s, start, r.tags[0])
    decreases |s| - start
  {
    hide Attempt, Attempts, LastStop, Accepts, Closed, TagZeroAtStart;
    var o := Attempt(a, dirs, s, true, n, start);
    AttemptIsLongest(a, dirs, s, true, n, start);
    AttemptStops(a, dirs, s, true, n, start);
    AttemptStartsAtTag(a, dirs, s, n, start);
    AttemptsTurn(a, dirs, s, true, n, start);
    if o.best.eo < 0 && o.last < |s| && start < |s| {
      FoundStart(a, dirs, s, n, start + 1);
      var r := Attempts(a, dirs, s, true, n, start + 1);
      assert GoesOn(a, s, start);
      if r.Match? {
        FoundLater(a, s, start, start + 1, r.tags[0]);
      }
    }
  }

  lemma LeftmostIsFirst(a: Automaton, s: Word, r: Result, p: int)
    requires StartsFirst(a, s, p) && LeftmostLongest(a, s, 0, r)
    ensures r.Match? && BestFrom(r) == p
  {
    var j :| Accepted(a, s, p, j);
    if r.Match? {
      assert Accepted(a, s, BestFrom(r), r.eo);
      assert !NoneFrom(a, s, BestFrom(r));
    }
  }

  lemma FirstExists(a: Automaton, s: Word, i: int, j: int) returns (p: nat)
    requires Accepted(a, s, i, j)
    ensures StartsFirst(a, s, p)
  {
    var b, e := BestExists(a, s, 0, i, j);
    assert !NoneFrom(a, s, b);
    forall q: nat | q < b ensures NoneFrom(a, s, q) {
    }
    p := b;
  }

  lemma FirstIsLeftmost(a: Automaton, s: Word, r: Result, p: int)
    requires StartsFirst(a, s, p) && r.Match? && |r.tags| > 0 && r.tags[0] == p
    requires Accepted(a, s, p, r.eo) && forall j | Accepted(a, s, p, j) :: j <= r.eo
    ensures LeftmostLongest(a, s, 0, r)
  {
    forall i, j | 0 <= i && Accepted(a, s, i, j) ensures p < i || (p == i && j <= r.eo) {
      assert !NoneFrom(a, s, i);
    }
  }

  /** With tag 0 set on the initial transitions only: the backtracking matcher reports the leftmost-longest match
      exactly when no attempt before it ends at the end of the string. */
  lemma BacktrackExactly(a: Automaton, dirs: Directions, s: Word, n: nat)
    requires Closed(a) && a.out[a.final] == [] && TagZeroAtStart(a) && n > 0
    ensures LeftmostLongest(a, s, 0, RunBacktrack(a, dirs, s, true, n)) <==> ReachesFirst(a, s)
  {
    hide Attempts, StopShort, Accepted, StartsFirst, LeftmostLongest, FoundAt, Closed, TagZeroAtStart, NoneFrom;
    var r := RunBacktrack(a, dirs, s, true, n);
    AttemptsFind(a, dirs, s, true, n, 0);
    FoundStart(a, dirs, s, n, 0);
    if i: int, j: int :| Accepted(a, s, i, j) {
      var p := FirstExists(a, s, i, j);
      forall q: int ensures FoundAt(a, s, 0, q) <==> StartsFirst(a, s, q) && StopShort(a, s, q) {
        FoundIsFirst(a, s, q);
      }
      forall q: int | StartsFirst(a, s, q) ensures q == p {
        FirstIsUnique(a, s, p, q);
      }
      if ReachesFirst(a, s) {
        assert FoundAt(a, s, 0, p);
        FirstIsLeftmost(a, s, r, p);
      }
      if LeftmostLongest(a, s, 0, r) {
        LeftmostIsFirst(a, s, r, p);
        FoundIsFirst(a, s, r.tags[0]);
      }
    } else {
      NothingFirst(a, s, r);
    }
  }

  lemma NothingFirst(a: Automaton, s: Word, r: Result)
    requires (forall i, j :: !Accepted(a, s, i, j)) && FindsFrom(a, s, 0, r)
    ensures LeftmostLongest(a, s, 0, r) && ReachesFirst(a, s)
  {
    hide LastStop, GoesOn;
    assert forall p :: !FoundAt(a, s, 0, p);
    assert forall p :: !StartsFirst(a, s, p);
  }

  /** The same span, or no match in either. */
  predicate SameSpan(r1: Result, r2: Result) {
    r1.Match? == r2.Match? && (r1.Match? ==> BestFrom(r1) == BestFrom(r2) && r1.eo == r2.eo)
  }

  lemma LeftmostSpans(a: Automaton, s: Word, r1: Result, r2: Result)
    requires LeftmostLongest(a, s, 0, r2) && (r1.Match? ==> |r1.tags| > 0)
    ensures SameSpan(r1, r2) <==> LeftmostLongest(a, s, 0, r1)
  {
    hide Accepts;
  }

  /** With one tag the two matchers report the same span exactly when no attempt before the leftmost match ends
      at the end of the string. */
  lemma MatchersAgree(a: Automaton, tnfa: Tnfa, dirs: Directions, s: Word)
    requires Closed(a) && a.out[a.final] == [] && TagZeroAtStart(a) && DirectionOf(dirs, 0) == Minimize
    requires FirstCharSound(tnfa, a) && IsBytes(s)
    ensures SameSpan(RunBacktrack(a, dirs, s, true, 1), RunParallel(a, dirs, tnfa.firstChar, s, 1)) <==> ReachesFirst(a, s)
  {
    hide RunBacktrack, RunParallel, LeftmostLongest, ReachesFirst, SameSpan, Closed, TagZeroAtStart, FirstCharSound, FoundAt, Attempts;
    BacktrackExactly(a, dirs, s, 1);
    OneTagIsLeftmostLongest(a, tnfa, dirs, s);
    RunTags(a, dirs, s);
    LeftmostSpans(a, s, RunBacktrack(a, dirs, s, true, 1), RunParallel(a, dirs, tnfa.firstChar, s, 1));
  }

  lemma RunTags(a: Automaton, dirs: Directions, s: Word)
    requires Closed(a) && a.out[a.final] == [] && TagZeroAtStart(a)
    ensures var r := RunBacktrack(a, dirs, s, true, 1); r.Match? ==> |r.tags| > 0
  {
    hide Attempts, Closed, FoundAt;
    FoundStart(a, dirs, s, 1, 0);
  }

  /** A match that starts at offset 0 is always found, and is the leftmost-longest one. */
  lemma MatchAtZeroIsLeftmostLongest(a: Automaton, dirs: Directions, s: Word, n: nat, j: int)
    requires Closed(a) && a.out[a.final] == [] && TagZeroAtStart(a) && n > 0 && Accepted(a, s, 0, j)
    ensures ReachesFirst(a, s) && LeftmostLongest(a, s, 0, RunBacktrack(a, dirs, s, true, n))
  {
    hide Attempts, LastStop, Closed, TagZeroAtStart, LeftmostLongest, Accepts;
    assert !NoneFrom(a, s, 0);
    forall p | StartsFirst(a, s, p) ensures StopShort(a, s, p) {
      assert p == 0;
    }
    BacktrackExactly(a, dirs, s, n);
  }

  // ----- where it fails -----

  const A: nat := 'a' as nat
  const B: nat := 'b' as nat

  /** The pattern b|aa. */
  function BOrAA(): Ast { Union(Literal(B, B), Catenation(Literal(A, A), Literal(A, A))) }

  function BOrAAAutomaton(): Automaton {
    Automaton([Start(0, []), Start(1, [])],
              [[Step(B, B, 3, [])], [Step(A, A, 2, [])], [Step(A, A, 3, [])], []], 3)
  }

  lemma BOrAAPositions()
    ensures var tree := WithFinal(BOrAA());
      && Npfl(tree, 0).firstpos == [P(0, B, []), P(1, A, [])] && NumPos(BOrAA()) == 3 && NumPos(tree) == 4
      && Edges(tree, 0) == [(P(0, B, []), P(3, 0, [])), (P(2, A, []), P(3, 0, [])), (P(1, A, []), P(2, A, []))]
  {
    hide Npfl, Edges, NumPos, EmptyTags, Cross;
    var b, aa := Literal(B, B), Catenation(Literal(A, A), Literal(A, A));
    AtLeaf(B, 0, 0);
    AtLeaf(A, 0, 1);
    AtLeaf(A, 0, 2);
    AtLeaf(0, 0, 3);
    AtCatenation(Literal(A, A), Literal(A, A), 1, 1);
    CrossOne(P(1, A, []), P(2, A, []));
    AtUnion(b, aa, 0, 1);
    assert [P(0, B, [])] + [P(1, A, [])] == [P(0, B, []), P(1, A, [])];
    assert [P(0, B, [])] + [P(2, A, [])] == [P(0, B, []), P(2, A, [])];
    AtCatenation(BOrAA(), Literal(0, 0), 0, 3);
    CrossOne(P(2, A, []), P(3, 0, []));
    CrossMore(P(0, B, []), [P(2, A, [])], P(3, 0, []));
  }

  /** tre_compile makes this automaton of the pattern. */
  lemma BOrAACompiled()
    ensures AutomatonOf(BOrAA()) == BOrAAAutomaton()
  {
    hide Npfl, Edges, NumPos, AddSteps, EdgeStep, BOrAA;
    var e := [(P(0, B, []), P(3, 0, [])), (P(2, A, []), P(3, 0, [])), (P(1, A, []), P(2, A, []))];
    var out0 := NoSteps(4);
    var out1 := out0[0 := [Step(B, B, 3, [])]];
    var out2 := out1[2 := [Step(A, A, 3, [])]];
    var out3 := out2[1 := [Step(A, A, 2, [])]];
    BOrAAPositions();
    PlainStep(P(0, B, []), P(3, 0, []));
    PlainStep(P(2, A, []), P(3, 0, []));
    PlainStep(P(1, A, []), P(2, A, []));
    Adds(out0, e[0], e[1..], 0, out1[0]);
    Adds(out1, e[1], e[2..], 2, out2[2]);
    Adds(out2, e[2], [], 1, out3[1]);
    NothingToAdd(out3);
    assert e == [e[0]] + e[1..] && e[1..] == [e[1]] + e[2..] && e[2..] == [e[2]] + [];
    assert out3 == BOrAAAutomaton().out;
  }

  lemma OneStep(st: Step, c: nat, pos: nat)
    requires st.tags == []
    ensures Leaving([st], [], c, pos) == if Reads(st, c) then [Entry(st.target, [])] else []
  {
    assert [st][..0] == [];
    assert Leaving([st], [], c, pos) == Leaving([], [], c, pos) + (if Reads(st, c) then [Entry(st.target, [])] else []);
  }

  /** The path through state q with its single transition. */
  lemma OneBranch(a: Automaton, s: Word, q: nat, p: nat, c: nat, target: nat)
    requires q < |a.out| && a.out[q] == [Step(c, c, target, [])] && p < |s|
    ensures Branches(a, s, Item(p, q, [])) == if s[p] == c then [Item(p + 1, target, [])] else []
  {
    OneStep(Step(c, c, target, []), s[p], p + 1);
  }

  lemma SecondIsAccepted()
    ensures Accepted(BOrAAAutomaton(), [A, B], 1, 2)
  {
    var a, s := BOrAAAutomaton(), [A, B];
    assert s[1..2] == [B] && Front([B]) == [] && Last([B]) == B;
    assert a.initial[0] == Start(0, []) && a.out[0][0] == Step(B, B, 3, []);
    assert IsInitial(a, 0) && HasStep(a, 0, B, 3);
    assert Reached(a, Front([B]), 0);
  }

  lemma FirstChoices()
    ensures Choices(StartEntries(BOrAAAutomaton(), 0, 0), 0) == [Item(0, 0, []), Item(0, 1, [])]
  {
    var starts := StartEntries(BOrAAAutomaton(), 0, 0);
    assert Unset(0) == [] && starts == [Entry(0, []), Entry(1, [])];
  }

  /** The first attempt stops behind the last byte. */
  lemma FirstAttempt(dirs: Directions)
    ensures Attempt(BOrAAAutomaton(), dirs, [A, B], false, 0, 0) == Outcome(NoBest(0), 2)
  {
    hide Branches, Choices, StartEntries, Unset, Cost, MaxOut;
    var a, s := BOrAAAutomaton(), [A, B];
    var o0, o1, o2 := Outcome(NoBest(0), 0), Outcome(NoBest(0), 1), Outcome(NoBest(0), 2);
    var i0, i1, i2 := Item(0, 0, []), Item(0, 1, []), Item(1, 2, []);
    FirstChoices();
    OneBranch(a, s, 0, 0, B, 3);
    OneBranch(a, s, 1, 0, A, 2);
    OneBranch(a, s, 2, 1, A, 3);
    assert NextStack(a, s, [i0, i1]) == [i1] && NextStack(a, s, [i1]) == [i2] && NextStack(a, s, [i2]) == [];
    ThreeSteps(a, dirs, s, [i0, i1], o0, [i1], o1, [i2], o1, [], o2);
  }

  lemma ThreeSteps(a: Automaton, dirs: Directions, s: Word, x0: seq<Item>, o0: Outcome, x1: seq<Item>, o1: Outcome,
                   x2: seq<Item>, o2: Outcome, x3: seq<Item>, o3: Outcome)
    requires x0 != [] && x1 != [] && x2 != [] && Fine(s, |o0.best.tags|, x0)
    requires x1 == NextStack(a, s, x0) && o1 == NextOutcome(a, dirs, s, false, x0[0], o0)
    requires |x1[0].tags| == |o1.best.tags| && x2 == NextStack(a, s, x1) && o2 == NextOutcome(a, dirs, s, false, x1[0], o1)
    requires |x2[0].tags| == |o2.best.tags| && x3 == NextStack(a, s, x2) && o3 == NextOutcome(a, dirs, s, false, x2[0], o2)
    ensures Fine(s, |o3.best.tags|, x3) && Explore(a, dirs, s, false, x0, o0) == Explore(a, dirs, s, false, x3, o3)
  {
    StepTo(a, dirs, s, false, x0, o0, x1, o1);
    StepTo(a, dirs, s, false, x1, o1, x2, o2);
    StepTo(a, dirs, s, false, x2, o2, x3, o3);
  }

  /** The pattern b|aa without tags, on "ab": the first attempt reads to the end of the string, so the match of
      "b" at offset 1 is not tried. */
  lemma RetryStopsEarly(dirs: Directions)
    ensures var a := AutomatonOf(BOrAA());
      Accepted(a, [A, B], 1, 2) && LastStop(a, [A, B], 0) == 2 && RunBacktrack(a, dirs, [A, B], false, 0) == NoMatch
  {
    hide Attempt, LastStop, Accepted;
    BOrAACompiled();
    SecondIsAccepted();
    FirstAttempt(dirs);
    AttemptStops(BOrAAAutomaton(), dirs, [A, B], false, 0, 0);
  }
}
