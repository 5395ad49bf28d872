/** Leftmost-longest for any number of tags, with the exact condition: the parallel matcher reports the
    leftmost-longest match unless, behind its end, an arrival in the final state wins over the first one
    of that step. Such an arrival overwrites the match without a look at its start
    (tre-match-parallel.c, lines 459-479). */
module TreOvertaken {
  import opened TreAst
  import opened TreAutomaton
  import opened TreTnfa
  import opened TreParallel
  import opened TreLeftmost

  /** Of the arrivals of one step, one in the final state wins over the first one there. */
  ghost predicate Overtaken(final: nat, dirs: Directions, xs: seq<Entry>) {
    Present(xs, final) && exists k :: 0 <= k < |xs| && xs[k].state == final && Beats(dirs, xs[k], xs[Find(xs, final)])
  }

  predicate Beats(dirs: Directions, x: Entry, y: Entry) { |x.tags| == |y.tags| && Wins(dirs, x.tags, y.tags, 0) }

  /** The list with the initial states of this position, if they are added. */
  function Top(a: Automaton, sim: Sim, pos: nat, n: nat): (r: Sim)
    requires SimTagged(sim, n)
    ensures SimTagged(r, n)
  {
    if sim.best.NoMatch? then AddInitial(a, sim, pos, n) else sim
  }

  /** The list from which the run that stands at `pos` reads byte `at`. */
  function SimAt(a: Automaton, dirs: Directions, s: Word, pos: nat, sim: Sim, n: nat, at: nat): (r: Sim)
    requires pos <= at < |s| && SimTagged(sim, n)
    ensures SimTagged(r, n)
    decreases at - pos
  {
    var top := Top(a, sim, pos, n);
    if at == pos then top else SimAt(a, dirs, s, pos + 1, Advance(a, dirs, top, s[pos], pos + 1, n), n, at)
  }

  ghost predicate OvertakenAt(a: Automaton, dirs: Directions, s: Word, pos: nat, sim: Sim, n: nat, at: nat)
    requires pos <= at < |s| && SimTagged(sim, n)
  {
    Overtaken(a.final, dirs, Arrivals(a, SimAt(a, dirs, s, pos, sim, n, at).next, s[at], at + 1, n))
  }

  /** From offset e on no step has such an arrival. */
  ghost predicate Undisturbed(a: Automaton, dirs: Directions, s: Word, pos: nat, sim: Sim, n: nat, e: nat)
    requires SimTagged(sim, n)
  {
    forall at: nat | pos <= at < |s| && e <= at :: !OvertakenAt(a, dirs, s, pos, sim, n, at)
  }

  /** The leftmost accepted stretch, and the longest with that start. */
  ghost predicate IsBest(a: Automaton, s: Word, lo: nat, b: int, e: int) {
    && lo <= b && Accepted(a, s, b, e)
    && forall i, j | lo <= i && Accepted(a, s, i, j) :: b < i || (b == i && j <= e)
  }

  // ----- one step -----

  /** Tag 0 is compared first. */
  lemma WinsByStart(dirs: Directions, t1: seq<int>, t2: seq<int>)
    requires DirectionOf(dirs, 0) == Minimize && |t1| == |t2| > 0
    ensures t1[0] < t2[0] ==> Wins(dirs, t1, t2, 0)
    ensures Wins(dirs, t1, t2, 0) ==> t1[0] <= t2[0]
  {
  }

  /** No entry of the list starts later than an arrival in its state. */
  ghost predicate Least(next: seq<Entry>, xs: seq<Entry>) {
    forall x | x in xs :: Present(next, x.state) && StartOf(next, x.state) <= From(x)
  }

  lemma VisitLeast(final: nat, dirs: Directions, sim: Sim, front: seq<Entry>, x: Entry, pos: nat, n: nat)
    requires n > 0 && DirectionOf(dirs, 0) == Minimize && SimTagged(sim, n) && |x.tags| == n && Least(sim.next, front)
    ensures Least(Visit(final, dirs, sim, x, pos).next, front + [x])
  {
    var r := Visit(final, dirs, sim, x, pos).next;
    var i := Find(sim.next, x.state);
    if i < |sim.next| {
      assert sim.next[i] in sim.next;
      WinsByStart(dirs, x.tags, sim.next[i].tags);
    }
    forall y | y in front + [x] ensures Present(r, y.state) && StartOf(r, y.state) <= From(y) {
      if i == |sim.next| {
        PresentSnoc(sim.next, x, y.state);
      } else if r != sim.next {
        FindReplaced(sim.next, i, x, y.state);
      }
    }
  }

  lemma {:induction false} VisitAllLeast(final: nat, dirs: Directions, best: Result, xs: seq<Entry>, pos: nat, n: nat)
    requires n > 0 && DirectionOf(dirs, 0) == Minimize && SimTagged(Sim([], best), n) && forall x | x in xs :: |x.tags| == n
    ensures Least(VisitAll(final, dirs, Sim([], best), xs, pos, n).next, xs)
    decreases |xs|
  {
    if xs != [] {
      var front, x := xs[..|xs| - 1], xs[|xs| - 1];
      VisitAllLeast(final, dirs, best, front, pos, n);
      assert front + [x] == xs;
      VisitLeast(final, dirs, VisitAll(final, dirs, Sim([], best), front, pos, n), front, x, pos, n);
    }
  }

  /** What a step does to the match: as long as the first arrival in the final state keeps it, the match
      changes only for a start that is as far left; when it does not, the match is overwritten. */
  ghost predicate MatchAfter(final: nat, dirs: Directions, best0: Result, xs: seq<Entry>, r: Sim, pos: nat) {
    && (Present(r.next, final) <==> Present(xs, final))
    && if !Present(xs, final) then r.best == best0
       else if Overtaken(final, dirs, xs) then r.best == Match(pos, r.next[Find(r.next, final)].tags)
       else
         var first := xs[Find(xs, final)];
         && r.next[Find(r.next, final)].tags == first.tags
         && r.best == if best0.NoMatch? || From(first) <= BestFrom(best0) then Match(pos, first.tags) else best0
  }

  lemma OvertakenSnoc(final: nat, dirs: Directions, front: seq<Entry>, x: Entry)
    ensures Present(front, final) ==> Present(front + [x], final) && (front + [x])[Find(front + [x], final)] == front[Find(front, final)]
    ensures !Present(front, final) ==> (Present(front + [x], final) <==> x.state == final)
    ensures !Present(front, final) && x.state == final ==> (front + [x])[Find(front + [x], final)] == x
    ensures Present(front, final) ==>
      (Overtaken(final, dirs, front + [x]) <==>
        Overtaken(final, dirs, front) || (x.state == final && Beats(dirs, x, front[Find(front, final)])))
    ensures !Present(front, final) ==> !Overtaken(final, dirs, front + [x])
  {
    var all := front + [x];
    PresentSnoc(front, x, final);
    if Present(front, final) {
      assert all[Find(all, final)] == front[Find(front, final)];
      if k :| 0 <= k < |all| && all[k].state == final && Beats(dirs, all[k], all[Find(all, final)]) {
        if k < |front| {
          assert front[k] == all[k];
        }
      }
      if k :| 0 <= k < |front| && front[k].state == final && Beats(dirs, front[k], front[Find(front, final)]) {
        assert all[k] == front[k];
      }
      assert all[|front|] == x;
    } else {
      PresentIff(front, final);
      forall k | 0 <= k < |front| ensures all[k].state != final {
        assert front[k] in front;
      }
      NoWinOverSelf(dirs, x.tags, 0);
    }
  }

  lemma VisitMatch(final: nat, dirs: Directions, best0: Result, front: seq<Entry>, sim: Sim, x: Entry, pos: nat, n: nat)
    requires n > 0 && SimTagged(sim, n) && |x.tags| == n && (best0.Match? ==> |best0.tags| == n)
    requires (forall y | y in front :: |y.tags| == n) && MatchAfter(final, dirs, best0, front, sim, pos)
    ensures MatchAfter(final, dirs, best0, front + [x], Visit(final, dirs, sim, x, pos), pos)
  {
    OvertakenSnoc(final, dirs, front, x);
    hide Overtaken;
    var i := Find(sim.next, x.state);
    if i == |sim.next| {
      PresentSnoc(sim.next, x, final);
    } else {
      assert sim.next[i] in sim.next;
      if Wins(dirs, x.tags, sim.next[i].tags, 0) {
        FindReplaced(sim.next, i, x, final);
      }
    }
    if Present(front, final) {
      assert front[Find(front, final)] in front;
    }
  }

  lemma {:induction false} VisitAllMatch(final: nat, dirs: Directions, best: Result, xs: seq<Entry>, pos: nat, n: nat)
    requires n > 0 && SimTagged(Sim([], best), n) && forall x | x in xs :: |x.tags| == n
    ensures MatchAfter(final, dirs, best, xs, VisitAll(final, dirs, Sim([], best), xs, pos, n), pos)
    decreases |xs|
  {
    if xs != [] {
      var front, x := xs[..|xs| - 1], xs[|xs| - 1];
      VisitAllMatch(final, dirs, best, front, pos, n);
      assert front + [x] == xs;
      VisitMatch(final, dirs, best, front, VisitAll(final, dirs, Sim([], best), front, pos, n), x, pos, n);
    }
  }

  // ----- the invariant -----

  /** Each state that a thread is in is in the list, with the least start of its threads. */
  ghost predicate LeastInv(a: Automaton, s: Word, lo: nat, lim: int, pos: nat, sim: Sim) {
    && TagInv(a, s, lo, lim, pos, sim)
    && Tracks(a, s, lo, lim, pos, sim.next)
    && LeastStart(a, s, lo, lim, pos, sim.next)
    && (sim.best.Match? ==> BestFrom(sim.best) <= lim)
  }

  lemma StepLeast(a: Automaton, dirs: Directions, s: Word, lo: nat, lim: int, pos: nat, sim: Sim, n: nat)
    requires n > 0 && TagZeroAtStart(a) && DirectionOf(dirs, 0) == Minimize
    requires SimTagged(sim, n) && LeastInv(a, s, lo, lim, pos, sim) && pos < |s|
    ensures LeastInv(a, s, lo, lim, pos + 1, Advance(a, dirs, sim, s[pos], pos + 1, n))
    ensures MatchAfter(a.final, dirs, sim.best, Arrivals(a, sim.next, s[pos], pos + 1, n),
                       Advance(a, dirs, sim, s[pos], pos + 1, n), pos + 1)
  {
    hide MatchAfter;
    var xs := Arrivals(a, sim.next, s[pos], pos + 1, n);
    var r := Advance(a, dirs, sim, s[pos], pos + 1, n);
    AdvanceTagInv(a, dirs, s, lo, lim, pos, sim, n);
    AdvanceTracks(a, dirs, s, lo, lim, pos, sim, n);
    VisitAllLeast(a.final, dirs, sim.best, xs, pos + 1, n);
    AdvanceLeast(a, s, lo, lim, pos, sim.next, n, r.next);
    VisitAllMatch(a.final, dirs, sim.best, xs, pos + 1, n);
    VisitAllBest(a.final, dirs, sim.best, xs, pos + 1, n);
    if Present(r.next, a.final) {
      assert TagSound(a, s, lo, lim, pos + 1, r.next[Find(r.next, a.final)]);
    }
  }

  lemma TopLeast(a: Automaton, s: Word, lo: nat, pos: nat, sim: Sim, n: nat)
    requires n > 0 && TagZeroAtStart(a) && pos <= |s|
    requires SimTagged(sim, n) && LeastInv(a, s, lo, pos - 1, pos, sim) && sim.best.NoMatch?
    ensures LeastInv(a, s, lo, pos, pos, AddInitial(a, sim, pos, n))
    ensures var r := AddInitial(a, sim, pos, n);
      r.best == if Present(r.next, a.final) && !Present(sim.next, a.final)
                then Match(pos, r.next[Find(r.next, a.final)].tags) else NoMatch
  {
    var r := AddInitial(a, sim, pos, n);
    var xs := StartEntries(a, pos, n);
    AddInitialTagInv(a, s, lo, pos, sim, n);
    AddInitialTracks(a, s, lo, pos, sim, n);
    VisitStartsStarted(a.final, sim, xs, pos, n);
    forall k | |sim.next| <= k < |r.next| ensures From(r.next[k]) == pos {
      var i :| 0 <= i < |xs| && xs[i] == r.next[k];
      SetTagsZero(Unset(n), a.initial[i].tags, pos);
    }
    StartsLeast(a, s, lo, pos, sim, r);
    if r.best.Match? {
      assert TagSound(a, s, lo, pos, pos, r.next[Find(r.next, a.final)]);
    }
  }

  // ----- behind the end of the best stretch -----

  lemma UndisturbedStep(a: Automaton, dirs: Directions, s: Word, pos: nat, sim: Sim, n: nat, e: nat)
    requires pos < |s| && SimTagged(sim, n)
    ensures Undisturbed(a, dirs, s, pos, sim, n, e) <==>
      && (e <= pos ==> !Overtaken(a.final, dirs, Arrivals(a, Top(a, sim, pos, n).next, s[pos], pos + 1, n)))
      && Undisturbed(a, dirs, s, pos + 1, Advance(a, dirs, Top(a, sim, pos, n), s[pos], pos + 1, n), n, e)
  {
    hide Overtaken, Top, Advance, OvertakenAt;
    var next := Advance(a, dirs, Top(a, sim, pos, n), s[pos], pos + 1, n);
    OvertakenHere(a, dirs, s, pos, sim, n);
    forall at: nat | pos + 1 <= at < |s|
      ensures OvertakenAt(a, dirs, s, pos, sim, n, at) <==> OvertakenAt(a, dirs, s, pos + 1, next, n, at)
    {
      OvertakenThere(a, dirs, s, pos, sim, n, at);
    }
    if Undisturbed(a, dirs, s, pos, sim, n, e) {
      var after := pos + 1;
      forall at: nat | after <= at < |s| && e <= at ensures !OvertakenAt(a, dirs, s, after, next, n, at) {
        assert !OvertakenAt(a, dirs, s, pos, sim, n, at);
      }
    }
    if Undisturbed(a, dirs, s, pos + 1, next, n, e) && (e <= pos ==> !OvertakenAt(a, dirs, s, pos, sim, n, pos)) {
      forall at: nat | pos <= at < |s| && e <= at ensures !OvertakenAt(a, dirs, s, pos, sim, n, at) {
      }
    }
  }

  lemma OvertakenHere(a: Automaton, dirs: Directions, s: Word, pos: nat, sim: Sim, n: nat)
    requires pos < |s| && SimTagged(sim, n)
    ensures OvertakenAt(a, dirs, s, pos, sim, n, pos)
       <==> Overtaken(a.final, dirs, Arrivals(a, Top(a, sim, pos, n).next, s[pos], pos + 1, n))
  {
    assert SimAt(a, dirs, s, pos, sim, n, pos) == Top(a, sim, pos, n);
  }

  lemma OvertakenThere(a: Automaton, dirs: Directions, s: Word, pos: nat, sim: Sim, n: nat, at: nat)
    requires pos < at < |s| && SimTagged(sim, n)
    ensures OvertakenAt(a, dirs, s, pos, sim, n, at)
       <==> OvertakenAt(a, dirs, s, pos + 1, Advance(a, dirs, Top(a, sim, pos, n), s[pos], pos + 1, n), n, at)
  {
    assert SimAt(a, dirs, s, pos, sim, n, at)
        == SimAt(a, dirs, s, pos + 1, Advance(a, dirs, Top(a, sim, pos, n), s[pos], pos + 1, n), n, at);
  }

  lemma {:induction false} EmptyUndisturbed(a: Automaton, dirs: Directions, s: Word, pos: nat, sim: Sim, n: nat, e: nat)
    requires SimTagged(sim, n) && sim.best.Match? && sim.next == []
    ensures Undisturbed(a, dirs, s, pos, sim, n, e)
    decreases |s| - pos
  {
    hide Undisturbed, Overtaken;
    if pos < |s| {
      UndisturbedStep(a, dirs, s, pos, sim, n, e);
      NothingArrives(a, dirs, s[pos], pos + 1, n);
      EmptyUndisturbed(a, dirs, s, pos + 1, Advance(a, dirs, sim, s[pos], pos + 1, n), n, e);
    } else {
      NothingLeft(a, dirs, s, pos, sim, n, e);
    }
  }

  lemma NothingArrives(a: Automaton, dirs: Directions, c: nat, pos: nat, n: nat)
    ensures !Overtaken(a.final, dirs, Arrivals(a, [], c, pos, n))
  {
  }

  /** Whoever arrives in the final state behind e has started behind b. */
  lemma StartsLater(a: Automaton, s: Word, lo: nat, lim: int, pos: nat, b: int, e: nat, x: Entry)
    requires IsBest(a, s, lo, b, e) && e <= pos < |s| && TagSound(a, s, lo, lim, pos + 1, x) && x.state == a.final
    ensures From(x) > b
  {
    assert Accepted(a, s, x.tags[0], pos + 1);
  }

  /** One step behind e: the match stays, or its start is behind b. */
  lemma StepBehind(a: Automaton, dirs: Directions, s: Word, lo: nat, lim: int, pos: nat, sim: Sim, n: nat, b: int, e: nat)
    requires n > 0 && TagZeroAtStart(a) && DirectionOf(dirs, 0) == Minimize
    requires SimTagged(sim, n) && LeastInv(a, s, lo, lim, pos, sim) && e <= pos < |s|
    requires sim.best.Match? && IsBest(a, s, lo, b, e) && BestFrom(sim.best) >= b
    ensures var xs := Arrivals(a, sim.next, s[pos], pos + 1, n);
      var r := Advance(a, dirs, sim, s[pos], pos + 1, n);
      && LeastInv(a, s, lo, lim, pos + 1, r) && r.best.Match?
      && if Overtaken(a.final, dirs, xs) then BestFrom(r.best) > b else r.best == sim.best || BestFrom(r.best) > b
    ensures BestFrom(sim.best) == b && !Overtaken(a.final, dirs, Arrivals(a, sim.next, s[pos], pos + 1, n)) ==>
      Advance(a, dirs, sim, s[pos], pos + 1, n).best == sim.best
  {
    var xs := Arrivals(a, sim.next, s[pos], pos + 1, n);
    var r := Advance(a, dirs, sim, s[pos], pos + 1, n);
    StepLeast(a, dirs, s, lo, lim, pos, sim, n);
    if Present(xs, a.final) {
      var first, g := xs[Find(xs, a.final)], r.next[Find(r.next, a.final)];
      assert first in xs && g in r.next;
      SourceOfArrival(a, s, lo, lim, pos, sim.next, n, first);
      StartsLater(a, s, lo, lim, pos, b, e, first);
      StartsLater(a, s, lo, lim, pos, b, e, g);
    }
  }

  /** The rest of the run, once the best stretch has been found. */
  lemma {:induction false} Behind(a: Automaton, dirs: Directions, s: Word, lo: nat, lim: int, pos: nat, sim: Sim, n: nat,
                                  b: int, e: nat, r: Result)
    requires n > 0 && TagZeroAtStart(a) && DirectionOf(dirs, 0) == Minimize
    requires SimTagged(sim, n) && LeastInv(a, s, lo, lim, pos, sim) && e <= pos <= |s|
    requires sim.best.Match? && IsBest(a, s, lo, b, e) && BestFrom(sim.best) >= b
    requires r == RunFrom(a, dirs, s, pos, sim, n)
    ensures r.Match?
    ensures BestFrom(sim.best) == b && Undisturbed(a, dirs, s, pos, sim, n, e) ==> r == sim.best
    ensures !(BestFrom(sim.best) == b && Undisturbed(a, dirs, s, pos, sim, n, e)) ==> BestFrom(r) > b
    decreases |s| - pos
  {
    hide RunFrom, LeastInv, IsBest, Undisturbed, Overtaken, Advance, BestFrom, Arrivals;
    RunFromTurn(a, dirs, s, pos, sim, n);
    if sim.next == [] {
      EmptyUndisturbed(a, dirs, s, pos, sim, n, e);
    } else if pos == |s| {
      NothingLeft(a, dirs, s, pos, sim, n, e);
    } else {
      UndisturbedStep(a, dirs, s, pos, sim, n, e);
      StepBehind(a, dirs, s, lo, lim, pos, sim, n, b, e);
      Behind(a, dirs, s, lo, lim, pos + 1, Advance(a, dirs, sim, s[pos], pos + 1, n), n, b, e, r);
    }
  }

  lemma NothingLeft(a: Automaton, dirs: Directions, s: Word, pos: nat, sim: Sim, n: nat, e: nat)
    requires pos >= |s| && SimTagged(sim, n)
    ensures Undisturbed(a, dirs, s, pos, sim, n, e)
  {
  }

  // ----- up to the end of the best stretch -----

  /** A match reports the best stretch exactly when it has its start and its end. */
  lemma OnlyBest(a: Automaton, s: Word, lo: nat, b: int, e: int, r: Result)
    requires IsBest(a, s, lo, b, e) && r.Match?
    ensures BestFrom(r) == b && r.eo == e && |r.tags| > 0 ==> LeftmostLongest(a, s, lo, r)
    ensures BestFrom(r) > b ==> !LeftmostLongest(a, s, lo, r)
  {
  }

  /** At e the entry of the final state carries the start b. */
  lemma BestIsThere(a: Automaton, s: Word, lo: nat, lim: int, sim: Sim, b: int, e: nat)
    requires IsBest(a, s, lo, b, e) && LeastInv(a, s, lo, lim, e, sim) && b <= lim
    ensures Present(sim.next, a.final) && StartOf(sim.next, a.final) == b && |sim.next[Find(sim.next, a.final)].tags| > 0
  {
    FinalIsLeast(a, s, lo, lim, e, sim.next, b);
    var g := sim.next[Find(sim.next, a.final)];
    assert g in sim.next && TagSound(a, s, lo, lim, e, g);
    assert Accepted(a, s, g.tags[0], e);
  }

  /** Before e, once a start at b has been tried, some thread is left. */
  lemma StillAlive(a: Automaton, s: Word, lo: nat, lim: int, pos: nat, sim: Sim, b: int, e: nat)
    requires IsBest(a, s, lo, b, e) && LeastInv(a, s, lo, lim, pos, sim) && b <= lim && pos < e
    ensures sim.next != []
  {
    if sim.next == [] {
      NoThreadNoMatch(a, s, lo, lim, pos, b, e);
      assert false;
    }
  }

  /** The step to e finds the best stretch. */
  lemma StepToBest(a: Automaton, dirs: Directions, s: Word, lo: nat, lim: int, pos: nat, sim: Sim, n: nat, b: int, e: nat)
    requires n > 0 && TagZeroAtStart(a) && DirectionOf(dirs, 0) == Minimize
    requires SimTagged(sim, n) && LeastInv(a, s, lo, lim, pos, sim) && pos < |s| && e == pos + 1
    requires IsBest(a, s, lo, b, e) && b <= lim
    ensures var r := Advance(a, dirs, sim, s[pos], pos + 1, n);
      LeastInv(a, s, lo, lim, e, r) && r.best.Match? && r.best.eo == e && BestFrom(r.best) == b && |r.best.tags| > 0
  {
    var xs := Arrivals(a, sim.next, s[pos], pos + 1, n);
    var r := Advance(a, dirs, sim, s[pos], pos + 1, n);
    StepLeast(a, dirs, s, lo, lim, pos, sim, n);
    BestIsThere(a, s, lo, lim, r, b, e);
    if sim.best.Match? {
      StartNotBefore(a, s, lo, b, e, sim.best);
    }
  }

  lemma StartNotBefore(a: Automaton, s: Word, lo: nat, b: int, e: int, best: Result)
    requires IsBest(a, s, lo, b, e) && StartsAtTag(a, s, lo, best)
    ensures BestFrom(best) >= b
  {
  }

  /** Adding the initial states at b finds the best stretch when it is empty: nothing was in the final state. */
  lemma TopIsBest(a: Automaton, s: Word, lo: nat, pos: nat, sim: Sim, r: Sim, b: int, e: nat)
    requires pos <= |s| && pos == b == e && IsBest(a, s, lo, b, e)
    requires LeastInv(a, s, lo, pos - 1, pos, sim) && LeastInv(a, s, lo, pos, pos, r)
    requires r.best == if Present(r.next, a.final) && !Present(sim.next, a.final)
                       then Match(pos, r.next[Find(r.next, a.final)].tags) else NoMatch
    ensures r.best.Match? && r.best.eo == e && BestFrom(r.best) == b && |r.best.tags| > 0
  {
    BestIsThere(a, s, lo, pos, r, b, e);
    if Present(sim.next, a.final) {
      var g := sim.next[Find(sim.next, a.final)];
      assert g in sim.next && TagSound(a, s, lo, pos - 1, pos, g);
      assert Accepted(a, s, g.tags[0], pos);
      assert false;
    }
  }

  /** The run goes on from the same list after the initial states have been added. */
  lemma FromTop(a: Automaton, dirs: Directions, s: Word, pos: nat, sim: Sim, n: nat, e: nat)
    requires pos <= |s| && SimTagged(sim, n) && n > 0 && sim.best.NoMatch?
    requires var top := AddInitial(a, sim, pos, n); top.best.Match? && top.next != []
    ensures RunFrom(a, dirs, s, pos, AddInitial(a, sim, pos, n), n) == RunFrom(a, dirs, s, pos, sim, n)
    ensures Undisturbed(a, dirs, s, pos, AddInitial(a, sim, pos, n), n, e) <==> Undisturbed(a, dirs, s, pos, sim, n, e)
  {
    hide RunFrom, Undisturbed, Advance, AddInitial, Overtaken;
    var top := AddInitial(a, sim, pos, n);
    RunFromTurn(a, dirs, s, pos, sim, n);
    RunFromTurn(a, dirs, s, pos, top, n);
    if pos < |s| {
      UndisturbedStep(a, dirs, s, pos, sim, n, e);
      UndisturbedStep(a, dirs, s, pos, top, n, e);
    } else {
      NothingLeft(a, dirs, s, pos, sim, n, e);
      NothingLeft(a, dirs, s, pos, top, n, e);
    }
  }

  /** The top of the loop before e: the list still has a thread, and b has been tried if it is not ahead. */
  lemma TopBefore(a: Automaton, s: Word, lo: nat, lim: int, pos: nat, sim: Sim, n: nat, b: int, e: nat) returns (lim1: int)
    requires n > 0 && TagZeroAtStart(a) && pos < e && IsBest(a, s, lo, b, e)
    requires SimTagged(sim, n) && LeastInv(a, s, lo, lim, pos, sim) && lim <= pos - 1 && (sim.best.NoMatch? ==> lim == pos - 1)
    ensures LeastInv(a, s, lo, lim1, pos, Top(a, sim, pos, n)) && (b <= lim1 || (lim1 == pos < b)) && lim1 <= pos && b <= e
    ensures Top(a, sim, pos, n).best.NoMatch? ==> lim1 == pos
    ensures sim.best.Match? ==> sim.next != []
  {
    if sim.best.NoMatch? {
      TopLeast(a, s, lo, pos, sim, n);
      lim1 := pos;
    } else {
      StartNotBefore(a, s, lo, b, e, sim.best);
      StillAlive(a, s, lo, lim, pos, sim, b, e);
      lim1 := lim;
    }
  }

  /** No match has been found when the best stretch is empty and lies ahead. */
  lemma NoneBeforeEmpty(a: Automaton, s: Word, lo: nat, lim: int, pos: nat, sim: Sim, b: int, e: nat)
    requires IsBest(a, s, lo, b, e) && b == e == pos && LeastInv(a, s, lo, lim, pos, sim) && lim <= pos - 1
    ensures sim.best.NoMatch?
  {
  }

  /** The whole run from a position up to e. */
  lemma {:induction false} UntilBest(a: Automaton, dirs: Directions, s: Word, lo: nat, lim: int, pos: nat, sim: Sim, n: nat,
                                     b: int, e: nat, r: Result)
    requires n > 0 && TagZeroAtStart(a) && DirectionOf(dirs, 0) == Minimize
    requires SimTagged(sim, n) && LeastInv(a, s, lo, lim, pos, sim) && lim <= pos - 1 && (sim.best.NoMatch? ==> lim == pos - 1)
    requires IsBest(a, s, lo, b, e) && (pos < e || pos == e == b) && e <= |s|
    requires r == RunFrom(a, dirs, s, pos, sim, n)
    ensures LeftmostLongest(a, s, lo, r) <==> Undisturbed(a, dirs, s, pos, sim, n, e)
    decreases e - pos
  {
    hide RunFrom, LeastInv, IsBest, Undisturbed, Overtaken, Advance, AddInitial, BestFrom, Arrivals, LeftmostLongest, SimTagged;
    if pos == e {
      NoneBeforeEmpty(a, s, lo, lim, pos, sim, b, e);
      var top := AddInitial(a, sim, pos, n);
      TopLeast(a, s, lo, pos, sim, n);
      TopIsBest(a, s, lo, pos, sim, top, b, e);
      ListNotEmpty(a, s, lo, pos, top, b, e);
      FromTop(a, dirs, s, pos, sim, n, e);
      Behind(a, dirs, s, lo, pos, pos, top, n, b, e, r);
      OnlyBest(a, s, lo, b, e, r);
    } else {
      var lim1 := TopBefore(a, s, lo, lim, pos, sim, n, b, e);
      var top := Top(a, sim, pos, n);
      RunFromTurn(a, dirs, s, pos, sim, n);
      UndisturbedStep(a, dirs, s, pos, sim, n, e);
      var next := Advance(a, dirs, top, s[pos], pos + 1, n);
      if pos + 1 == e && b < e {
        StepToBest(a, dirs, s, lo, lim1, pos, top, n, b, e);
        Behind(a, dirs, s, lo, lim1, e, next, n, b, e, r);
        OnlyBest(a, s, lo, b, e, r);
      } else {
        StepLeast(a, dirs, s, lo, lim1, pos, top, n);
        AdvanceKeepsMatch(a, dirs, top, s[pos], pos + 1, n);
        UntilBest(a, dirs, s, lo, lim1, pos + 1, next, n, b, e, r);
      }
    }
  }

  lemma ListNotEmpty(a: Automaton, s: Word, lo: nat, pos: nat, sim: Sim, b: int, e: nat)
    requires IsBest(a, s, lo, b, e) && pos == b == e && LeastInv(a, s, lo, pos, pos, sim)
    ensures sim.next != []
  {
    BestIsThere(a, s, lo, pos, sim, b, e);
  }

  // ----- the whole matcher -----

  lemma {:induction false} LongestFrom(a: Automaton, s: Word, b: int, j: nat, top: nat) returns (e: nat)
    requires Accepted(a, s, b, j) && j <= top && forall x | top < x :: !Accepted(a, s, b, x)
    ensures Accepted(a, s, b, e) && forall x | e < x :: !Accepted(a, s, b, x)
    decreases top
  {
    hide Accepted;
    if Accepted(a, s, b, top) {
      e := top;
    } else {
      forall x | top - 1 < x ensures !Accepted(a, s, b, x) {
        assert x == top || top < x;
      }
      e := LongestFrom(a, s, b, j, top - 1);
    }
  }

  ghost predicate NoneFrom(a: Automaton, s: Word, i: int) { forall j :: !Accepted(a, s, i, j) }

  lemma {:induction false} LeftmostFrom(a: Automaton, s: Word, lo: nat, low: nat, i: nat) returns (b: nat)
    requires lo <= low <= i && !NoneFrom(a, s, i) && forall x: int | lo <= x < low :: NoneFrom(a, s, x)
    ensures lo <= b && !NoneFrom(a, s, b) && forall x: int | lo <= x < b :: NoneFrom(a, s, x)
    decreases i - low
  {
    hide NoneFrom;
    if !NoneFrom(a, s, low) {
      b := low;
    } else {
      b := LeftmostFrom(a, s, lo, low + 1, i);
    }
  }

  lemma BestExists(a: Automaton, s: Word, lo: nat, i: nat, j: nat) returns (b: nat, e: nat)
    requires lo <= i && Accepted(a, s, i, j)
    ensures IsBest(a, s, lo, b, e)
  {
    b := LeftmostFrom(a, s, lo, lo, i);
    var j0 :| Accepted(a, s, b, j0);
    e := LongestFrom(a, s, b, j0, |s|);
    forall x, y | lo <= x && Accepted(a, s, x, y) ensures b < x || (b == x && y <= e) {
      assert !NoneFrom(a, s, x);
    }
  }

  lemma NoneIsLeftmost(a: Automaton, s: Word, r: Result)
    requires forall i, j :: !Accepted(a, s, i, j)
    requires r.Match? <==> exists i, j :: Accepted(a, s, i, j)
    ensures LeftmostLongest(a, s, 0, r) && forall b, e :: !IsBest(a, s, 0, b, e)
  {
  }

  /** For any number of tags, tag 0 being minimized and set on the initial transitions only: the result is
      leftmost-longest exactly when no step behind the best stretch is overtaken. */
  lemma LeftmostExactly(a: Automaton, tnfa: Tnfa, dirs: Directions, s: Word, n: nat)
    requires n > 0 && Closed(a) && FirstCharSound(tnfa, a) && IsBytes(s)
    requires TagZeroAtStart(a) && DirectionOf(dirs, 0) == Minimize
    ensures LeftmostLongest(a, s, 0, RunParallel(a, dirs, tnfa.firstChar, s, n))
       <==> forall b, e: nat | IsBest(a, s, 0, b, e) ::
              Undisturbed(a, dirs, s, LoopStart(tnfa.firstChar, s), Sim([], NoMatch), n, e)
  {
    var r := RunParallel(a, dirs, tnfa.firstChar, s, n);
    ParallelFindsMatch(a, tnfa, dirs, s, n);
    if i: int, j: int :| Accepted(a, s, i, j) {
      var b, e := BestExists(a, s, 0, i, j);
      LeftmostExactlyAt(a, tnfa, dirs, s, n, b, e);
      forall b1, e1: nat | IsBest(a, s, 0, b1, e1) ensures e1 == e {
        assert Accepted(a, s, b1, e1) && Accepted(a, s, b, e);
      }
    } else {
      NoneIsLeftmost(a, s, r);
    }
  }

  lemma LeftmostExactlyAt(a: Automaton, tnfa: Tnfa, dirs: Directions, s: Word, n: nat, b: nat, e: nat)
    requires n > 0 && Closed(a) && FirstCharSound(tnfa, a) && IsBytes(s)
    requires TagZeroAtStart(a) && DirectionOf(dirs, 0) == Minimize && IsBest(a, s, 0, b, e)
    ensures LeftmostLongest(a, s, 0, RunParallel(a, dirs, tnfa.firstChar, s, n))
       <==> Undisturbed(a, dirs, s, LoopStart(tnfa.firstChar, s), Sim([], NoMatch), n, e)
  {
    hide RunFrom, Undisturbed, LeftmostLongest, LeastInv, FirstCharSound;
    var lo: int := LoopStart(tnfa.firstChar, s);
    forall x, y | Accepted(a, s, x, y) ensures lo <= x {
      if tnfa.firstChar >= 0 {
        SkippedNothing(a, tnfa, s, x, y);
      }
    }
    assert Accepted(a, s, b, e) && IsBest(a, s, lo, b, e);
    StartLeast(a, s, lo);
    var r := RunParallel(a, dirs, tnfa.firstChar, s, n);
    UntilBest(a, dirs, s, lo, lo - 1, lo, Sim([], NoMatch), n, b, e, r);
    SameLeftmost(a, s, lo, r);
  }

  lemma StartLeast(a: Automaton, s: Word, lo: nat)
    requires lo <= |s|
    ensures LeastInv(a, s, lo, lo - 1, lo, Sim([], NoMatch))
  {
    StartTracks(a, s, lo);
  }

  lemma SameLeftmost(a: Automaton, s: Word, lo: nat, r: Result)
    requires forall x, y | Accepted(a, s, x, y) :: lo <= x
    ensures LeftmostLongest(a, s, 0, r) <==> LeftmostLongest(a, s, lo, r)
  {
  }
}
