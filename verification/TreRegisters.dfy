/** What the parallel matcher's tag values say: for each tag of the reported match, the last place where a run of the
    pattern over the reported stretch sets it. */
module TreRegisters {
  import opened TreAst
  import opened TreExpand
  import opened TreAutomaton
  import opened TreTnfa
  import opened TreTaggedRuns
  import opened TreTaggedWalks
  import opened TreParallel
  import opened TreLeftmost

  /** The last gap that sets the tag, or -1. */
  function LastGap(gaps: seq<Tags>, tag: nat): (i: int)
    ensures -1 <= i < |gaps| && (i >= 0 ==> tag in gaps[i]) && forall j | i < j < |gaps| :: tag !in gaps[j]
  {
    if gaps == [] then -1
    else if tag in gaps[|gaps| - 1] then |gaps| - 1
    else LastGap(gaps[..|gaps| - 1], tag)
  }

  /** What a run that starts at offset `from` leaves in n tags. */
  function Registers(gaps: seq<Tags>, from: nat, n: nat): (r: seq<int>)
    ensures |r| == n && forall k: nat | k < n :: r[k] == if LastGap(gaps, k) < 0 then -1 else from + LastGap(gaps, k)
  {
    seq(n, k requires 0 <= k < n => if LastGap(gaps, k) < 0 then -1 else from + LastGap(gaps, k))
  }

  /** Run r over s[from..pos] leads to state q and leaves these tag values. */
  ghost predicate CarriesRun(a: Automaton, s: Word, from: nat, pos: nat, q: nat, tags: seq<int>, r: Run) {
    from <= pos <= |s| && Ok(r) && r.word == s[from..pos] && TaggedPath(a, r, q) && tags == Registers(r.gaps, from, |tags|)
  }

  ghost predicate Carries(a: Automaton, s: Word, pos: nat, q: nat, tags: seq<int>) {
    exists from: nat, r: Run :: CarriesRun(a, s, from, pos, q, tags, r)
  }

  lemma StampGap(gaps: seq<Tags>, from: nat, n: nat, ids: seq<nat>)
    ensures SetTags(Registers(gaps, from, n), ids, from + |gaps|) == Registers(gaps + [TagSet(ids)], from, n)
  {
    var tags, pos := Registers(gaps, from, n), from + |gaps|;
    SetTagsIsStamped(tags, ids, TagSet(ids), pos);
    var more := gaps + [TagSet(ids)];
    forall k: nat | k < n ensures Registers(more, from, n)[k] == if k in TagSet(ids) then pos else tags[k] {
      assert more[..|more| - 1] == gaps;
    }
  }

  lemma StartCarries(a: Automaton, s: Word, pos: nat, n: nat, st: Start)
    requires st in a.initial && pos <= |s|
    ensures Carries(a, s, pos, st.target, SetTags(Unset(n), st.tags, pos))
  {
    var r := Run([], [TagSet(st.tags)]);
    assert Registers([], pos, n) == Unset(n);
    StampGap([], pos, n, st.tags);
    assert [] + [TagSet(st.tags)] == r.gaps;
    assert TaggedStart(a, st.target, r.gaps[0]);
    assert CarriesRun(a, s, pos, pos, st.target, SetTags(Unset(n), st.tags, pos), r);
  }

  lemma StepCarries(a: Automaton, s: Word, pos: nat, e: Entry, st: Step)
    requires pos < |s| && Carries(a, s, pos, e.state, e.tags)
    requires e.state < |a.out| && st in a.out[e.state] && Reads(st, s[pos])
    ensures Carries(a, s, pos + 1, st.target, SetTags(e.tags, st.tags, pos + 1))
  {
    var from: nat, r: Run :| CarriesRun(a, s, from, pos, e.state, e.tags, r);
    var u := Run(r.word + [s[pos]], r.gaps + [TagSet(st.tags)]);
    assert u.word == s[from..pos + 1];
    assert Front(u.word) == r.word && u.gaps[..|u.word|] == r.gaps && FrontRun(u) == r;
    assert TaggedStep(a, e.state, Last(u.word), st.target, u.gaps[|u.word|]);
    StampGap(r.gaps, from, |e.tags|, st.tags);
    assert CarriesRun(a, s, from, pos + 1, st.target, SetTags(e.tags, st.tags, pos + 1), u);
  }

  // ----- the loop -----

  ghost predicate ResultCarries(a: Automaton, s: Word, r: Result) { r.Match? ==> Carries(a, s, r.eo, a.final, r.tags) }

  ghost predicate AllCarry(a: Automaton, s: Word, pos: nat, sim: Sim) {
    && DistinctStates(sim.next) && (forall e | e in sim.next :: Carries(a, s, pos, e.state, e.tags))
    && ResultCarries(a, s, sim.best)
  }

  lemma FinalCarries(a: Automaton, s: Word, pos: nat, next: seq<Entry>)
    requires forall e | e in next :: Carries(a, s, pos, e.state, e.tags)
    ensures Present(next, a.final) ==> ResultCarries(a, s, Match(pos, next[Find(next, a.final)].tags))
  {
    if Present(next, a.final) {
      var e := next[Find(next, a.final)];
      assert e in next;
    }
  }

  lemma TopCarries(a: Automaton, s: Word, pos: nat, sim: Sim, n: nat)
    requires pos <= |s| && SimTagged(sim, n) && AllCarry(a, s, pos, sim)
    ensures AllCarry(a, s, pos, AddInitial(a, sim, pos, n))
  {
    hide Carries, SetTags;
    var xs := StartEntries(a, pos, n);
    var r := AddInitial(a, sim, pos, n);
    VisitStartsStarted(a.final, sim, xs, pos, n);
    forall e | e in r.next ensures Carries(a, s, pos, e.state, e.tags) {
      if e !in sim.next {
        var k :| 0 <= k < |xs| && xs[k] == e;
        StartCarries(a, s, pos, n, a.initial[k]);
      }
    }
    FinalCarries(a, s, pos, r.next);
  }

  lemma AdvanceCarries(a: Automaton, dirs: Directions, s: Word, pos: nat, sim: Sim, n: nat)
    requires pos < |s| && SimTagged(sim, n) && AllCarry(a, s, pos, sim)
    ensures AllCarry(a, s, pos + 1, Advance(a, dirs, sim, s[pos], pos + 1, n))
  {
    hide Carries, SetTags;
    var xs := Arrivals(a, sim.next, s[pos], pos + 1, n);
    var r := Advance(a, dirs, sim, s[pos], pos + 1, n);
    VisitAllCovers(a.final, dirs, sim.best, xs, pos + 1, n);
    VisitAllBest(a.final, dirs, sim.best, xs, pos + 1, n);
    forall x | x in r.next ensures Carries(a, s, pos + 1, x.state, x.tags) {
      var e, st := ArrivalHasSource(a, sim.next, s[pos], pos + 1, n, x);
      StepCarries(a, s, pos, e, st);
    }
    FinalCarries(a, s, pos + 1, r.next);
  }

  lemma {:induction false} RunFromCarries(a: Automaton, dirs: Directions, s: Word, pos: nat, sim: Sim, n: nat)
    requires pos <= |s| && SimTagged(sim, n) && AllCarry(a, s, pos, sim)
    ensures ResultCarries(a, s, RunFrom(a, dirs, s, pos, sim, n))
    decreases |s| - pos
  {
    hide RunFrom, Advance, AddInitial, SimTagged, ResultCarries;
    RunFromTurn(a, dirs, s, pos, sim, n);
    if !(sim.best.Match? && (n == 0 || sim.next == [])) {
      var sim1 := sim;
      if sim.best.NoMatch? {
        TopCarries(a, s, pos, sim, n);
        sim1 := AddInitial(a, sim, pos, n);
      }
      if pos < |s| {
        AdvanceCarries(a, dirs, s, pos, sim1, n);
        RunFromCarries(a, dirs, s, pos + 1, Advance(a, dirs, sim1, s[pos], pos + 1, n), n);
      }
    }
  }

  /** The tag values of the match are those of one run of the tree over a stretch that ends where the match ends. */
  ghost predicate TellsRun(t: Ast, s: Word, eo: nat, tags: seq<int>) {
    exists from: nat, r: Run :: RunOver(t, s, from, eo, tags, r)
  }

  ghost predicate RunOver(t: Ast, s: Word, from: nat, eo: nat, tags: seq<int>, r: Run) {
    from <= eo <= |s| && Ok(r) && r.word == s[from..eo] && IsRun(t, r) && tags == Registers(r.gaps, from, |tags|)
  }

  lemma ParallelTellsRun(t: Ast, dirs: Directions, firstChar: int, s: Word, n: nat)
    requires Simple(t)
    ensures var r := RunParallel(AutomatonOf(t), dirs, firstChar, s, n); r.Match? ==> TellsRun(t, s, r.eo, r.tags)
  {
    hide IsRun, TaggedPath, RunFrom, AutomatonOf;
    var a := AutomatonOf(t);
    var r, lo := RunParallel(a, dirs, firstChar, s, n), LoopStart(firstChar, s);
    if lo <= |s| {
      RunFromCarries(a, dirs, s, lo, Sim([], NoMatch), n);
    }
    if r.Match? {
      var from: nat, run: Run :| CarriesRun(a, s, from, r.eo, a.final, r.tags, run);
      PathsAreRuns(t, run);
      assert RunOver(t, s, from, r.eo, r.tags, run);
    }
  }
}
