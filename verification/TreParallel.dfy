/** What the parallel matcher computes (tre_tnfa_run_parallel, tre-match-parallel.c, and
    tre_tag_order, tre-match-utils.h), as functions on lists, and the properties of its result.
    TreParallelRun proves that the array program computes these functions. */
module TreParallel {
  import opened TreAst
  import opened TreAutomaton
  import opened TreTnfa

  /** A reached state with the tag values of the path chosen for it. */
  datatype Entry = Entry(state: nat, tags: seq<int>)

  datatype Result = NoMatch | Match(eo: nat, tags: seq<int>)

  /** The reach list under construction and the best match so far. */
  datatype Sim = Sim(next: seq<Entry>, best: Result)

  function DirectionOf(dirs: Directions, i: nat): Direction { if i in dirs then dirs[i] else Minimize }

  /** tre_tag_order: true when t1 wins over t2, comparing from tag i on. */
  predicate Wins(dirs: Directions, t1: seq<int>, t2: seq<int>, i: nat)
    requires |t1| == |t2|
    decreases |t1| - i
  {
    if i >= |t1| then false
    else if t1[i] == t2[i] then Wins(dirs, t1, t2, i + 1)
    else if DirectionOf(dirs, i) == Minimize then t1[i] < t2[i] else t1[i] > t2[i]
  }

  /** The tags of `ids` below |tags| take the value `pos`. */
  function SetTags(tags: seq<int>, ids: seq<nat>, pos: int): (r: seq<int>)
    ensures |r| == |tags|
  {
    if ids == [] then tags
    else
      var r := SetTags(tags, ids[..|ids| - 1], pos);
      var id := ids[|ids| - 1];
      if id < |r| then r[id := pos] else r
  }

  function Unset(n: nat): (r: seq<int>)
    ensures |r| == n && forall i | 0 <= i < n :: r[i] == -1
  {
    seq(n, _ => -1)
  }

  /** The index of the entry for state q, or |entries|. */
  function Find(entries: seq<Entry>, q: nat): (i: nat)
    ensures i <= |entries|
    ensures i < |entries| ==> entries[i].state == q
    ensures forall j | 0 <= j < i :: entries[j].state != q
  {
    if entries == [] then 0
    else if entries[0].state == q then 0
    else
      var i := Find(entries[1..], q);
      assert forall j | 1 <= j < i + 1 :: entries[j] == entries[1..][j - 1];
      1 + i
  }

  predicate Present(entries: seq<Entry>, q: nat) { Find(entries, q) < |entries| }

  // ----- one arrival -----

  /** A transition arrives in a state with tags `x.tags`, at position `pos`. */
  function Visit(final: nat, dirs: Directions, sim: Sim, x: Entry, pos: nat): Sim
    requires forall e | e in sim.next :: |e.tags| == |x.tags|
    requires sim.best.Match? ==> |sim.best.tags| == |x.tags|
  {
    var i := Find(sim.next, x.state);
    if i == |sim.next| then
      Sim(sim.next + [x],
          if x.state == final && (sim.best.NoMatch? || (|x.tags| > 0 && x.tags[0] <= sim.best.tags[0]))
          then Match(pos, x.tags) else sim.best)
    else if Wins(dirs, x.tags, sim.next[i].tags, 0) then
      Sim(sim.next[i := x], if x.state == final then Match(pos, x.tags) else sim.best)
    else sim
  }

  /** An initial state is added at position `pos` unless it is already there. */
  function VisitStart(final: nat, sim: Sim, x: Entry, pos: nat): Sim {
    if Present(sim.next, x.state) then sim
    else Sim(sim.next + [x], if x.state == final then Match(pos, x.tags) else sim.best)
  }

  predicate SimTagged(sim: Sim, n: nat) {
    (forall e | e in sim.next :: |e.tags| == n) && (sim.best.Match? ==> |sim.best.tags| == n)
  }

  function VisitAll(final: nat, dirs: Directions, sim: Sim, xs: seq<Entry>, pos: nat, n: nat): (r: Sim)
    requires SimTagged(sim, n) && forall x | x in xs :: |x.tags| == n
    ensures SimTagged(r, n)
    decreases |xs|
  {
    if xs == [] then sim
    else Visit(final, dirs, VisitAll(final, dirs, sim, xs[..|xs| - 1], pos, n), xs[|xs| - 1], pos)
  }

  function VisitStarts(final: nat, sim: Sim, xs: seq<Entry>, pos: nat, n: nat): (r: Sim)
    requires SimTagged(sim, n) && forall x | x in xs :: |x.tags| == n
    ensures SimTagged(r, n)
    decreases |xs|
  {
    if xs == [] then sim
    else VisitStart(final, VisitStarts(final, sim, xs[..|xs| - 1], pos, n), xs[|xs| - 1], pos)
  }

  // ----- one position -----

  /** Where the transitions of one state lead on byte c. */
  function Leaving(steps: seq<Step>, tags: seq<int>, c: nat, pos: nat): (r: seq<Entry>)
    ensures forall x | x in r :: |x.tags| == |tags|
    decreases |steps|
  {
    if steps == [] then []
    else
      var s := steps[|steps| - 1];
      Leaving(steps[..|steps| - 1], tags, c, pos) +
      if Reads(s, c) then [Entry(s.target, SetTags(tags, s.tags, pos))] else []
  }

  /** All arrivals at `pos`, in the order of the reach list. */
  function Arrivals(a: Automaton, reach: seq<Entry>, c: nat, pos: nat, n: nat): (r: seq<Entry>)
    requires forall e | e in reach :: |e.tags| == n
    ensures forall x | x in r :: |x.tags| == n
    decreases |reach|
  {
    if reach == [] then []
    else
      var e := reach[|reach| - 1];
      Arrivals(a, reach[..|reach| - 1], c, pos, n) +
      (if e.state < |a.out| then Leaving(a.out[e.state], e.tags, c, pos) else [])
  }

  function StartEntry(s: Start, pos: nat, n: nat): (x: Entry)
    ensures |x.tags| == n
  {
    Entry(s.target, SetTags(Unset(n), s.tags, pos))
  }

  function StartEntries(a: Automaton, pos: nat, n: nat): (r: seq<Entry>)
    ensures |r| == |a.initial| && forall i | 0 <= i < |r| :: r[i] == StartEntry(a.initial[i], pos, n)
    ensures forall x | x in r :: |x.tags| == n
  {
    seq(|a.initial|, i requires 0 <= i < |a.initial| => StartEntry(a.initial[i], pos, n))
  }

  function AddInitial(a: Automaton, sim: Sim, pos: nat, n: nat): (r: Sim)
    requires SimTagged(sim, n)
    ensures SimTagged(r, n)
  {
    VisitStarts(a.final, sim, StartEntries(a, pos, n), pos, n)
  }

  function Advance(a: Automaton, dirs: Directions, sim: Sim, c: nat, pos: nat, n: nat): (r: Sim)
    requires SimTagged(sim, n)
    ensures SimTagged(r, n)
  {
    VisitAll(a.final, dirs, Sim([], sim.best), Arrivals(a, sim.next, c, pos, n), pos, n)
  }

  /** The main loop from position `pos` on, `sim` being the state just before the top of the loop. */
  function RunFrom(a: Automaton, dirs: Directions, s: Word, pos: nat, sim: Sim, n: nat): Result
    requires pos <= |s| && SimTagged(sim, n)
    decreases |s| - pos
  {
    if sim.best.Match? && (n == 0 || sim.next == []) then sim.best
    else
      var sim1 := if sim.best.NoMatch? then AddInitial(a, sim, pos, n) else sim;
      if pos >= |s| then sim1.best
      else RunFrom(a, dirs, s, pos + 1, Advance(a, dirs, sim1, s[pos], pos + 1, n), n)
  }

  /** One turn of RunFrom. */
  lemma RunFromTurn(a: Automaton, dirs: Directions, s: Word, pos: nat, sim: Sim, n: nat)
    requires pos <= |s| && SimTagged(sim, n)
    ensures sim.best.Match? && (n == 0 || sim.next == []) ==> RunFrom(a, dirs, s, pos, sim, n) == sim.best
    ensures var sim1 := if sim.best.NoMatch? then AddInitial(a, sim, pos, n) else sim;
      !(sim.best.Match? && (n == 0 || sim.next == [])) ==>
        RunFrom(a, dirs, s, pos, sim, n) ==
          if pos == |s| then sim1.best else RunFrom(a, dirs, s, pos + 1, Advance(a, dirs, sim1, s[pos], pos + 1, n), n)
  {
  }

  /** The first position at or after `pos` that holds byte `c`, or |s|: memchr. */
  function FirstByte(s: Word, c: int, pos: nat): (i: nat)
    requires pos <= |s|
    ensures pos <= i <= |s| && (i < |s| ==> s[i] == c) && forall j | pos <= j < i :: s[j] != c
    decreases |s| - pos
  {
    if pos == |s| || s[pos] == c then pos else FirstByte(s, c, pos + 1)
  }

  /** The whole matcher with `n` tags. */
  function RunParallel(a: Automaton, dirs: Directions, firstChar: int, s: Word, n: nat): Result {
    if firstChar < 0 then RunFrom(a, dirs, s, 0, Sim([], NoMatch), n)
    else
      var lo := FirstByte(s, firstChar, 0);
      if lo == |s| then NoMatch else RunFrom(a, dirs, s, lo, Sim([], NoMatch), n)
  }

  // ----- facts about one list -----

  predicate DistinctStates(entries: seq<Entry>) {
    forall i, j | 0 <= i < j < |entries| :: entries[i].state != entries[j].state
  }

  /** The list holds exactly the states of xs, each once, each with the tags of some arrival. */
  ghost predicate Covers(next: seq<Entry>, xs: seq<Entry>) {
    && DistinctStates(next)
    && (forall e | e in next :: e in xs)
    && (forall x | x in xs :: Present(next, x.state))
  }

  lemma PresentIff(entries: seq<Entry>, q: nat)
    ensures Present(entries, q) <==> exists e :: e in entries && e.state == q
  {
    if Present(entries, q) {
      assert entries[Find(entries, q)] in entries;
    }
  }

  /** One arrival: the list covers that arrival as well. */
  lemma VisitCovers(final: nat, dirs: Directions, sim: Sim, front: seq<Entry>, x: Entry, pos: nat)
    requires forall y | y in sim.next :: |y.tags| == |x.tags|
    requires sim.best.Match? ==> |sim.best.tags| == |x.tags|
    requires Covers(sim.next, front)
    ensures Covers(Visit(final, dirs, sim, x, pos).next, front + [x])
  {
    hide Wins, RunFrom;
    var next := Visit(final, dirs, sim, x, pos).next;
    forall y | y in front + [x] ensures Present(next, y.state) {
      if y in front {
        StillPresent(final, dirs, sim, x, pos, sim.next[Find(sim.next, y.state)]);
      } else {
        StillPresent(final, dirs, sim, x, pos, x);
      }
    }
    forall i, j | 0 <= i < j < |next| ensures next[i].state != next[j].state {
      if j < |sim.next| {
        assert next[i].state == sim.next[i].state && next[j].state == sim.next[j].state;
      }
    }
  }

  lemma {:induction false} VisitAllCovers(final: nat, dirs: Directions, best: Result, xs: seq<Entry>, pos: nat, n: nat)
    requires SimTagged(Sim([], best), n) && forall x | x in xs :: |x.tags| == n
    ensures Covers(VisitAll(final, dirs, Sim([], best), xs, pos, n).next, xs)
    decreases |xs|
  {
    if xs != [] {
      var front, x := xs[..|xs| - 1], xs[|xs| - 1];
      VisitAllCovers(final, dirs, best, front, pos, n);
      VisitCovers(final, dirs, VisitAll(final, dirs, Sim([], best), front, pos, n), front, x, pos);
      assert front + [x] == xs;
    }
  }

  /** A state once in the list stays in the list, and the arriving state is in it. */
  lemma StillPresent(final: nat, dirs: Directions, sim: Sim, x: Entry, pos: nat, e: Entry)
    requires forall y | y in sim.next :: |y.tags| == |x.tags|
    requires sim.best.Match? ==> |sim.best.tags| == |x.tags|
    requires e in sim.next || e == x
    ensures Present(Visit(final, dirs, sim, x, pos).next, e.state)
  {
    var next := Visit(final, dirs, sim, x, pos).next;
    var i := Find(sim.next, x.state);
    if e in sim.next {
      var j :| 0 <= j < |sim.next| && sim.next[j] == e;
      assert next[j].state == e.state;
    } else if i == |sim.next| {
      assert next[i] == x;
    } else {
      assert next[i].state == x.state;
    }
    PresentIff(next, e.state);
  }

  /** After adding initial states: the old list and then new ones, and the match if final is among them. */
  ghost predicate Started(final: nat, sim: Sim, r: Sim, xs: seq<Entry>, pos: nat) {
    && DistinctStates(r.next) && sim.next <= r.next
    && (forall i | |sim.next| <= i < |r.next| :: r.next[i] in xs)
    && (forall x | x in xs :: Present(r.next, x.state))
    && r.best == (if Present(r.next, final) && !Present(sim.next, final)
                  then Match(pos, r.next[Find(r.next, final)].tags) else sim.best)
  }

  lemma VisitStartStarted(final: nat, sim: Sim, r1: Sim, front: seq<Entry>, x: Entry, pos: nat)
    requires Started(final, sim, r1, front, pos)
    ensures Started(final, sim, VisitStart(final, r1, x, pos), front + [x], pos)
  {
    hide Find;
    var r := VisitStart(final, r1, x, pos);
    assert r1.next <= r.next;
    forall y | y in front + [x] ensures Present(r.next, y.state) {
      if Present(r1.next, y.state) {
        var e := r1.next[Find(r1.next, y.state)];
        assert e in r.next;
      } else {
        assert r.next[|r1.next|] == x;
      }
      PresentIff(r.next, y.state);
    }
    if r.next != r1.next {
      PresentSnoc(r1.next, x, final);
    }
  }

  lemma PresentSnoc(entries: seq<Entry>, x: Entry, q: nat)
    ensures Find(entries + [x], q)
         == if Present(entries, q) then Find(entries, q) else if x.state == q then |entries| else |entries| + 1
  {
    assert forall i | 0 <= i < |entries| :: (entries + [x])[i] == entries[i];
    assert (entries + [x])[|entries|] == x;
  }

  lemma {:induction false} VisitStartsStarted(final: nat, sim: Sim, xs: seq<Entry>, pos: nat, n: nat)
    requires SimTagged(sim, n) && DistinctStates(sim.next) && forall x | x in xs :: |x.tags| == n
    ensures Started(final, sim, VisitStarts(final, sim, xs, pos, n), xs, pos)
    decreases |xs|
  {
    if xs != [] {
      var front, x := xs[..|xs| - 1], xs[|xs| - 1];
      VisitStartsStarted(final, sim, front, pos, n);
      VisitStartStarted(final, sim, VisitStarts(final, sim, front, pos, n), front, x, pos);
      assert front + [x] == xs;
    }
  }

  lemma FindUnique(entries: seq<Entry>, i: nat)
    requires i < |entries| && DistinctStates(entries)
    ensures Find(entries, entries[i].state) == i
  {
  }

  // ----- arrivals, as a set -----

  lemma {:induction false} LeavingIff(steps: seq<Step>, tags: seq<int>, c: nat, pos: nat, x: Entry)
    ensures x in Leaving(steps, tags, c, pos)
       <==> exists s :: s in steps && Reads(s, c) && x == Entry(s.target, SetTags(tags, s.tags, pos))
    decreases |steps|
  {
    if steps != [] {
      LeavingIff(steps[..|steps| - 1], tags, c, pos, x);
    }
  }

  ghost predicate ArrivesFrom(a: Automaton, e: Entry, s: Step, c: nat, pos: nat, x: Entry) {
    e.state < |a.out| && s in a.out[e.state] && Reads(s, c) && x == Entry(s.target, SetTags(e.tags, s.tags, pos))
  }

  lemma {:induction false} ArrivalHasSource(a: Automaton, reach: seq<Entry>, c: nat, pos: nat, n: nat, x: Entry)
      returns (e: Entry, s: Step)
    requires (forall e | e in reach :: |e.tags| == n) && x in Arrivals(a, reach, c, pos, n)
    ensures e in reach && ArrivesFrom(a, e, s, c, pos, x)
    decreases |reach|
  {
    var last := reach[|reach| - 1];
    if x in Arrivals(a, reach[..|reach| - 1], c, pos, n) {
      e, s := ArrivalHasSource(a, reach[..|reach| - 1], c, pos, n, x);
    } else {
      e := last;
      LeavingIff(a.out[e.state], e.tags, c, pos, x);
      s :| s in a.out[e.state] && Reads(s, c) && x == Entry(s.target, SetTags(e.tags, s.tags, pos));
    }
  }

  lemma {:induction false} SourceArrives(a: Automaton, reach: seq<Entry>, c: nat, pos: nat, n: nat, e: Entry, s: Step, x: Entry)
    requires (forall e | e in reach :: |e.tags| == n) && e in reach && ArrivesFrom(a, e, s, c, pos, x)
    ensures x in Arrivals(a, reach, c, pos, n)
    decreases |reach|
  {
    if e in reach[..|reach| - 1] {
      SourceArrives(a, reach[..|reach| - 1], c, pos, n, e, s, x);
    } else {
      assert e == reach[|reach| - 1];
      LeavingIff(a.out[e.state], e.tags, c, pos, x);
    }
  }

  // ----- threads -----

  /** Some path that starts at offset i, between lo and lim, is in state q at offset pos. */
  ghost predicate Thread(a: Automaton, s: Word, lo: nat, lim: int, pos: nat, i: int, q: nat) {
    lo <= i <= lim && i <= pos <= |s| && Reached(a, s[i..pos], q)
  }

  /** s[i..j] is accepted. */
  ghost predicate Accepted(a: Automaton, s: Word, i: int, j: int) {
    0 <= i <= j <= |s| && Accepts(a, s[i..j])
  }

  /** The list holds exactly the states of the threads. */
  ghost predicate Tracks(a: Automaton, s: Word, lo: nat, lim: int, pos: nat, next: seq<Entry>) {
    && DistinctStates(next)
    && (forall e | e in next :: Alive(a, s, lo, lim, pos, e.state))
    && (forall i, q | Thread(a, s, lo, lim, pos, i, q) :: Present(next, q))
  }

  lemma StartThread(a: Automaton, s: Word, lo: nat, pos: nat, q: nat)
    requires lo <= pos <= |s|
    ensures Thread(a, s, lo, pos, pos, pos, q) <==> IsInitial(a, q)
  {
    assert s[pos..pos] == [];
  }

  lemma StepThread(a: Automaton, s: Word, lo: nat, lim: int, pos: nat, i: int, q: nat)
    requires pos < |s| && lim <= pos
    ensures Thread(a, s, lo, lim, pos + 1, i, q)
       <==> exists p: nat :: Thread(a, s, lo, lim, pos, i, p) && HasStep(a, p, s[pos], q)
  {
    if lo <= i <= lim {
      var w := s[i..pos + 1];
      assert Front(w) == s[i..pos] && Last(w) == s[pos];
      if Thread(a, s, lo, lim, pos + 1, i, q) {
        var p: nat :| Reached(a, Front(w), p) && HasStep(a, p, Last(w), q);
        assert Thread(a, s, lo, lim, pos, i, p);
      }
      if p: nat :| Thread(a, s, lo, lim, pos, i, p) && HasStep(a, p, s[pos], q) {
        assert Reached(a, Front(w), p);
      }
    }
  }

  /** Some thread is in state q at offset pos. */
  ghost predicate Alive(a: Automaton, s: Word, lo: nat, lim: int, pos: nat, q: nat) {
    exists i :: Thread(a, s, lo, lim, pos, i, q)
  }

  lemma AdvanceAlive(a: Automaton, s: Word, lo: nat, lim: int, pos: nat, reach: seq<Entry>, n: nat, x: Entry)
    requires (forall e | e in reach :: |e.tags| == n) && Tracks(a, s, lo, lim, pos, reach) && pos < |s| && lim <= pos
    requires x in Arrivals(a, reach, s[pos], pos + 1, n)
    ensures Alive(a, s, lo, lim, pos + 1, x.state)
  {
    var e, st := ArrivalHasSource(a, reach, s[pos], pos + 1, n, x);
    var i :| Thread(a, s, lo, lim, pos, i, e.state);
    assert HasStep(a, e.state, s[pos], x.state);
    StepThread(a, s, lo, lim, pos, i, x.state);
  }

  lemma ThreadArrival(a: Automaton, s: Word, lo: nat, lim: int, pos: nat, reach: seq<Entry>, n: nat, i: int, q: nat)
      returns (x: Entry)
    requires (forall e | e in reach :: |e.tags| == n) && Tracks(a, s, lo, lim, pos, reach) && pos < |s| && lim <= pos
    requires Thread(a, s, lo, lim, pos + 1, i, q)
    ensures x in Arrivals(a, reach, s[pos], pos + 1, n) && x.state == q
  {
    hide Reached;
    StepThread(a, s, lo, lim, pos, i, q);
    var p: nat :| Thread(a, s, lo, lim, pos, i, p) && HasStep(a, p, s[pos], q);
    var e := reach[Find(reach, p)];
    var st :| st in a.out[p] && Reads(st, s[pos]) && st.target == q;
    x := Entry(q, SetTags(e.tags, st.tags, pos + 1));
    SourceArrives(a, reach, s[pos], pos + 1, n, e, st, x);
  }

  lemma AdvanceTracks(a: Automaton, dirs: Directions, s: Word, lo: nat, lim: int, pos: nat, sim: Sim, n: nat)
    requires SimTagged(sim, n) && Tracks(a, s, lo, lim, pos, sim.next) && pos < |s| && lim <= pos
    ensures Tracks(a, s, lo, lim, pos + 1, Advance(a, dirs, sim, s[pos], pos + 1, n).next)
  {
    var pos' := pos + 1;
    var xs := Arrivals(a, sim.next, s[pos], pos', n);
    var next := Advance(a, dirs, sim, s[pos], pos', n).next;
    VisitAllCovers(a.final, dirs, sim.best, xs, pos', n);
    forall x | x in next ensures Alive(a, s, lo, lim, pos', x.state) {
      AdvanceAlive(a, s, lo, lim, pos, sim.next, n, x);
    }
    forall i, q | Thread(a, s, lo, lim, pos', i, q) ensures Present(next, q) {
      var x := ThreadArrival(a, s, lo, lim, pos, sim.next, n, i, q);
    }
  }

  lemma ThreadWider(a: Automaton, s: Word, lo: nat, pos: nat, i: int, q: nat)
    requires lo <= pos <= |s|
    ensures Thread(a, s, lo, pos, pos, i, q)
       <==> Thread(a, s, lo, pos - 1, pos, i, q) || (i == pos && IsInitial(a, q))
  {
    StartThread(a, s, lo, pos, q);
  }

  lemma StartIsInitial(a: Automaton, pos: nat, n: nat, x: Entry)
    requires x in StartEntries(a, pos, n)
    ensures IsInitial(a, x.state)
  {
    var xs := StartEntries(a, pos, n);
    var k :| 0 <= k < |xs| && xs[k] == x;
    assert a.initial[k].target == x.state;
  }

  lemma InitialHasStart(a: Automaton, pos: nat, n: nat, q: nat) returns (x: Entry)
    requires IsInitial(a, q)
    ensures x in StartEntries(a, pos, n) && x.state == q
  {
    var st :| st in a.initial && st.target == q;
    var k :| 0 <= k < |a.initial| && a.initial[k] == st;
    x := StartEntries(a, pos, n)[k];
  }

  lemma AddInitialTracks(a: Automaton, s: Word, lo: nat, pos: nat, sim: Sim, n: nat)
    requires lo <= pos <= |s| && SimTagged(sim, n) && Tracks(a, s, lo, pos - 1, pos, sim.next)
    ensures Tracks(a, s, lo, pos, pos, AddInitial(a, sim, pos, n).next)
  {
    var xs := StartEntries(a, pos, n);
    var next := AddInitial(a, sim, pos, n).next;
    VisitStartsStarted(a.final, sim, xs, pos, n);
    forall e | e in next ensures Alive(a, s, lo, pos, pos, e.state) {
      if e in sim.next {
        var i :| Thread(a, s, lo, pos - 1, pos, i, e.state);
        ThreadWider(a, s, lo, pos, i, e.state);
      } else {
        StartIsInitial(a, pos, n, e);
        ThreadWider(a, s, lo, pos, pos, e.state);
      }
    }
    forall i, q | Thread(a, s, lo, pos, pos, i, q) ensures Present(next, q) {
      ThreadWider(a, s, lo, pos, i, q);
      if Thread(a, s, lo, pos - 1, pos, i, q) {
        var e := sim.next[Find(sim.next, q)];
        assert e in next;
        PresentIff(next, q);
      } else {
        var x := InitialHasStart(a, pos, n, q);
      }
    }
  }

  // ----- the best match of one step -----

  /** How the best match relates to the entry of the final state, for any number of tags. */
  ghost predicate BestFollows(final: nat, best0: Result, r: Sim, pos: nat) {
    if !Present(r.next, final) then r.best == best0
    else
      var found := Match(pos, r.next[Find(r.next, final)].tags);
      r.best == found || (best0.Match? && r.best == best0)
  }

  lemma VisitBest(final: nat, dirs: Directions, best0: Result, sim: Sim, x: Entry, pos: nat)
    requires forall y | y in sim.next :: |y.tags| == |x.tags|
    requires sim.best.Match? ==> |sim.best.tags| == |x.tags|
    requires BestFollows(final, best0, sim, pos) && DistinctStates(sim.next)
    ensures BestFollows(final, best0, Visit(final, dirs, sim, x, pos), pos)
  {
    var r := Visit(final, dirs, sim, x, pos);
    var i := Find(sim.next, x.state);
    if i == |sim.next| {
      PresentSnoc(sim.next, x, final);
    } else if Wins(dirs, x.tags, sim.next[i].tags, 0) {
      FindReplaced(sim.next, i, x, final);
    }
  }

  lemma FindReplaced(entries: seq<Entry>, i: nat, x: Entry, q: nat)
    requires i < |entries| && x.state == entries[i].state
    ensures Find(entries[i := x], q) == Find(entries, q)
  {
    var next := entries[i := x];
    assert forall j | 0 <= j < |entries| :: next[j].state == entries[j].state;
  }

  lemma {:induction false} VisitAllBest(final: nat, dirs: Directions, best0: Result, xs: seq<Entry>, pos: nat, n: nat)
    requires SimTagged(Sim([], best0), n) && forall x | x in xs :: |x.tags| == n
    ensures BestFollows(final, best0, VisitAll(final, dirs, Sim([], best0), xs, pos, n), pos)
    decreases |xs|
  {
    if xs != [] {
      var front := xs[..|xs| - 1];
      VisitAllBest(final, dirs, best0, front, pos, n);
      VisitAllCovers(final, dirs, best0, front, pos, n);
      VisitBest(final, dirs, best0, VisitAll(final, dirs, Sim([], best0), front, pos, n), xs[|xs| - 1], pos);
    }
  }

  /** An accepted stretch that ends here is a thread in the final state. */
  lemma AcceptedThread(a: Automaton, s: Word, lo: nat, lim: int, pos: nat, i: int)
    requires lo <= i <= lim && 0 <= i <= pos <= |s|
    ensures Accepted(a, s, i, pos) <==> Thread(a, s, lo, lim, pos, i, a.final)
  {
  }

  // ----- a match is found exactly when there is one -----

  /** No stretch that starts at lo..top and ends by `end` is accepted. */
  ghost predicate NoneYet(a: Automaton, s: Word, lo: nat, top: int, end: int) {
    forall i, j | lo <= i <= top && j <= end :: !Accepted(a, s, i, j)
  }

  /** Some stretch that starts at or after lo ends at `end`. */
  ghost predicate SomeEndsAt(a: Automaton, s: Word, lo: nat, end: int) {
    exists i :: lo <= i && Accepted(a, s, i, end)
  }

  ghost predicate FoundOk(a: Automaton, s: Word, lo: nat, pos: nat, eo: nat, n: nat) {
    lo <= eo <= pos && SomeEndsAt(a, s, lo, eo) && (n == 0 ==> NoneYet(a, s, lo, eo - 1, eo - 1))
  }

  /** The state of the loop at `pos`; lim is the last offset where initial states were added. */
  ghost predicate LoopInv(a: Automaton, s: Word, lo: nat, lim: int, pos: nat, sim: Sim, n: nat) {
    && lo <= pos <= |s| && lim <= pos
    && Tracks(a, s, lo, lim, pos, sim.next)
    && match sim.best
       case NoMatch => lim >= pos - 1 && NoneYet(a, s, lo, lim, pos)
       case Match(eo, _) => FoundOk(a, s, lo, pos, eo, n)
  }

  /** With no match yet, no thread is in the final state. */
  lemma FinalNotThere(a: Automaton, s: Word, lo: nat, lim: int, pos: nat, next: seq<Entry>)
    requires lim <= pos <= |s| && Tracks(a, s, lo, lim, pos, next) && NoneYet(a, s, lo, lim, pos)
    ensures !Present(next, a.final)
  {
    if Present(next, a.final) {
      var e := next[Find(next, a.final)];
      var i :| Thread(a, s, lo, lim, pos, i, e.state);
      AcceptedThread(a, s, lo, lim, pos, i);
    }
  }

  /** The final state is in the list exactly when a stretch ends here. */
  lemma FinalThere(a: Automaton, s: Word, lo: nat, lim: int, pos: nat, next: seq<Entry>)
    requires lim <= pos <= |s| && Tracks(a, s, lo, lim, pos, next)
    ensures Present(next, a.final) ==> SomeEndsAt(a, s, lo, pos)
    ensures !Present(next, a.final) ==> forall i | lo <= i <= lim :: !Accepted(a, s, i, pos)
  {
    if Present(next, a.final) {
      var e := next[Find(next, a.final)];
      var i :| Thread(a, s, lo, lim, pos, i, e.state);
      AcceptedThread(a, s, lo, lim, pos, i);
    } else {
      forall i | lo <= i <= lim ensures !Accepted(a, s, i, pos) {
        AcceptedThread(a, s, lo, lim, pos, i);
      }
    }
  }

  lemma AddInitialInv(a: Automaton, s: Word, lo: nat, pos: nat, sim: Sim, n: nat)
    requires SimTagged(sim, n) && sim.best.NoMatch? && LoopInv(a, s, lo, pos - 1, pos, sim, n)
    ensures LoopInv(a, s, lo, pos, pos, AddInitial(a, sim, pos, n), n)
  {
    var r := AddInitial(a, sim, pos, n);
    AddInitialTracks(a, s, lo, pos, sim, n);
    VisitStartsStarted(a.final, sim, StartEntries(a, pos, n), pos, n);
    FinalNotThere(a, s, lo, pos - 1, pos, sim.next);
    FinalThere(a, s, lo, pos, pos, r.next);
  }

  lemma AdvanceInv(a: Automaton, dirs: Directions, s: Word, lo: nat, lim: int, pos: nat, sim: Sim, n: nat)
    requires SimTagged(sim, n) && LoopInv(a, s, lo, lim, pos, sim, n) && pos < |s|
    requires sim.best.NoMatch? ==> lim == pos
    requires sim.best.Match? ==> n > 0
    ensures LoopInv(a, s, lo, lim, pos + 1, Advance(a, dirs, sim, s[pos], pos + 1, n), n)
  {
    var r := Advance(a, dirs, sim, s[pos], pos + 1, n);
    AdvanceTracks(a, dirs, s, lo, lim, pos, sim, n);
    VisitAllBest(a.final, dirs, sim.best, Arrivals(a, sim.next, s[pos], pos + 1, n), pos + 1, n);
    BestFound(a, s, lo, lim, pos, sim.best, r, n);
  }

  lemma BestFound(a: Automaton, s: Word, lo: nat, lim: int, pos: nat, best0: Result, r: Sim, n: nat)
    requires lo <= pos < |s| && lim <= pos && Tracks(a, s, lo, lim, pos + 1, r.next)
    requires BestFollows(a.final, best0, r, pos + 1)
    requires if best0.NoMatch? then lim == pos && NoneYet(a, s, lo, lim, pos) else n > 0 && FoundOk(a, s, lo, pos, best0.eo, n)
    ensures match r.best
      case NoMatch => NoneYet(a, s, lo, lim, pos + 1)
      case Match(eo, _) => FoundOk(a, s, lo, pos + 1, eo, n)
  {
    FinalThere(a, s, lo, lim, pos + 1, r.next);
  }

  /** What the main loop returns when started at offset lo. */
  ghost predicate FoundExactly(a: Automaton, s: Word, lo: nat, r: Result, n: nat) {
    match r
    case NoMatch => NoneYet(a, s, lo, |s|, |s|)
    case Match(eo, _) => FoundOk(a, s, lo, |s|, eo, n)
  }

  /** One turn: it ends with the result, or leaves the rest of the run to do. */
  lemma FindsTurn(a: Automaton, dirs: Directions, s: Word, lo: nat, lim: int, pos: nat, sim: Sim, n: nat, r: Result)
      returns (done: bool, lim1: int, sim1: Sim)
    requires SimTagged(sim, n) && LoopInv(a, s, lo, lim, pos, sim, n)
    requires (sim.best.NoMatch? ==> lim == pos - 1) && r == RunFrom(a, dirs, s, pos, sim, n)
    ensures done ==> FoundExactly(a, s, lo, r, n)
    ensures !done ==>
      pos < |s| && SimTagged(sim1, n) && LoopInv(a, s, lo, lim1, pos + 1, sim1, n)
      && (sim1.best.NoMatch? ==> lim1 == pos) && r == RunFrom(a, dirs, s, pos + 1, sim1, n)
  {
    hide RunFrom, Advance, AddInitial, SimTagged;
    RunFromTurn(a, dirs, s, pos, sim, n);
    done, lim1, sim1 := true, lim, sim;
    if sim.best.NoMatch? || (n > 0 && sim.next != []) {
      if sim.best.NoMatch? {
        AddInitialInv(a, s, lo, pos, sim, n);
        sim1, lim1 := AddInitial(a, sim, pos, n), pos;
      }
      if pos < |s| {
        if n == 0 && sim1.best.Match? {
          StopAtOnce(a, dirs, s, pos, sim1);
        } else {
          AdvanceInv(a, dirs, s, lo, lim1, pos, sim1, n);
          AdvanceKeepsMatch(a, dirs, sim1, s[pos], pos + 1, n);
          done, sim1 := false, Advance(a, dirs, sim1, s[pos], pos + 1, n);
        }
      }
    }
  }

  lemma {:induction false} RunFromFinds(a: Automaton, dirs: Directions, s: Word, lo: nat, lim: int, pos: nat, sim: Sim, n: nat,
                                        r: Result)
    requires SimTagged(sim, n) && LoopInv(a, s, lo, lim, pos, sim, n)
    requires (sim.best.NoMatch? ==> lim == pos - 1) && r == RunFrom(a, dirs, s, pos, sim, n)
    ensures FoundExactly(a, s, lo, r, n)
    decreases |s| - pos
  {
    var done, lim1, sim1 := FindsTurn(a, dirs, s, lo, lim, pos, sim, n, r);
    if !done {
      RunFromFinds(a, dirs, s, lo, lim1, pos + 1, sim1, n, r);
    }
  }

  /** Without tags the loop runs once more after an empty match, and then stops with it. */
  lemma StopAtOnce(a: Automaton, dirs: Directions, s: Word, pos: nat, sim: Sim)
    requires pos < |s| && SimTagged(sim, 0) && sim.best.Match?
    ensures var r := RunFrom(a, dirs, s, pos + 1, Advance(a, dirs, sim, s[pos], pos + 1, 0), 0);
      r.Match? && r.eo == sim.best.eo
  {
    VisitAllNoTags(a.final, dirs, sim.best, Arrivals(a, sim.next, s[pos], pos + 1, 0), pos + 1);
  }

  lemma {:induction false} VisitAllNoTags(final: nat, dirs: Directions, best: Result, xs: seq<Entry>, pos: nat)
    requires SimTagged(Sim([], best), 0) && best.Match? && forall x | x in xs :: |x.tags| == 0
    ensures VisitAll(final, dirs, Sim([], best), xs, pos, 0).best == best
    decreases |xs|
  {
    if xs != [] {
      VisitAllNoTags(final, dirs, best, xs[..|xs| - 1], pos);
    }
  }

  // ----- tag 0 is where the match starts -----

  /** Tag 0 is set on every initial transition and on no other. */
  ghost predicate TagZeroAtStart(a: Automaton) {
    && (forall st | st in a.initial :: 0 in st.tags)
    && (forall q, s | 0 <= q < |a.out| && s in a.out[q] :: 0 !in s.tags)
  }

  lemma {:induction false} SetTagsZero(tags: seq<int>, ids: seq<nat>, pos: int)
    requires |tags| > 0
    ensures SetTags(tags, ids, pos)[0] == if 0 in ids then pos else tags[0]
    decreases |ids|
  {
    if ids != [] {
      SetTagsZero(tags, ids[..|ids| - 1], pos);
      assert ids == ids[..|ids| - 1] + [ids[|ids| - 1]];
    }
  }

  ghost predicate TagSound(a: Automaton, s: Word, lo: nat, lim: int, pos: nat, e: Entry) {
    |e.tags| > 0 && Thread(a, s, lo, lim, pos, e.tags[0], e.state)
  }

  ghost predicate TagInv(a: Automaton, s: Word, lo: nat, lim: int, pos: nat, sim: Sim) {
    && lo <= pos <= |s| && lim <= pos
    && DistinctStates(sim.next)
    && (forall e | e in sim.next :: TagSound(a, s, lo, lim, pos, e))
    && (sim.best.Match? ==> StartsAtTag(a, s, lo, sim.best))
  }

  ghost predicate StartsAtTag(a: Automaton, s: Word, lo: nat, best: Result) {
    best.Match? && |best.tags| > 0 && lo <= best.tags[0] && Accepted(a, s, best.tags[0], best.eo)
  }

  lemma SourceOfArrival(a: Automaton, s: Word, lo: nat, lim: int, pos: nat, reach: seq<Entry>, n: nat, x: Entry)
    requires n > 0 && TagZeroAtStart(a) && pos < |s| && lim <= pos
    requires forall e | e in reach :: |e.tags| == n && TagSound(a, s, lo, lim, pos, e)
    requires x in Arrivals(a, reach, s[pos], pos + 1, n)
    ensures TagSound(a, s, lo, lim, pos + 1, x)
  {
    var e, st := ArrivalHasSource(a, reach, s[pos], pos + 1, n, x);
    SetTagsZero(e.tags, st.tags, pos + 1);
    assert HasStep(a, e.state, s[pos], x.state);
    StepThread(a, s, lo, lim, pos, e.tags[0], x.state);
  }

  lemma AdvanceTagInv(a: Automaton, dirs: Directions, s: Word, lo: nat, lim: int, pos: nat, sim: Sim, n: nat)
    requires n > 0 && TagZeroAtStart(a)
    requires SimTagged(sim, n) && TagInv(a, s, lo, lim, pos, sim) && pos < |s|
    ensures TagInv(a, s, lo, lim, pos + 1, Advance(a, dirs, sim, s[pos], pos + 1, n))
  {
    var xs := Arrivals(a, sim.next, s[pos], pos + 1, n);
    var r := Advance(a, dirs, sim, s[pos], pos + 1, n);
    VisitAllCovers(a.final, dirs, sim.best, xs, pos + 1, n);
    VisitAllBest(a.final, dirs, sim.best, xs, pos + 1, n);
    forall x | x in r.next ensures TagSound(a, s, lo, lim, pos + 1, x) {
      SourceOfArrival(a, s, lo, lim, pos, sim.next, n, x);
    }
    FinalStartsAtTag(a, s, lo, lim, pos + 1, r.next);
  }

  lemma FinalStartsAtTag(a: Automaton, s: Word, lo: nat, lim: int, pos: nat, next: seq<Entry>)
    requires pos <= |s| && forall e | e in next :: TagSound(a, s, lo, lim, pos, e)
    ensures Present(next, a.final) ==> StartsAtTag(a, s, lo, Match(pos, next[Find(next, a.final)].tags))
  {
    if Present(next, a.final) {
      assert TagSound(a, s, lo, lim, pos, next[Find(next, a.final)]);
    }
  }

  lemma AddInitialTagInv(a: Automaton, s: Word, lo: nat, pos: nat, sim: Sim, n: nat)
    requires n > 0 && TagZeroAtStart(a) && pos <= |s|
    requires SimTagged(sim, n) && TagInv(a, s, lo, pos - 1, pos, sim) && sim.best.NoMatch?
    ensures TagInv(a, s, lo, pos, pos, AddInitial(a, sim, pos, n))
  {
    var xs := StartEntries(a, pos, n);
    var r := AddInitial(a, sim, pos, n);
    VisitStartsStarted(a.final, sim, xs, pos, n);
    forall e | e in r.next ensures TagSound(a, s, lo, pos, pos, e) {
      if e in sim.next {
        assert TagSound(a, s, lo, pos - 1, pos, e);
      } else {
        var k :| 0 <= k < |xs| && xs[k] == e;
        SetTagsZero(Unset(n), a.initial[k].tags, pos);
        StartIsInitial(a, pos, n, e);
        StartThread(a, s, lo, pos, e.state);
      }
    }
    FinalStartsAtTag(a, s, lo, pos, pos, r.next);
  }

  lemma AdvanceKeepsMatch(a: Automaton, dirs: Directions, sim: Sim, c: nat, pos: nat, n: nat)
    requires SimTagged(sim, n)
    ensures sim.best.Match? ==> Advance(a, dirs, sim, c, pos, n).best.Match?
  {
    VisitAllBest(a.final, dirs, sim.best, Arrivals(a, sim.next, c, pos, n), pos, n);
  }

  lemma {:induction false} RunFromTags(a: Automaton, dirs: Directions, s: Word, lo: nat, lim: int, pos: nat, sim: Sim, n: nat,
                                       r: Result)
    requires n > 0 && TagZeroAtStart(a) && SimTagged(sim, n) && TagInv(a, s, lo, lim, pos, sim)
    requires (sim.best.NoMatch? ==> lim == pos - 1) && r == RunFrom(a, dirs, s, pos, sim, n)
    ensures r.Match? ==> StartsAtTag(a, s, lo, r)
    decreases |s| - pos
  {
    hide RunFrom, Advance, AddInitial, SimTagged, StartsAtTag;
    RunFromTurn(a, dirs, s, pos, sim, n);
    if sim.best.NoMatch? || sim.next != [] {
      var sim1, lim1 := sim, lim;
      if sim.best.NoMatch? {
        AddInitialTagInv(a, s, lo, pos, sim, n);
        sim1, lim1 := AddInitial(a, sim, pos, n), pos;
      }
      if pos < |s| {
        AdvanceTagInv(a, dirs, s, lo, lim1, pos, sim1, n);
        AdvanceKeepsMatch(a, dirs, sim1, s[pos], pos + 1, n);
        RunFromTags(a, dirs, s, lo, lim1, pos + 1, Advance(a, dirs, sim1, s[pos], pos + 1, n), n, r);
      }
    }
  }

  // ----- the whole matcher -----

  lemma {:induction false} PrefixReached(a: Automaton, w: Word, q: nat, k: nat) returns (p: nat)
    requires Reached(a, w, q) && k <= |w|
    ensures Reached(a, w[..k], p)
    decreases |w|
  {
    if k == |w| {
      p := q;
      assert w[..k] == w;
    } else {
      var p': nat :| Reached(a, Front(w), p') && HasStep(a, p', Last(w), q);
      p := PrefixReached(a, Front(w), p', k);
      assert Front(w)[..k] == w[..k];
    }
  }

  /** Bytes below 256. */
  predicate IsBytes(s: Word) { forall i | 0 <= i < |s| :: s[i] < BYTES }

  /** No accepted stretch starts before the first occurrence of the only byte that can start one. */
  lemma SkippedNothing(a: Automaton, tnfa: Tnfa, s: Word, i: int, j: int)
    requires a.final < |a.out| && FirstCharSound(tnfa, a) && tnfa.firstChar >= 0 && IsBytes(s) && Accepted(a, s, i, j)
    ensures i >= FirstByte(s, tnfa.firstChar, 0) && i < |s|
  {
    var w := s[i..j];
    if w != [] {
      var q := PrefixReached(a, w, a.final, 1);
      var first := w[..1];
      assert Front(first) == [] && Last(first) == w[0] == s[i];
      var p: nat :| Reached(a, Front(first), p) && HasStep(a, p, Last(first), q);
      assert IsInitial(a, p);
    }
  }

  /** Where RunParallel starts its loop, or |s| + 1 when it does not. */
  function LoopStart(firstChar: int, s: Word): nat {
    if firstChar < 0 then 0
    else if FirstByte(s, firstChar, 0) == |s| then |s| + 1 else FirstByte(s, firstChar, 0)
  }

  lemma StartTracks(a: Automaton, s: Word, lo: nat)
    requires lo <= |s|
    ensures Tracks(a, s, lo, lo - 1, lo, [])
  {
  }

  /** For any number of tags: a match is reported exactly when some stretch is accepted, and it ends
      where a stretch ends; without tags it is the earliest end of all. */
  lemma ParallelFindsMatch(a: Automaton, tnfa: Tnfa, dirs: Directions, s: Word, n: nat)
    requires Closed(a) && FirstCharSound(tnfa, a) && IsBytes(s)
    ensures var r := RunParallel(a, dirs, tnfa.firstChar, s, n);
      && (r.Match? <==> exists i, j :: Accepted(a, s, i, j))
      && (r.Match? ==> exists i :: Accepted(a, s, i, r.eo))
      && (r.Match? && n == 0 ==> forall i, j | Accepted(a, s, i, j) :: r.eo <= j)
  {
    var r, lo := RunParallel(a, dirs, tnfa.firstChar, s, n), LoopStart(tnfa.firstChar, s);
    forall i, j | Accepted(a, s, i, j) ensures lo <= i {
      if tnfa.firstChar >= 0 {
        SkippedNothing(a, tnfa, s, i, j);
      }
    }
    if lo <= |s| {
      StartTracks(a, s, lo);
      RunFromFinds(a, dirs, s, lo, lo - 1, lo, Sim([], NoMatch), n, r);
      if r.Match? {
        assert SomeEndsAt(a, s, lo, r.eo);
        forall i, j | n == 0 && Accepted(a, s, i, j) ensures r.eo <= j {
          assert NoneYet(a, s, lo, r.eo - 1, r.eo - 1);
        }
      }
    }
  }

  /** For any number of tags, if tag 0 is set on the initial transitions only: the reported span is accepted. */
  lemma ParallelSpanIsAccepted(a: Automaton, tnfa: Tnfa, dirs: Directions, s: Word, n: nat)
    requires n > 0 && Closed(a) && TagZeroAtStart(a)
    ensures var r := RunParallel(a, dirs, tnfa.firstChar, s, n);
      r.Match? ==> |r.tags| > 0 && Accepted(a, s, r.tags[0], r.eo)
  {
    var lo := LoopStart(tnfa.firstChar, s);
    if lo <= |s| {
      RunFromTags(a, dirs, s, lo, lo - 1, lo, Sim([], NoMatch), n, RunParallel(a, dirs, tnfa.firstChar, s, n));
    }
  }
}
