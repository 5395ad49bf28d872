/** When the match of the parallel matcher is the leftmost and, from that start, the longest.

    The order of two arrivals in one state is decided by tre_tag_order on all the tags of the
    pattern.  `Ranked` describes the automata where this order agrees with the order of the reach
    list: tag 0 is where the path started, no other tag is set before the final state, and the
    tags set on entering the final state depend only on which operand of a top-level union the
    path runs in (its rank), an earlier operand winning over a later one. */
module TreLeftmost {
  import opened TreAst
  import opened TreAutomaton
  import opened TreTnfa
  import opened TreParallel

  /** Number of tags, operand of each state, and tags set on entering the final state from each operand. */
  datatype Ranking = Ranking(n: nat, rank: seq<nat>, ends: seq<set<nat>>)

  /** Tag 0 of an entry. */
  function From(e: Entry): int { if |e.tags| > 0 then e.tags[0] else -1 }

  function BestFrom(r: Result): int { if r.Match? && |r.tags| > 0 then r.tags[0] else -1 }

  function RankOf(k: Ranking, q: nat): nat { if q < |k.rank| then k.rank[q] else 0 }

  function EndsOf(k: Ranking, r: nat): set<nat> { if r < |k.ends| then k.ends[r] else {} }

  /** The tags of a path that started at `from` and has not left its operand. */
  function Base(n: nat, from: int): (r: seq<int>)
    ensures |r| == n && forall i | 0 <= i < n :: r[i] == if i == 0 then from else -1
  {
    seq(n, i => if i == 0 then from else -1)
  }

  /** The tags `ids` of a path set to `pos`. */
  function Stamped(tags: seq<int>, ids: set<nat>, pos: int): (r: seq<int>)
    ensures |r| == |tags| && forall i | 0 <= i < |tags| :: r[i] == if i in ids then pos else tags[i]
  {
    seq(|tags|, i requires 0 <= i < |tags| => if i in ids then pos else tags[i])
  }

  lemma {:induction false} SetTagsIsStamped(tags: seq<int>, ids: seq<nat>, marks: set<nat>, pos: int)
    requires forall i | 0 <= i < |tags| :: i in ids <==> i in marks
    ensures SetTags(tags, ids, pos) == Stamped(tags, marks, pos)
    decreases |ids|
  {
    if ids != [] {
      var front, id := ids[..|ids| - 1], ids[|ids| - 1];
      assert ids == front + [id];
      var seen := set i: nat | i in marks && i in front;
      SetTagsIsStamped(tags, front, seen, pos);
      assert SetTags(tags, ids, pos) == Stamped(tags, marks, pos);
    } else {
      assert Stamped(tags, marks, pos) == tags;
    }
  }

  ghost predicate StepRanked(a: Automaton, k: Ranking, q: nat, s: Step) {
    && q != a.final && 0 !in s.tags
    && if s.target == a.final then forall i | 0 <= i < k.n :: i in s.tags <==> i in EndsOf(k, RankOf(k, q))
       else RankOf(k, s.target) == RankOf(k, q) && forall i | 0 <= i < k.n :: i !in s.tags
  }

  ghost predicate StartRanked(a: Automaton, k: Ranking, s: Start) {
    0 in s.tags && (s.target != a.final ==> forall i | 0 < i < k.n :: i !in s.tags)
  }

  /** Entering the final state at one place from a later operand never wins. */
  ghost predicate NeverOvertakes(dirs: Directions, k: Ranking, r1: nat, r2: nat) {
    forall from: int, pos: int | from <= pos && 0 <= pos ::
      !Wins(dirs, Stamped(Base(k.n, from), EndsOf(k, r2), pos), Stamped(Base(k.n, from), EndsOf(k, r1), pos), 0)
  }

  ghost predicate Ranked(a: Automaton, dirs: Directions, k: Ranking) {
    && k.n > 0 && DirectionOf(dirs, 0) == Minimize
    && (forall q, s | 0 <= q < |a.out| && s in a.out[q] :: StepRanked(a, k, q, s))
    && (forall s | s in a.initial :: StartRanked(a, k, s))
    && (forall i, j | 0 <= i < j < |a.initial| && a.initial[i].target != a.final && a.initial[j].target != a.final ::
          RankOf(k, a.initial[i].target) <= RankOf(k, a.initial[j].target))
    && (forall r1: nat, r2: nat | r1 <= r2 :: NeverOvertakes(dirs, k, r1, r2))
  }

  lemma RankedStartsAtZero(a: Automaton, dirs: Directions, k: Ranking)
    requires Ranked(a, dirs, k)
    ensures TagZeroAtStart(a)
  {
    forall q, s | 0 <= q < |a.out| && s in a.out[q] ensures 0 !in s.tags {
      assert StepRanked(a, k, q, s);
    }
    forall s | s in a.initial ensures 0 in s.tags {
      assert StartRanked(a, k, s);
    }
  }

  // ----- the order of the reach list -----

  /** An entry that is not in the final state carries its start and nothing else. */
  predicate Plain(a: Automaton, k: Ranking, e: Entry) {
    |e.tags| == k.n && (e.state != a.final ==> e.tags == Base(k.n, From(e)))
  }

  predicate AllPlain(a: Automaton, k: Ranking, xs: seq<Entry>) { forall x | x in xs :: Plain(a, k, x) }

  /** x may stand before y: it started no later, and y does not win over it. */
  predicate InOrder(a: Automaton, dirs: Directions, k: Ranking, x: Entry, y: Entry) {
    && |x.tags| == |y.tags| && From(x) <= From(y)
    && (x.state == y.state ==> !Wins(dirs, y.tags, x.tags, 0))
    && (x.state != a.final && y.state != a.final && From(x) == From(y) ==> RankOf(k, x.state) <= RankOf(k, y.state))
  }

  predicate Ordered(a: Automaton, dirs: Directions, k: Ranking, xs: seq<Entry>) {
    forall i, j | 0 <= i < j < |xs| :: InOrder(a, dirs, k, xs[i], xs[j])
  }

  lemma {:induction false} NoWinOverSelf(dirs: Directions, t: seq<int>, i: nat)
    ensures !Wins(dirs, t, t, i)
    decreases |t| - i
  {
    if i < |t| {
      NoWinOverSelf(dirs, t, i + 1);
    }
  }

  /** Where a path that has read nothing but its operand arrives. */
  lemma ArrivalTags(a: Automaton, dirs: Directions, k: Ranking, e: Entry, s: Step, c: nat, pos: nat, x: Entry)
    requires Ranked(a, dirs, k) && Plain(a, k, e) && ArrivesFrom(a, e, s, c, pos, x)
    ensures e.state != a.final && Plain(a, k, x) && From(x) == From(e)
    ensures x.state == a.final ==> x.tags == Stamped(Base(k.n, From(e)), EndsOf(k, RankOf(k, e.state)), pos)
    ensures x.state != a.final ==> RankOf(k, x.state) == RankOf(k, e.state)
  {
    assert StepRanked(a, k, e.state, s);
    if s.target == a.final {
      SetTagsIsStamped(e.tags, s.tags, EndsOf(k, RankOf(k, e.state)), pos);
    } else {
      SetTagsIsStamped(e.tags, s.tags, {}, pos);
      assert Stamped(e.tags, {}, pos) == e.tags;
    }
    SetTagsZero(e.tags, s.tags, pos);
  }

  /** Arrivals keep the order of their sources. */
  lemma ArrivalsInOrder(a: Automaton, dirs: Directions, k: Ranking, c: nat, pos: nat,
                        d: Entry, s: Step, x: Entry, e: Entry, t: Step, y: Entry)
    requires Ranked(a, dirs, k) && Plain(a, k, d) && Plain(a, k, e) && (d == e || InOrder(a, dirs, k, d, e))
    requires ArrivesFrom(a, d, s, c, pos, x) && ArrivesFrom(a, e, t, c, pos, y) && From(e) <= pos
    ensures InOrder(a, dirs, k, x, y)
  {
    ArrivalTags(a, dirs, k, d, s, c, pos, x);
    ArrivalTags(a, dirs, k, e, t, c, pos, y);
    if x.state == y.state && From(x) == From(y) {
      if x.state == a.final {
        assert NeverOvertakes(dirs, k, RankOf(k, d.state), RankOf(k, e.state));
      } else {
        NoWinOverSelf(dirs, x.tags, 0);
      }
    }
  }

  /** The arrivals are ordered as the reach list is. */
  lemma {:induction false} ArrivalsOrdered(a: Automaton, dirs: Directions, k: Ranking, reach: seq<Entry>, c: nat, pos: nat)
    requires Ranked(a, dirs, k) && AllPlain(a, k, reach) && Ordered(a, dirs, k, reach)
    requires forall e | e in reach :: From(e) <= pos
    ensures AllPlain(a, k, Arrivals(a, reach, c, pos, k.n)) && Ordered(a, dirs, k, Arrivals(a, reach, c, pos, k.n))
    decreases |reach|
  {
    if reach != [] {
      var front, e := reach[..|reach| - 1], reach[|reach| - 1];
      ArrivalsOrdered(a, dirs, k, front, c, pos);
      var xs := Arrivals(a, front, c, pos, k.n);
      var ys := if e.state < |a.out| then Leaving(a.out[e.state], e.tags, c, pos) else [];
      assert Arrivals(a, reach, c, pos, k.n) == xs + ys;
      forall x, y | (x in xs || x in ys) && y in ys ensures Plain(a, k, y) && InOrder(a, dirs, k, x, y) {
        var t := LeavingHasStep(a, e, c, pos, y);
        ArrivalTags(a, dirs, k, e, t, c, pos, y);
        if x in xs {
          var d, s := ArrivalHasSource(a, front, c, pos, k.n, x);
          var i :| 0 <= i < |front| && front[i] == d;
          assert InOrder(a, dirs, k, reach[i], reach[|reach| - 1]);
          ArrivalsInOrder(a, dirs, k, c, pos, d, s, x, e, t, y);
        } else {
          var s := LeavingHasStep(a, e, c, pos, x);
          ArrivalsInOrder(a, dirs, k, c, pos, e, s, x, e, t, y);
        }
      }
      OrderedJoin(a, dirs, k, xs, ys);
    }
  }

  lemma LeavingHasStep(a: Automaton, e: Entry, c: nat, pos: nat, y: Entry) returns (t: Step)
    requires y in if e.state < |a.out| then Leaving(a.out[e.state], e.tags, c, pos) else []
    ensures ArrivesFrom(a, e, t, c, pos, y)
  {
    LeavingIff(a.out[e.state], e.tags, c, pos, y);
    t :| t in a.out[e.state] && Reads(t, c) && y == Entry(t.target, SetTags(e.tags, t.tags, pos));
  }

  lemma OrderedJoin(a: Automaton, dirs: Directions, k: Ranking, xs: seq<Entry>, ys: seq<Entry>)
    requires Ordered(a, dirs, k, xs)
    requires forall x, y | (x in xs || x in ys) && y in ys :: InOrder(a, dirs, k, x, y)
    ensures Ordered(a, dirs, k, xs + ys)
  {
    var zs := xs + ys;
    forall i, j | 0 <= i < j < |zs| ensures InOrder(a, dirs, k, zs[i], zs[j]) {
      if j < |xs| {
        assert zs[i] == xs[i] && zs[j] == xs[j];
      } else {
        assert zs[j] in ys && zs[i] in zs;
      }
    }
  }

  // ----- the first arrival keeps its state -----

  /** The start of the entry for a state that is present. */
  function StartOf(next: seq<Entry>, q: nat): int
    requires Present(next, q)
  {
    From(next[Find(next, q)])
  }

  /** The match after a step, when the first arrival in a state keeps it. */
  function BestAfter(final: nat, best0: Result, next: seq<Entry>, pos: nat): Result {
    if Present(next, final) && (best0.NoMatch? || StartOf(next, final) <= BestFrom(best0))
    then Match(pos, next[Find(next, final)].tags) else best0
  }

  ghost predicate FirstWins(a: Automaton, dirs: Directions, k: Ranking, best0: Result, r: Sim, xs: seq<Entry>, pos: nat) {
    && Ordered(a, dirs, k, r.next)
    && (forall e | e in r.next :: e in xs)
    && (forall x | x in xs :: Present(r.next, x.state) && StartOf(r.next, x.state) <= From(x))
    && r.best == BestAfter(a.final, best0, r.next, pos)
  }

  lemma OrderedSnoc(a: Automaton, dirs: Directions, k: Ranking, xs: seq<Entry>, x: Entry)
    requires Ordered(a, dirs, k, xs) && forall e | e in xs :: InOrder(a, dirs, k, e, x)
    ensures Ordered(a, dirs, k, xs + [x])
  {
    var zs := xs + [x];
    forall i, j | 0 <= i < j < |zs| ensures InOrder(a, dirs, k, zs[i], zs[j]) {
      assert zs[i] == xs[i] && xs[i] in xs;
      if j < |xs| {
        assert zs[j] == xs[j];
      }
    }
  }

  lemma CoversSnoc(next: seq<Entry>, x: Entry, y: Entry)
    requires !Present(next, x.state)
    requires y == x || (Present(next, y.state) && StartOf(next, y.state) <= From(y))
    ensures Present(next + [x], y.state) && StartOf(next + [x], y.state) <= From(y)
  {
    PresentSnoc(next, x, y.state);
  }

  lemma BestSnoc(final: nat, best0: Result, next: seq<Entry>, x: Entry, pos: nat)
    requires !Present(next, x.state)
    ensures BestAfter(final, best0, next + [x], pos)
         == if x.state != final then BestAfter(final, best0, next, pos)
            else if best0.NoMatch? || From(x) <= BestFrom(best0) then Match(pos, x.tags) else best0
  {
    PresentSnoc(next, x, final);
  }

  lemma AppendFirst(a: Automaton, dirs: Directions, k: Ranking, best0: Result, sim: Sim, front: seq<Entry>, x: Entry, pos: nat)
    requires FirstWins(a, dirs, k, best0, sim, front, pos) && !Present(sim.next, x.state) && k.n > 0
    requires forall y | y in front :: InOrder(a, dirs, k, y, x)
    requires SimTagged(sim, k.n) && |x.tags| == k.n && (best0.Match? ==> |best0.tags| == k.n)
    ensures FirstWins(a, dirs, k, best0, Visit(a.final, dirs, sim, x, pos), front + [x], pos)
  {
    OrderedSnoc(a, dirs, k, sim.next, x);
    forall y | y in front + [x]
      ensures Present(sim.next + [x], y.state) && StartOf(sim.next + [x], y.state) <= From(y)
    {
      CoversSnoc(sim.next, x, y);
    }
    BestSnoc(a.final, best0, sim.next, x, pos);
  }

  /** One more arrival, behind all earlier ones. */
  lemma VisitFirstWins(a: Automaton, dirs: Directions, k: Ranking, best0: Result, sim: Sim, front: seq<Entry>, x: Entry, pos: nat)
    requires k.n > 0 && FirstWins(a, dirs, k, best0, sim, front, pos)
    requires forall y | y in front :: InOrder(a, dirs, k, y, x)
    requires SimTagged(sim, k.n) && |x.tags| == k.n && (best0.Match? ==> |best0.tags| == k.n)
    ensures FirstWins(a, dirs, k, best0, Visit(a.final, dirs, sim, x, pos), front + [x], pos)
  {
    if Present(sim.next, x.state) {
      assert InOrder(a, dirs, k, sim.next[Find(sim.next, x.state)], x);
    } else {
      AppendFirst(a, dirs, k, best0, sim, front, x, pos);
    }
  }

  lemma OrderedFront(a: Automaton, dirs: Directions, k: Ranking, front: seq<Entry>, x: Entry)
    requires Ordered(a, dirs, k, front + [x])
    ensures Ordered(a, dirs, k, front) && forall y | y in front :: InOrder(a, dirs, k, y, x)
  {
    hide InOrder;
    var xs := front + [x];
    forall i, j | 0 <= i < j < |front| ensures InOrder(a, dirs, k, front[i], front[j]) {
      assert InOrder(a, dirs, k, xs[i], xs[j]);
    }
    forall y | y in front ensures InOrder(a, dirs, k, y, x) {
      var i :| 0 <= i < |front| && front[i] == y;
      assert InOrder(a, dirs, k, xs[i], xs[|front|]);
    }
  }

  lemma NoneFirstWins(a: Automaton, dirs: Directions, k: Ranking, best0: Result, pos: nat)
    requires SimTagged(Sim([], best0), k.n)
    ensures FirstWins(a, dirs, k, best0, VisitAll(a.final, dirs, Sim([], best0), [], pos, k.n), [], pos)
  {
  }

  lemma {:induction false} VisitAllFirstWins(a: Automaton, dirs: Directions, k: Ranking, best0: Result, xs: seq<Entry>, pos: nat)
    requires k.n > 0 && SimTagged(Sim([], best0), k.n) && (forall x | x in xs :: |x.tags| == k.n)
    requires Ordered(a, dirs, k, xs)
    ensures FirstWins(a, dirs, k, best0, VisitAll(a.final, dirs, Sim([], best0), xs, pos, k.n), xs, pos)
    decreases |xs|
  {
    hide FirstWins, InOrder, Ordered, Visit, Wins;
    if xs == [] {
      NoneFirstWins(a, dirs, k, best0, pos);
    } else {
      var front, x := xs[..|xs| - 1], xs[|xs| - 1];
      assert front + [x] == xs;
      OrderedFront(a, dirs, k, front, x);
      VisitAllFirstWins(a, dirs, k, best0, front, pos);
      VisitFirstWins(a, dirs, k, best0, VisitAll(a.final, dirs, Sim([], best0), front, pos, k.n), front, x, pos);
    }
  }

  // ----- the invariant of the loop -----

  /** Nothing accepted so far starts further left, or as far left and ends later. */
  ghost predicate BestSoFar(a: Automaton, s: Word, lo: nat, lim: int, pos: nat, best: Result) {
    if best.NoMatch? then NoneYet(a, s, lo, lim, pos)
    else
      && StartsAtTag(a, s, lo, best) && BestFrom(best) <= lim
      && forall i, j | lo <= i <= lim && j <= pos && Accepted(a, s, i, j) ::
           BestFrom(best) < i || (BestFrom(best) == i && j <= best.eo)
  }

  /** Each entry carries the least start of the threads in its state. */
  ghost predicate LeastStart(a: Automaton, s: Word, lo: nat, lim: int, pos: nat, next: seq<Entry>) {
    forall e, i | e in next && Thread(a, s, lo, lim, pos, i, e.state) :: From(e) <= i
  }

  ghost predicate RankedInv(a: Automaton, dirs: Directions, k: Ranking, s: Word, lo: nat, lim: int, pos: nat, sim: Sim) {
    && TagInv(a, s, lo, lim, pos, sim)
    && Tracks(a, s, lo, lim, pos, sim.next)
    && AllPlain(a, k, sim.next) && Ordered(a, dirs, k, sim.next)
    && LeastStart(a, s, lo, lim, pos, sim.next)
    && BestSoFar(a, s, lo, lim, pos, sim.best)
  }

  lemma ThreadBefore(a: Automaton, s: Word, lo: nat, lim: int, pos: nat, i: int, q: nat) returns (p: nat)
    requires pos < |s| && lim <= pos && Thread(a, s, lo, lim, pos + 1, i, q)
    ensures Thread(a, s, lo, lim, pos, i, p) && HasStep(a, p, s[pos], q)
  {
    StepThread(a, s, lo, lim, pos, i, q);
    p :| Thread(a, s, lo, lim, pos, i, p) && HasStep(a, p, s[pos], q);
  }

  lemma EntryArrives(a: Automaton, reach: seq<Entry>, c: nat, pos: nat, n: nat, p: nat, q: nat) returns (y: Entry)
    requires TagZeroAtStart(a) && n > 0 && (forall e | e in reach :: |e.tags| == n) && Present(reach, p) && HasStep(a, p, c, q)
    ensures y in Arrivals(a, reach, c, pos, n) && y.state == q && From(y) == StartOf(reach, p)
  {
    var e := reach[Find(reach, p)];
    assert e in reach;
    var st :| st in a.out[p] && Reads(st, c) && st.target == q;
    y := Entry(q, SetTags(e.tags, st.tags, pos));
    SourceArrives(a, reach, c, pos, n, e, st, y);
    SetTagsZero(e.tags, st.tags, pos);
  }

  /** The arrival that carries the least start of a thread. */
  lemma ThreadArrives(a: Automaton, s: Word, lo: nat, lim: int, pos: nat, reach: seq<Entry>, n: nat, i: int, q: nat) returns (y: Entry)
    requires TagZeroAtStart(a) && n > 0 && (forall e | e in reach :: |e.tags| == n) && pos < |s| && lim <= pos
    requires Tracks(a, s, lo, lim, pos, reach) && LeastStart(a, s, lo, lim, pos, reach)
    requires Thread(a, s, lo, lim, pos + 1, i, q)
    ensures y in Arrivals(a, reach, s[pos], pos + 1, n) && y.state == q && From(y) <= i
  {
    var p := ThreadBefore(a, s, lo, lim, pos, i, q);
    assert Present(reach, p);
    y := EntryArrives(a, reach, s[pos], pos + 1, n, p, q);
    assert reach[Find(reach, p)] in reach;
  }

  lemma AdvanceLeast(a: Automaton, s: Word, lo: nat, lim: int, pos: nat, reach: seq<Entry>, n: nat, next: seq<Entry>)
    requires TagZeroAtStart(a) && n > 0 && (forall e | e in reach :: |e.tags| == n) && pos < |s| && lim <= pos
    requires Tracks(a, s, lo, lim, pos, reach) && LeastStart(a, s, lo, lim, pos, reach)
    requires DistinctStates(next)
    requires forall x | x in Arrivals(a, reach, s[pos], pos + 1, n) :: Present(next, x.state) && StartOf(next, x.state) <= From(x)
    ensures LeastStart(a, s, lo, lim, pos + 1, next)
  {
    var pos' := pos + 1;
    forall x, i | x in next && Thread(a, s, lo, lim, pos', i, x.state) ensures From(x) <= i {
      var y := ThreadArrives(a, s, lo, lim, pos, reach, n, i, x.state);
      var m :| 0 <= m < |next| && next[m] == x;
      FindUnique(next, m);
    }
  }

  lemma AdvanceRanked(a: Automaton, dirs: Directions, k: Ranking, s: Word, lo: nat, lim: int, pos: nat, sim: Sim)
    requires Ranked(a, dirs, k) && SimTagged(sim, k.n) && RankedInv(a, dirs, k, s, lo, lim, pos, sim) && pos < |s|
    ensures RankedInv(a, dirs, k, s, lo, lim, pos + 1, Advance(a, dirs, sim, s[pos], pos + 1, k.n))
  {
    var xs := Arrivals(a, sim.next, s[pos], pos + 1, k.n);
    var r := Advance(a, dirs, sim, s[pos], pos + 1, k.n);
    RankedStartsAtZero(a, dirs, k);
    AdvanceTagInv(a, dirs, s, lo, lim, pos, sim, k.n);
    AdvanceTracks(a, dirs, s, lo, lim, pos, sim, k.n);
    forall e | e in sim.next ensures From(e) <= pos + 1 { assert TagSound(a, s, lo, lim, pos, e); }
    ArrivalsOrdered(a, dirs, k, sim.next, s[pos], pos + 1);
    VisitAllFirstWins(a, dirs, k, sim.best, xs, pos + 1);
    AdvanceLeast(a, s, lo, lim, pos, sim.next, k.n, r.next);
    BestStep(a, s, lo, lim, pos, sim.best, r);
  }

  /** An accepted stretch that ends here starts no earlier than the entry of the final state. */
  lemma FinalIsLeast(a: Automaton, s: Word, lo: nat, lim: int, pos: nat, next: seq<Entry>, i: int)
    requires lim <= pos <= |s| && lo <= i <= lim && Accepted(a, s, i, pos)
    requires Tracks(a, s, lo, lim, pos, next) && LeastStart(a, s, lo, lim, pos, next)
    ensures Present(next, a.final) && StartOf(next, a.final) <= i
  {
    AcceptedThread(a, s, lo, lim, pos, i);
    assert Thread(a, s, lo, lim, pos, i, a.final);
    assert next[Find(next, a.final)] in next;
  }

  /** The match update keeps the best stretch. */
  lemma BestStep(a: Automaton, s: Word, lo: nat, lim: int, pos: nat, best0: Result, r: Sim)
    requires pos < |s| && lim <= pos && BestSoFar(a, s, lo, lim, pos, best0)
    requires r.best == BestAfter(a.final, best0, r.next, pos + 1)
    requires Tracks(a, s, lo, lim, pos + 1, r.next) && LeastStart(a, s, lo, lim, pos + 1, r.next)
    requires forall e | e in r.next :: TagSound(a, s, lo, lim, pos + 1, e)
    ensures BestSoFar(a, s, lo, lim, pos + 1, r.best)
  {
    if Present(r.next, a.final) {
      var f := r.next[Find(r.next, a.final)];
      assert TagSound(a, s, lo, lim, pos + 1, f);
      NewBest(a, s, lo, lim, pos, best0, r.next, f.tags);
    } else {
      forall i, j | lo <= i <= lim && j <= pos + 1 && Accepted(a, s, i, j) ensures j <= pos {
        if j == pos + 1 {
          FinalIsLeast(a, s, lo, lim, pos + 1, r.next, i);
        }
      }
    }
  }

  /** A match that ends here, against the best one before. */
  lemma NewBest(a: Automaton, s: Word, lo: nat, lim: int, pos: nat, best0: Result, next: seq<Entry>, tags: seq<int>)
    requires pos < |s| && lim <= pos && BestSoFar(a, s, lo, lim, pos, best0)
    requires Tracks(a, s, lo, lim, pos + 1, next) && LeastStart(a, s, lo, lim, pos + 1, next)
    requires Present(next, a.final) && next[Find(next, a.final)].tags == tags
    requires |tags| > 0 && lo <= tags[0] <= lim && Accepted(a, s, tags[0], pos + 1)
    ensures BestSoFar(a, s, lo, lim, pos + 1, BestAfter(a.final, best0, next, pos + 1))
  {
    hide RunFrom, Accepts, Find;
    var best := BestAfter(a.final, best0, next, pos + 1);
    assert StartsAtTag(a, s, lo, best);
    forall i, j | lo <= i <= lim && j <= pos + 1 && Accepted(a, s, i, j)
      ensures BestFrom(best) < i || (BestFrom(best) == i && j <= best.eo)
    {
      if j == pos + 1 {
        FinalIsLeast(a, s, lo, lim, pos + 1, next, i);
      }
    }
  }

  // ----- the initial states -----

  lemma StartIsPlain(a: Automaton, dirs: Directions, k: Ranking, st: Start, pos: nat)
    requires Ranked(a, dirs, k) && st in a.initial
    ensures Plain(a, k, StartEntry(st, pos, k.n)) && From(StartEntry(st, pos, k.n)) == pos
  {
    assert StartRanked(a, k, st);
    SetTagsZero(Unset(k.n), st.tags, pos);
    if st.target != a.final {
      SetTagsIsStamped(Unset(k.n), st.tags, {0}, pos);
      assert Stamped(Unset(k.n), {0}, pos) == Base(k.n, pos);
    }
  }

  /** Two entries that start here and stand in the order of the initial array. */
  lemma StartsInOrder(a: Automaton, dirs: Directions, k: Ranking, pos: nat, i: nat, j: nat)
    requires Ranked(a, dirs, k) && i < j < |a.initial| && a.initial[i].target != a.initial[j].target
    ensures InOrder(a, dirs, k, StartEntry(a.initial[i], pos, k.n), StartEntry(a.initial[j], pos, k.n))
  {
    StartIsPlain(a, dirs, k, a.initial[i], pos);
    StartIsPlain(a, dirs, k, a.initial[j], pos);
  }

  /** An entry from further left stands before one that starts here. */
  lemma OlderInOrder(a: Automaton, dirs: Directions, k: Ranking, pos: nat, e: Entry, st: Start)
    requires Ranked(a, dirs, k) && st in a.initial && Plain(a, k, e) && From(e) < pos
    ensures InOrder(a, dirs, k, e, StartEntry(st, pos, k.n))
  {
    StartIsPlain(a, dirs, k, st, pos);
  }

  /** The list after some of the initial states were added: the old list, then entries that start here. */
  ghost predicate StartsAdded(a: Automaton, dirs: Directions, k: Ranking, old_: seq<Entry>, next: seq<Entry>, pos: nat, upto: nat) {
    && upto <= |a.initial| && old_ <= next && DistinctStates(next) && AllPlain(a, k, next) && Ordered(a, dirs, k, next)
    && forall m | |old_| <= m < |next| :: exists i :: 0 <= i < upto && next[m] == StartEntry(a.initial[i], pos, k.n)
  }

  lemma OneStartAdded(a: Automaton, dirs: Directions, k: Ranking, old_: seq<Entry>, next: seq<Entry>, pos: nat, upto: nat)
    requires Ranked(a, dirs, k) && StartsAdded(a, dirs, k, old_, next, pos, upto) && upto < |a.initial|
    requires forall e | e in old_ :: From(e) < pos
    requires !Present(next, a.initial[upto].target)
    ensures StartsAdded(a, dirs, k, old_, next + [StartEntry(a.initial[upto], pos, k.n)], pos, upto + 1)
  {
    var x := StartEntry(a.initial[upto], pos, k.n);
    var next' := next + [x];
    StartIsPlain(a, dirs, k, a.initial[upto], pos);
    forall m | 0 <= m < |next| ensures InOrder(a, dirs, k, next[m], x) && next[m].state != x.state {
      PresentIff(next, x.state);
      if m < |old_| {
        assert next[m] == old_[m] && old_[m] in old_;
        OlderInOrder(a, dirs, k, pos, next[m], a.initial[upto]);
      } else {
        var i :| 0 <= i < upto && next[m] == StartEntry(a.initial[i], pos, k.n);
        StartsInOrder(a, dirs, k, pos, i, upto);
      }
    }
    assert next'[|next|] == x;
    forall m | |old_| <= m < |next'| ensures exists i :: 0 <= i < upto + 1 && next'[m] == StartEntry(a.initial[i], pos, k.n) {
      if m < |next| {
        var i :| 0 <= i < upto && next[m] == StartEntry(a.initial[i], pos, k.n);
      }
    }
  }

  lemma {:induction false} AllStartsAdded(a: Automaton, dirs: Directions, k: Ranking, sim: Sim, pos: nat, upto: nat)
    requires Ranked(a, dirs, k) && SimTagged(sim, k.n) && upto <= |a.initial|
    requires DistinctStates(sim.next) && AllPlain(a, k, sim.next) && Ordered(a, dirs, k, sim.next)
    requires forall e | e in sim.next :: From(e) < pos
    ensures StartsAdded(a, dirs, k, sim.next,
              VisitStarts(a.final, sim, StartEntries(a, pos, k.n)[..upto], pos, k.n).next, pos, upto)
    decreases upto
  {
    if upto > 0 {
      var xs := StartEntries(a, pos, k.n)[..upto];
      assert xs[..upto - 1] == StartEntries(a, pos, k.n)[..upto - 1];
      AllStartsAdded(a, dirs, k, sim, pos, upto - 1);
      var r := VisitStarts(a.final, sim, xs[..upto - 1], pos, k.n);
      if !Present(r.next, a.initial[upto - 1].target) {
        OneStartAdded(a, dirs, k, sim.next, r.next, pos, upto - 1);
      }
    }
  }

  /** New entries start here, later than all old ones. */
  lemma StartsOrdered(a: Automaton, dirs: Directions, k: Ranking, s: Word, lo: nat, pos: nat, sim: Sim)
    requires Ranked(a, dirs, k) && SimTagged(sim, k.n) && DistinctStates(sim.next)
    requires AllPlain(a, k, sim.next) && Ordered(a, dirs, k, sim.next)
    requires forall e | e in sim.next :: TagSound(a, s, lo, pos - 1, pos, e)
    ensures var next := AddInitial(a, sim, pos, k.n).next;
      && sim.next <= next && DistinctStates(next) && AllPlain(a, k, next) && Ordered(a, dirs, k, next)
      && forall m | |sim.next| <= m < |next| :: From(next[m]) == pos
  {
    forall e | e in sim.next ensures From(e) < pos { assert TagSound(a, s, lo, pos - 1, pos, e); }
    AllStartsAdded(a, dirs, k, sim, pos, |a.initial|);
    assert StartEntries(a, pos, k.n)[..|a.initial|] == StartEntries(a, pos, k.n);
    var next := AddInitial(a, sim, pos, k.n).next;
    forall m | |sim.next| <= m < |next| ensures From(next[m]) == pos {
      var i :| 0 <= i < |a.initial| && next[m] == StartEntry(a.initial[i], pos, k.n);
      StartIsPlain(a, dirs, k, a.initial[i], pos);
    }
  }

  lemma StartsLeast(a: Automaton, s: Word, lo: nat, pos: nat, sim: Sim, r: Sim)
    requires lo <= pos <= |s|
    requires Tracks(a, s, lo, pos - 1, pos, sim.next) && LeastStart(a, s, lo, pos - 1, pos, sim.next)
    requires forall e | e in sim.next :: TagSound(a, s, lo, pos - 1, pos, e)
    requires sim.next <= r.next && DistinctStates(r.next)
    requires forall k | |sim.next| <= k < |r.next| :: From(r.next[k]) == pos
    ensures LeastStart(a, s, lo, pos, pos, r.next)
  {
    forall e, i | e in r.next && Thread(a, s, lo, pos, pos, i, e.state) ensures From(e) <= i {
      ThreadWider(a, s, lo, pos, i, e.state);
      var k :| 0 <= k < |r.next| && r.next[k] == e;
      if Thread(a, s, lo, pos - 1, pos, i, e.state) {
        var m := Find(sim.next, e.state);
        assert r.next[m] == sim.next[m];
        assert k == m && sim.next[m] in sim.next;
      } else if k < |sim.next| {
        assert r.next[k] == sim.next[k] && sim.next[k] in sim.next;
        assert TagSound(a, s, lo, pos - 1, pos, sim.next[k]);
      }
    }
  }

  lemma AddInitialRanked(a: Automaton, dirs: Directions, k: Ranking, s: Word, lo: nat, pos: nat, sim: Sim)
    requires Ranked(a, dirs, k) && pos <= |s|
    requires SimTagged(sim, k.n) && RankedInv(a, dirs, k, s, lo, pos - 1, pos, sim) && sim.best.NoMatch?
    ensures RankedInv(a, dirs, k, s, lo, pos, pos, AddInitial(a, sim, pos, k.n))
  {
    var r := AddInitial(a, sim, pos, k.n);
    RankedStartsAtZero(a, dirs, k);
    AddInitialTagInv(a, s, lo, pos, sim, k.n);
    AddInitialTracks(a, s, lo, pos, sim, k.n);
    StartsOrdered(a, dirs, k, s, lo, pos, sim);
    StartsLeast(a, s, lo, pos, sim, r);
    VisitStartsStarted(a.final, sim, StartEntries(a, pos, k.n), pos, k.n);
    AddInitialBest(a, s, lo, pos, sim, r);
  }

  lemma AddInitialBest(a: Automaton, s: Word, lo: nat, pos: nat, sim: Sim, r: Sim)
    requires lo <= pos <= |s| && Tracks(a, s, lo, pos - 1, pos, sim.next) && NoneYet(a, s, lo, pos - 1, pos)
    requires Tracks(a, s, lo, pos, pos, r.next) && TagInv(a, s, lo, pos, pos, r)
    requires r.best == if Present(r.next, a.final) && !Present(sim.next, a.final)
                       then Match(pos, r.next[Find(r.next, a.final)].tags) else NoMatch
    ensures BestSoFar(a, s, lo, pos, pos, r.best)
  {
    FinalNotThere(a, s, lo, pos - 1, pos, sim.next);
    FinalThere(a, s, lo, pos, pos, r.next);
    if r.best.Match? {
      assert StartsAtTag(a, s, lo, r.best) && BestFrom(r.best) <= pos;
      assert BestFrom(r.best) < pos ==> !Accepted(a, s, BestFrom(r.best), pos);
    }
  }

  // ----- the loop -----

  /** With no thread left, nothing that starts at or before lim ends later. */
  lemma NoThreadNoMatch(a: Automaton, s: Word, lo: nat, lim: int, pos: nat, i: int, j: int)
    requires lim <= pos <= |s| && Tracks(a, s, lo, lim, pos, [])
    requires lo <= i <= lim && j > pos
    ensures !Accepted(a, s, i, j)
  {
    if Accepted(a, s, i, j) {
      var p := PrefixReached(a, s[i..j], a.final, pos - i);
      assert s[i..j][..pos - i] == s[i..pos];
      assert Thread(a, s, lo, lim, pos, i, p);
    }
  }

  /** The result is the leftmost accepted stretch from lo on, and the longest with that start. */
  ghost predicate LeftmostLongest(a: Automaton, s: Word, lo: nat, r: Result) {
    if r.NoMatch? then forall i, j | lo <= i :: !Accepted(a, s, i, j)
    else
      && StartsAtTag(a, s, lo, r)
      && forall i, j | lo <= i && Accepted(a, s, i, j) :: BestFrom(r) < i || (BestFrom(r) == i && j <= r.eo)
  }

  /** A match is final once no thread is left, and at the end of the string. */
  lemma StoppedLeftmost(a: Automaton, s: Word, lo: nat, lim: int, pos: nat, best: Result)
    requires lim <= pos <= |s| && BestSoFar(a, s, lo, lim, pos, best)
    requires best.Match? && (pos == |s| || Tracks(a, s, lo, lim, pos, []))
    ensures LeftmostLongest(a, s, lo, best)
  {
    forall i, j | lo <= i && Accepted(a, s, i, j)
      ensures BestFrom(best) < i || (BestFrom(best) == i && j <= best.eo)
    {
      if i <= lim && j > pos {
        NoThreadNoMatch(a, s, lo, lim, pos, i, j);
      }
    }
  }

  lemma EndedLeftmost(a: Automaton, s: Word, lo: nat, lim: int, best: Result)
    requires lim <= |s| && BestSoFar(a, s, lo, lim, |s|, best) && (best.NoMatch? ==> lim == |s|)
    ensures LeftmostLongest(a, s, lo, best)
  {
    if best.Match? {
      StoppedLeftmost(a, s, lo, lim, |s|, best);
    } else {
      assert NoneYet(a, s, lo, |s|, |s|);
    }
  }

  /** The two halves of one turn of the loop. */
  lemma TopOfLoop(a: Automaton, dirs: Directions, k: Ranking, s: Word, lo: nat, lim: int, pos: nat, sim: Sim) returns (sim1: Sim, lim1: int)
    requires Ranked(a, dirs, k) && SimTagged(sim, k.n) && RankedInv(a, dirs, k, s, lo, lim, pos, sim)
    requires sim.best.NoMatch? ==> lim == pos - 1
    ensures SimTagged(sim1, k.n) && RankedInv(a, dirs, k, s, lo, lim1, pos, sim1) && (sim1.best.NoMatch? ==> lim1 == pos)
    ensures sim1 == if sim.best.NoMatch? then AddInitial(a, sim, pos, k.n) else sim
  {
    if sim.best.NoMatch? {
      AddInitialRanked(a, dirs, k, s, lo, pos, sim);
      sim1, lim1 := AddInitial(a, sim, pos, k.n), pos;
    } else {
      sim1, lim1 := sim, lim;
    }
  }

  lemma BottomOfLoop(a: Automaton, dirs: Directions, k: Ranking, s: Word, lo: nat, lim: int, pos: nat, sim: Sim) returns (sim1: Sim)
    requires Ranked(a, dirs, k) && SimTagged(sim, k.n) && RankedInv(a, dirs, k, s, lo, lim, pos, sim) && pos < |s|
    requires sim.best.NoMatch? ==> lim == pos
    ensures SimTagged(sim1, k.n) && RankedInv(a, dirs, k, s, lo, lim, pos + 1, sim1) && (sim1.best.NoMatch? ==> lim == pos)
    ensures sim1 == Advance(a, dirs, sim, s[pos], pos + 1, k.n)
  {
    hide RunFrom, Ranked, RankedInv, Advance;
    AdvanceRanked(a, dirs, k, s, lo, lim, pos, sim);
    AdvanceKeepsMatch(a, dirs, sim, s[pos], pos + 1, k.n);
    sim1 := Advance(a, dirs, sim, s[pos], pos + 1, k.n);
  }

  /** One turn: it ends with the leftmost match, or leaves the rest of the run to do. */
  lemma LeftmostTurn(a: Automaton, dirs: Directions, k: Ranking, s: Word, lo: nat, lim: int, pos: nat, sim: Sim, r: Result)
      returns (done: bool, lim1: int, sim1: Sim)
    requires Ranked(a, dirs, k) && pos <= |s| && SimTagged(sim, k.n) && RankedInv(a, dirs, k, s, lo, lim, pos, sim)
    requires r == RunFrom(a, dirs, s, pos, sim, k.n)
    requires sim.best.NoMatch? ==> lim == pos - 1
    ensures done ==> LeftmostLongest(a, s, lo, r)
    ensures !done ==>
      pos < |s| && SimTagged(sim1, k.n) && RankedInv(a, dirs, k, s, lo, lim1, pos + 1, sim1)
      && (sim1.best.NoMatch? ==> lim1 == pos) && r == RunFrom(a, dirs, s, pos + 1, sim1, k.n)
  {
    RunFromTurn(a, dirs, s, pos, sim, k.n);
    done, lim1, sim1 := true, lim, sim;
    if sim.best.Match? && sim.next == [] {
      StoppedLeftmost(a, s, lo, lim, pos, sim.best);
    } else {
      sim1, lim1 := TopOfLoop(a, dirs, k, s, lo, lim, pos, sim);
      if pos == |s| {
        EndedLeftmost(a, s, lo, lim1, sim1.best);
      } else {
        sim1 := BottomOfLoop(a, dirs, k, s, lo, lim1, pos, sim1);
        done := false;
      }
    }
  }

  lemma {:induction false} RunFromLeftmost(a: Automaton, dirs: Directions, k: Ranking, s: Word, lo: nat, lim: int, pos: nat,
                                           sim: Sim, r: Result)
    requires Ranked(a, dirs, k) && pos <= |s| && SimTagged(sim, k.n) && RankedInv(a, dirs, k, s, lo, lim, pos, sim)
    requires r == RunFrom(a, dirs, s, pos, sim, k.n)
    requires sim.best.NoMatch? ==> lim == pos - 1
    ensures LeftmostLongest(a, s, lo, r)
    decreases |s| - pos
  {
    hide *;
    var done, lim1, sim1 := LeftmostTurn(a, dirs, k, s, lo, lim, pos, sim, r);
    if !done {
      RunFromLeftmost(a, dirs, k, s, lo, lim1, pos + 1, sim1, r);
    }
  }

  /** On a ranked automaton: leftmost, then longest. */
  lemma RankedIsLeftmostLongest(a: Automaton, tnfa: Tnfa, dirs: Directions, k: Ranking, s: Word)
    requires Closed(a) && FirstCharSound(tnfa, a) && IsBytes(s) && Ranked(a, dirs, k)
    ensures LeftmostLongest(a, s, 0, RunParallel(a, dirs, tnfa.firstChar, s, k.n))
  {
    hide RunFrom;
    var lo := LoopStart(tnfa.firstChar, s);
    forall i, j | Accepted(a, s, i, j) ensures lo <= i {
      if tnfa.firstChar >= 0 {
        SkippedNothing(a, tnfa, s, i, j);
      }
    }
    if lo <= |s| {
      StartTracks(a, s, lo);
      RunFromLeftmost(a, dirs, k, s, lo, lo - 1, lo, Sim([], NoMatch), RunParallel(a, dirs, tnfa.firstChar, s, k.n));
    }
  }

  /** With one tag, minimized and set on the initial transitions only: leftmost, then longest. */
  lemma OneTagIsLeftmostLongest(a: Automaton, tnfa: Tnfa, dirs: Directions, s: Word)
    requires Closed(a) && FirstCharSound(tnfa, a) && IsBytes(s)
    requires TagZeroAtStart(a) && DirectionOf(dirs, 0) == Minimize && a.out[a.final] == []
    ensures LeftmostLongest(a, s, 0, RunParallel(a, dirs, tnfa.firstChar, s, 1))
  {
    var k := Ranking(1, [], []);
    forall from: int, pos: int | from <= pos && 0 <= pos
      ensures !Wins(dirs, Stamped(Base(1, from), {}, pos), Stamped(Base(1, from), {}, pos), 0)
    {
      NoWinOverSelf(dirs, Stamped(Base(1, from), {}, pos), 0);
    }
    RankedIsLeftmostLongest(a, tnfa, dirs, k, s);
  }
}
