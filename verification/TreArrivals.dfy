/** What one step of the parallel matcher keeps (tre-match-parallel.c, tre-match-utils.h): of the arrivals in a state the
    best one, and the states in the order of their first arrivals. */
module TreArrivals {
  import opened TreAst
  import opened TreParallel

  /** The first tag in which they differ decides: the smaller value if it is minimized, else the greater. */
  ghost predicate Beats(dirs: Directions, t1: seq<int>, t2: seq<int>) { exists i: nat :: BeatsAt(dirs, t1, t2, i) }

  ghost predicate BeatsAt(dirs: Directions, t1: seq<int>, t2: seq<int>, i: nat) {
    && i < |t1| == |t2|
    && (forall j | 0 <= j < i :: t1[j] == t2[j])
    && if i in dirs && dirs[i] == Maximize then t1[i] > t2[i] else t1[i] < t2[i]
  }

  lemma {:induction false} WinsFrom(dirs: Directions, t1: seq<int>, t2: seq<int>, i: nat)
    requires i <= |t1| == |t2| && forall j | 0 <= j < i :: t1[j] == t2[j]
    ensures Wins(dirs, t1, t2, i) <==> Beats(dirs, t1, t2)
    decreases |t1| - i
  {
    if i < |t1| {
      if t1[i] == t2[i] {
        WinsFrom(dirs, t1, t2, i + 1);
      } else {
        assert Wins(dirs, t1, t2, i) <==> BeatsAt(dirs, t1, t2, i);
        assert forall h: nat :: BeatsAt(dirs, t1, t2, h) ==> h == i;
      }
    }
  }

  /** tre_tag_order. */
  lemma WinsExactly(dirs: Directions, t1: seq<int>, t2: seq<int>)
    requires |t1| == |t2|
    ensures Wins(dirs, t1, t2, 0) <==> Beats(dirs, t1, t2)
  {
    WinsFrom(dirs, t1, t2, 0);
  }

  /** Of two different values one beats the other. */
  lemma OneBeats(dirs: Directions, t1: seq<int>, t2: seq<int>)
    requires |t1| == |t2|
    ensures Beats(dirs, t1, t2) || Beats(dirs, t2, t1) || t1 == t2
    ensures !(Beats(dirs, t1, t2) && Beats(dirs, t2, t1))
  {
    if Beats(dirs, t1, t2) && Beats(dirs, t2, t1) {
      BeatsBoth(dirs, t1, t2, t1);
    }
    if t1 != t2 {
      var i := FirstDifference(t1, t2);
      assert BeatsAt(dirs, t1, t2, i) || BeatsAt(dirs, t2, t1, i);
    }
  }

  lemma FirstDifference(t1: seq<int>, t2: seq<int>) returns (i: nat)
    requires |t1| == |t2| && t1 != t2
    ensures i < |t1| && t1[i] != t2[i] && forall j | 0 <= j < i :: t1[j] == t2[j]
  {
    i := 0;
    while i < |t1| && t1[i] == t2[i]
      invariant i <= |t1| && forall j | 0 <= j < i :: t1[j] == t2[j]
    {
      i := i + 1;
    }
  }

  /** What beats a winner beats the loser. */
  lemma BeatsBoth(dirs: Directions, t1: seq<int>, t2: seq<int>, t3: seq<int>)
    requires |t1| == |t2| == |t3| && Beats(dirs, t1, t2) && Beats(dirs, t2, t3)
    ensures Beats(dirs, t1, t3)
  {
    var i: nat :| BeatsAt(dirs, t1, t2, i);
    var j: nat :| BeatsAt(dirs, t2, t3, j);
    var k := if i < j then i else j;
    assert BeatsAt(dirs, t1, t3, k);
  }

  // ----- one step -----

  /** No arrival in the state of an entry beats the entry. */
  ghost predicate HoldsBest(dirs: Directions, next: seq<Entry>, xs: seq<Entry>) {
    forall x, e | x in xs && e in next && e.state == x.state :: !Beats(dirs, x.tags, e.tags)
  }

  /** A state comes before another if it was arrived in before the other was. */
  ghost predicate InOrder(next: seq<Entry>, xs: seq<Entry>) {
    forall i, j | 0 <= i < j < |next| :: ArrivedBefore(xs, next[i].state, next[j].state)
  }

  ghost predicate ArrivedBefore(xs: seq<Entry>, p: nat, q: nat) {
    exists k :: 0 <= k < |xs| && xs[k].state == p && forall h | 0 <= h <= k :: xs[h].state != q
  }

  lemma BeforeStays(xs: seq<Entry>, x: Entry, p: nat, q: nat)
    requires ArrivedBefore(xs, p, q)
    ensures ArrivedBefore(xs + [x], p, q)
  {
    var all := xs + [x];
    var k :| 0 <= k < |xs| && xs[k].state == p && forall h | 0 <= h <= k :: xs[h].state != q;
    assert all[k].state == p && forall h | 0 <= h <= k :: all[h] == xs[h];
  }

  lemma BeforeNew(xs: seq<Entry>, x: Entry, y: Entry)
    requires y in xs && forall z | z in xs :: z.state != x.state
    ensures ArrivedBefore(xs + [x], y.state, x.state)
  {
    var all := xs + [x];
    var k :| 0 <= k < |xs| && xs[k] == y;
    assert all[k].state == y.state && forall h | 0 <= h <= k :: all[h] == xs[h] && all[h] in xs;
  }

  lemma VisitInOrder(final: nat, dirs: Directions, sim: Sim, front: seq<Entry>, x: Entry, pos: nat, n: nat)
    requires SimTagged(sim, n) && |x.tags| == n && Covers(sim.next, front) && InOrder(sim.next, front)
    ensures InOrder(Visit(final, dirs, sim, x, pos).next, front + [x])
  {
    hide Wins, ArrivedBefore;
    var next := Visit(final, dirs, sim, x, pos).next;
    forall i, j | 0 <= i < j < |next| ensures ArrivedBefore(front + [x], next[i].state, next[j].state) {
      if j < |sim.next| {
        assert next[i].state == sim.next[i].state && next[j].state == sim.next[j].state;
        BeforeStays(front, x, next[i].state, next[j].state);
      } else {
        PresentIff(sim.next, x.state);
        assert next == sim.next + [x] && sim.next[i] in front;
        assert forall z | z in front :: Present(sim.next, z.state);
        BeforeNew(front, x, sim.next[i]);
      }
    }
  }

  lemma VisitHoldsBest(final: nat, dirs: Directions, sim: Sim, front: seq<Entry>, x: Entry, pos: nat, n: nat)
    requires SimTagged(sim, n) && |x.tags| == n && (forall y | y in front :: |y.tags| == n)
    requires Covers(sim.next, front) && HoldsBest(dirs, sim.next, front)
    ensures HoldsBest(dirs, Visit(final, dirs, sim, x, pos).next, front + [x])
  {
    hide Wins, Beats;
    var next := Visit(final, dirs, sim, x, pos).next;
    var i := Find(sim.next, x.state);
    OneBeats(dirs, x.tags, x.tags);
    forall y, e | y in front + [x] && e in next && e.state == y.state ensures !Beats(dirs, y.tags, e.tags) {
      if e in sim.next && y in front {
      } else if e in sim.next {
        assert y == x;
        FindUnique(sim.next, Position(sim.next, e));
        WinsExactly(dirs, x.tags, e.tags);
      } else {
        assert e == x;
        if y in front && y != x {
          assert Present(sim.next, y.state);
          Beaten(dirs, y, x, sim.next[i]);
        }
      }
    }
  }

  /** What did not beat the loser does not beat the winner. */
  lemma Beaten(dirs: Directions, y: Entry, x: Entry, e: Entry)
    requires |x.tags| == |y.tags| == |e.tags| && Wins(dirs, x.tags, e.tags, 0) && !Beats(dirs, y.tags, e.tags)
    ensures !Beats(dirs, y.tags, x.tags)
  {
    hide Wins, Beats;
    WinsExactly(dirs, x.tags, e.tags);
    if Beats(dirs, y.tags, x.tags) {
      BeatsBoth(dirs, y.tags, x.tags, e.tags);
    }
  }

  function Position(entries: seq<Entry>, e: Entry): (i: nat)
    requires e in entries
    ensures i < |entries| && entries[i] == e
  {
    if entries[0] == e then 0 else 1 + Position(entries[1..], e)
  }

  /** What a step keeps of its arrivals: each state once, with the tags of an arrival that no other one beats, in the order
      in which they were first arrived in. */
  lemma {:induction false} VisitAllHoldsBest(final: nat, dirs: Directions, best: Result, xs: seq<Entry>, pos: nat, n: nat)
    requires SimTagged(Sim([], best), n) && forall x | x in xs :: |x.tags| == n
    ensures var next := VisitAll(final, dirs, Sim([], best), xs, pos, n).next;
      Covers(next, xs) && HoldsBest(dirs, next, xs) && InOrder(next, xs)
    decreases |xs|
  {
    if xs == [] {
      NothingHeld(final, dirs, best, pos, n);
    } else {
      hide HoldsBest, InOrder, Covers, Visit, Wins, Beats;
      VisitAllCovers(final, dirs, best, xs, pos, n);
      var front, x := xs[..|xs| - 1], xs[|xs| - 1];
      var sim := VisitAll(final, dirs, Sim([], best), front, pos, n);
      VisitAllHoldsBest(final, dirs, best, front, pos, n);
      VisitHoldsBest(final, dirs, sim, front, x, pos, n);
      VisitInOrder(final, dirs, sim, front, x, pos, n);
      assert front + [x] == xs;
      assert VisitAll(final, dirs, Sim([], best), xs, pos, n) == Visit(final, dirs, sim, x, pos);
    }
  }

  lemma NothingHeld(final: nat, dirs: Directions, best: Result, pos: nat, n: nat)
    requires SimTagged(Sim([], best), n)
    ensures var next := VisitAll(final, dirs, Sim([], best), [], pos, n).next;
      Covers(next, []) && HoldsBest(dirs, next, []) && InOrder(next, [])
  {
  }

  /** That determines the list. */
  lemma StepIsUnique(dirs: Directions, a: seq<Entry>, b: seq<Entry>, xs: seq<Entry>, n: nat)
    requires forall x | x in xs :: |x.tags| == n
    requires Covers(a, xs) && HoldsBest(dirs, a, xs) && InOrder(a, xs)
    requires Covers(b, xs) && HoldsBest(dirs, b, xs) && InOrder(b, xs)
    ensures a == b
  {
    hide HoldsBest, Covers, InOrder;
    forall e ensures e in a <==> e in b {
      SameEntry(dirs, a, b, xs, n, e);
      SameEntry(dirs, b, a, xs, n, e);
    }
    CoversDistinct(a, xs);
    CoversDistinct(b, xs);
    SameOrder(a, b, xs);
  }

  lemma CoversDistinct(a: seq<Entry>, xs: seq<Entry>)
    requires Covers(a, xs)
    ensures DistinctStates(a)
  {
  }

  lemma SameEntry(dirs: Directions, a: seq<Entry>, b: seq<Entry>, xs: seq<Entry>, n: nat, e: Entry)
    requires forall x | x in xs :: |x.tags| == n
    requires Covers(a, xs) && HoldsBest(dirs, a, xs) && Covers(b, xs) && HoldsBest(dirs, b, xs)
    ensures e in a ==> e in b
  {
    hide Beats;
    if e in a {
      assert Present(b, e.state);
      PresentIff(b, e.state);
      var f :| f in b && f.state == e.state;
      OneBeats(dirs, e.tags, f.tags);
    }
  }

  lemma {:induction false} SameOrder(a: seq<Entry>, b: seq<Entry>, xs: seq<Entry>)
    requires DistinctStates(a) && InOrder(a, xs) && DistinctStates(b) && InOrder(b, xs)
    requires forall e :: e in a <==> e in b
    ensures a == b
    decreases |a|
  {
    if a == [] || b == [] {
      NoneIn(a);
      NoneIn(b);
    } else {
      SameHead(a, b, xs);
      SameTail(a, b);
      SameOrder(a[1..], b[1..], xs);
    }
  }

  lemma NoneIn(a: seq<Entry>)
    ensures (forall e :: e !in a) ==> a == []
  {
    if a != [] {
      assert a[0] in a;
    }
  }

  lemma SameHead(a: seq<Entry>, b: seq<Entry>, xs: seq<Entry>)
    requires a != [] && b != [] && InOrder(a, xs) && InOrder(b, xs) && forall e :: e in a <==> e in b
    ensures a[0] == b[0]
  {
    assert a[0] in b && b[0] in a;
    var i :| 0 <= i < |b| && b[i] == a[0];
    var j :| 0 <= j < |a| && a[j] == b[0];
    if i > 0 && j > 0 {
      NotBoth(xs, a[0].state, b[0].state);
    }
  }

  lemma NotBoth(xs: seq<Entry>, p: nat, q: nat)
    ensures !(ArrivedBefore(xs, p, q) && ArrivedBefore(xs, q, p))
  {
  }

  lemma SameTail(a: seq<Entry>, b: seq<Entry>)
    requires a != [] && b != [] && a[0] == b[0] && DistinctStates(a) && DistinctStates(b) && forall e :: e in a <==> e in b
    ensures forall e :: e in a[1..] <==> e in b[1..]
  {
    TailHolds(a);
    TailHolds(b);
  }

  lemma TailHolds(a: seq<Entry>)
    requires a != [] && DistinctStates(a)
    ensures forall e :: e in a[1..] <==> e in a && e != a[0]
  {
    forall e ensures e in a[1..] <==> e in a && e != a[0] {
      assert a == [a[0]] + a[1..];
      if e in a[1..] {
        var i :| 0 <= i < |a[1..]| && a[1..][i] == e;
        assert a[i + 1].state == e.state;
      }
    }
  }
}
