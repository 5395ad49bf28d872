/** The backtracking matcher on automata without back references (tre_tnfa_run_backtrack,
    tre-match-backtrack.c): what one attempt explores, and the loop over the starts.

    One attempt is complete: it records the longest accepted stretch from its start. TreRetry shows when
    the loop over the starts gets to the attempt that finds a match. */
module TreBacktrack {
  import opened TreAst
  import opened TreAutomaton
  import opened TreTnfa
  import opened TreParallel
  import opened TreLeftmost

  /** A saved path: tre_backtrack_item_t, and equally the current state. */
  datatype Item = Item(pos: nat, state: nat, tags: seq<int>)

  /** match_eo and match_tags. */
  datatype Best = Best(eo: int, tags: seq<int>)

  /** The best match of an attempt and the offset of the last path explored. */
  datatype Outcome = Outcome(best: Best, last: nat)

  // ----- one attempt -----

  /** The final state is reached: the longer match wins, then the better tags. */
  function Record(dirs: Directions, wantTags: bool, best: Best, it: Item): Best
    requires |best.tags| == |it.tags|
  {
    if best.eo < it.pos || (best.eo == it.pos && wantTags && Wins(dirs, it.tags, best.tags, 0))
    then Best(it.pos, if wantTags then it.tags else best.tags)
    else best
  }

  function ItemOf(e: Entry, pos: nat): Item { Item(pos, e.state, e.tags) }

  /** The first choice is taken at once; the others are pushed and popped in reverse. */
  function Choices(xs: seq<Entry>, pos: nat): (r: seq<Item>)
    ensures |r| == |xs| && forall i | 0 <= i < |xs| :: r[i] == ItemOf(xs[if i == 0 then 0 else |xs| - i], pos)
  {
    seq(|xs|, i requires 0 <= i < |xs| => ItemOf(xs[if i == 0 then 0 else |xs| - i], pos))
  }

  /** The paths one byte further. */
  function Branches(a: Automaton, s: Word, it: Item): seq<Item> {
    if it.pos < |s| && it.state < |a.out|
    then Choices(Leaving(a.out[it.state], it.tags, s[it.pos], it.pos + 1), it.pos + 1) else []
  }

  predicate Fine(s: Word, n: nat, stack: seq<Item>) {
    forall i | 0 <= i < |stack| :: stack[i].pos <= |s| && |stack[i].tags| == n
  }

  lemma BranchesFine(a: Automaton, s: Word, it: Item)
    ensures Fine(s, |it.tags|, Branches(a, s, it))
    ensures it.state < |a.out| ==> |Branches(a, s, it)| <= |a.out[it.state]|
  {
    if it.pos < |s| && it.state < |a.out| {
      var xs := Leaving(a.out[it.state], it.tags, s[it.pos], it.pos + 1);
      LeavingLength(a.out[it.state], it.tags, s[it.pos], it.pos + 1);
      forall i | 0 <= i < |xs| ensures |xs[i].tags| == |it.tags| {
        assert xs[i] in xs;
      }
    }
  }

  lemma {:induction false} LeavingLength(steps: seq<Step>, tags: seq<int>, c: nat, pos: nat)
    ensures |Leaving(steps, tags, c, pos)| <= |steps|
    decreases |steps|
  {
    if steps != [] {
      LeavingLength(steps[..|steps| - 1], tags, c, pos);
    }
  }

  // ----- termination: every branching has fewer branches than the base, one byte further -----

  function MaxOut(out: seq<seq<Step>>): (b: nat)
    ensures forall q | 0 <= q < |out| :: |out[q]| < b
    ensures b > 0
  {
    if out == [] then 1
    else
      var rest := MaxOut(out[..|out| - 1]);
      var last := |out[|out| - 1]| + 1;
      if rest > last then rest else last
  }

  function Pow(b: nat, n: nat): nat { if n == 0 then 1 else b * Pow(b, n - 1) }

  lemma {:induction false} PowPositive(b: nat, n: nat)
    requires b > 0
    ensures Pow(b, n) > 0
  {
    if n > 0 {
      PowPositive(b, n - 1);
      MulPositive(b, Pow(b, n - 1));
    }
  }

  lemma MulPositive(x: nat, y: nat)
    requires x > 0 && y > 0
    ensures x * y > 0
  {
  }

  function ItemCost(b: nat, len: nat, it: Item): nat { if it.pos <= len then Pow(b, len - it.pos) else 0 }

  function Cost(b: nat, len: nat, stack: seq<Item>): nat {
    if stack == [] then 0 else ItemCost(b, len, stack[0]) + Cost(b, len, stack[1..])
  }

  lemma {:induction false} CostJoin(b: nat, len: nat, xs: seq<Item>, ys: seq<Item>)
    ensures Cost(b, len, xs + ys) == Cost(b, len, xs) + Cost(b, len, ys)
  {
    if xs == [] {
      assert xs + ys == ys;
    } else {
      CostJoin(b, len, xs[1..], ys);
      assert (xs + ys)[1..] == xs[1..] + ys;
    }
  }

  lemma {:induction false} CostEqual(b: nat, len: nat, xs: seq<Item>, pos: nat)
    requires pos <= len && forall i | 0 <= i < |xs| :: xs[i].pos == pos
    ensures Cost(b, len, xs) == |xs| * Pow(b, len - pos)
  {
    if xs != [] {
      CostEqual(b, len, xs[1..], pos);
      assert |xs| * Pow(b, len - pos) == (|xs| - 1) * Pow(b, len - pos) + Pow(b, len - pos) by {
        Distribute(|xs| - 1, Pow(b, len - pos));
      }
    }
  }

  lemma Distribute(x: int, y: int)
    ensures (x + 1) * y == x * y + y
  {
  }

  lemma FewerCost(k: nat, b: nat, p: nat)
    requires k < b && p > 0
    ensures k * p < b * p
  {
    assert (b - k) * p > 0;
    assert b * p == k * p + (b - k) * p;
  }

  lemma PowStep(b: nat, n: nat)
    requires n > 0
    ensures Pow(b, n) == b * Pow(b, n - 1)
  {
  }

  lemma BranchPlaces(a: Automaton, s: Word, it: Item)
    requires it.pos <= |s|
    ensures var next := Branches(a, s, it); forall i | 0 <= i < |next| :: next[i].pos == it.pos + 1 <= |s|
    ensures |Branches(a, s, it)| < MaxOut(a.out)
  {
    hide MaxOut, Leaving;
    BranchesFine(a, s, it);
  }

  /** The branches of a path cost less than the path. */
  lemma BranchesCost(a: Automaton, s: Word, b: nat, it: Item)
    requires it.pos <= |s| && b == MaxOut(a.out)
    ensures Cost(b, |s|, Branches(a, s, it)) < Pow(b, |s| - it.pos)
  {
    hide Branches, Pow, MaxOut;
    var next := Branches(a, s, it);
    BranchPlaces(a, s, it);
    PowPositive(b, |s| - it.pos);
    if next != [] {
      assert next[0].pos == it.pos + 1;
      CostEqual(b, |s|, next, it.pos + 1);
      PowPositive(b, |s| - it.pos - 1);
      PowStep(b, |s| - it.pos);
      FewerCost(|next|, b, Pow(b, |s| - it.pos - 1));
    }
  }

  /** Replacing the first path by its branches lowers the cost. */
  lemma StepCost(a: Automaton, s: Word, b: nat, stack: seq<Item>)
    requires stack != [] && stack[0].pos <= |s| && b == MaxOut(a.out)
    ensures Cost(b, |s|, Branches(a, s, stack[0]) + stack[1..]) < Cost(b, |s|, stack)
    ensures Cost(b, |s|, stack[1..]) < Cost(b, |s|, stack)
  {
    hide Branches, Pow, MaxOut;
    PowPositive(b, |s| - stack[0].pos);
    BranchesCost(a, s, b, stack[0]);
    CostJoin(b, |s|, Branches(a, s, stack[0]), stack[1..]);
  }

  lemma FineJoin(s: Word, n: nat, xs: seq<Item>, ys: seq<Item>)
    requires Fine(s, n, xs) && Fine(s, n, ys)
    ensures Fine(s, n, xs + ys)
  {
  }

  /** Where the path stops: at its end, or behind the byte that no transition reads. */
  function StopsAt(s: Word, it: Item, final: nat): nat {
    if it.state == final || it.pos >= |s| then it.pos else it.pos + 1
  }

  /** The paths left after the first one has been taken one step further. */
  function NextStack(a: Automaton, s: Word, stack: seq<Item>): seq<Item>
    requires stack != []
  {
    if stack[0].state == a.final then stack[1..] else Branches(a, s, stack[0]) + stack[1..]
  }

  function NextOutcome(a: Automaton, dirs: Directions, s: Word, wantTags: bool, it: Item, o: Outcome): Outcome
    requires |o.best.tags| == |it.tags|
  {
    Outcome(if it.state == a.final then Record(dirs, wantTags, o.best, it) else o.best, StopsAt(s, it, a.final))
  }

  lemma StackStep(a: Automaton, s: Word, n: nat, stack: seq<Item>)
    requires stack != [] && Fine(s, n, stack)
    ensures Fine(s, n, NextStack(a, s, stack))
    ensures Cost(MaxOut(a.out), |s|, NextStack(a, s, stack)) < Cost(MaxOut(a.out), |s|, stack)
  {
    hide Branches, MaxOut, Pow, Cost;
    StepCost(a, s, MaxOut(a.out), stack);
    BranchesFine(a, s, stack[0]);
    FineJoin(s, n, Branches(a, s, stack[0]), stack[1..]);
  }

  /** An attempt from its remaining paths on, the current one first. */
  ghost function Explore(a: Automaton, dirs: Directions, s: Word, wantTags: bool, stack: seq<Item>, o: Outcome): Outcome
    requires Fine(s, |o.best.tags|, stack)
    decreases Cost(MaxOut(a.out), |s|, stack)
  {
    if stack == [] then o
    else
      StackStep(a, s, |o.best.tags|, stack);
      Explore(a, dirs, s, wantTags, NextStack(a, s, stack), NextOutcome(a, dirs, s, wantTags, stack[0], o))
  }

  function NoBest(n: nat): Best { Best(-1, Unset(n)) }

  lemma ChoicesFine(s: Word, xs: seq<Entry>, pos: nat, n: nat)
    requires pos <= |s| && forall x | x in xs :: |x.tags| == n
    ensures Fine(s, n, Choices(xs, pos))
  {
    forall i | 0 <= i < |xs| ensures |xs[i].tags| == n {
      assert xs[i] in xs;
    }
  }

  /** The attempt that starts at offset `start`. */
  ghost function Attempt(a: Automaton, dirs: Directions, s: Word, wantTags: bool, n: nat, start: nat): Outcome
    requires start <= |s|
  {
    ChoicesFine(s, StartEntries(a, start, n), start, n);
    Explore(a, dirs, s, wantTags, Choices(StartEntries(a, start, n), start), Outcome(NoBest(n), start))
  }

  // ----- what an attempt finds -----

  /** A path from state q to the final state reads w. */
  ghost predicate Leads(a: Automaton, q: nat, w: Word)
    decreases |w|
  {
    if w == [] then q == a.final else exists p: nat :: HasStep(a, q, w[0], p) && Leads(a, p, w[1..])
  }

  lemma LeadsStep(a: Automaton, q: nat, w: Word) returns (p: nat)
    requires w != [] && Leads(a, q, w)
    ensures HasStep(a, q, w[0], p) && Leads(a, p, w[1..])
  {
    p :| HasStep(a, q, w[0], p) && Leads(a, p, w[1..]);
  }

  lemma LeadsNowhere(a: Automaton, q: nat)
    ensures Leads(a, q, []) <==> q == a.final
  {
  }

  lemma ReachedMore(a: Automaton, u: Word, q: nat, c: nat, p: nat)
    requires Reached(a, u, q) && HasStep(a, q, c, p)
    ensures Reached(a, u + [c], p)
  {
    assert Front(u + [c]) == u && Last(u + [c]) == c;
  }

  lemma {:induction false} ReachedThenLeads(a: Automaton, u: Word, q: nat, v: Word)
    requires Reached(a, u, q) && Leads(a, q, v)
    ensures Reached(a, u + v, a.final)
    decreases |v|
  {
    hide *;
    if v == [] {
      LeadsNowhere(a, q);
      assert u + v == u;
    } else {
      var p := LeadsStep(a, q, v);
      ReachedMore(a, u, q, v[0], p);
      ReachedThenLeads(a, u + [v[0]], p, v[1..]);
      assert u + [v[0]] + v[1..] == u + v;
    }
  }

  lemma ReachedBefore(a: Automaton, u: Word, q: nat) returns (r: nat)
    requires u != [] && Reached(a, u, q)
    ensures Reached(a, u[..|u| - 1], r) && HasStep(a, r, u[|u| - 1], q)
  {
    r :| Reached(a, Front(u), r) && HasStep(a, r, Last(u), q);
  }

  lemma ReachedInitially(a: Automaton, q: nat)
    ensures Reached(a, [], q) <==> IsInitial(a, q)
  {
  }

  lemma LeadsMore(a: Automaton, q: nat, c: nat, p: nat, v: Word)
    requires HasStep(a, q, c, p) && Leads(a, p, v)
    ensures Leads(a, q, [c] + v)
  {
    assert ([c] + v)[1..] == v;
  }

  lemma {:induction false} AcceptedLeads(a: Automaton, u: Word, q: nat, v: Word) returns (p: nat)
    requires Reached(a, u, q) && Leads(a, q, v)
    ensures IsInitial(a, p) && Leads(a, p, u + v)
    decreases |u|
  {
    hide *;
    if u == [] {
      p := q;
      ReachedInitially(a, q);
      assert u + v == v;
    } else {
      var r := ReachedBefore(a, u, q);
      LeadsMore(a, r, u[|u| - 1], q, v);
      p := AcceptedLeads(a, u[..|u| - 1], r, [u[|u| - 1]] + v);
      assert u[..|u| - 1] + ([u[|u| - 1]] + v) == u + v;
    }
  }

  /** An accepted stretch ends at j on a continuation of this path. */
  ghost predicate Ends(a: Automaton, s: Word, it: Item, j: int) {
    it.pos <= j <= |s| && Leads(a, it.state, s[it.pos..j])
  }

  ghost predicate SomeEnds(a: Automaton, s: Word, stack: seq<Item>, j: int) {
    exists i :: 0 <= i < |stack| && Ends(a, s, stack[i], j)
  }

  lemma SomeEndsJoin(a: Automaton, s: Word, xs: seq<Item>, ys: seq<Item>, j: int)
    ensures SomeEnds(a, s, xs + ys, j) <==> SomeEnds(a, s, xs, j) || SomeEnds(a, s, ys, j)
  {
    var zs := xs + ys;
    if SomeEnds(a, s, xs, j) {
      var i :| 0 <= i < |xs| && Ends(a, s, xs[i], j);
      assert zs[i] == xs[i];
    }
    if SomeEnds(a, s, ys, j) {
      var i :| 0 <= i < |ys| && Ends(a, s, ys[i], j);
      assert zs[|xs| + i] == ys[i];
    }
    if SomeEnds(a, s, zs, j) {
      var i :| 0 <= i < |zs| && Ends(a, s, zs[i], j);
      if i < |xs| {
        assert xs[i] == zs[i];
      } else {
        assert ys[i - |xs|] == zs[i];
      }
    }
  }

  lemma ChoiceOf(xs: seq<Entry>, pos: nat, x: Entry) returns (i: nat)
    requires x in xs
    ensures i < |xs| && Choices(xs, pos)[i] == ItemOf(x, pos)
  {
    var k :| 0 <= k < |xs| && xs[k] == x;
    i := if k == 0 then 0 else |xs| - k;
  }

  /** The branches of a path end where the path ends. */
  lemma BranchesEnd(a: Automaton, s: Word, it: Item, j: int)
    requires it.state != a.final && it.pos <= |s| && Closed(a)
    ensures Ends(a, s, it, j) <==> SomeEnds(a, s, Branches(a, s, it), j)
  {
    if Ends(a, s, it, j) {
      EndsInBranch(a, s, it, j);
    }
    if SomeEnds(a, s, Branches(a, s, it), j) {
      BranchEnds(a, s, it, j);
    }
  }

  lemma EndsInBranch(a: Automaton, s: Word, it: Item, j: int)
    requires it.state != a.final && Ends(a, s, it, j) && Closed(a)
    ensures SomeEnds(a, s, Branches(a, s, it), j)
  {
    hide Branches, HasStep;
    var w := s[it.pos..j];
    LeadsNowhere(a, it.state);
    var p := LeadsStep(a, it.state, w);
    assert w[0] == s[it.pos] && w[1..] == s[it.pos + 1..j];
    var i := StepBranch(a, s, it, p);
    assert Ends(a, s, Branches(a, s, it)[i], j);
  }

  lemma StepBranch(a: Automaton, s: Word, it: Item, p: nat) returns (i: nat)
    requires it.pos < |s| && HasStep(a, it.state, s[it.pos], p)
    ensures i < |Branches(a, s, it)| && Branches(a, s, it)[i].state == p && Branches(a, s, it)[i].pos == it.pos + 1
  {
    hide Leaving, SetTags, Choices;
    var st :| st in a.out[it.state] && Reads(st, s[it.pos]) && st.target == p;
    var x := Entry(p, SetTags(it.tags, st.tags, it.pos + 1));
    LeavingIff(a.out[it.state], it.tags, s[it.pos], it.pos + 1, x);
    i := ChoiceOf(Leaving(a.out[it.state], it.tags, s[it.pos], it.pos + 1), it.pos + 1, x);
  }

  lemma BranchEnds(a: Automaton, s: Word, it: Item, j: int)
    requires SomeEnds(a, s, Branches(a, s, it), j)
    ensures Ends(a, s, it, j)
  {
    hide Branches, Leads, HasStep;
    var next := Branches(a, s, it);
    var i :| 0 <= i < |next| && Ends(a, s, next[i], j);
    var st := BranchIsStep(a, s, it, i);
    LeadsMore(a, it.state, s[it.pos], next[i].state, s[it.pos + 1..j]);
    assert [s[it.pos]] + s[it.pos + 1..j] == s[it.pos..j];
  }

  lemma ChoiceEntry(xs: seq<Entry>, pos: nat, i: nat) returns (x: Entry)
    requires i < |xs|
    ensures x in xs && Choices(xs, pos)[i] == ItemOf(x, pos)
  {
    x := xs[if i == 0 then 0 else |xs| - i];
  }

  lemma BranchIsStep(a: Automaton, s: Word, it: Item, i: nat) returns (st: Step)
    requires i < |Branches(a, s, it)|
    ensures it.pos < |s| && it.state < |a.out| && st in a.out[it.state] && Reads(st, s[it.pos])
    ensures Branches(a, s, it)[i] == Item(it.pos + 1, st.target, SetTags(it.tags, st.tags, it.pos + 1))
    ensures HasStep(a, it.state, s[it.pos], Branches(a, s, it)[i].state)
  {
    var x := ChoiceEntry(Leaving(a.out[it.state], it.tags, s[it.pos], it.pos + 1), it.pos + 1, i);
    st := LeavingStep(a.out[it.state], it.tags, s[it.pos], it.pos + 1, x);
  }

  lemma LeavingStep(steps: seq<Step>, tags: seq<int>, c: nat, pos: nat, x: Entry) returns (st: Step)
    requires x in Leaving(steps, tags, c, pos)
    ensures st in steps && Reads(st, c) && x == Entry(st.target, SetTags(tags, st.tags, pos))
  {
    LeavingIff(steps, tags, c, pos, x);
    st :| st in steps && Reads(st, c) && x == Entry(st.target, SetTags(tags, st.tags, pos));
  }

  /** No path continues behind the final state. */
  lemma FinalEndsHere(a: Automaton, s: Word, it: Item, j: int)
    requires it.state == a.final && a.final < |a.out| && a.out[a.final] == [] && it.pos <= |s|
    ensures Ends(a, s, it, j) <==> j == it.pos
  {
    if it.pos < j <= |s| {
      NothingLeads(a, s[it.pos..j]);
    }
    assert s[it.pos..it.pos] == [];
  }

  lemma NothingLeads(a: Automaton, w: Word)
    requires w != [] && a.final < |a.out| && a.out[a.final] == []
    ensures !Leads(a, a.final, w)
  {
    assert forall p: nat :: !HasStep(a, a.final, w[0], p);
  }

  /** The longest end on any of the paths. */
  ghost predicate LongestEnd(a: Automaton, s: Word, stack: seq<Item>, before: int, r: int) {
    && before <= r
    && (forall j | SomeEnds(a, s, stack, j) :: j <= r)
    && (r > before ==> SomeEnds(a, s, stack, r))
  }

  /** One step keeps the ends still to be found. */
  lemma StepEnds(a: Automaton, s: Word, stack: seq<Item>, j: int)
    requires stack != [] && stack[0].pos <= |s| && Closed(a) && a.out[a.final] == []
    ensures SomeEnds(a, s, stack, j) <==>
      SomeEnds(a, s, NextStack(a, s, stack), j) || (stack[0].state == a.final && j == stack[0].pos)
  {
    var it, rest := stack[0], stack[1..];
    assert [it] + rest == stack;
    SomeEndsJoin(a, s, [it], rest, j);
    assert SomeEnds(a, s, [it], j) <==> Ends(a, s, it, j) by {
      assert [it][0] == it;
    }
    if it.state == a.final {
      FinalEndsHere(a, s, it, j);
    } else {
      BranchesEnd(a, s, it, j);
      SomeEndsJoin(a, s, Branches(a, s, it), rest, j);
    }
  }

  /** One step keeps the answer. */
  lemma StepLongest(a: Automaton, dirs: Directions, s: Word, wantTags: bool, stack: seq<Item>, o: Outcome, r: int)
    requires stack != [] && Fine(s, |o.best.tags|, stack) && Closed(a) && a.out[a.final] == []
    requires LongestEnd(a, s, NextStack(a, s, stack), NextOutcome(a, dirs, s, wantTags, stack[0], o).best.eo, r)
    ensures LongestEnd(a, s, stack, o.best.eo, r)
  {
    forall j ensures SomeEnds(a, s, stack, j) <==>
      SomeEnds(a, s, NextStack(a, s, stack), j) || (stack[0].state == a.final && j == stack[0].pos)
    {
      StepEnds(a, s, stack, j);
    }
  }

  lemma {:induction false} ExploreFindsLongest(a: Automaton, dirs: Directions, s: Word, wantTags: bool, stack: seq<Item>, o: Outcome,
                                               r: Outcome)
    requires Fine(s, |o.best.tags|, stack) && Closed(a) && a.out[a.final] == []
    requires r == Explore(a, dirs, s, wantTags, stack, o)
    ensures LongestEnd(a, s, stack, o.best.eo, r.best.eo)
    decreases Cost(MaxOut(a.out), |s|, stack)
  {
    if stack != [] {
      StackStep(a, s, |o.best.tags|, stack);
      var next, o1 := NextStack(a, s, stack), NextOutcome(a, dirs, s, wantTags, stack[0], o);
      ExploreFindsLongest(a, dirs, s, wantTags, next, o1, r);
      StepLongest(a, dirs, s, wantTags, stack, o, r.best.eo);
    }
  }

  lemma StartEnds(a: Automaton, s: Word, n: nat, start: nat, j: int)
    requires start <= |s| && SomeEnds(a, s, Choices(StartEntries(a, start, n), start), j)
    ensures Accepted(a, s, start, j)
  {
    hide Leads, Reached, StartEntries, Choices;
    var xs := StartEntries(a, start, n);
    var items := Choices(xs, start);
    var i :| 0 <= i < |items| && Ends(a, s, items[i], j);
    var x := ChoiceEntry(xs, start, i);
    StartIsInitial(a, start, n, x);
    ReachedInitially(a, x.state);
    ReachedThenLeads(a, [], x.state, s[start..j]);
    assert [] + s[start..j] == s[start..j];
  }

  lemma AcceptedIsEnd(a: Automaton, s: Word, n: nat, start: nat, j: int)
    requires start <= |s| && Accepted(a, s, start, j)
    ensures SomeEnds(a, s, Choices(StartEntries(a, start, n), start), j)
  {
    hide Leads, Reached, StartEntries, Choices;
    LeadsNowhere(a, a.final);
    var p := AcceptedLeads(a, s[start..j], a.final, []);
    assert s[start..j] + [] == s[start..j];
    var x := InitialHasStart(a, start, n, p);
    var i := ChoiceOf(StartEntries(a, start, n), start, x);
    assert Ends(a, s, Choices(StartEntries(a, start, n), start)[i], j);
  }

  lemma StartsEnd(a: Automaton, s: Word, n: nat, start: nat, j: int)
    requires start <= |s|
    ensures SomeEnds(a, s, Choices(StartEntries(a, start, n), start), j) <==> Accepted(a, s, start, j)
  {
    hide *;
    if SomeEnds(a, s, Choices(StartEntries(a, start, n), start), j) {
      StartEnds(a, s, n, start, j);
    }
    if Accepted(a, s, start, j) {
      AcceptedIsEnd(a, s, n, start, j);
    }
  }

  /** One attempt records the longest accepted stretch from its start, or -1 when there is none. */
  lemma AttemptIsLongest(a: Automaton, dirs: Directions, s: Word, wantTags: bool, n: nat, start: nat)
    requires Closed(a) && a.out[a.final] == [] && start <= |s|
    ensures var eo := Attempt(a, dirs, s, wantTags, n, start).best.eo;
      && (forall j | Accepted(a, s, start, j) :: j <= eo)
      && (if eo < 0 then eo == -1 else Accepted(a, s, start, eo))
  {
    var items := Choices(StartEntries(a, start, n), start);
    ChoicesFine(s, StartEntries(a, start, n), start, n);
    ExploreFindsLongest(a, dirs, s, wantTags, items, Outcome(NoBest(n), start), Attempt(a, dirs, s, wantTags, n, start));
    forall j ensures SomeEnds(a, s, items, j) <==> Accepted(a, s, start, j) {
      StartsEnd(a, s, n, start, j);
    }
  }

  // ----- tag 0 -----

  ghost predicate AllFrom(stack: seq<Item>, start: int) {
    forall i | 0 <= i < |stack| :: |stack[i].tags| > 0 && stack[i].tags[0] == start
  }

  lemma BranchesFrom(a: Automaton, s: Word, it: Item, start: int)
    requires TagZeroAtStart(a) && |it.tags| > 0 && it.tags[0] == start
    ensures AllFrom(Branches(a, s, it), start)
  {
    var next := Branches(a, s, it);
    forall i | 0 <= i < |next| ensures |next[i].tags| > 0 && next[i].tags[0] == start {
      var st := BranchIsStep(a, s, it, i);
      SetTagsZero(it.tags, st.tags, it.pos + 1);
    }
  }

  /** The match recorded so far starts where the attempt does. */
  ghost predicate BestFromStart(o: Outcome, n: nat, start: int) {
    |o.best.tags| == n > 0 && (o.best.eo >= 0 ==> o.best.tags[0] == start)
  }

  lemma StepFrom(a: Automaton, dirs: Directions, s: Word, stack: seq<Item>, o: Outcome, n: nat, start: int)
    requires stack != [] && Fine(s, n, stack) && TagZeroAtStart(a) && AllFrom(stack, start) && BestFromStart(o, n, start)
    ensures AllFrom(NextStack(a, s, stack), start)
    ensures BestFromStart(NextOutcome(a, dirs, s, true, stack[0], o), n, start)
  {
    BranchesFrom(a, s, stack[0], start);
  }

  lemma {:induction false} ExploreKeepsStart(a: Automaton, dirs: Directions, s: Word, stack: seq<Item>, o: Outcome, n: nat,
                                             start: int, r: Outcome)
    requires Fine(s, n, stack) && TagZeroAtStart(a) && AllFrom(stack, start) && BestFromStart(o, n, start)
    requires r == Explore(a, dirs, s, true, stack, o)
    ensures BestFromStart(r, n, start)
    decreases Cost(MaxOut(a.out), |s|, stack)
  {
    if stack != [] {
      StackStep(a, s, n, stack);
      StepFrom(a, dirs, s, stack, o, n, start);
      var next, o1 := NextStack(a, s, stack), NextOutcome(a, dirs, s, true, stack[0], o);
      ExploreKeepsStart(a, dirs, s, next, o1, n, start, r);
    }
  }

  lemma AttemptStartsAtTag(a: Automaton, dirs: Directions, s: Word, n: nat, start: nat)
    requires TagZeroAtStart(a) && start <= |s| && n > 0
    ensures var r := Attempt(a, dirs, s, true, n, start).best; |r.tags| == n && (r.eo >= 0 ==> r.tags[0] == start)
  {
    var xs := StartEntries(a, start, n);
    ChoicesFine(s, xs, start, n);
    forall i | 0 <= i < |xs| ensures |xs[i].tags| > 0 && xs[i].tags[0] == start {
      SetTagsZero(Unset(n), a.initial[i].tags, start);
    }
    ExploreKeepsStart(a, dirs, s, Choices(xs, start), Outcome(NoBest(n), start), n, start, Attempt(a, dirs, s, true, n, start));
  }

  lemma StepTo(a: Automaton, dirs: Directions, s: Word, wantTags: bool, stack: seq<Item>, o: Outcome, next: seq<Item>, o1: Outcome)
    requires stack != [] && Fine(s, |o.best.tags|, stack)
    requires next == NextStack(a, s, stack) && o1 == NextOutcome(a, dirs, s, wantTags, stack[0], o)
    ensures |o1.best.tags| == |o.best.tags| && Fine(s, |o.best.tags|, next)
    ensures Explore(a, dirs, s, wantTags, stack, o) == Explore(a, dirs, s, wantTags, next, o1)
  {
    StackStep(a, s, |o.best.tags|, stack);
  }

  // ----- the loop over the starts -----

  /** The attempts from `start` on: stop at a match, or when the last path ended at the end of the string. */
  ghost function Attempts(a: Automaton, dirs: Directions, s: Word, wantTags: bool, n: nat, start: nat): (r: Result)
    requires start <= |s|
    decreases |s| - start
  {
    var o := Attempt(a, dirs, s, wantTags, n, start);
    if o.best.eo >= 0 then Match(o.best.eo, o.best.tags)
    else if o.last >= |s| || start == |s| then NoMatch
    else Attempts(a, dirs, s, wantTags, n, start + 1)
  }

  ghost function RunBacktrack(a: Automaton, dirs: Directions, s: Word, wantTags: bool, n: nat): Result {
    Attempts(a, dirs, s, wantTags, n, 0)
  }

  lemma AttemptsTurn(a: Automaton, dirs: Directions, s: Word, wantTags: bool, n: nat, start: nat)
    requires start <= |s|
    ensures var o := Attempt(a, dirs, s, wantTags, n, start);
      Attempts(a, dirs, s, wantTags, n, start)
      == if o.best.eo >= 0 then Match(o.best.eo, o.best.tags)
         else if o.last >= |s| || start == |s| then NoMatch
         else Attempts(a, dirs, s, wantTags, n, start + 1)
  {
  }
}
