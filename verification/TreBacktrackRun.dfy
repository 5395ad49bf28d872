/** The backtracking matcher as the C code runs it: an explicit stack of saved states, the flat
    transition array, and the jumps back to the next start (tre_tnfa_run_backtrack,
    tre-match-backtrack.c), proved to compute TreBacktrack.RunBacktrack. */
module TreBacktrackRun {
  import opened TreAst
  import opened TreAutomaton
  import opened TreTnfa
  import opened TreParallel
  import opened TreMatchUtils
  import opened TreBacktrack
  import opened TreRetry

  /** tre_backtrack_item_t; also the variables of the current path. */
  datatype BackItem = BackItem(pos: int, strByte: nat, state: nat, stateId: nat, nextC: nat, tags: seq<int>)

  /** What GET_NEXT_WCHAR leaves behind at offset pos. */
  predicate InputAt(str: Word, pos: int, strByte: nat, nextC: nat) {
    && 0 <= pos <= |str| && strByte == (if pos < |str| then pos + 1 else |str|)
    && nextC == (if pos < |str| then str[pos] else 0)
  }

  /** GET_NEXT_WCHAR for STR_BYTE with a given length. */
  method GetNextChar(str: Word, pos0: int, strByte0: nat, nextC0: nat) returns (pos: int, strByte: nat, prevC: nat, nextC: nat)
    requires -1 <= pos0 < |str|
    requires if pos0 == -1 then strByte0 == 0 else InputAt(str, pos0, strByte0, nextC0)
    ensures pos == pos0 + 1 && prevC == nextC0 && InputAt(str, pos, strByte, nextC)
  {
    prevC, pos, strByte := nextC0, pos0 + 1, strByte0;
    if pos >= |str| {
      nextC := 0;
    } else {
      nextC := str[strByte];
      strByte := strByte + 1;
    }
  }

  predicate Shows(str: Word, offs: seq<nat>, b: BackItem, it: Item) {
    && b.pos == it.pos && it.state < |offs| && b.state == offs[it.state] && b.tags == it.tags
    && InputAt(str, b.pos, b.strByte, b.nextC)
  }

  /** The stack, its top at the end, and the paths, the next one first. */
  predicate ShowsAll(str: Word, offs: seq<nat>, stack: seq<BackItem>, items: seq<Item>) {
    |stack| == |items| && forall i | 0 <= i < |items| :: Shows(str, offs, stack[|stack| - 1 - i], items[i])
  }

  lemma ShowsPush(str: Word, offs: seq<nat>, stack: seq<BackItem>, items: seq<Item>, b: BackItem, it: Item)
    requires ShowsAll(str, offs, stack, items) && Shows(str, offs, b, it)
    ensures ShowsAll(str, offs, stack + [b], [it] + items)
  {
    var st, xs := stack + [b], [it] + items;
    forall i | 0 <= i < |xs| ensures Shows(str, offs, st[|st| - 1 - i], xs[i]) {
      if i > 0 {
        assert st[|st| - 1 - i] == stack[|stack| - 1 - (i - 1)] && xs[i] == items[i - 1];
      }
    }
  }

  lemma ShowsPop(str: Word, offs: seq<nat>, stack: seq<BackItem>, items: seq<Item>)
    requires ShowsAll(str, offs, stack, items) && items != []
    ensures stack != [] && Shows(str, offs, stack[|stack| - 1], items[0])
    ensures ShowsAll(str, offs, stack[..|stack| - 1], items[1..])
  {
    var st, xs := stack[..|stack| - 1], items[1..];
    assert Shows(str, offs, stack[|stack| - 1 - 0], items[0]);
    forall i | 0 <= i < |xs| ensures Shows(str, offs, st[|st| - 1 - i], xs[i]) {
      assert Shows(str, offs, stack[|stack| - 1 - (i + 1)], items[i + 1]);
    }
  }

  /** Set the tags in `ids` to the position. */
  method SetAll(tags0: seq<int>, ids: seq<nat>, pos: int) returns (tags: seq<int>)
    ensures tags == SetTags(tags0, ids, pos)
  {
    tags := tags0;
    for k := 0 to |ids|
      invariant tags == SetTags(tags0, ids[..k], pos)
    {
      assert ids[..k + 1][..k] == ids[..k];
      if ids[k] < |tags| {
        tags := tags[ids[k] := pos];
      }
    }
    assert ids[..|ids|] == ids;
  }

  // ----- the choices of one step -----

  /** The choices seen so far: the first one is kept aside, the others are on the stack. */
  ghost predicate Taken(str: Word, offs: seq<nat>, first: BackItem, stack: seq<BackItem>, xs: seq<Entry>, pos: nat,
                        rest: seq<Item>)
  {
    xs != [] && Shows(str, offs, first, ItemOf(xs[0], pos)) && ShowsAll(str, offs, stack, Choices(xs, pos)[1..] + rest)
  }

  lemma ChoicesMore(xs: seq<Entry>, x: Entry, pos: nat)
    requires xs != []
    ensures Choices(xs + [x], pos) == [Choices(xs, pos)[0], ItemOf(x, pos)] + Choices(xs, pos)[1..]
  {
  }

  lemma TakenFirst(str: Word, offs: seq<nat>, first: BackItem, stack: seq<BackItem>, x: Entry, pos: nat, rest: seq<Item>)
    requires ShowsAll(str, offs, stack, rest) && Shows(str, offs, first, ItemOf(x, pos))
    ensures Taken(str, offs, first, stack, [x], pos, rest)
  {
    assert Choices([x], pos)[1..] + rest == rest;
  }

  lemma TakenMore(str: Word, offs: seq<nat>, first: BackItem, stack: seq<BackItem>, xs: seq<Entry>, x: Entry, pos: nat,
                  rest: seq<Item>, b: BackItem)
    requires Taken(str, offs, first, stack, xs, pos, rest) && Shows(str, offs, b, ItemOf(x, pos))
    ensures Taken(str, offs, first, stack + [b], xs + [x], pos, rest)
  {
    ChoicesMore(xs, x, pos);
    ShowsPush(str, offs, stack, Choices(xs, pos)[1..] + rest, b, ItemOf(x, pos));
    assert Choices(xs + [x], pos)[1..] + rest == [ItemOf(x, pos)] + (Choices(xs, pos)[1..] + rest);
  }

  /** The whole stack, with the first choice on top. */
  lemma TakenAll(str: Word, offs: seq<nat>, first: BackItem, stack: seq<BackItem>, xs: seq<Entry>, pos: nat, rest: seq<Item>)
    requires Taken(str, offs, first, stack, xs, pos, rest)
    ensures ShowsAll(str, offs, stack + [first], Choices(xs, pos) + rest)
  {
    ShowsPush(str, offs, stack, Choices(xs, pos)[1..] + rest, first, ItemOf(xs[0], pos));
    assert Choices(xs, pos) + rest == [ItemOf(xs[0], pos)] + (Choices(xs, pos)[1..] + rest);
  }

  lemma LeavingPrefix(steps: seq<Step>, k: nat, tags: seq<int>, c: nat, pos: nat)
    requires k < |steps|
    ensures Leaving(steps[..k + 1], tags, c, pos)
         == Leaving(steps[..k], tags, c, pos)
          + if Reads(steps[k], c) then [Entry(steps[k].target, SetTags(tags, steps[k].tags, pos))] else []
  {
    assert steps[..k + 1][..k] == steps[..k];
  }

  lemma LeavingNothing(tags: seq<int>, c: nat, pos: nat)
    ensures Leaving([], tags, c, pos) == []
  {
  }

  /** The transitions of one state on the byte just read: the first match is taken, the others are saved. */
  method TakeTransitions(tnfa: Tnfa, str: Word, at: BackItem, c: nat, stack0: seq<BackItem>, state: nat,
                         ghost offs: seq<nat>, ghost steps: seq<Step>, ghost rest: seq<Item>)
      returns (found: bool, first: BackItem, stack: seq<BackItem>)
    requires HoldsAt(tnfa.transitions, offs, state, steps)
    requires at.pos >= 0 && InputAt(str, at.pos, at.strByte, at.nextC) && ShowsAll(str, offs, stack0, rest)
    ensures var xs := Leaving(steps, at.tags, c, at.pos);
      if found then Taken(str, offs, first, stack, xs, at.pos, rest) else xs == [] && stack == stack0
  {
    hide Leaving, Taken, ShowsAll, Choices, SetTags, HoldsAt;
    found, first, stack := false, at, stack0;
    LeavingNothing(at.tags, c, at.pos);
    assert steps[..0] == [];
    var i := state;
    ghost var n := 0;
    SlotAt(tnfa, offs, state, steps, 0);
    while tnfa.transitions[i] != Null
      invariant 0 <= n <= |steps| && i == state + n < |tnfa.transitions| && (tnfa.transitions[i] == Null <==> n == |steps|)
      invariant var xs := Leaving(steps[..n], at.tags, c, at.pos);
        if found then Taken(str, offs, first, stack, xs, at.pos, rest) else xs == [] && stack == stack0
      decreases |steps| - n
    {
      var t := tnfa.transitions[i];
      SlotAt(tnfa, offs, state, steps, n);
      LeavingPrefix(steps, n, at.tags, c, at.pos);
      ghost var before := Leaving(steps[..n], at.tags, c, at.pos);
      assert before + [] == before;
      if t.codeMin <= c && c <= t.codeMax {
        var tags := SetAll(at.tags, t.tags, at.pos);
        var b := at.(state := t.state, stateId := t.stateId, tags := tags);
        ghost var x := Entry(steps[n].target, tags);
        if !found {
          found, first := true, b;
          TakenFirst(str, offs, b, stack, x, at.pos, rest);
          assert before + [x] == [x];
        } else {
          TakenMore(str, offs, first, stack, before, x, at.pos, rest, b);
          stack := stack + [b];
        }
      }
      i, n := i + 1, n + 1;
      SlotAt(tnfa, offs, state, steps, n);
    }
    assert steps[..n] == steps;
  }

  lemma SlotAt(tnfa: Tnfa, offs: seq<nat>, k: nat, steps: seq<Step>, n: nat)
    requires HoldsAt(tnfa.transitions, offs, k, steps) && n <= |steps|
    ensures k + n < |tnfa.transitions| && (tnfa.transitions[k + n] == Null <==> n == |steps|)
    ensures n < |steps| ==> steps[n].target < |offs| && tnfa.transitions[k + n] == SlotOf(steps[n], offs)
  {
    if n < |steps| {
      assert tnfa.transitions[k + n] == SlotOf(steps[n], offs);
    }
  }

  lemma ShowsNothing(str: Word, offs: seq<nat>)
    ensures ShowsAll(str, offs, [], [])
  {
  }

  /** The initial states: the first is where the attempt starts, the others are saved. */
  method TakeInitial(tnfa: Tnfa, str: Word, at: BackItem, ghost a: Automaton, ghost offs: seq<nat>)
      returns (found: bool, first: BackItem, stack: seq<BackItem>)
    requires Represents(tnfa, a, offs)
    requires at.pos >= 0 && InputAt(str, at.pos, at.strByte, at.nextC) && at.tags == Unset(|at.tags|)
    ensures var xs := StartEntries(a, at.pos, |at.tags|);
      if found then Taken(str, offs, first, stack, xs, at.pos, []) else xs == [] && stack == []
  {
    hide Taken, ShowsAll, Choices, SetTags, Closed, Holds, Injective;
    found, first, stack := false, at, [];
    assert ShowsAll(str, offs, [], []) by { ShowsNothing(str, offs); }
    var i := 0;
    ghost var all := StartEntries(a, at.pos, |at.tags|);
    while tnfa.initial[i] != Null
      invariant 0 <= i <= |a.initial| && (i < |a.initial| ==> tnfa.initial[i] != Null)
      invariant if found then Taken(str, offs, first, stack, all[..i], at.pos, []) else all[..i] == [] && stack == []
      decreases |a.initial| - i
    {
      var t := tnfa.initial[i];
      var tags := SetAll(at.tags, t.tags, at.pos);
      var b := at.(state := t.state, stateId := t.stateId, tags := tags);
      assert all[i] == Entry(a.initial[i].target, tags);
      assert all[..i + 1] == all[..i] + [all[i]];
      if !found {
        found, first := true, b;
        TakenFirst(str, offs, b, stack, all[i], at.pos, []);
        assert [] + [all[i]] == [all[i]];
      } else {
        TakenMore(str, offs, first, stack, all[..i], all[i], at.pos, [], b);
        stack := stack + [b];
      }
      i := i + 1;
    }
    assert all[..i] == all;
  }

  // ----- one attempt -----

  /** The test and the recording in the final state. */
  method RecordMatch(dirs: Directions, wantTags: bool, best: Best, pos: int, tags: seq<int>) returns (best1: Best)
    requires |tags| == |best.tags|
    requires pos >= 0
    ensures forall state: nat :: best1 == Record(dirs, wantTags, best, Item(pos, state, tags))
  {
    best1 := best;
    var wins := false;
    if best.eo == pos && wantTags {
      wins := TagOrder(dirs, tags, best.tags);
    }
    if best.eo < pos || wins {
      best1 := Best(pos, if wantTags then tags else best.tags);
    }
  }

  /** One turn of the match loop: the current path moves on, or another one is fetched from the stack. */
  method OneTurn(tnfa: Tnfa, str: Word, wantTags: bool, cur: BackItem, stack: seq<BackItem>, best: Best,
                 ghost a: Automaton, ghost offs: seq<nat>, ghost items: seq<Item>, ghost last0: nat)
      returns (done: bool, cur1: BackItem, stack1: seq<BackItem>, best1: Best, last: nat)
    requires Represents(tnfa, a, offs) && items != [] && ShowsAll(str, offs, stack + [cur], items)
    requires Fine(str, |best.tags|, items)
    ensures Outcome(best1, last) == NextOutcome(a, tnfa.tagDirections, str, wantTags, items[0], Outcome(best, last0))
    ensures done <==> NextStack(a, str, items) == []
    ensures !done ==> ShowsAll(str, offs, stack1 + [cur1], NextStack(a, str, items))
  {
    hide Leaving, Choices, Taken, ShowsAll, HoldsAt, Represents, Record;
    best1, cur1, stack1, done := best, cur, stack, false;
    ghost var it, rest := items[0], items[1..];
    ShowsPop(str, offs, stack + [cur], items);
    assert (stack + [cur])[..|stack|] == stack;
    FinalState(tnfa, a, offs, it.state);
    var back := true;
    last := cur.pos;
    if cur.state == tnfa.final {
      best1 := RecordMatch(tnfa.tagDirections, wantTags, best, cur.pos, cur.tags);
    } else if cur.pos < |str| {
      var pos, strByte, prevC, nextC := GetNextChar(str, cur.pos, cur.strByte, cur.nextC);
      last := pos;
      var found;
      found, cur1, stack1 := TakeTransitions(tnfa, str, BackItem(pos, strByte, cur.state, cur.stateId, nextC, cur.tags), prevC,
                                             stack, cur.state, offs, a.out[it.state], rest);
      back := !found;
      if found {
        TakenAll(str, offs, cur1, stack1, Leaving(a.out[it.state], it.tags, str[it.pos], pos), pos, rest);
      }
    }
    if back {
      assert NextStack(a, str, items) == rest;
      if stack == [] {
        done := true;
      } else {
        ShowsPop(str, offs, stack, rest);
        cur1, stack1 := stack[|stack| - 1], stack[..|stack| - 1];
        assert stack1 + [cur1] == stack;
      }
    }
  }

  lemma FinalState(tnfa: Tnfa, a: Automaton, offs: seq<nat>, q: nat)
    requires Represents(tnfa, a, offs) && q < |offs|
    ensures |a.out| == |offs| && (offs[q] == tnfa.final <==> q == a.final)
    ensures HoldsAt(tnfa.transitions, offs, offs[q], a.out[q])
  {
  }

  /** All paths from one start; `last` is the offset of the last path explored. */
  method RunAttempt(tnfa: Tnfa, str: Word, wantTags: bool, at: BackItem, ghost a: Automaton, ghost offs: seq<nat>)
      returns (best: Best, last: nat)
    requires Represents(tnfa, a, offs)
    requires at.pos >= 0 && InputAt(str, at.pos, at.strByte, at.nextC) && at.tags == Unset(|at.tags|)
    ensures Outcome(best, last) == Attempt(a, tnfa.tagDirections, str, wantTags, |at.tags|, at.pos)
  {
    hide Leaving, Choices, Taken, ShowsAll, StartEntries, Explore, Represents, NextStack, NextOutcome, Cost, MaxOut;
    var n := |at.tags|;
    var found, cur, stack := TakeInitial(tnfa, str, at, a, offs);
    best, last := Best(-1, at.tags), at.pos;
    ghost var items := Choices(StartEntries(a, at.pos, n), at.pos);
    ghost var r := Attempt(a, tnfa.tagDirections, str, wantTags, n, at.pos);
    ChoicesFine(str, StartEntries(a, at.pos, n), at.pos, n);
    if !found {
      NoChoices(at.pos);
      ExploreNothing(a, tnfa.tagDirections, str, wantTags, Outcome(best, last));
      return;
    }
    TakenAll(str, offs, cur, stack, StartEntries(a, at.pos, n), at.pos, []);
    assert items + [] == items;
    var done := false;
    while !done
      invariant |best.tags| == n && Fine(str, n, items)
      invariant done <==> items == []
      invariant !done ==> ShowsAll(str, offs, stack + [cur], items)
      invariant r == Explore(a, tnfa.tagDirections, str, wantTags, items, Outcome(best, last))
      decreases Cost(MaxOut(a.out), |str|, items), !done
    {
      StackStep(a, str, n, items);
      ghost var o := Outcome(best, last);
      ghost var next := NextStack(a, str, items);
      StepTo(a, tnfa.tagDirections, str, wantTags, items, o, next, NextOutcome(a, tnfa.tagDirections, str, wantTags, items[0], o));
      done, cur, stack, best, last := OneTurn(tnfa, str, wantTags, cur, stack, best, a, offs, items, last);
      items := next;
    }
    ExploreNothing(a, tnfa.tagDirections, str, wantTags, Outcome(best, last));
  }

  lemma NoChoices(pos: nat)
    ensures Choices([], pos) == []
  {
  }

  lemma ExploreNothing(a: Automaton, dirs: Directions, s: Word, wantTags: bool, o: Outcome)
    ensures Explore(a, dirs, s, wantTags, [], o) == o
  {
  }

  lemma RunBacktrackIs(a: Automaton, dirs: Directions, s: Word, wantTags: bool, n: nat)
    ensures RunBacktrack(a, dirs, s, wantTags, n) == Attempts(a, dirs, s, wantTags, n, 0)
  {
  }

  /** From the label retry to the end of the match loop: one attempt, and the test for another one. */
  method Retry(tnfa: Tnfa, str: Word, wantTags: bool, posStart0: int, strByteStart0: nat, nextCStart0: nat,
               ghost a: Automaton, ghost offs: seq<nat>, ghost r: Result)
      returns (again: bool, best: Best, posStart: int, strByteStart: nat, nextCStart: nat)
    requires Represents(tnfa, a, offs) && -1 <= posStart0 < |str|
    requires if posStart0 == -1 then strByteStart0 == 0 else InputAt(str, posStart0, strByteStart0, nextCStart0)
    requires r == Attempts(a, tnfa.tagDirections, str, wantTags, tnfa.numTags, posStart0 + 1)
    ensures posStart == posStart0 + 1 && InputAt(str, posStart, strByteStart, nextCStart)
    ensures again ==> posStart < |str| && r == Attempts(a, tnfa.tagDirections, str, wantTags, tnfa.numTags, posStart + 1)
    ensures !again ==> r == if best.eo >= 0 then Match(best.eo, best.tags) else NoMatch
  {
    hide *;
    var prevC;
    posStart, strByteStart, prevC, nextCStart := GetNextChar(str, posStart0, strByteStart0, nextCStart0);
    var at := BackItem(posStart, strByteStart, 0, 0, nextCStart, Unset(tnfa.numTags));
    var last;
    best, last := RunAttempt(tnfa, str, wantTags, at, a, offs);
    AttemptsTurn(a, tnfa.tagDirections, str, wantTags, tnfa.numTags, posStart);
    again := best.eo < 0 && last < |str|;
    if again {
      AttemptStops(a, tnfa.tagDirections, str, wantTags, tnfa.numTags, posStart);
    }
  }

  /** tre_tnfa_run_backtrack. */
  method TnfaRunBacktrack(tnfa: Tnfa, str: Word, wantTags: bool, ghost a: Automaton, ghost offs: seq<nat>)
      returns (ok: bool, matchEo: int, matchTags: seq<int>)
    requires Represents(tnfa, a, offs)
    ensures var r := RunBacktrack(a, tnfa.tagDirections, str, wantTags, tnfa.numTags);
      ok == r.Match? && (ok ==> matchEo == r.eo && matchTags == r.tags)
  {
    hide *;
    ghost var r := RunBacktrack(a, tnfa.tagDirections, str, wantTags, tnfa.numTags);
    RunBacktrackIs(a, tnfa.tagDirections, str, wantTags, tnfa.numTags);
    var posStart: int, strByteStart: nat, nextCStart: nat := -1, 0, 0;
    var again, best := true, Best(-1, []);
    while again
      invariant -1 <= posStart <= |str| && (again ==> posStart < |str|)
      invariant if posStart == -1 then strByteStart == 0 else InputAt(str, posStart, strByteStart, nextCStart)
      invariant again ==> r == Attempts(a, tnfa.tagDirections, str, wantTags, tnfa.numTags, posStart + 1)
      invariant !again ==> r == if best.eo >= 0 then Match(best.eo, best.tags) else NoMatch
      decreases |str| - posStart, again
    {
      again, best, posStart, strByteStart, nextCStart :=
        Retry(tnfa, str, wantTags, posStart, strByteStart, nextCStart, a, offs, r);
    }
    return best.eo >= 0, best.eo, best.tags;
  }
}
