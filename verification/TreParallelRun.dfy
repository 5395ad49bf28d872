/** tre_tnfa_run_parallel (tre-match-parallel.c) as the array program it is, without minimal
    repetition and assertions, proved to compute TreParallel.RunParallel.

    A tag buffer is a row of one block of memory, named by its number; the C code passes
    buffers around by swapping pointers, here row numbers.  `Owned` says that no row ever
    belongs to two places. */
module TreParallelRun {
  import opened TreAst
  import opened TreAutomaton
  import opened TreExpand
  import opened TreTnfa
  import opened TreParallel
  import opened TreMatchUtils
  import opened Common
  import TreRegisters

  /** tre_tnfa_reach_t: `state` is an index into the transitions, -1 for NULL; `tags` is a row. */
  datatype ReachItem = ReachItem(state: int, tags: nat)

  /** tre_reach_pos_t: `slot` tells whose `tags` pointer in the list under construction is meant. */
  datatype ReachPos = ReachPos(pos: int, slot: nat)

  type Rows = seq<seq<int>>

  // ----- values: how the arrays represent the lists -----

  predicate InStates(entries: seq<Entry>, n: nat) { forall k | 0 <= k < |entries| :: entries[k].state < n }

  /** The first |entries| items are the entries. */
  predicate Shows(items: seq<ReachItem>, rows: Rows, offs: seq<nat>, entries: seq<Entry>) {
    && |entries| <= |items|
    && InStates(entries, |offs|)
    && forall k | 0 <= k < |entries| ::
         && items[k].state == offs[entries[k].state]
         && items[k].tags < |rows| && rows[items[k].tags] == entries[k].tags
  }

  /** To whom a buffer belongs: slot `slot` of list `list` (0 or 1), or, as list 2, tmp_tags. */
  datatype Owner = Owner(list: int, slot: int)

  /** Every buffer belongs to one slot of one list, or is the temporary one; `side` is the number of `reach`. */
  predicate Owned(reach: seq<ReachItem>, next: seq<ReachItem>, tmp: nat, n: nat, owner: seq<Owner>, side: int) {
    && |reach| == |next| == n + 1 && tmp < |owner| && 0 <= side <= 1
    && owner[tmp] == Owner(2, 0)
    && (forall i | 0 <= i < n :: reach[i].tags < |owner| && owner[reach[i].tags] == Owner(side, i))
    && (forall i | 0 <= i < n :: next[i].tags < |owner| && owner[next[i].tags] == Owner(1 - side, i))
  }

  /** reach_pos knows which states are in the list, and where. */
  predicate PosOk(reachPos: seq<ReachPos>, next: seq<Entry>, pos: int) {
    forall q | 0 <= q < |reachPos| ::
      && reachPos[q].pos <= pos
      && (reachPos[q].pos == pos <==> Present(next, q))
      && (Present(next, q) ==> reachPos[q].slot == Find(next, q))
  }

  predicate Widths(rows: Rows, numTags: nat) { forall k | 0 <= k < |rows| :: |rows[k]| == numTags }

  /** The whole state of the list under construction. */
  predicate Building(items: seq<ReachItem>, rows: Rows, reachPos: seq<ReachPos>, offs: seq<nat>, next: seq<Entry>, pos: int) {
    Shows(items, rows, offs, next) && DistinctStates(next) && |reachPos| == |offs| && PosOk(reachPos, next, pos)
  }

  function StateSet(next: seq<Entry>): set<nat> {
    if next == [] then {} else StateSet(next[..|next| - 1]) + {next[|next| - 1].state}
  }

  lemma {:induction false} StateSetIff(next: seq<Entry>, q: nat)
    ensures q in StateSet(next) <==> Present(next, q)
    decreases |next|
  {
    if next != [] {
      var front, last := next[..|next| - 1], next[|next| - 1];
      StateSetIff(front, q);
      assert front + [last] == next;
      PresentSnoc(front, last, q);
    }
  }

  lemma {:induction false} StateSetSize(next: seq<Entry>)
    requires DistinctStates(next)
    ensures |StateSet(next)| == |next|
    decreases |next|
  {
    if next != [] {
      var front, last := next[..|next| - 1], next[|next| - 1];
      StateSetSize(front);
      StateSetIff(front, last.state);
      assert forall i | 0 <= i < |front| :: front[i] == next[i];
    }
  }

  /** A list of distinct states below n has room for one that is not in it. */
  lemma RoomForOne(next: seq<Entry>, q: nat, n: nat)
    requires DistinctStates(next) && InStates(next, n) && q < n && !Present(next, q)
    ensures |next| < n
  {
    StateSetSize(next);
    BelowIff(n);
    forall p | p in StateSet(next) + {q} ensures p in Below(n) { StateSetIff(next, p); }
    StateSetIff(next, q);
    SubsetSize(StateSet(next) + {q}, Below(n));
  }

  lemma BuildingFacts(items: seq<ReachItem>, rows: Rows, reachPos: seq<ReachPos>, offs: seq<nat>, next: seq<Entry>, pos: int)
    requires Building(items, rows, reachPos, offs, next, pos)
    ensures DistinctStates(next) && InStates(next, |offs|) && |next| <= |items| && |reachPos| == |offs|
  {
  }

  /** Adding an entry in the next free slot. */
  lemma AddedEntry(items: seq<ReachItem>, rows: Rows, reachPos: seq<ReachPos>, offs: seq<nat>, next: seq<Entry>,
                   pos: int, x: Entry, row: nat)
    requires Building(items, rows, reachPos, offs, next, pos)
    requires x.state < |offs| && !Present(next, x.state) && |next| < |items|
    requires row < |rows| && rows[row] == x.tags
    ensures Building(items[|next| := ReachItem(offs[x.state], row)], rows,
                     reachPos[x.state := ReachPos(pos, |next|)], offs, next + [x], pos)
  {
    var next', reachPos' := next + [x], reachPos[x.state := ReachPos(pos, |next|)];
    forall q | 0 <= q < |reachPos'|
      ensures reachPos'[q].pos <= pos && (reachPos'[q].pos == pos <==> Present(next', q))
      ensures Present(next', q) ==> reachPos'[q].slot == Find(next', q)
    {
      PresentSnoc(next, x, q);
    }
    forall i, j | 0 <= i < j < |next'| ensures next'[i].state != next'[j].state {
      assert next'[i] == next[i];
    }
  }

  /** Giving an entry another buffer with other tags. */
  lemma ReplacedEntry(items: seq<ReachItem>, rows: Rows, reachPos: seq<ReachPos>, offs: seq<nat>, next: seq<Entry>,
                      pos: int, x: Entry, row: nat)
    requires Building(items, rows, reachPos, offs, next, pos)
    requires Present(next, x.state) && row < |rows| && rows[row] == x.tags
    ensures var i := Find(next, x.state);
      Building(items[i := items[i].(tags := row)], rows, reachPos, offs, next[i := x], pos)
  {
    var i := Find(next, x.state);
    forall q: nat ensures Find(next[i := x], q) == Find(next, q) { FindReplaced(next, i, x, q); }
  }

  /** The lists do not mind a change in a row that is not theirs. */
  lemma ShowsOtherRow(items: seq<ReachItem>, rows: Rows, offs: seq<nat>, entries: seq<Entry>, row: nat, tags: seq<int>)
    requires Shows(items, rows, offs, entries) && row < |rows|
    requires forall k | 0 <= k < |entries| :: items[k].tags != row
    ensures Shows(items, rows[row := tags], offs, entries)
  {
  }

  /** Exchanging the buffer of one slot of the list under construction with the temporary one. */
  lemma OwnedExchange(reach: seq<ReachItem>, next: seq<ReachItem>, tmp: nat, n: nat, owner: seq<Owner>, side: int, k: nat, state: int)
    requires Owned(reach, next, tmp, n, owner, side) && k < n
    ensures Owned(reach, next[k := ReachItem(state, tmp)], next[k].tags, n,
                  owner[tmp := Owner(1 - side, k)][next[k].tags := Owner(2, 0)], side)
  {
  }

  lemma OwnedState(reach: seq<ReachItem>, next: seq<ReachItem>, tmp: nat, n: nat, owner: seq<Owner>, side: int, k: nat, state: int)
    requires Owned(reach, next, tmp, n, owner, side) && k <= n
    ensures Owned(reach, next[k := ReachItem(state, next[k].tags)], tmp, n, owner, side)
  {
  }

  /** The lists of a fresh matcher; `first` is the row of slot 0, and every other row is taken. */
  function FreshItems(n: nat, first: nat): (r: seq<ReachItem>)
    ensures |r| == n + 1 && forall i | 0 <= i < n :: r[i] == ReachItem(-1, 2 * i + first)
  {
    seq(n + 1, i => ReachItem(-1, if 0 <= i < n then 2 * i + first else 0))
  }

  function FreshOwners(n: nat): (r: seq<Owner>)
    ensures |r| == 2 * n + 1 && r[0] == Owner(2, 0)
    ensures forall i | 0 <= i < n :: r[2 * i + 1] == Owner(1, i) && r[2 * i + 2] == Owner(0, i)
  {
    if n == 0 then [Owner(2, 0)] else FreshOwners(n - 1) + [Owner(1, n - 1), Owner(0, n - 1)]
  }

  // ----- the matcher -----

  class ParallelRun {
    const tnfa: Tnfa
    const str: Word
    const numTags: nat
    ghost const a: Automaton
    ghost const offs: seq<nat>

    var rows: array<seq<int>>              // all tag buffers of the allocated block
    var tmpTags: nat
    var reach: array<ReachItem>
    var reachNext: array<ReachItem>
    var reachPos: array<ReachPos>
    var nextLen: nat                       // reach_next_i - reach_next
    var matchEo: int
    var matchTags: seq<int>
    // the variables of GET_NEXT_WCHAR
    var prevC: nat
    var nextC: nat
    var strByte: nat
    var pos: int

    ghost var cur: seq<Entry>              // the entries of reach
    ghost var next: seq<Entry>             // the entries of reach_next
    ghost var owner: seq<Owner>
    ghost var side: int

    ghost predicate Fixed()
      reads this, rows, reach, reachNext, reachPos
    {
      && rows.Length == 2 * |offs| + 1 && reachPos.Length == |offs|
      && reach != reachNext
      && Owned(reach[..], reachNext[..], tmpTags, |offs|, owner, side) && |owner| == rows.Length
      && Widths(rows[..], numTags)
      && |matchTags| == numTags
      && (matchEo == -1 || matchEo >= 0)
    }

    ghost predicate Valid()
      reads this, rows, reach, reachNext, reachPos
    {
      && Fixed()
      && Building(reachNext[..], rows[..], reachPos[..], offs, next, pos)
      && nextLen == |next|
    }

    /** reach still represents the previous list. */
    ghost predicate Reading()
      reads this, rows, reach
    {
      Shows(reach[..], rows[..], offs, cur) && |cur| <= |offs|
    }

    ghost function Best(): Result
      reads this
    {
      if matchEo < 0 then NoMatch else Match(matchEo, matchTags)
    }

    /** The bytes GET_NEXT_WCHAR has read. */
    ghost predicate InputOk()
      reads this
    {
      && 0 <= pos <= |str| && strByte == (if pos < |str| then pos + 1 else |str|)
      && nextC == (if pos < |str| then str[pos] else 0)
    }

    constructor (tnfa: Tnfa, str: Word, numTags: nat, ghost a: Automaton, ghost offs: seq<nat>)
      requires Represents(tnfa, a, offs)
      ensures this.tnfa == tnfa && this.str == str && this.numTags == numTags && this.a == a && this.offs == offs
      ensures Valid() && next == [] && cur == [] && Best() == NoMatch && pos == 0 && |matchTags| == numTags
      ensures fresh(rows) && fresh(reach) && fresh(reachNext) && fresh(reachPos)
      ensures forall q | 0 <= q < reachPos.Length :: reachPos[q].pos == -1
      ensures prevC == nextC == strByte == 0
    {
      this.tnfa, this.str, this.numTags, this.a, this.offs := tnfa, str, numTags, a, offs;
      var n := tnfa.numStates;
      rows := new seq<int>[2 * n + 1](_ => seq(numTags, _ => 0));
      reachNext := new ReachItem[n + 1](i => ReachItem(-1, if 0 <= i < n then 2 * i + 1 else 0));
      reach := new ReachItem[n + 1](i => ReachItem(-1, if 0 <= i < n then 2 * i + 2 else 0));
      reachPos := new ReachPos[n](_ => ReachPos(-1, 0));
      tmpTags, nextLen, matchEo, matchTags := 0, 0, -1, seq(numTags, _ => 0);
      prevC, nextC, strByte, pos := 0, 0, 0, 0;
      cur, next := [], [];
      owner, side := FreshOwners(n), 0;
      new;
      assert reach[..] == FreshItems(n, 2) && reachNext[..] == FreshItems(n, 1);
    }

    /** GET_NEXT_WCHAR for STR_BYTE with a given length. */
    method GetNextChar()
      requires -1 <= pos < |str|
      requires pos >= 0 ==> InputOk()
      requires pos == -1 ==> strByte == 0
      modifies this`prevC, this`nextC, this`pos, this`strByte
      ensures pos == old(pos) + 1 && InputOk()
      ensures old(pos) >= 0 ==> prevC == str[old(pos)]
    {
      prevC := nextC;
      pos := pos + 1;
      if pos >= |str| {
        nextC := 0;
      } else {
        nextC := str[strByte];
        strByte := strByte + 1;
      }
    }

    /** Set the tags in `ids` to the current position, in one buffer. */
    method SetRowTags(row: nat, ids: seq<nat>)
      requires row < rows.Length && |rows[row]| == numTags
      modifies rows
      ensures rows[row] == SetTags(old(rows[row]), ids, pos)
      ensures rows[..] == old(rows[..])[row := rows[row]]
    {
      for k := 0 to |ids|
        invariant rows[row] == SetTags(old(rows[row]), ids[..k], pos)
        invariant rows[..] == old(rows[..])[row := rows[row]]
      {
        assert ids[..k + 1][..k] == ids[..k];
        if ids[k] < numTags {
          rows[row] := rows[row][ids[k] := pos];
        }
      }
      assert ids[..|ids|] == ids;
    }

    /** An unvisited state: it takes the next slot, and the temporary buffer. */
    method AddState(trans: Slot, ghost x: Entry)
      requires Valid() && Reading() && trans.Trans?
      requires x.state == trans.stateId < |offs| && trans.state == offs[x.state] && rows[tmpTags] == x.tags
      requires !Present(next, x.state)
      modifies this`tmpTags, this`owner, this`nextLen, this`next, reachNext, reachPos
      ensures Valid() && Reading()
      ensures next == old(next) + [x]
    {
      hide Building;
      ghost var items, rpos := reachNext[..], reachPos[..];
      BuildingFacts(items, rows[..], rpos, offs, next, pos);
      RoomForOne(next, x.state, |offs|);
      AddedEntry(items, rows[..], rpos, offs, next, pos, x, tmpTags);
      OwnedExchange(reach[..], items, tmpTags, |offs|, owner, side, nextLen, trans.state);
      var tmp := reachNext[nextLen].tags;
      reachNext[nextLen] := ReachItem(trans.state, tmpTags);
      reachPos[trans.stateId] := ReachPos(pos, nextLen);
      assert reachNext[..] == items[nextLen := ReachItem(trans.state, tmpTags)];
      assert reachPos[..] == rpos[x.state := ReachPos(pos, nextLen)];
      owner := owner[tmpTags := Owner(1 - side, nextLen)][tmp := Owner(2, 0)];
      tmpTags := tmp;
      nextLen := nextLen + 1;
      next := next + [x];
    }

    /** A better path to a visited state: exchange its buffer with the temporary one. */
    method ReplaceTags(slot: nat, ghost x: Entry)
      requires Valid() && Reading()
      requires Present(next, x.state) && slot == Find(next, x.state) && rows[tmpTags] == x.tags
      modifies this`tmpTags, this`owner, this`next, reachNext
      ensures Valid() && Reading()
      ensures next == old(next)[slot := x]
    {
      hide Building;
      ghost var items := reachNext[..];
      BuildingFacts(items, rows[..], reachPos[..], offs, next, pos);
      DistinctFits(next, |offs|);
      ReplacedEntry(items, rows[..], reachPos[..], offs, next, pos, x, tmpTags);
      OwnedExchange(reach[..], items, tmpTags, |offs|, owner, side, slot, items[slot].state);
      var tmp := reachNext[slot].tags;
      reachNext[slot] := reachNext[slot].(tags := tmpTags);
      assert reachNext[..] == items[slot := items[slot].(tags := tmpTags)];
      owner := owner[tmpTags := Owner(1 - side, slot)][tmp := Owner(2, 0)];
      tmpTags := tmp;
      next := next[slot := x];
    }

    /** A match that ends here. */
    method NewMatch(tags: seq<int>)
      requires Valid() && Reading() && pos >= 0 && |tags| == numTags
      modifies this`matchEo, this`matchTags
      ensures Valid() && Reading()
      ensures Best() == Match(pos, tags)
    {
      matchEo := pos;
      matchTags := tags;
    }

    /** An unvisited destination. */
    method ArriveFirst(trans: Slot, ghost x: Entry)
      requires Valid() && Reading() && trans.Trans?
      requires x.state == trans.stateId < |offs| && trans.state == offs[x.state] && rows[tmpTags] == x.tags
      requires trans.state == tnfa.final <==> x.state == a.final
      requires pos >= 0 && SimTagged(Sim(next, Best()), numTags) && !Present(next, x.state)
      modifies this`tmpTags, this`owner, this`nextLen, this`matchEo, this`matchTags, this`next, reachNext, reachPos
      ensures Valid() && Reading()
      ensures next == old(next) + [x]
      ensures Best() == if x.state == a.final && (old(Best()).NoMatch? || (numTags > 0 && x.tags[0] <= old(Best()).tags[0]))
                        then Match(pos, x.tags) else old(Best())
    {
      var tags := rows[tmpTags];
      AddState(trans, x);
      if trans.state == tnfa.final && (matchEo == -1 || (numTags > 0 && tags[0] <= matchTags[0])) {
        NewMatch(tags);
      }
    }

    /** Does the path whose tags are in tmp_tags win over the one in `slot`? */
    method NewPathWins(slot: nat) returns (wins: bool)
      requires Valid() && slot < |next|
      ensures |next[slot].tags| == |rows[tmpTags]|
      ensures wins == Wins(tnfa.tagDirections, rows[tmpTags], next[slot].tags, 0)
    {
      assert rows[reachNext[slot].tags] == next[slot].tags;
      wins := TagOrder(tnfa.tagDirections, rows[tmpTags], rows[reachNext[slot].tags]);
    }

    /** A destination that another path has already reached at this position. */
    method ArriveAgain(trans: Slot, slot: nat, ghost x: Entry)
      requires Valid() && Reading() && trans.Trans?
      requires rows[tmpTags] == x.tags && (trans.state == tnfa.final <==> x.state == a.final)
      requires pos >= 0 && Present(next, x.state) && slot == Find(next, x.state)
      modifies this`tmpTags, this`owner, this`matchEo, this`matchTags, this`next, reachNext
      ensures Valid() && Reading()
      ensures |old(next)[slot].tags| == |x.tags|
      ensures var wins := Wins(tnfa.tagDirections, x.tags, old(next)[slot].tags, 0);
        && next == (if wins then old(next)[slot := x] else old(next))
        && Best() == (if wins && x.state == a.final then Match(pos, x.tags) else old(Best()))
    {
      var tags := rows[tmpTags];
      var wins := NewPathWins(slot);
      if wins {
        ReplaceTags(slot, x);
        if trans.state == tnfa.final {
          NewMatch(tags);
        }
      }
    }

    /** The destination of a matching transition, with its tags in tmp_tags. */
    method Arrive(trans: Slot, ghost x: Entry)
      requires Valid() && Reading() && trans.Trans?
      requires x.state == trans.stateId < |offs| && trans.state == offs[x.state] && rows[tmpTags] == x.tags
      requires trans.state == tnfa.final <==> x.state == a.final
      requires pos >= 0 && SimTagged(Sim(next, Best()), numTags)
      modifies this`tmpTags, this`owner, this`nextLen, this`matchEo, this`matchTags, this`next, reachNext, reachPos
      ensures Valid() && Reading()
      ensures Sim(next, Best()) == Visit(a.final, tnfa.tagDirections, old(Sim(next, Best())), x, pos)
    {
      assert |x.tags| == numTags;
      if reachPos[trans.stateId].pos < pos {
        ArriveFirst(trans, x);
      } else {
        assert reachPos[trans.stateId].pos == pos;
        ArriveAgain(trans, reachPos[trans.stateId].slot, x);
      }
    }

    /** tmp_tags after a transition: the tags of the source, with those of the transition set. */
    method TagsAfter(k: nat, ids: seq<nat>)
      requires Valid() && Reading() && k < |cur|
      modifies rows
      ensures Valid() && Reading()
      ensures rows[tmpTags] == SetTags(cur[k].tags, ids, pos)
    {
      ghost var all := rows[..];
      var row := reach[k].tags;
      DistinctFits(next, |offs|);
      for i := 0 to numTags
        invariant rows[..] == all[tmpTags := rows[tmpTags]]
        invariant |rows[tmpTags]| == numTags
        invariant forall j | 0 <= j < i :: rows[tmpTags][j] == cur[k].tags[j]
      {
        assert rows[row] == all[row] == cur[k].tags;
        rows[tmpTags] := rows[tmpTags][i := rows[row][i]];
      }
      assert rows[tmpTags] == cur[k].tags;
      SetRowTags(tmpTags, ids);
      assert rows[..] == all[tmpTags := rows[tmpTags]];
      ShowsOtherRow(reach[..], all, offs, cur, tmpTags, rows[tmpTags]);
      ShowsOtherRow(reachNext[..], all, offs, next, tmpTags, rows[tmpTags]);
    }

    /** What the list under construction and the match must be. */
    ghost predicate At(sim: Sim)
      reads this, rows, reach, reachNext, reachPos
    {
      Valid() && Reading() && SimTagged(sim, numTags) && Sim(next, Best()) == sim
    }

    /** One transition that matches the input symbol. */
    method Take(k: nat, t: Slot, ghost s: Step, ghost sim: Sim)
      requires At(sim) && k < |cur| && pos >= 0
      requires s.target < |offs| && t == SlotOf(s, offs) && (t.state == tnfa.final <==> s.target == a.final)
      modifies this`tmpTags, this`owner, this`nextLen, this`matchEo, this`matchTags, this`next, rows, reachNext, reachPos
      ensures |cur[k].tags| == numTags
      ensures At(Visit(a.final, tnfa.tagDirections, sim, Entry(s.target, SetTags(cur[k].tags, s.tags, pos)), pos))
    {
      hide Building, Wins, Find;
      assert rows[reach[k].tags] == cur[k].tags;
      TagsAfter(k, t.tags);
      Arrive(t, Entry(s.target, rows[tmpTags]));
    }

    /** What the flat array says about the transitions of one state. */
    ghost predicate StepsAt(trans: int, steps: seq<Step>) {
      && trans >= 0 && trans + |steps| < |tnfa.transitions| && tnfa.transitions[trans + |steps|] == Null
      && forall j | 0 <= j < |steps| ::
           && steps[j].target < |offs| && tnfa.transitions[trans + j] == SlotOf(steps[j], offs)
           && (offs[steps[j].target] == tnfa.final <==> steps[j].target == a.final)
    }

    lemma SlotIsStep(trans: int, steps: seq<Step>, j: nat)
      requires StepsAt(trans, steps) && j <= |steps| && tnfa.transitions[trans + j] != Null
      ensures j < |steps| && steps[j].target < |offs| && tnfa.transitions[trans + j] == SlotOf(steps[j], offs)
      ensures offs[steps[j].target] == tnfa.final <==> steps[j].target == a.final
    {
    }

    lemma NullIsEnd(trans: int, steps: seq<Step>, j: nat)
      requires StepsAt(trans, steps) && j <= |steps| && tnfa.transitions[trans + j] == Null
      ensures j == |steps|
    {
      assert j == |steps| || steps[j].codeMin >= 0;
    }

    /** One transition of the state at `k`. */
    method StepOne(k: nat, c: nat, t: Slot, ghost s: Step, ghost sim: Sim) returns (ghost sim1: Sim)
      requires pos >= 0 && At(sim) && k < |cur| && |cur[k].tags| == numTags
      requires s.target < |offs| && t == SlotOf(s, offs) && (t.state == tnfa.final <==> s.target == a.final)
      modifies this`tmpTags, this`owner, this`nextLen, this`matchEo, this`matchTags, this`next, rows, reachNext, reachPos
      ensures At(sim1)
      ensures sim1 == if Reads(s, c) then Visit(a.final, tnfa.tagDirections, sim, Entry(s.target, SetTags(cur[k].tags, s.tags, pos)), pos)
                      else sim
    {
      sim1 := sim;
      if t.codeMin <= c && t.codeMax >= c {
        Take(k, t, s, sim);
        sim1 := Visit(a.final, tnfa.tagDirections, sim, Entry(s.target, SetTags(cur[k].tags, s.tags, pos)), pos);
      }
    }

    /** The transitions of one state of `reach` that match the input symbol. */
    method StepState(k: nat, c: nat, ghost steps: seq<Step>, ghost sim0: Sim)
      requires pos >= 0 && At(sim0) && SimTagged(sim0, numTags)
      requires k < |cur| && |cur[k].tags| == numTags && StepsAt(reach[k].state, steps)
      modifies this`tmpTags, this`owner, this`nextLen, this`matchEo, this`matchTags, this`next, rows, reachNext, reachPos
      ensures At(VisitAll(a.final, tnfa.tagDirections, sim0, Leaving(steps, cur[k].tags, c, pos), pos, numTags))
    {
      hide Building, Visit, Wins, RunFrom, Advance;
      var trans, j := reach[k].state, 0;
      ghost var sim := sim0;
      while tnfa.transitions[trans + j] != Null
        invariant 0 <= j <= |steps|
        invariant sim == VisitAll(a.final, tnfa.tagDirections, sim0, Leaving(steps[..j], cur[k].tags, c, pos), pos, numTags)
        invariant At(sim)
        decreases |steps| - j
      {
        SlotIsStep(trans, steps, j);
        LeavingMore(a.final, tnfa.tagDirections, sim0, steps, j, cur[k].tags, c, pos);
        sim := StepOne(k, c, tnfa.transitions[trans + j], steps[j], sim);
        j := j + 1;
      }
      NullIsEnd(trans, steps, j);
      assert steps[..j] == steps;
    }

    /** What the flat arrays say about the initial transition at `i`. */
    ghost predicate InitialAt(i: nat)
      requires i < |a.initial|
    {
      && i < |tnfa.initial| && a.initial[i].target < |offs|
      && tnfa.initial[i] == Trans(0, 0, offs[a.initial[i].target], a.initial[i].target, a.initial[i].tags)
      && (offs[a.initial[i].target] == tnfa.final <==> a.initial[i].target == a.final)
    }

    /** The flat arrays hold the automaton: Represents, as the loops need it. */
    ghost predicate Loaded() {
      && |a.out| == |offs|
      && (forall q | 0 <= q < |offs| :: StepsAt(offs[q], a.out[q]))
      && |tnfa.initial| == |a.initial| + 1 && tnfa.initial[|a.initial|] == Null
      && (forall i | 0 <= i < |a.initial| :: InitialAt(i))
    }

    lemma StateSteps(q: nat)
      requires Represents(tnfa, a, offs) && q < |offs|
      ensures StepsAt(offs[q], a.out[q])
    {
      assert HoldsAt(tnfa.transitions, offs, offs[q], a.out[q]);
      forall j | 0 <= j < |a.out[q]|
        ensures offs[a.out[q][j].target] == tnfa.final <==> a.out[q][j].target == a.final
      {
        FinalIsFinal(tnfa, a, offs, a.out[q][j].target);
      }
    }

    lemma RepresentsLoaded()
      requires Represents(tnfa, a, offs)
      ensures Loaded()
    {
      forall q | 0 <= q < |offs| ensures StepsAt(offs[q], a.out[q]) { StateSteps(q); }
      forall i | 0 <= i < |a.initial| ensures InitialAt(i) { FinalIsFinal(tnfa, a, offs, a.initial[i].target); }
    }

    /** The list ends with a NULL state. */
    ghost predicate Terminated(items: seq<ReachItem>, entries: seq<Entry>) {
      |entries| < |items| && items[|entries|].state == -1
    }

    /** reach_next_i->state = NULL. */
    method Terminate()
      requires Valid() && Reading()
      modifies reachNext
      ensures Valid() && Reading() && Terminated(reachNext[..], next)
    {
      DistinctFits(next, |offs|);
      ghost var items := reachNext[..];
      reachNext[nextLen] := reachNext[nextLen].(state := -1);
      OwnedState(reach[..], items, tmpTags, |offs|, owner, side, nextLen, -1);
      assert reachNext[..] == items[nextLen := ReachItem(-1, items[nextLen].tags)];
    }

    /** One entry of `reach`. */
    method StepEntry(i: nat, c: nat, ghost best0: Result, ghost sim: Sim) returns (ghost sim1: Sim)
      requires Loaded()
      requires pos >= 0 && At(sim) && i < |cur| && SimTagged(Sim(cur, best0), numTags)
      requires sim == VisitAll(a.final, tnfa.tagDirections, Sim([], best0), Arrivals(a, cur[..i], c, pos, numTags), pos, numTags)
      modifies this`tmpTags, this`owner, this`nextLen, this`matchEo, this`matchTags, this`next, rows, reachNext, reachPos
      ensures At(sim1)
      ensures sim1 == VisitAll(a.final, tnfa.tagDirections, Sim([], best0), Arrivals(a, cur[..i + 1], c, pos, numTags), pos, numTags)
    {
      ArrivalsMore(a, tnfa.tagDirections, best0, cur, i, c, pos, numTags);
      StepState(i, c, a.out[cur[i].state], sim);
      sim1 := VisitAll(a.final, tnfa.tagDirections, sim, Leaving(a.out[cur[i].state], cur[i].tags, c, pos), pos, numTags);
    }

    lemma EndOfReach(i: nat)
      requires Reading() && Terminated(reach[..], cur) && i <= |cur|
      ensures reach[i].state == -1 <==> i == |cur|
    {
      if i < |cur| {
        assert reach[..][i].state == offs[cur[i].state];
      } else {
        assert reach[..][i].state == -1;
      }
    }

    /** The loop over `reach`: all transitions that match the input symbol. */
    method StepAll(c: nat, ghost best0: Result)
      requires Loaded()
      requires pos >= 0 && At(Sim([], best0)) && SimTagged(Sim(cur, best0), numTags) && Terminated(reach[..], cur)
      modifies this`tmpTags, this`owner, this`nextLen, this`matchEo, this`matchTags, this`next, rows, reachNext, reachPos
      ensures At(VisitAll(a.final, tnfa.tagDirections, Sim([], best0), Arrivals(a, cur, c, pos, numTags), pos, numTags))
    {
      hide Building, Owned, Shows;
      var i := 0;
      ghost var sim := Sim([], best0);
      EndOfReach(i);
      while reach[i].state != -1
        invariant 0 <= i <= |cur| && (reach[i].state == -1 <==> i == |cur|)
        invariant sim == VisitAll(a.final, tnfa.tagDirections, Sim([], best0), Arrivals(a, cur[..i], c, pos, numTags), pos, numTags)
        invariant At(sim) && Terminated(reach[..], cur)
        decreases |cur| - i
      {
        sim := StepEntry(i, c, best0, sim);
        i := i + 1;
        EndOfReach(i);
      }
      assert cur[..i] == cur;
    }

    /** One initial transition at a position where no match has been found. */
    method AddStart(t: Slot, ghost st: Start, ghost sim: Sim) returns (ghost sim1: Sim)
      requires At(sim) && pos >= 0
      requires st.target < |offs| && t == Trans(0, 0, offs[st.target], st.target, st.tags)
      requires t.state == tnfa.final <==> st.target == a.final
      modifies this`nextLen, this`matchEo, this`matchTags, this`next, rows, reachNext, reachPos
      ensures At(sim1)
      ensures sim1 == VisitStart(a.final, sim, StartEntry(st, pos, numTags), pos)
    {
      sim1 := VisitStart(a.final, sim, StartEntry(st, pos, numTags), pos);
      if reachPos[t.stateId].pos < pos {
        var tags := PlaceStart(t, StartEntry(st, pos, numTags));
        if t.state == tnfa.final {
          NewMatch(tags);
        }
      }
    }

    /** The tags of an initial state, in the buffer of the next free slot. */
    method FillStartRow(row: nat, ids: seq<nat>)
      requires Valid() && Reading() && |next| < |offs| && row == reachNext[nextLen].tags
      modifies rows
      ensures Valid() && Reading()
      ensures rows[row] == SetTags(Unset(numTags), ids, pos)
    {
      ghost var all := rows[..];
      ClearRow(row);
      SetRowTags(row, ids);
      assert rows[..] == all[row := rows[row]];
      DistinctFits(next, |offs|);
      ShowsOtherRow(reach[..], all, offs, cur, row, rows[row]);
      ShowsOtherRow(reachNext[..], all, offs, next, row, rows[row]);
    }

    /** The new entry of an initial state. */
    method PlaceStart(t: Slot, ghost x: Entry) returns (tags: seq<int>)
      requires Valid() && Reading() && pos >= 0 && t.Trans?
      requires t.stateId == x.state < |offs| && t.state == offs[x.state] && !Present(next, x.state)
      requires x.tags == SetTags(Unset(numTags), t.tags, pos)
      modifies this`nextLen, this`next, rows, reachNext, reachPos
      ensures Valid() && Reading() && next == old(next) + [x] && tags == x.tags
    {
      RoomForOne(next, x.state, |offs|);
      var row := reachNext[nextLen].tags;
      FillStartRow(row, t.tags);
      tags := rows[row];
      PutStart(t, x);
    }

    /** The new entry takes the next free slot, whose buffer already has its tags. */
    method PutStart(t: Slot, ghost x: Entry)
      requires Valid() && Reading() && t.Trans?
      requires t.stateId == x.state < |offs| && t.state == offs[x.state] && !Present(next, x.state)
      requires nextLen < |offs| && rows[reachNext[nextLen].tags] == x.tags
      modifies this`nextLen, this`next, reachNext, reachPos
      ensures Valid() && Reading() && next == old(next) + [x]
    {
      ghost var items, rpos := reachNext[..], reachPos[..];
      var row := reachNext[nextLen].tags;
      AddedEntry(items, rows[..], rpos, offs, next, pos, x, row);
      OwnedState(reach[..], items, tmpTags, |offs|, owner, side, nextLen, t.state);
      reachNext[nextLen] := ReachItem(t.state, row);
      reachPos[t.stateId] := ReachPos(pos, nextLen);
      assert reachNext[..] == items[nextLen := ReachItem(t.state, row)];
      assert reachPos[..] == rpos[x.state := ReachPos(pos, nextLen)];
      nextLen := nextLen + 1;
      next := next + [x];
    }

    /** All tags of one buffer to -1. */
    method ClearRow(row: nat)
      requires row < rows.Length && |rows[row]| == numTags
      modifies rows
      ensures rows[row] == Unset(numTags)
      ensures rows[..] == old(rows[..])[row := rows[row]]
    {
      for i := 0 to numTags
        invariant |rows[row]| == numTags && forall j | 0 <= j < i :: rows[row][j] == -1
        invariant rows[..] == old(rows[..])[row := rows[row]]
      {
        rows[row] := rows[row][i := -1];
      }
    }

    /** The initial transition at index `i`. */
    method AddStartAt(i: nat, ghost sim0: Sim, ghost sim: Sim) returns (ghost sim1: Sim)
      requires Loaded() && i < |a.initial| && tnfa.initial[i] != Null
      requires At(sim) && pos >= 0 && SimTagged(sim0, numTags)
      requires sim == VisitStarts(a.final, sim0, StartEntries(a, pos, numTags)[..i], pos, numTags)
      modifies this`nextLen, this`matchEo, this`matchTags, this`next, rows, reachNext, reachPos
      ensures At(sim1)
      ensures sim1 == VisitStarts(a.final, sim0, StartEntries(a, pos, numTags)[..i + 1], pos, numTags)
    {
      ghost var xs := StartEntries(a, pos, numTags);
      InitialSlot(i);
      assert xs[..i + 1][..i] == xs[..i];
      sim1 := AddStart(tnfa.initial[i], a.initial[i], sim);
    }

    /** Add the initial states. */
    method AddInitialStates(ghost sim0: Sim)
      requires Loaded()
      requires At(sim0) && SimTagged(sim0, numTags) && pos >= 0
      modifies this`nextLen, this`matchEo, this`matchTags, this`next, rows, reachNext, reachPos
      ensures At(AddInitial(a, sim0, pos, numTags))
    {
      var i := 0;
      ghost var sim := sim0;
      InitialIndex(i);
      while tnfa.initial[i] != Null
        invariant 0 <= i <= |a.initial| && (tnfa.initial[i] == Null <==> i == |a.initial|)
        invariant sim == VisitStarts(a.final, sim0, StartEntries(a, pos, numTags)[..i], pos, numTags)
        invariant At(sim)
        decreases |a.initial| - i
      {
        sim := AddStartAt(i, sim0, sim);
        i := i + 1;
        InitialIndex(i);
      }
      assert StartEntries(a, pos, numTags)[..i] == StartEntries(a, pos, numTags);
    }

    lemma InitialIndex(i: nat)
      requires Loaded() && i <= |a.initial|
      ensures tnfa.initial[i] == Null <==> i == |a.initial|
    {
      if i < |a.initial| {
        assert InitialAt(i);
      }
    }

    lemma InitialSlot(i: nat)
      requires Loaded() && i < |a.initial|
      ensures InitialAt(i)
    {
    }

    /** Swap the two lists and start an empty one, for the position just moved to. */
    method SwapReach(ghost pos0: int)
      requires Fixed() && Building(reachNext[..], rows[..], reachPos[..], offs, next, pos0) && pos0 < pos
      modifies this`reach, this`reachNext, this`nextLen, this`cur, this`next, this`side
      ensures Valid() && Reading() && next == [] && cur == old(next)
      ensures reach == old(reachNext) && reachNext == old(reach)
    {
      DistinctFits(next, |offs|);
      reach, reachNext := reachNext, reach;
      side := 1 - side;
      cur, next := next, [];
      nextLen := 0;
    }

    /** Read one character and turn the list under construction into the one to read from. */
    method ReadNext(ghost sim: Sim) returns (c: nat)
      requires At(sim) && SimTagged(sim, numTags) && Terminated(reachNext[..], next) && InputOk() && pos < |str|
      modifies this`prevC, this`nextC, this`pos, this`strByte
      modifies this`reach, this`reachNext, this`nextLen, this`cur, this`next, this`side
      ensures InputOk() && pos == old(pos) + 1 && c == str[old(pos)]
      ensures At(Sim([], sim.best)) && cur == sim.next && Terminated(reach[..], cur)
      ensures reach == old(reachNext) && reachNext == old(reach)
    {
      GetNextChar();
      c := prevC;
      SwapReach(old(pos));
    }

    method StepAndTerminate(c: nat, ghost best0: Result)
      requires Loaded()
      requires pos >= 0 && At(Sim([], best0)) && SimTagged(Sim(cur, best0), numTags) && Terminated(reach[..], cur)
      modifies this`tmpTags, this`owner, this`nextLen, this`matchEo, this`matchTags, this`next, rows, reachNext, reachPos
      ensures At(Advance(a, tnfa.tagDirections, Sim(cur, best0), c, pos, numTags)) && Terminated(reachNext[..], next)
    {
      StepAll(c, best0);
      Terminate();
    }

    /** One turn of the main loop after the initial states. */
    method NextPosition(ghost sim: Sim) returns (ghost sim1: Sim)
      requires Loaded()
      requires At(sim) && SimTagged(sim, numTags) && Terminated(reachNext[..], next) && InputOk() && pos < |str|
      modifies this, rows, reach, reachNext, reachPos
      ensures InputOk() && pos == old(pos) + 1
      ensures sim1 == Advance(a, tnfa.tagDirections, sim, str[old(pos)], pos, numTags)
      ensures At(sim1) && Terminated(reachNext[..], next)
      ensures rows == old(rows) && reachPos == old(reachPos)
      ensures reach == old(reachNext) && reachNext == old(reach)
    {
      var c := ReadNext(sim);
      sim1 := Advance(a, tnfa.tagDirections, sim, c, pos, numTags);
      assert Sim(cur, sim.best) == sim;
      StepAndTerminate(c, sim.best);
    }

    /** Add the initial states if no match has been found. */
    method TopOfLoop(ghost sim: Sim) returns (ghost sim1: Sim)
      requires Loaded()
      requires At(sim) && SimTagged(sim, numTags) && pos >= 0 && matchEo < 0
      modifies this`nextLen, this`matchEo, this`matchTags, this`next, rows, reachNext, reachPos
      ensures sim1 == AddInitial(a, sim, pos, numTags)
      ensures At(sim1) && Terminated(reachNext[..], next)
    {
      sim1 := AddInitial(a, sim, pos, numTags);
      AddInitialStates(sim);
      Terminate();
    }

    /** The variables of GET_NEXT_WCHAR before the main loop; `first` is where memchr found first_char. */
    method Start(first: int)
      requires Valid() && next == [] && cur == [] && Best() == NoMatch
      requires -1 <= first < |str| && strByte == 0 && forall q | 0 <= q < reachPos.Length :: reachPos[q].pos == -1
      modifies this`prevC, this`nextC, this`pos, this`strByte
      ensures InputOk() && pos == (if first >= 0 then first else 0)
      ensures At(Sim([], NoMatch))
    {
      if first >= 0 {
        if first >= 1 {
          prevC := str[first - 1];
        }
        nextC := str[first];
        pos := first;
        if pos < |str| {
          strByte := first + 1;
        }
      } else {
        pos := -1;
        GetNextChar();
      }
    }

    /** One turn of the main loop; `stop` is a break. */
    method Turn(ghost sim: Sim) returns (stop: bool, ghost sim1: Sim)
      requires Loaded() && InputOk() && At(sim) && SimTagged(sim, numTags)
      requires sim.best.NoMatch? || Terminated(reachNext[..], next)
      modifies this, rows, reach, reachNext, reachPos
      ensures rows == old(rows) && reachPos == old(reachPos)
      ensures {reach, reachNext} == old({reach, reachNext})
      ensures InputOk() && At(sim1) && (stop ==> pos == old(pos)) && (!stop ==> pos == old(pos) + 1)
      ensures !stop ==> Terminated(reachNext[..], next)
      ensures var over := sim.best.Match? && (numTags == 0 || sim.next == []);
        if over then stop && sim1 == sim
        else if old(pos) == |str| then stop && sim1.best == (if sim.best.NoMatch? then AddInitial(a, sim, old(pos), numTags) else sim).best
        else !stop && sim1 == Advance(a, tnfa.tagDirections,
               if sim.best.NoMatch? then AddInitial(a, sim, old(pos), numTags) else sim, str[old(pos)], pos, numTags)
    {
      sim1 := sim;
      if matchEo < 0 {
        sim1 := TopOfLoop(sim);
      } else if numTags == 0 || nextLen == 0 {
        return true, sim1;
      }
      if pos >= |str| {
        return true, sim1;
      }
      sim1 := NextPosition(sim1);
      stop := false;
    }

    /** The main loop. */
    method MainLoop() returns (ghost r: Result)
      requires Loaded() && InputOk() && At(Sim([], NoMatch))
      modifies this, rows, reach, reachNext, reachPos
      ensures r == RunFrom(a, tnfa.tagDirections, str, old(pos), Sim([], NoMatch), numTags)
      ensures r == Best()
    {
      ghost var sim := Sim([], NoMatch);
      r := RunFrom(a, tnfa.tagDirections, str, pos, sim, numTags);
      var stop := false;
      while !stop
        invariant rows == old(rows) && reachPos == old(reachPos)
        invariant {reach, reachNext} == old({reach, reachNext})
        invariant InputOk() && At(sim) && SimTagged(sim, numTags)
        invariant sim.best.NoMatch? || stop || Terminated(reachNext[..], next)
        invariant if stop then r == sim.best else r == RunFrom(a, tnfa.tagDirections, str, pos, sim, numTags)
        decreases |str| - pos, !stop
      {
        stop, sim := TurnOfRun(sim, r);
      }
    }

    /** A turn, seen from the result of the whole run. */
    method TurnOfRun(ghost sim: Sim, ghost r: Result) returns (stop: bool, ghost sim1: Sim)
      requires Loaded() && InputOk() && At(sim) && SimTagged(sim, numTags)
      requires sim.best.NoMatch? || Terminated(reachNext[..], next)
      requires r == RunFrom(a, tnfa.tagDirections, str, pos, sim, numTags)
      modifies this, rows, reach, reachNext, reachPos
      ensures rows == old(rows) && reachPos == old(reachPos)
      ensures {reach, reachNext} == old({reach, reachNext})
      ensures InputOk() && At(sim1) && SimTagged(sim1, numTags)
      ensures (stop ==> pos == old(pos)) && (!stop ==> pos == old(pos) + 1 && Terminated(reachNext[..], next))
      ensures if stop then r == sim1.best else r == RunFrom(a, tnfa.tagDirections, str, pos, sim1, numTags)
    {
      hide RunFrom, Advance, AddInitial;
      RunFromTurn(a, tnfa.tagDirections, str, pos, sim, numTags);
      stop, sim1 := Turn(sim);
    }
  }

  lemma ArrivalsMore(a: Automaton, dirs: Directions, best0: Result, cur: seq<Entry>, i: nat, c: nat, pos: nat, n: nat)
    requires i < |cur| && SimTagged(Sim(cur, best0), n) && cur[i].state < |a.out|
    ensures VisitAll(a.final, dirs, Sim([], best0), Arrivals(a, cur[..i + 1], c, pos, n), pos, n)
         == VisitAll(a.final, dirs, VisitAll(a.final, dirs, Sim([], best0), Arrivals(a, cur[..i], c, pos, n), pos, n),
                     Leaving(a.out[cur[i].state], cur[i].tags, c, pos), pos, n)
  {
    assert cur[..i + 1][..i] == cur[..i];
    VisitAllJoin(a.final, dirs, Sim([], best0), Arrivals(a, cur[..i], c, pos, n),
                 Leaving(a.out[cur[i].state], cur[i].tags, c, pos), pos, n);
  }

  /** Looking at one more transition of a state. */
  lemma LeavingMore(final: nat, dirs: Directions, sim: Sim, steps: seq<Step>, j: nat, tags: seq<int>, c: nat, pos: nat)
    requires j < |steps| && SimTagged(sim, |tags|)
    ensures var before := VisitAll(final, dirs, sim, Leaving(steps[..j], tags, c, pos), pos, |tags|);
      var x := Entry(steps[j].target, SetTags(tags, steps[j].tags, pos));
      VisitAll(final, dirs, sim, Leaving(steps[..j + 1], tags, c, pos), pos, |tags|)
      == if Reads(steps[j], c) then Visit(final, dirs, before, x, pos) else before
  {
    var xs := Leaving(steps[..j], tags, c, pos);
    assert steps[..j + 1][..j] == steps[..j];
    var x := Entry(steps[j].target, SetTags(tags, steps[j].tags, pos));
    assert (xs + [x])[..|xs|] == xs;
    assert xs + [] == xs;
  }

  lemma {:induction false} VisitAllJoin(final: nat, dirs: Directions, sim: Sim, xs: seq<Entry>, ys: seq<Entry>, pos: nat, n: nat)
    requires SimTagged(sim, n) && (forall x | x in xs :: |x.tags| == n) && (forall y | y in ys :: |y.tags| == n)
    ensures forall z | z in xs + ys :: |z.tags| == n
    ensures VisitAll(final, dirs, sim, xs + ys, pos, n)
         == VisitAll(final, dirs, VisitAll(final, dirs, sim, xs, pos, n), ys, pos, n)
    decreases |ys|
  {
    if ys == [] {
      assert xs + ys == xs;
    } else {
      var front := ys[..|ys| - 1];
      VisitAllJoin(final, dirs, sim, xs, front, pos, n);
      assert (xs + ys)[..|xs + ys| - 1] == xs + front;
    }
  }

  lemma FinalIsFinal(tnfa: Tnfa, a: Automaton, offs: seq<nat>, q: nat)
    requires Represents(tnfa, a, offs) && q < |offs|
    ensures offs[q] == tnfa.final <==> q == a.final
  {
  }

  lemma DistinctFits(next: seq<Entry>, n: nat)
    requires DistinctStates(next) && InStates(next, n)
    ensures |next| <= n
  {
    StateSetSize(next);
    BelowIff(n);
    forall p | p in StateSet(next) ensures p in Below(n) { StateSetIff(next, p); }
    SubsetSize(StateSet(next), Below(n));
  }

  method Memchr(str: Word, c: int) returns (i: int)
    ensures i == if FirstByte(str, c, 0) == |str| then -1 else FirstByte(str, c, 0)
  {
    i := 0;
    while i < |str| && str[i] != c
      invariant 0 <= i <= |str| && FirstByte(str, c, 0) == FirstByte(str, c, i)
    {
      i := i + 1;
    }
    if i == |str| {
      i := -1;
    }
  }

  /** tre_tnfa_run_parallel: REG_OK or REG_NOMATCH, the match end, and the tags of the match. */
  method TnfaRunParallel(tnfa: Tnfa, str: Word, numTags: nat, ghost a: Automaton, ghost offs: seq<nat>)
      returns (ok: bool, matchEo: int, matchTags: seq<int>)
    requires Represents(tnfa, a, offs)
    ensures var r := RunParallel(a, tnfa.tagDirections, tnfa.firstChar, str, numTags);
      ok == r.Match? && (ok ==> matchEo == r.eo && matchTags == r.tags)
    ensures ok ==> forall t: Ast | Simple(t) && a == AutomatonOf(t) :: TreRegisters.TellsRun(t, str, matchEo, matchTags)
  {
    hide TreRegisters.TellsRun;
    var run := new ParallelRun(tnfa, str, numTags, a, offs);
    run.RepresentsLoaded();
    var first := -1;
    if tnfa.firstChar >= 0 {
      first := Memchr(str, tnfa.firstChar);
      if first == -1 {
        return false, -1, [];
      }
    }
    run.Start(first);
    ghost var r := run.MainLoop();
    ok, matchEo, matchTags := run.matchEo >= 0, run.matchEo, run.matchTags;
    forall t: Ast | Simple(t) && a == AutomatonOf(t) ensures ok ==> TreRegisters.TellsRun(t, str, matchEo, matchTags) {
      TreRegisters.ParallelTellsRun(t, tnfa.tagDirections, tnfa.firstChar, str, numTags);
    }
  }
}
