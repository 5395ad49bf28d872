/** Laying the automaton out in one flat transition array, in two passes (tre_make_trans,
    tre_ast_to_tnfa and the end of tre_compile, tre-compile.c). */
module TreTnfa {
  import opened TreAst
  import opened TreExpand
  import opened TrePositions
  import opened TreAutomaton

  /** tre_tnfa_transition_t; `state` is an index into the transition array, Null a NULL `state`. */
  datatype Slot = Null | Trans(codeMin: nat, codeMax: nat, state: nat, stateId: nat, tags: seq<nat>)

  /** tre_tnfa_t, as far as the matchers use it. */
  datatype Tnfa = Tnfa(transitions: seq<Slot>, initial: seq<Slot>, final: nat, numStates: nat,
                       firstChar: int, tagDirections: Directions, numTags: nat)

  const BYTES: nat := 256

  // ----- the layout -----

  function SlotOf(s: Step, offs: seq<nat>): Slot
    requires s.target < |offs|
  {
    Trans(s.codeMin, s.codeMax, offs[s.target], s.target, s.tags)
  }

  /** From index `k` on, `slots` holds `steps` and then a terminator. */
  predicate HoldsAt(slots: seq<Slot>, offs: seq<nat>, k: nat, steps: seq<Step>) {
    && k + |steps| < |slots|
    && (forall i | 0 <= i < |steps| :: steps[i].target < |offs| && slots[k + i] == SlotOf(steps[i], offs))
    && slots[k + |steps|] == Null
  }

  predicate Holds(slots: seq<Slot>, offs: seq<nat>, out: seq<seq<Step>>) {
    |offs| == |out| && forall q | 0 <= q < |out| :: HoldsAt(slots, offs, offs[q], out[q])
  }

  /** State q has room for caps[q] transitions and a terminator. */
  predicate Spaced(offs: seq<nat>, caps: seq<nat>, size: nat) {
    && |offs| == |caps|
    && (forall q | 0 <= q < |offs| :: offs[q] + caps[q] < size)
    && (forall p, q | 0 <= p < q < |offs| :: offs[p] + caps[p] < offs[q])
  }

  predicate Injective(offs: seq<nat>) { forall p, q | 0 <= p < q < |offs| :: offs[p] != offs[q] }

  /** The flat form represents automaton `a`, with the transitions of state q from offs[q] on. */
  ghost predicate Represents(tnfa: Tnfa, a: Automaton, offs: seq<nat>) {
    && Closed(a)
    && Holds(tnfa.transitions, offs, a.out)
    && Injective(offs)
    && tnfa.numStates == |a.out|
    && tnfa.final == offs[a.final]
    && |tnfa.initial| == |a.initial| + 1
    && (forall i | 0 <= i < |a.initial| ::
          a.initial[i].target < |offs| &&
          tnfa.initial[i] == Trans(0, 0, offs[a.initial[i].target], a.initial[i].target, a.initial[i].tags))
    && tnfa.initial[|a.initial|] == Null
  }

  /** first_char, when set, is the only byte any transition from an initial state reads, and no
      initial state is final. */
  ghost predicate FirstCharSound(tnfa: Tnfa, a: Automaton) {
    tnfa.firstChar >= 0 ==>
      && !IsInitial(a, a.final)
      && forall p: nat, c: nat, q: nat | IsInitial(a, p) && c < BYTES && HasStep(a, p, c, q) :: c == tnfa.firstChar
  }

  // ----- counting edges -----

  function EdgeCount(edges: seq<Edge>, q: nat): nat {
    if edges == [] then 0
    else EdgeCount(edges[..|edges| - 1], q) + (if edges[|edges| - 1].0.position == q then 1 else 0)
  }

  lemma {:induction false} EdgeCountBoth(a: seq<Edge>, b: seq<Edge>, q: nat)
    ensures EdgeCount(a + b, q) == EdgeCount(a, q) + EdgeCount(b, q)
    decreases |b|
  {
    if b == [] {
      assert a + b == a;
    } else {
      EdgeCountBoth(a, b[..|b| - 1], q);
      assert (a + b)[..|a + b| - 1] == a + b[..|b| - 1];
    }
  }

  lemma {:induction false} AddStepsBoth(out: seq<seq<Step>>, a: seq<Edge>, b: seq<Edge>)
    ensures AddSteps(out, a + b) == AddSteps(AddSteps(out, a), b)
    decreases |a|
  {
    if a == [] {
      assert a + b == b;
    } else {
      AddStepsBoth(AddStep(out, a[0]), a[1..], b);
      assert (a + b)[1..] == a[1..] + b;
    }
  }

  lemma AddStepsOne(out: seq<seq<Step>>, e: Edge)
    ensures AddSteps(out, [e]) == AddStep(out, e)
  {
    assert AddSteps(AddStep(out, e), [e][1..]) == AddStep(out, e);
  }

  lemma {:induction false} AddStepsLength(out: seq<seq<Step>>, edges: seq<Edge>, q: nat)
    requires q < |out|
    ensures |AddSteps(out, edges)[q]| == |out[q]| + EdgeCount(edges, q)
    decreases |edges|
  {
    if edges != [] {
      var front, e := edges[..|edges| - 1], edges[|edges| - 1];
      AddStepsLength(out, front, q);
      AddStepsBoth(out, front, [e]);
      AddStepsOne(AddSteps(out, front), e);
      assert front + [e] == edges;
    }
  }

  lemma {:induction false} CrossSnoc(p1: PosSet, p: PosTags, p2: PosSet)
    ensures Cross(p1 + [p], p2) == Cross(p1, p2) + EdgesFrom(p, p2)
    decreases |p1|
  {
    if p1 == [] {
      assert p1 + [p] == [p];
      assert Cross([p], p2) == EdgesFrom(p, p2) + Cross([p][1..], p2);
    } else {
      CrossSnoc(p1[1..], p, p2);
      assert (p1 + [p])[1..] == p1[1..] + [p];
    }
  }

  predicate InStates(s: PosSet, n: nat) { forall i | 0 <= i < |s| :: s[i].position < n }

  // ----- tre_make_trans -----

  /** Every entry whose position differs from that of the entry just before it. */
  function Kept(s: PosSet): PosSet {
    if s == [] then []
    else
      var n := |s| - 1;
      if n > 0 && s[n].position == s[n - 1].position then Kept(s[..n]) else Kept(s[..n]) + [s[n]]
  }

  lemma {:induction false} KeptAll(s: PosSet)
    requires Distinct(s)
    ensures Kept(s) == s
    decreases |s|
  {
    if s != [] {
      KeptAll(s[..|s| - 1]);
    }
  }

  method TransTags(t1: seq<nat>, t2: seq<nat>) returns (tags: seq<nat>)
    ensures tags == MergeTags(t1, t2)
  {
    tags := t1;
    for j := 0 to |t2|
      invariant tags == MergeTags(t1, t2[..j])
      invariant t1 <= tags
    {
      var dup := false;
      for k := 0 to |t1|
        invariant dup <==> t2[j] in t1[..k]
      {
        if tags[k] == t2[j] {
          dup := true;
          break;
        }
      }
      if !dup {
        tags := tags + [t2[j]];
      }
      assert t2[..j + 1][..j] == t2[..j];
    }
    assert t2[..|t2|] == t2;
  }

  /** Writing one more transition behind those state `p` already has. */
  lemma StepFilled(slots: seq<Slot>, offs: seq<nat>, caps: seq<nat>, out: seq<seq<Step>>, e: Edge)
    requires Spaced(offs, caps, |slots|) && Holds(slots, offs, out)
    requires e.0.position < |out| && e.1.position < |out|
    requires forall q | 0 <= q < |out| :: |AddStep(out, e)[q]| <= caps[q]
    ensures var k := offs[e.0.position] + |out[e.0.position]|;
      && k + 1 < |slots|
      && Holds(slots[k + 1 := Null][k := SlotOf(EdgeStep(e), offs)], offs, AddStep(out, e))
  {
    var p := e.0.position;
    var k := offs[p] + |out[p]|;
    assert |AddStep(out, e)[p]| <= caps[p];
    var slots' := slots[k + 1 := Null][k := SlotOf(EdgeStep(e), offs)];
    var out' := AddStep(out, e);
    forall q | 0 <= q < |out'| ensures HoldsAt(slots', offs, offs[q], out'[q]) {
      assert HoldsAt(slots, offs, offs[q], out[q]);
      assert |out'[q]| <= caps[q];
      if q < p {
        assert offs[q] + caps[q] < offs[p];
      } else if q > p {
        assert offs[p] + caps[p] < offs[q];
      }
    }
  }

  lemma NoNullBefore(slots: seq<Slot>, offs: seq<nat>, k: nat, steps: seq<Step>)
    requires HoldsAt(slots, offs, k, steps)
    ensures forall j | k <= j < k + |steps| :: slots[j] != Null
  {
    forall j | k <= j < k + |steps| ensures slots[j] != Null {
      assert slots[k + (j - k)] == SlotOf(steps[j - k], offs);
    }
  }

  /** The effect of one edge: find the end of the list of its source state, and append. */
  method AddTransition(transitions: array<Slot>, offs: seq<nat>, p1: PosTags, p2: PosTags,
                       ghost caps: seq<nat>, ghost out: seq<seq<Step>>)
    requires Spaced(offs, caps, transitions.Length) && Holds(transitions[..], offs, out)
    requires p1.position < |offs| && p2.position < |offs|
    requires forall q | 0 <= q < |out| :: |AddStep(out, (p1, p2))[q]| <= caps[q]
    modifies transitions
    ensures Holds(transitions[..], offs, AddStep(out, (p1, p2)))
  {
    hide Edges;
    ghost var slots := transitions[..];
    ghost var steps := out[p1.position];
    StepFilled(slots, offs, caps, out, (p1, p2));
    var trans := offs[p1.position];
    NoNullBefore(slots, offs, trans, steps);
    while transitions[trans] != Null
      invariant offs[p1.position] <= trans <= offs[p1.position] + |steps|
      invariant transitions[..] == slots
      decreases offs[p1.position] + |steps| - trans
    {
      assert slots[trans] != Null;
      trans := trans + 1;
    }
    var tags := TransTags(p1.tags, p2.tags);
    WriteSlot(transitions, trans, Trans(p1.codeMin, p1.codeMax, offs[p2.position], p2.position, tags));
  }

  /** The new transition, and the terminator behind it. */
  method WriteSlot(transitions: array<Slot>, trans: nat, slot: Slot)
    requires trans + 1 < transitions.Length
    modifies transitions
    ensures transitions[..] == old(transitions[..])[trans + 1 := Null][trans := slot]
  {
    transitions[trans + 1] := Null;
    transitions[trans] := slot;
  }

  ghost predicate Fits(out: seq<seq<Step>>, edges: seq<Edge>, caps: seq<nat>) {
    |out| == |caps| && forall q | 0 <= q < |out| :: |out[q]| + EdgeCount(edges, q) <= caps[q]
  }

  /** If all of `edges` fit, so does each prefix. */
  lemma FitsPrefix(out: seq<seq<Step>>, a: seq<Edge>, b: seq<Edge>, caps: seq<nat>)
    requires Fits(out, a + b, caps)
    ensures Fits(out, a, caps) && Fits(AddSteps(out, a), b, caps)
  {
    forall q | 0 <= q < |out| ensures |out[q]| + EdgeCount(a, q) + EdgeCount(b, q) <= caps[q] {
      EdgeCountBoth(a, b, q);
    }
    forall q | 0 <= q < |out| ensures |AddSteps(out, a)[q]| == |out[q]| + EdgeCount(a, q) {
      AddStepsLength(out, a, q);
    }
  }

  lemma FitsNext(out: seq<seq<Step>>, done: seq<Edge>, e: Edge, all: seq<Edge>, caps: seq<nat>)
    requires done + [e] <= all && Fits(out, all, caps)
    ensures forall q | 0 <= q < |out| :: |AddStep(AddSteps(out, done), e)[q]| <= caps[q]
    ensures AddSteps(out, done + [e]) == AddStep(AddSteps(out, done), e)
  {
    AddStepsBoth(out, done, [e]);
    AddStepsOne(AddSteps(out, done), e);
    forall q | 0 <= q < |out| ensures |AddSteps(out, done + [e])[q]| <= caps[q] {
      AddStepsLength(out, done + [e], q);
      EdgeCountBoth(done + [e], all[|done| + 1..], q);
      assert (done + [e]) + all[|done| + 1..] == all;
    }
  }

  lemma EdgesFromSnoc(p: PosTags, s: PosSet, e: PosTags)
    ensures EdgesFrom(p, s + [e]) == EdgesFrom(p, s) + [(p, e)]
  {
  }

  /** The inner loop of tre_make_trans: transitions from one position to each position in p2. */
  method FillFrom(p1: PosTags, p2: PosSet, transitions: array<Slot>, offs: seq<nat>,
                  ghost caps: seq<nat>, ghost out: seq<seq<Step>>)
    requires Spaced(offs, caps, transitions.Length) && Holds(transitions[..], offs, out)
    requires p1.position < |offs| && InStates(p2, |offs|)
    requires Fits(out, EdgesFrom(p1, Kept(p2)), caps)
    modifies transitions
    ensures Holds(transitions[..], offs, AddSteps(out, EdgesFrom(p1, Kept(p2))))
  {
    var prevP2Pos: int := -1;
    ghost var done: seq<Edge> := [];
    for j := 0 to |p2|
      invariant prevP2Pos == if j == 0 then -1 else p2[j - 1].position
      invariant done == EdgesFrom(p1, Kept(p2[..j]))
      invariant Holds(transitions[..], offs, AddSteps(out, done))
    {
      assert p2[..j + 1][..j] == p2[..j];
      if p2[j].position != prevP2Pos {
        prevP2Pos := p2[j].position;
        EdgesFromSnoc(p1, Kept(p2[..j]), p2[j]);
        KeptTake(p2, j + 1);
        EdgesFromTake(p1, Kept(p2[..j + 1]), Kept(p2));
        FitsNext(out, done, (p1, p2[j]), EdgesFrom(p1, Kept(p2)), caps);
        AddTransition(transitions, offs, p1, p2[j], caps, AddSteps(out, done));
        done := done + [(p1, p2[j])];
      }
    }
    assert p2[..|p2|] == p2;
  }

  /** The edges of one more position fit, behind those of the positions before it. */
  lemma FillStep(p1: PosSet, i: nat, p2: PosSet, out: seq<seq<Step>>, caps: seq<nat>)
    requires i < |p1| && Fits(out, Cross(p1, p2), caps)
    ensures Fits(AddSteps(out, Cross(p1[..i], p2)), EdgesFrom(p1[i], p2), caps)
    ensures Cross(p1[..i + 1], p2) == Cross(p1[..i], p2) + EdgesFrom(p1[i], p2)
    ensures AddSteps(out, Cross(p1[..i + 1], p2)) == AddSteps(AddSteps(out, Cross(p1[..i], p2)), EdgesFrom(p1[i], p2))
  {
    var done, edges := Cross(p1[..i], p2), EdgesFrom(p1[i], p2);
    CrossSnoc(p1[..i], p1[i], p2);
    assert p1[..i + 1] == p1[..i] + [p1[i]];
    CrossTake(p1, i + 1, p2);
    var rest := Cross(p1, p2)[|done + edges|..];
    assert (done + edges) + rest == Cross(p1, p2);
    FitsPrefix(out, done + edges, rest, caps);
    FitsPrefix(out, done, edges, caps);
    AddStepsBoth(out, done, edges);
  }

  /** tre_make_trans with a transition array: fill it. */
  method FillTransitions(p1: PosSet, p2: PosSet, transitions: array<Slot>, offs: seq<nat>,
                         ghost caps: seq<nat>, ghost out: seq<seq<Step>>)
    requires Spaced(offs, caps, transitions.Length) && Holds(transitions[..], offs, out)
    requires InStates(p1, |offs|) && InStates(p2, |offs|)
    requires Fits(out, Cross(p1, Kept(p2)), caps)
    modifies transitions
    ensures Holds(transitions[..], offs, AddSteps(out, Cross(p1, Kept(p2))))
  {
    ghost var filled := out;
    for i := 0 to |p1|
      invariant filled == AddSteps(out, Cross(p1[..i], Kept(p2)))
      invariant Holds(transitions[..], offs, filled)
    {
      FillStep(p1, i, Kept(p2), out, caps);
      FillFrom(p1[i], p2, transitions, offs, caps, filled);
      filled := AddSteps(filled, EdgesFrom(p1[i], Kept(p2)));
    }
    assert p1[..|p1|] == p1;
  }

  lemma {:induction false} CrossTake(p1: PosSet, i: nat, p2: PosSet)
    requires i <= |p1|
    ensures Cross(p1[..i], p2) <= Cross(p1, p2)
    decreases |p1| - i
  {
    if i < |p1| {
      CrossTake(p1, i + 1, p2);
      CrossSnoc(p1[..i], p1[i], p2);
      assert p1[..i] + [p1[i]] == p1[..i + 1];
    } else {
      assert p1[..i] == p1;
    }
  }

  lemma {:induction false} KeptTake(s: PosSet, j: nat)
    requires j <= |s|
    ensures Kept(s[..j]) <= Kept(s)
    decreases |s| - j
  {
    if j < |s| {
      KeptTake(s, j + 1);
      assert s[..j + 1][..j] == s[..j];
    } else {
      assert s[..j] == s;
    }
  }

  lemma EdgesFromTake(p: PosTags, a: PosSet, b: PosSet)
    requires a <= b
    ensures EdgesFrom(p, a) <= EdgesFrom(p, b)
  {
  }

  lemma CountSnoc(edges: seq<Edge>, e: Edge, q: nat)
    ensures EdgeCount(edges + [e], q) == EdgeCount(edges, q) + (if e.0.position == q then 1 else 0)
  {
    assert (edges + [e])[..|edges|] == edges;
  }

  /** The inner loop of tre_make_trans when counting. */
  method CountFrom(p: PosTags, p2: PosSet, counts: array<nat>)
    requires p.position < counts.Length
    modifies counts
    ensures forall q | 0 <= q < counts.Length :: counts[q] == old(counts[q]) + EdgeCount(EdgesFrom(p, p2), q)
  {
    for j := 0 to |p2|
      invariant forall q | 0 <= q < counts.Length :: counts[q] == old(counts[q]) + EdgeCount(EdgesFrom(p, p2[..j]), q)
    {
      counts[p.position] := counts[p.position] + 1;
      EdgesFromSnoc(p, p2[..j], p2[j]);
      assert p2[..j + 1] == p2[..j] + [p2[j]];
      forall q | 0 <= q < counts.Length
        ensures EdgeCount(EdgesFrom(p, p2[..j + 1]), q)
             == EdgeCount(EdgesFrom(p, p2[..j]), q) + (if p.position == q then 1 else 0)
      {
        CountSnoc(EdgesFrom(p, p2[..j]), (p, p2[j]), q);
      }
    }
    assert p2[..|p2|] == p2;
  }

  /** tre_make_trans without a transition array: count the transitions leaving each state. */
  method CountTransitions(p1: PosSet, p2: PosSet, counts: array<nat>)
    requires InStates(p1, counts.Length)
    modifies counts
    ensures forall q | 0 <= q < counts.Length :: counts[q] == old(counts[q]) + EdgeCount(Cross(p1, p2), q)
  {
    for i := 0 to |p1|
      invariant forall q | 0 <= q < counts.Length :: counts[q] == old(counts[q]) + EdgeCount(Cross(p1[..i], p2), q)
    {
      CountFrom(p1[i], p2, counts);
      CrossSnoc(p1[..i], p1[i], p2);
      assert p1[..i + 1] == p1[..i] + [p1[i]];
      forall q | 0 <= q < counts.Length
        ensures EdgeCount(Cross(p1[..i + 1], p2), q) == EdgeCount(Cross(p1[..i], p2), q) + EdgeCount(EdgesFrom(p1[i], p2), q)
      {
        EdgeCountBoth(Cross(p1[..i], p2), EdgesFrom(p1[i], p2), q);
      }
    }
    assert p1[..|p1|] == p1;
  }

  /** Before: when filling, the array holds `out` and has room for `edges`. */
  ghost predicate Ready(transitions: array?<Slot>, counts: array<nat>, offs: seq<nat>, caps: seq<nat>,
                        out: seq<seq<Step>>, edges: seq<Edge>)
    reads transitions
  {
    transitions != null ==>
      && |offs| == counts.Length && Spaced(offs, caps, transitions.Length)
      && Holds(transitions[..], offs, out) && Fits(out, edges, caps)
  }

  /** After: `edges` have been counted on top of `counts0`, or added to the array. */
  ghost predicate Done(transitions: array?<Slot>, counts: array<nat>, offs: seq<nat>,
                       out: seq<seq<Step>>, edges: seq<Edge>, counts0: seq<nat>)
    reads transitions, counts
  {
    if transitions != null then Holds(transitions[..], offs, AddSteps(out, edges)) && counts[..] == counts0
    else Counted(counts[..], edges, counts0)
  }

  ghost predicate Counted(counts: seq<nat>, edges: seq<Edge>, counts0: seq<nat>) {
    |counts| == |counts0| && forall q | 0 <= q < |counts| :: counts[q] == counts0[q] + EdgeCount(edges, q)
  }

  /** tre_make_trans. */
  method MakeTrans(p1: PosSet, p2: PosSet, transitions: array?<Slot>, counts: array<nat>, offs: seq<nat>,
                   ghost caps: seq<nat>, ghost out: seq<seq<Step>>)
    requires InStates(p1, counts.Length) && InStates(p2, counts.Length) && Distinct(p2)
    requires Ready(transitions, counts, offs, caps, out, Cross(p1, p2))
    modifies transitions, counts
    ensures Done(transitions, counts, offs, out, Cross(p1, p2), old(counts[..]))
  {
    KeptAll(p2);
    if transitions != null {
      FillTransitions(p1, p2, transitions, offs, caps, out);
    } else {
      CountTransitions(p1, p2, counts);
    }
  }

  // ----- tre_ast_to_tnfa -----

  lemma EndSetInStates(first: bool, t: Ast, base: nat, n: nat)
    requires base + NumPos(t) <= n
    ensures InStates(EndSet(first, t, base), n) && Distinct(EndSet(first, t, base))
  {
    EndSetDescribes(first, t, base);
    var s := EndSet(first, t, base);
    forall i | 0 <= i < |s| ensures s[i].position < n {
      PositionsInRange(t, base, s[i].position, 0, 0);
    }
  }

  /** Before two runs of edges: ready for the first run. */
  lemma ReadyFirst(transitions: array?<Slot>, counts: array<nat>, offs: seq<nat>, caps: seq<nat>,
                   out: seq<seq<Step>>, a: seq<Edge>, b: seq<Edge>)
    requires Ready(transitions, counts, offs, caps, out, a + b)
    ensures Ready(transitions, counts, offs, caps, out, a)
    ensures transitions != null ==> |offs| == counts.Length && Fits(AddSteps(out, a), b, caps)
  {
    if transitions != null {
      FitsPrefix(out, a, b, caps);
    }
  }

  /** Two runs of edges done one after the other. */
  lemma DoneBoth(transitions: array?<Slot>, counts: array<nat>, offs: seq<nat>, out: seq<seq<Step>>,
                 a: seq<Edge>, b: seq<Edge>, counts0: seq<nat>, counts1: seq<nat>)
    requires if transitions != null then counts1 == counts0 else Counted(counts1, a, counts0)
    requires Done(transitions, counts, offs, AddSteps(out, a), b, counts1)
    ensures Done(transitions, counts, offs, out, a + b, counts0)
  {
    AddStepsBoth(out, a, b);
    if transitions == null {
      forall q | 0 <= q < counts.Length ensures counts[q] == counts0[q] + EdgeCount(a + b, q) {
        EdgeCountBoth(a, b, q);
        assert counts[..][q] == counts1[q] + EdgeCount(b, q);
      }
    }
  }

  /** tre_ast_to_tnfa for the node at `p`: the counting pass when there is no array, else the filling pass. */
  method AstToTnfa(tree: Ast, attrs: Attrs, p: Path, ghost base: nat, transitions: array?<Slot>, counts: array<nat>,
                   offs: seq<nat>, ghost caps: seq<nat>, ghost out: seq<seq<Step>>)
    requires IsNode(tree, p) && Simple(Sub(tree, p)) && Computed(attrs, Sub(tree, p), p, base)
    requires base + NumPos(Sub(tree, p)) <= counts.Length
    requires Ready(transitions, counts, offs, caps, out, Edges(Sub(tree, p), base))
    modifies transitions, counts
    ensures Done(transitions, counts, offs, out, Edges(Sub(tree, p), base), old(counts[..]))
    decreases Sub(tree, p), 2
  {
    match Sub(tree, p) {
      case Union(_, _) => BothOperands(tree, attrs, p, base, transitions, counts, offs, caps, out);
      case Catenation(_, _) => CatToTnfa(tree, attrs, p, base, transitions, counts, offs, caps, out);
      case Iteration(_, _, _) => LoopToTnfa(tree, attrs, p, base, transitions, counts, offs, caps, out);
      case _ =>
    }
  }

  /** The CATENATION case of tre_ast_to_tnfa. */
  method CatToTnfa(tree: Ast, attrs: Attrs, p: Path, ghost base: nat, transitions: array?<Slot>, counts: array<nat>,
                   offs: seq<nat>, ghost caps: seq<nat>, ghost out: seq<seq<Step>>)
    requires IsNode(tree, p) && Sub(tree, p).Catenation? && Simple(Sub(tree, p))
    requires Computed(attrs, Sub(tree, p), p, base)
    requires base + NumPos(Sub(tree, p)) <= counts.Length
    requires Ready(transitions, counts, offs, caps, out, Edges(Sub(tree, p), base))
    modifies transitions, counts
    ensures Done(transitions, counts, offs, out, Edges(Sub(tree, p), base), old(counts[..]))
    decreases Sub(tree, p), 1
  {
    hide Cross;
    ghost var node := Sub(tree, p);
    ghost var mid := base + NumPos(node.left);
    ghost var x := Cross(EndSet(false, node.left, base), EndSet(true, node.right, mid));
    ghost var rest := Edges(node.left, base) + Edges(node.right, mid);
    assert Edges(node, base) == x + rest;
    ReadyFirst(transitions, counts, offs, caps, out, x, rest);
    MakeTransOf(attrs, p + [L], p + [R], node.left, node.right, base, mid, transitions, counts, offs, caps, out);
    ghost var counts1 := counts[..];
    BothOperands(tree, attrs, p, base, transitions, counts, offs, caps, AddSteps(out, x));
    DoneBoth(transitions, counts, offs, out, x, rest, old(counts[..]), counts1);
  }

  /** tre_make_trans from the lastpos of one node to the firstpos of another. */
  method MakeTransOf(attrs: Attrs, p: Path, q: Path, ghost l: Ast, ghost r: Ast, ghost base: nat, ghost mid: nat,
                     transitions: array?<Slot>, counts: array<nat>, offs: seq<nat>, ghost caps: seq<nat>,
                     ghost out: seq<seq<Step>>)
    requires Computed(attrs, l, p, base) && Computed(attrs, r, q, mid)
    requires base + NumPos(l) <= counts.Length && mid + NumPos(r) <= counts.Length
    requires Ready(transitions, counts, offs, caps, out, Cross(EndSet(false, l, base), EndSet(true, r, mid)))
    modifies transitions, counts
    ensures Done(transitions, counts, offs, out, Cross(EndSet(false, l, base), EndSet(true, r, mid)), old(counts[..]))
  {
    EndSetInStates(false, l, base, counts.Length);
    EndSetInStates(true, r, mid, counts.Length);
    MakeTrans(attrs[p].lastpos, attrs[q].firstpos, transitions, counts, offs, caps, out);
  }

  /** The ITERATION case of tre_ast_to_tnfa. */
  method LoopToTnfa(tree: Ast, attrs: Attrs, p: Path, ghost base: nat, transitions: array?<Slot>, counts: array<nat>,
                    offs: seq<nat>, ghost caps: seq<nat>, ghost out: seq<seq<Step>>)
    requires IsNode(tree, p) && Sub(tree, p).Iteration? && Simple(Sub(tree, p))
    requires Computed(attrs, Sub(tree, p), p, base)
    requires base + NumPos(Sub(tree, p)) <= counts.Length
    requires Ready(transitions, counts, offs, caps, out, Edges(Sub(tree, p), base))
    modifies transitions, counts
    ensures Done(transitions, counts, offs, out, Edges(Sub(tree, p), base), old(counts[..]))
    decreases Sub(tree, p), 0
  {
    var node := Sub(tree, p);
    Extend(tree, p, L, Empty);
    assert node.max == -1 || node.max == 1;
    ghost var ea := Edges(node.arg, base);
    if node.max == -1 {
      assert node.min == 0 || node.min == 1;
      ghost var x := Cross(EndSet(false, node.arg, base), EndSet(true, node.arg, base));
      ReadyFirst(transitions, counts, offs, caps, out, x, ea);
      MakeTransOf(attrs, p + [L], p + [L], node.arg, node.arg, base, base, transitions, counts, offs, caps, out);
      ghost var counts1 := counts[..];
      AstToTnfa(tree, attrs, p + [L], base, transitions, counts, offs, caps, AddSteps(out, x));
      DoneBoth(transitions, counts, offs, out, x, ea, old(counts[..]), counts1);
    } else {
      assert Edges(node, base) == [] + ea == ea;
      AstToTnfa(tree, attrs, p + [L], base, transitions, counts, offs, caps, out);
    }
  }

  lemma OperandsOf(tree: Ast, attrs: Attrs, p: Path, base: nat)
    requires IsNode(tree, p) && HasChild(Sub(tree, p), R) && Simple(Sub(tree, p))
    requires Computed(attrs, Sub(tree, p), p, base)
    ensures var n := Sub(tree, p);
      && IsNode(tree, p + [L]) && Sub(tree, p + [L]) == n.left && Simple(n.left) && n.left < n
      && IsNode(tree, p + [R]) && Sub(tree, p + [R]) == n.right && Simple(n.right) && n.right < n
      && Computed(attrs, n.left, p + [L], base) && Computed(attrs, n.right, p + [R], base + NumPos(n.left))
      && NumPos(n) == NumPos(n.left) + NumPos(n.right)
  {
    Extend(tree, p, L, Empty);
    Extend(tree, p, R, Empty);
  }

  /** The two recursive calls of tre_ast_to_tnfa for a union or a catenation. */
  method BothOperands(tree: Ast, attrs: Attrs, p: Path, ghost base: nat, transitions: array?<Slot>, counts: array<nat>,
                      offs: seq<nat>, ghost caps: seq<nat>, ghost out: seq<seq<Step>>)
    requires IsNode(tree, p) && HasChild(Sub(tree, p), R) && Simple(Sub(tree, p))
    requires Computed(attrs, Sub(tree, p), p, base)
    requires base + NumPos(Sub(tree, p)) <= counts.Length
    requires var n := Sub(tree, p);
      Ready(transitions, counts, offs, caps, out, Edges(n.left, base) + Edges(n.right, base + NumPos(n.left)))
    modifies transitions, counts
    ensures var n := Sub(tree, p);
      Done(transitions, counts, offs, out, Edges(n.left, base) + Edges(n.right, base + NumPos(n.left)), old(counts[..]))
    decreases Sub(tree, p), 0
  {
    ghost var n := Sub(tree, p);
    ghost var mid := base + NumPos(n.left);
    ghost var el, er := Edges(n.left, base), Edges(n.right, mid);
    OperandsOf(tree, attrs, p, base);
    ReadyFirst(transitions, counts, offs, caps, out, el, er);
    AstToTnfa(tree, attrs, p + [L], base, transitions, counts, offs, caps, out);
    ghost var counts1 := counts[..];
    AstToTnfa(tree, attrs, p + [R], mid, transitions, counts, offs, caps, AddSteps(out, el));
    DoneBoth(transitions, counts, offs, out, el, er, old(counts[..]), counts1);
  }
}
