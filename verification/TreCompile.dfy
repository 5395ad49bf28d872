/** The part of tre_compile (tre-compile.c) from the parsed and tagged tree to the finished TNFA. */
module TreCompile {
  import opened TreAst
  import opened TreExpand
  import opened TrePositions
  import opened TreAutomaton
  import opened TreTnfa

  /** The offsets of the states: each state gets its counted transitions and a terminator. */
  method Offsets(counts: array<nat>) returns (offs: seq<nat>, add: nat)
    modifies counts
    ensures |offs| == counts.Length
    ensures forall i | 0 <= i < counts.Length :: counts[i] == 0
    ensures Spaced(offs, old(counts[..]), add + 1)
  {
    ghost var caps := counts[..];
    offs, add := [], 0;
    for i := 0 to counts.Length
      invariant |offs| == i
      invariant forall q | 0 <= q < i :: counts[q] == 0 && offs[q] + caps[q] < add
      invariant forall q | i <= q < counts.Length :: counts[q] == caps[q]
      invariant forall p, q | 0 <= p < q < i :: offs[p] + caps[p] < offs[q]
    {
      offs := offs + [add];
      add := add + counts[i] + 1;
      counts[i] := 0;
    }
  }

  /** Before the second pass every state holds no transition. */
  lemma AllEmpty(slots: seq<Slot>, offs: seq<nat>, caps: seq<nat>, n: nat)
    requires Spaced(offs, caps, |slots|) && |offs| == n
    requires forall i | 0 <= i < |slots| :: slots[i] == Null
    ensures Holds(slots, offs, NoSteps(n))
  {
  }

  // ----- first_char -----

  predicate Marks(chars: seq<bool>, s: Slot) {
    |chars| == BYTES && (s.Trans? ==> forall c | s.codeMin <= c <= s.codeMax && c < BYTES :: chars[c])
  }

  /** With at most one mark made, at most one byte is marked; with none made, none is. */
  predicate Tally(chars: seq<bool>, count: nat) {
    && |chars| == BYTES
    && (count == 0 ==> forall c | 0 <= c < BYTES :: !chars[c])
    && (count == 1 ==> forall c, d | 0 <= c < BYTES && 0 <= d < BYTES && chars[c] && chars[d] :: c == d)
  }

  /** Mark the bytes one transition reads. */
  method MarkRange(chars: array<bool>, s: Slot, count0: nat) returns (count: nat)
    requires s.Trans? && Tally(chars[..], count0)
    modifies chars
    ensures Tally(chars[..], count) && Marks(chars[..], s)
    ensures forall c | 0 <= c < BYTES && old(chars[c]) :: chars[c]
  {
    count := count0;
    var k := s.codeMin;
    while k <= s.codeMax && k < BYTES
      invariant s.codeMin <= k
      invariant Tally(chars[..], count)
      invariant forall c | 0 <= c < BYTES && old(chars[c]) :: chars[c]
      invariant forall c | s.codeMin <= c < k && c < BYTES :: chars[c]
      decreases BYTES - k
    {
      chars[k] := true;
      count := count + 1;
      k := k + 1;
    }
  }

  /** The loop over the initial states that decides whether only one byte can start a match. */
  method FirstChar(firstpos: PosSet, transitions: seq<Slot>, offs: seq<nat>, ghost out: seq<seq<Step>>) returns (first: int)
    requires Holds(transitions, offs, out)
    requires forall i | 0 <= i < |firstpos| :: firstpos[i].position < |out|
    ensures first == -1 || 0 <= first < BYTES
    ensures first >= 0 ==>
      forall i, s, c: nat | 0 <= i < |firstpos| && s in out[firstpos[i].position] && c < BYTES && Reads(s, c) :: c == first
  {
    var chars := new bool[BYTES](_ => false);
    var count := 0;
    for i := 0 to |firstpos|
      invariant Tally(chars[..], count)
      invariant forall h, s | 0 <= h < i && s in out[firstpos[h].position] :: Marks(chars[..], SlotFor(s))
    {
      ghost var steps := out[firstpos[i].position];
      var start := offs[firstpos[i].position];
      assert HoldsAt(transitions, offs, start, steps);
      var j := start;
      forall m | start <= m < start + |steps| ensures transitions[m] != Null {
        assert transitions[start + (m - start)] == SlotOf(steps[m - start], offs);
      }
      while transitions[j] != Null
        invariant start <= j <= start + |steps|
        invariant Tally(chars[..], count)
        invariant forall h, s | 0 <= h < i && s in out[firstpos[h].position] :: Marks(chars[..], SlotFor(s))
        invariant forall m | 0 <= m < j - start :: Marks(chars[..], SlotFor(steps[m]))
        decreases start + |steps| - j
      {
        ghost var m := j - start;
        assert transitions[start + m] == SlotOf(steps[m], offs);
        count := MarkRange(chars, transitions[j], count);
        j := j + 1;
      }
      assert forall s | s in steps :: Marks(chars[..], SlotFor(s));
    }
    first := -1;
    if count == 1 {
      var k := 0;
      while k < BYTES && !chars[k]
      {
        k := k + 1;
      }
      if k < BYTES {
        first := k;
      }
      forall i, s, c: nat | first >= 0 && 0 <= i < |firstpos| && s in out[firstpos[i].position] && c < BYTES && Reads(s, c)
        ensures c == first
      {
        assert Marks(chars[..], SlotFor(s));
        assert chars[..][c] && chars[..][first];
      }
    }
  }

  /** A transition's range, whatever its target. */
  function SlotFor(s: Step): Slot { Trans(s.codeMin, s.codeMax, 0, 0, []) }

  // ----- the whole -----

  /** The initial array: one entry per position in firstpos, then a terminator. */
  method InitialStates(firstpos: PosSet, offs: seq<nat>) returns (initial: seq<Slot>)
    requires InStates(firstpos, |offs|)
    ensures |initial| == |firstpos| + 1 && initial[|firstpos|] == Null
    ensures forall i | 0 <= i < |firstpos| ::
      initial[i] == Trans(0, 0, offs[firstpos[i].position], firstpos[i].position, firstpos[i].tags)
  {
    initial := [];
    for i := 0 to |firstpos|
      invariant |initial| == i
      invariant forall h | 0 <= h < i ::
        initial[h] == Trans(0, 0, offs[firstpos[h].position], firstpos[h].position, firstpos[h].tags)
    {
      initial := initial + [Trans(0, 0, offs[firstpos[i].position], firstpos[i].position, firstpos[i].tags)];
    }
    initial := initial + [Null];
  }

  /** The two passes over the tree: count, place the states, fill. */
  method LayOut(tree: Ast, attrs: Attrs, numpos: nat) returns (transitions: seq<Slot>, offs: seq<nat>)
    requires Simple(tree) && Computed(attrs, tree, [], 0) && numpos == NumPos(tree)
    ensures Holds(transitions, offs, AddSteps(NoSteps(numpos), Edges(tree, 0)))
    ensures Injective(offs)
  {
    ghost var edges := Edges(tree, 0);
    var counts := new nat[numpos](_ => 0);
    assert Sub(tree, []) == tree;
    AstToTnfa(tree, attrs, [], 0, null, counts, [], [], NoSteps(numpos));
    ghost var caps := counts[..];
    var add;
    offs, add := Offsets(counts);
    var slots := new Slot[add + 1](_ => Null);
    AllEmpty(slots[..], offs, caps, numpos);
    assert Fits(NoSteps(numpos), edges, caps);
    AstToTnfa(tree, attrs, [], 0, slots, counts, offs, caps, NoSteps(numpos));
    transitions := slots[..];
  }

  /** The finished structure represents the automaton of the tree. */
  lemma BuiltRepresents(t: Ast, tnfa: Tnfa, offs: seq<nat>, firstpos: PosSet)
    requires firstpos == Npfl(WithFinal(t), 0).firstpos
    requires Holds(tnfa.transitions, offs, AutomatonOf(t).out) && Injective(offs)
    requires tnfa.numStates == NumPos(t) + 1 == |offs| && tnfa.final == offs[NumPos(t)]
    requires |tnfa.initial| == |firstpos| + 1 && tnfa.initial[|firstpos|] == Null
    requires forall i | 0 <= i < |firstpos| ::
      && firstpos[i].position < |offs|
      && tnfa.initial[i] == Trans(0, 0, offs[firstpos[i].position], firstpos[i].position, firstpos[i].tags)
    ensures Represents(tnfa, AutomatonOf(t), offs)
  {
    AutomatonIsClosed(t);
    assert AutomatonOf(t).initial == Starts(firstpos);
  }

  lemma StatesOf(t: Ast)
    ensures NumPos(WithFinal(t)) == NumPos(t) + 1 == |AutomatonOf(t).out|
    ensures AutomatonOf(t).out == AddSteps(NoSteps(NumPos(WithFinal(t))), Edges(WithFinal(t), 0))
  {
    assert NumPos(Literal(0, 0)) == 1;
  }

  /** tre_compile after expansion: add the dummy final literal, compute positions, lay out the transitions. */
  method BuildTnfa(tmpAstL: Ast, dirs: Directions, numTags: nat) returns (tnfa: Tnfa, ghost offs: seq<nat>)
    requires Simple(tmpAstL)
    ensures Represents(tnfa, AutomatonOf(tmpAstL), offs)
    ensures FirstCharSound(tnfa, AutomatonOf(tmpAstL))
    ensures tnfa.tagDirections == dirs && tnfa.numTags == numTags && tnfa.firstChar < BYTES
  {
    var tree := Catenation(tmpAstL, Literal(0, 0));
    ghost var a := AutomatonOf(tmpAstL);
    StatesOf(tmpAstL);
    var attrs, numpos := ComputeNpfl(tree, 0);
    var root := attrs[[]];
    RootLeft(attrs, tree);
    SimpleWithFinal(tmpAstL);
    var transitions, offsets := LayOut(tree, attrs, numpos);
    offs := offsets;
    EndSetInStates(true, tree, 0, numpos);
    LastIsFinal(tmpAstL);
    var firstChar := -1;
    if !attrs[[L]].nullable {
      firstChar := FirstChar(root.firstpos, transitions, offsets, a.out);
    }
    var initial := InitialStates(root.firstpos, offsets);
    tnfa := Tnfa(transitions, initial, offsets[root.lastpos[0].position], numpos, firstChar, dirs, numTags);
    BuiltRepresents(tmpAstL, tnfa, offs, root.firstpos);
    if firstChar >= 0 {
      FirstCharIsSound(tmpAstL, tnfa);
    }
  }

  lemma SimpleWithFinal(t: Ast)
    requires Simple(t)
    ensures Simple(WithFinal(t))
  {
    assert Simple(Literal(0, 0));
  }

  lemma RootLeft(attrs: Attrs, tree: Ast)
    requires HasChild(tree, L) && Computed(attrs, tree, [], 0)
    ensures [L] in attrs && attrs[[L]].nullable == Nullable(Child(tree, L))
  {
    assert [] + [L] == [L];
  }

  lemma LastIsFinal(t: Ast)
    ensures var s := Npfl(WithFinal(t), 0).lastpos; |s| == 1 && s[0].position == NumPos(t)
  {
    assert Npfl(Literal(0, 0), NumPos(t)).lastpos == [PosTags(NumPos(t), 0, 0, [])];
  }

  lemma FinalNotInitial(t: Ast)
    requires !Nullable(t)
    ensures !IsInitial(AutomatonOf(t), NumPos(t))
  {
    StartsAreFirst(t, NumPos(t));
    CatParts(t, Literal(0, 0), 0, NumPos(t), 0, 0);
  }

  lemma InitialEntries(t: Ast)
    ensures forall p: nat | IsInitial(AutomatonOf(t), p) :: HasPosition(Npfl(WithFinal(t), 0).firstpos, p)
  {
    forall p: nat | IsInitial(AutomatonOf(t), p) ensures HasPosition(Npfl(WithFinal(t), 0).firstpos, p) {
      StartsAreFirst(t, p);
      EndPositions(true, WithFinal(t), 0, p);
    }
  }

  /** `byte` is the only one that transitions from the listed states read. */
  ghost predicate OnlyByte(a: Automaton, firstpos: PosSet, byte: int) {
    InStates(firstpos, |a.out|) &&
    forall i, s, c: nat | 0 <= i < |firstpos| && s in a.out[firstpos[i].position] && c < BYTES && Reads(s, c) ::
      c == byte
  }

  lemma OnlyFirstByte(a: Automaton, firstpos: PosSet, byte: int)
    requires OnlyByte(a, firstpos, byte)
    requires forall p: nat | IsInitial(a, p) :: HasPosition(firstpos, p)
    ensures forall p: nat, c: nat, q: nat | IsInitial(a, p) && c < BYTES && HasStep(a, p, c, q) :: c == byte
  {
    forall p: nat, c: nat, q: nat | IsInitial(a, p) && c < BYTES && HasStep(a, p, c, q) ensures c == byte {
      var i :| 0 <= i < |firstpos| && firstpos[i].position == p;
      var s :| s in a.out[p] && Reads(s, c) && s.target == q;
    }
  }

  lemma FirstCharIsSound(t: Ast, tnfa: Tnfa)
    requires !Nullable(t)
    requires OnlyByte(AutomatonOf(t), Npfl(WithFinal(t), 0).firstpos, tnfa.firstChar)
    ensures FirstCharSound(tnfa, AutomatonOf(t))
  {
    FinalNotInitial(t);
    InitialEntries(t);
    OnlyFirstByte(AutomatonOf(t), Npfl(WithFinal(t), 0).firstpos, tnfa.firstChar);
  }

  /** tre_compile from tre_expand_ast on. */
  method CompileAst(ast: Ast, dirs0: Directions, numTags: nat) returns (tnfa: Tnfa, ghost offs: seq<nat>)
    requires WellFormed(ast)
    ensures Represents(tnfa, AutomatonOf(Expand(ast)), offs)
    ensures FirstCharSound(tnfa, AutomatonOf(Expand(ast)))
    ensures tnfa.tagDirections == ExpandDirs(ast, dirs0) && tnfa.numTags == numTags && tnfa.firstChar < BYTES
  {
    var tree, dirs := ExpandAst(ast, dirs0);
    ExpandIsSimple(ast);
    tnfa, offs := BuildTnfa(tree, dirs, numTags);
  }

  /** A word labels a path of the compiled automaton exactly when it is in the language of the parsed tree. */
  lemma CompileKeepsLanguage(ast: Ast, w: Word)
    requires WellFormed(ast)
    ensures Accepts(AutomatonOf(Expand(ast)), w) <==> w in Lang(ast)
  {
    ExpandIsSimple(ast);
    ExpandKeepsLanguage(ast);
    AcceptsIsLang(Expand(ast), w);
  }
}
