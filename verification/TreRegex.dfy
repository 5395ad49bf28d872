/** From the text of a pattern to the reported span: tre_parse, then tre_compile and tre_match. */
module TreRegex {
  import opened Text
  import opened TreAst
  import opened TreMarked
  import opened TreParse
  import opened TreParsePrinted
  import TreFold
  import TreGroups
  import opened TreRegset
  import TreMatch
  import TreParallel
  import TreSubmatches
  import TreTnfa

  // ----- every tree can be compiled -----

  /** What the later passes expect of a tree. */
  predicate Sound(m: Marked) { WellFormed(Unmarked(m)) }

  predicate SoundSymbol(x: Symbol) {
    match x
    case PostCatenation(tree) => Sound(tree)
    case PostUnion(tree) => Sound(tree)
    case _ => true
  }

  predicate SoundState(s: State) { Sound(s.result) && forall i | 0 <= i < |s.stack| :: SoundSymbol(s.stack[i]) }

  lemma StepKeepsSound(pat: Bytes, s: State)
    requires Running(s) && s.re <= |pat| && SoundState(s)
    ensures SoundState(Step(pat, s))
  {
    hide SpecialEscape, IsPostfix;
    assert SoundSymbol(s.stack[|s.stack| - 1]);
    assert Sound(Fresh(Nothing));
    forall c: Byte, d: Byte ensures Sound(Fresh(Lit(c, d))) {
    }
  }

  /** Whatever the parser builds can be compiled. */
  lemma {:induction false} RunKeepsSound(pat: Bytes, s: State)
    requires Inv(pat, s) && SoundState(s)
    ensures SoundState(Run(pat, s))
    decreases Measure(pat, s)
  {
    hide SoundState, Inv, Step, Measure;
    if Running(s) {
      StepKeeps(pat, s);
      NotBehind(pat, s);
      StepKeepsSound(pat, s);
      RunKeepsSound(pat, Step(pat, s));
    }
  }

  lemma NotBehind(pat: Bytes, s: State)
    requires Inv(pat, s)
    ensures s.re <= |pat|
  {
  }

  // ----- the submatch ids -----

  /** The nodes that stand for group `id`, or, when that is -1, for any. */
  function Having(m: Marked, id: SubmatchId): nat { if id < 0 then Submatches(m) else Occurrences(m, id) }

  /** Those that a stack entry holds or will make. */
  function MarksIn(x: Symbol, id: SubmatchId): nat {
    match x
    case PostCatenation(tree) => Having(tree, id)
    case PostUnion(tree) => Having(tree, id)
    case MarkForSubmatch(i) => if id < 0 || i == id then 1 else 0
    case _ => 0
  }

  function StackMarks(stack: seq<Symbol>, id: SubmatchId): nat {
    if stack == [] then 0 else StackMarks(stack[..|stack| - 1], id) + MarksIn(stack[|stack| - 1], id)
  }

  /** The result will be overwritten before it is used. */
  predicate Stale(stack: seq<Symbol>) {
    |stack| > 0 && var top := stack[|stack| - 1]; top.ParseRe? || top.ParseBranch? || top.ParsePiece? || top.ParseAtom?
  }

  function Marks(s: State, id: SubmatchId): nat { StackMarks(s.stack, id) + if Stale(s.stack) then 0 else Having(s.result, id) }

  /** Ids that have been handed out: all, or whether `id` is one. */
  function Handed(submatchId: nat, id: SubmatchId): nat { if id < 0 then submatchId else if id < submatchId then 1 else 0 }

  lemma PushedMarks(stack: seq<Symbol>, a: Symbol, b: Symbol, c: Symbol, id: SubmatchId)
    ensures StackMarks(stack + [a], id) == StackMarks(stack, id) + MarksIn(a, id)
    ensures StackMarks(stack + [a, b], id) == StackMarks(stack, id) + MarksIn(a, id) + MarksIn(b, id)
    ensures StackMarks(stack + [a, b, c], id) == StackMarks(stack, id) + MarksIn(a, id) + MarksIn(b, id) + MarksIn(c, id)
  {
    hide MarksIn;
    assert (stack + [a])[..|stack|] == stack;
    assert (stack + [a, b])[..|stack| + 1] == stack + [a];
    assert (stack + [a, b, c])[..|stack| + 2] == stack + [a, b];
  }

  lemma AtomMarks(c: Byte, flags: Flags, id: SubmatchId)
    ensures Having(Fresh(LiteralAtom(c, flags)), id) == 0
    ensures Having(Fresh(Alt(Fresh(Lit(0, 9)), Fresh(Lit(11, 255)))), id) == 0
  {
    forall lo, hi ensures Having(Fresh(Lit(lo, hi)), id) == 0 {
    }
  }

  /** Nothing but the top symbol and the result change. */
  lemma MarksOf(s: State, id: SubmatchId)
    requires s.stack != []
    ensures Marks(s, id) == StackMarks(s.stack[..|s.stack| - 1], id) + MarksIn(s.stack[|s.stack| - 1], id)
                            + if Stale(s.stack) then 0 else Having(s.result, id)
  {
  }

  ghost predicate CountsAll(s: State, u: State, id: SubmatchId) {
    Marks(u, id) + Handed(s.submatchId, id) <= Marks(s, id) + Handed(u.submatchId, id)
  }

  lemma AtomStep(pat: Bytes, s: State, id: SubmatchId)
    requires s.re <= |pat| && Atom(pat, s).status == Ok
    ensures var u := Atom(pat, s);
      Marks(u, id) + Handed(s.submatchId, id) <= StackMarks(s.stack, id) + Handed(u.submatchId, id)
  {
    hide SpecialEscape, IsPostfix, StackMarks, LiteralAtom;
    if s.re < |pat| {
      AtomMarks(pat[s.re], s.flags, id);
    }
    PushedMarks(s.stack, MarkForSubmatch(s.submatchId), ParseRe, ParseRe, id);
    PushedMarks(s.stack, RestoreCflags(s.flags), ParseRe, ParseRe, id);
  }

  /** What is pushed counts no more than what was there. */
  lemma PushStep(pat: Bytes, s: State, id: SubmatchId)
    requires s.re <= |pat|
    ensures Catenate(pat, s).status == Ok ==> Marks(Catenate(pat, s), id) <= StackMarks(s.stack, id) + Having(s.result, id)
    ensures Unite(pat, s).status == Ok ==> Marks(Unite(pat, s), id) <= StackMarks(s.stack, id) + Having(s.result, id)
    ensures Postfix(pat, s).status == Ok ==> Marks(Postfix(pat, s), id) <= StackMarks(s.stack, id) + Having(s.result, id)
    ensures Catenate(pat, s).submatchId == Unite(pat, s).submatchId == Postfix(pat, s).submatchId == s.submatchId
  {
    hide IsPostfix, StackMarks;
    PushedMarks(s.stack, ParseCatenation, PostCatenation(s.result), ParsePiece, id);
    PushedMarks(s.stack, ParseUnion, PostUnion(s.result), ParseBranch, id);
    PushedMarks(s.stack, ParsePostfix, ParseRe, ParseRe, id);
  }

  /** A turn makes no submatch that it does not count. */
  lemma StepMarks(pat: Bytes, s: State, id: SubmatchId)
    requires Running(s) && s.re <= |pat| && Step(pat, s).status == Ok
    ensures CountsAll(s, Step(pat, s), id)
  {
    hide Atom, Catenate, Unite, Postfix, StackMarks, Having;
    var rest, top := s.stack[..|s.stack| - 1], s.stack[|s.stack| - 1];
    var t := s.(stack := rest);
    MarksOf(s, id);
    AtomOnly(pat, t, top, id);
    PushStep(pat, t, id);
    PushedMarks(rest, ParseUnion, ParseBranch, ParseRe, id);
    PushedMarks(rest, ParseCatenation, ParsePiece, ParseRe, id);
    PushedMarks(rest, ParsePostfix, ParseAtom, ParseRe, id);
    match top
    case PostCatenation(tree) => JoinedCounts(tree, s.result, id);
    case PostUnion(tree) => JoinedCounts(tree, s.result, id);
    case MarkForSubmatch(i) => MarkedCounts(s.result, i, id);
    case _ =>
  }

  lemma JoinedCounts(l: Marked, r: Marked, id: SubmatchId)
    ensures Having(Fresh(Cat(l, r)), id) == Having(Fresh(Alt(l, r)), id) == Having(l, id) + Having(r, id)
  {
  }

  lemma MarkedCounts(m: Marked, i: nat, id: SubmatchId)
    ensures var more := if id < 0 || i == id then 1 else 0;
      && Having(Marked(Cat(Fresh(Nothing), m), i), id) == Having(m, id) + more
      && (m.id < 0 ==> Having(m.(id := i), id) == Having(m, id) + more)
  {
    assert Having(Fresh(Nothing), id) == 0;
  }

  lemma AtomOnly(pat: Bytes, t: State, top: Symbol, id: SubmatchId)
    requires t.re <= |pat|
    ensures var u := Atom(pat, t);
      top.ParseAtom? && u.status == Ok ==>
        Marks(u, id) + Handed(t.submatchId, id) <= StackMarks(t.stack, id) + Handed(u.submatchId, id)
  {
    hide Atom, Marks, StackMarks;
    if top.ParseAtom? && Atom(pat, t).status == Ok {
      AtomStep(pat, t, id);
    }
  }

  lemma {:induction false} RunMarks(pat: Bytes, s: State, id: SubmatchId)
    requires Inv(pat, s) && Run(pat, s).status == Ok
    ensures CountsAll(s, Run(pat, s), id)
    decreases Measure(pat, s)
  {
    hide Inv, Step, Measure, Marks;
    if Running(s) {
      StepKeeps(pat, s);
      NotBehind(pat, s);
      RunningBefore(pat, Step(pat, s));
      StepMarks(pat, s, id);
      RunMarks(pat, Step(pat, s), id);
    }
  }

  /** A run that ends well has not failed before. */
  lemma RunningBefore(pat: Bytes, s: State)
    requires Inv(pat, s) && Run(pat, s).status == Ok
    ensures s.status == Ok
  {
  }

  /** Submatch 0 is not in use yet, or the root alone stands for it. */
  predicate NoWholeSymbol(x: Symbol) {
    match x
    case PostCatenation(tree) => NoWhole(tree)
    case PostUnion(tree) => NoWhole(tree)
    case MarkForSubmatch(id) => id != 0
    case _ => true
  }

  predicate WholeLast(s: State) {
    if s.stack == [] then OnlyRoot(s.result) else
      && s.stack[0] == MarkForSubmatch(0) && NoWhole(s.result) && s.submatchId > 0
      && forall i | 0 < i < |s.stack| :: NoWholeSymbol(s.stack[i])
  }

  lemma StepKeepsWhole(pat: Bytes, s: State)
    requires Running(s) && s.re <= |pat| && WholeLast(s)
    ensures WholeLast(Step(pat, s))
  {
    hide ToUpper, ToLower, SpecialEscape, IsPostfix;
    assert |s.stack| > 1 ==> NoWholeSymbol(s.stack[|s.stack| - 1]);
    assert NoWhole(Fresh(Nothing));
    forall c: Byte, d: Byte ensures NoWhole(Fresh(Lit(c, d))) {
    }
    if |s.stack| > 1 {
      assert s.stack[..|s.stack| - 1][0] == s.stack[0];
    }
  }

  lemma {:induction false} RunKeepsWhole(pat: Bytes, s: State)
    requires Inv(pat, s) && WholeLast(s)
    ensures WholeLast(Run(pat, s))
    decreases Measure(pat, s)
  {
    hide Inv, Step, Measure, WholeLast;
    if Running(s) {
      StepKeeps(pat, s);
      NotBehind(pat, s);
      StepKeepsWhole(pat, s);
      RunKeepsWhole(pat, Step(pat, s));
    }
  }

  /** A run that ends well has emptied its stack. */
  lemma {:induction false} RunEmpties(pat: Bytes, s: State)
    requires Inv(pat, s) && Run(pat, s).status == Ok
    ensures Run(pat, s).stack == []
    decreases Measure(pat, s)
  {
    hide Inv, Step, Measure;
    if Running(s) {
      StepKeeps(pat, s);
      NotBehind(pat, s);
      RunEmpties(pat, Step(pat, s));
    }
  }

  /** The root of the parsed tree, and no other node, is submatch 0; no two nodes stand for the same submatch, and there
      are no more submatches than ids handed out. */
  lemma ParsedMarks(pat: Bytes, result: Marked, flags: Flags)
    requires NoWhole(result) && Run(pat, Started(false, 0, result, 0, flags)).status == Ok
    ensures var u := Run(pat, Started(false, 0, result, 0, flags));
      OnlyRoot(u.result) && Once(u.result) && Submatches(u.result) <= u.submatchId
      && forall id: nat | u.submatchId <= id :: Occurrences(u.result, id) == 0
  {
    hide Inv, Run, Step, Measure, Submatches, Occurrences, NoWhole;
    var s := Started(false, 0, result, 0, flags);
    assert WholeLast(s);
    RunKeepsWhole(pat, s);
    RunEmpties(pat, s);
    forall id: SubmatchId ensures Having(Run(pat, s).result, id) <= Handed(Run(pat, s).submatchId, id) {
      RunMarks(pat, s, id);
      PushedMarks([], MarkForSubmatch(0), ParseRe, ParseRe, id);
      assert [] + [MarkForSubmatch(0), ParseRe] == s.stack;
    }
    assert Having(Run(pat, s).result, -1) <= Run(pat, s).submatchId;
    forall id: nat ensures Occurrences(Run(pat, s).result, id) <= if id < Run(pat, s).submatchId then 1 else 0 {
      assert Having(Run(pat, s).result, id) <= Handed(Run(pat, s).submatchId, id);
    }
  }

  // ----- the whole -----

  /** What the parser leaves of a printed tree: the tree, or one that means its words in any case. */
  ghost predicate PrintedTree(m: Marked, flags: Flags, tree: Marked) {
    if flags.icase then Lang(Unmarked(tree)) == TreFold.AnyCase(Lang(Unmarked(m))) else tree == m
  }

  /** The state after the parser has run, for a printed pattern. */
  lemma PrintedRun(pat: Bytes, m: Marked, result: Marked, flags: Flags)
    requires Printable(m) && m.id == 0 && Numbered(m, 0) && pat == PatternText(m)
    ensures var u := Run(pat, Started(false, 0, result, 0, flags));
      u.status == Ok && u.depth == 0 && PrintedTree(m, flags, u.result) && Submatches(u.result) == Submatches(m)
  {
    hide *;
    RoundTrip(m, false, result, 0, flags);
    RecasedTree(m, flags);
  }

  lemma RecasedTree(m: Marked, flags: Flags)
    requires Printable(m)
    ensures PrintedTree(m, flags, Recased(m, flags)) && Submatches(Recased(m, flags)) == Submatches(m)
  {
    hide Lang, Recased;
    if flags.icase {
      TreFold.PatternAnyCase(m, flags);
    } else {
      SameCase(m, flags);
    }
    RecasedSubmatches(m, flags);
  }

  lemma {:induction false} RecasedSubmatches(m: Marked, flags: Flags)
    requires Printable(m)
    ensures Submatches(Recased(m, flags)) == Submatches(m)
  {
    match m.node
    case Lit(c, _) => AtomMarks(c, flags, -1);
    case Cat(l, r) => RecasedSubmatches(l, flags); RecasedSubmatches(r, flags);
    case Alt(l, r) => RecasedSubmatches(l, flags); RecasedSubmatches(r, flags);
    case Iter(a, _, _) => RecasedSubmatches(a, flags);
    case _ =>
  }

  /** tre_regncomp and tre_regnexec with one register. */
  method Search(pat: Bytes, flags: Flags, s: Word) returns (status: Status, tree: Marked, pmatch: TreMatch.Span, preg: TreGroups.Preg)
    requires TreParallel.IsBytes(s)
    ensures status == Ok ==> OnlyRoot(tree) && Once(tree) && WellFormed(TreSubmatches.PlaceTags(tree).tree)
    ensures status == Ok ==> TreGroups.SpanOfGroups(tree, preg.tnfa.firstChar, s, pmatch)
    ensures status == Ok && Submatches(tree) == 1 ==> TreMatch.LeftmostLongestSpan(Unmarked(tree), s, pmatch)
    ensures forall m: Marked | Printable(m) && m.id == 0 && Numbered(m, 0) && pat == PatternText(m) ::
      status == Ok && PrintedTree(m, flags, tree) && Submatches(tree) == Submatches(m)
  {
    hide Run, Step, Inv, Measure, PatternText, PrintedTree, Numbered, Printable, Sound, OnlyRoot, NoWhole, Unmarked, Submatches,
      TreMatch.LeftmostLongestSpan, TreGroups.SpanOfGroups, TreSubmatches.PlaceTags;
    pmatch := TreMatch.NoSpan;
    var p := new Parser(pat, flags);
    ghost var s0 := Started(false, 0, p.result, 0, flags);
    NothingIsSound();
    RunKeepsSound(pat, s0);
    ghost var u := Run(pat, s0);
    forall m: Marked | Printable(m) && m.id == 0 && Numbered(m, 0) && pat == PatternText(m)
      ensures u.status == Ok && u.depth == 0 && PrintedTree(m, flags, u.result) && Submatches(u.result) == Submatches(m)
    {
      PrintedRun(pat, m, s0.result, flags);
    }
    status := p.Parse(false);
    tree := p.result;
    if status == Ok {
      ParsedMarks(pat, s0.result, flags);
      SoundMeans(tree);
      pmatch, preg := TreGroups.RegExecGroups(tree, s);
    } else {
      preg := TreGroups.Preg(TreTnfa.Tnfa([], [], 0, 0, -1, map[], 0), NO_DATA);
    }
  }

  lemma NothingIsSound()
    ensures Sound(Fresh(Nothing)) && NoWhole(Fresh(Nothing))
  {
  }

  lemma SoundMeans(m: Marked)
    requires Sound(m)
    ensures WellFormed(Unmarked(m))
  {
  }
}
