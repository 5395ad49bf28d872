/** What the parser (tre_parse, tre-parse.c) makes of atoms that no printed tree shows, how it marks groups, and which
    patterns it refuses. */
module TreAtoms {
  import opened Text
  import opened TreAst
  import opened TreMarked
  import opened TreParse
  import opened TreParsePrinted

  // ----- atoms -----

  /** `.` reads any byte, but no newline under REG_NEWLINE. */
  lemma PeriodMeans(pat: Bytes, s: State)
    requires s.re < |pat| && pat[s.re] as char == '.'
    ensures var u := Atom(pat, s);
      && u.(result := s.result) == s.(re := s.re + 1)
      && forall w: Word :: w in Lang(Unmarked(u.result)) <==> |w| == 1 && w[0] < 256 && (s.flags.newline ==> w[0] != 10)
  {
    var low, high := Fresh(Lit(0, 9)), Fresh(Lit(11, 255));
    if s.flags.newline {
      assert Unmarked(Atom(pat, s).result) == Union(Unmarked(low), Unmarked(high));
    }
  }

  const SPECIAL_ESCAPES: string := "tnrfaewWsSdDQbB<>x0123456789"

  /** A backslash takes the special meaning of the byte behind it away; it is not folded. */
  lemma EscapeMeans(pat: Bytes, s: State)
    requires s.re < |pat| && pat[s.re] as char == '\\' && s.status == Ok
    ensures var u := Atom(pat, s);
      if s.re + 1 == |pat| then u.status == Eescape
      else if pat[s.re + 1] as char in SPECIAL_ESCAPES then u.status == Elsewhere
      else u.(result := s.result) == s.(re := s.re + 2) && Lang(Unmarked(u.result)) == iset{[pat[s.re + 1] as nat]}
  {
    if s.re + 1 < |pat| {
      var c := pat[s.re + 1];
      EscapeNames(c);
      forall w: Word ensures w in Lang(Literal(c, c)) <==> w == [c as nat] {
      }
    }
  }

  lemma EscapeNames(c: Byte)
    ensures SpecialEscape(c) <==> c as char in SPECIAL_ESCAPES
  {
    var s := SPECIAL_ESCAPES;
    assert s[0] == 't' && s[1] == 'n' && s[2] == 'r' && s[3] == 'f' && s[4] == 'a' && s[5] == 'e' && s[6] == 'w' && s[7] == 'W';
    assert s[8] == 's' && s[9] == 'S' && s[10] == 'd' && s[11] == 'D' && s[12] == 'Q' && s[13] == 'b' && s[14] == 'B';
    assert s[15] == '<' && s[16] == '>' && s[17] == 'x' && s[18] == '0' && s[19] == '1' && s[20] == '2' && s[21] == '3';
    assert s[22] == '4' && s[23] == '5' && s[24] == '6' && s[25] == '7' && s[26] == '8' && s[27] == '9';
  }

  /** Where an operator or `|` comes instead of an atom, the atom is empty and nothing is read. */
  lemma NoAtom(pat: Bytes, s: State)
    requires s.re < |pat| && pat[s.re] as char in "*+?{|"
    ensures Atom(pat, s) == s.(result := Atom(pat, s).result) && Lang(Unmarked(Atom(pat, s).result)) == iset{[]}
  {
  }

  /** A closing parenthesis is an ordinary byte where no group is open. */
  lemma LoneParenthesis(pat: Bytes, s: State)
    requires s.re < |pat| && pat[s.re] as char == ')' && s.depth == 0
    ensures var u := Atom(pat, s);
      u.(result := s.result) == s.(re := s.re + 1) && Lang(Unmarked(u.result)) == iset{[')' as nat]}
  {
    forall w: Word ensures w in Lang(Literal(41, 41)) <==> w == [41] {
    }
  }

  // ----- groups -----

  /** The submatches of a tree, in the order in which their groups open. */
  function Ids(m: Marked): seq<int> {
    (if m.id >= 0 then [m.id as int] else []) +
    match m.node
    case Cat(l, r) => Ids(l) + Ids(r)
    case Alt(l, r) => Ids(l) + Ids(r)
    case Iter(a, _, _) => Ids(a)
    case _ => []
  }

  /** Marking a group keeps what it means, and puts it outside the groups in it, also when it is one already. */
  lemma MarkMeans(pat: Bytes, s: State, id: nat)
    requires Running(s) && s.re <= |pat| && s.stack[|s.stack| - 1] == MarkForSubmatch(id)
    ensures var u := Step(pat, s);
      && u.(result := s.result) == s.(stack := s.stack[..|s.stack| - 1])
      && Lang(Unmarked(u.result)) == Lang(Unmarked(s.result)) && Ids(u.result) == [id as int] + Ids(s.result)
  {
    hide Lang, Unmarked, Ids;
    MarkedMeans(s.result, id);
  }

  lemma MarkedMeans(m: Marked, id: nat)
    ensures var r := if m.id >= 0 then Marked(Cat(Fresh(Nothing), m), id) else m.(id := id);
      Lang(Unmarked(r)) == Lang(Unmarked(m)) && Ids(r) == [id as int] + Ids(m)
  {
    hide Lang;
    if m.id >= 0 {
      GroupedMeans(m, id);
    }
  }

  lemma GroupedMeans(m: Marked, id: nat)
    ensures var r := Marked(Cat(Fresh(Nothing), m), id);
      Lang(Unmarked(r)) == Lang(Unmarked(m)) && Ids(r) == [id as int] + Ids(m)
  {
    hide Lang;
    ConcatUnitLeft(Lang(Unmarked(m)));
    LangOfEmptyCat(Unmarked(m));
    assert Ids(Fresh(Nothing)) == [];
  }

  lemma LangOfEmptyCat(t: Ast)
    ensures Lang(Catenation(Empty, t)) == Concat(iset{[]}, Lang(t))
  {
  }

  // ----- refused patterns -----

  lemma Stopped(pat: Bytes, s: State, u: State)
    requires Reaches(pat, s, u) && u.status != Ok
    ensures Run(pat, s) == u
  {
  }

  /** Two operators behind each other are refused; `?` behind one asks for a minimal repetition. */
  lemma DoubledOperator(m: Marked, first: Byte, second: Byte, nofirstsub: bool, result: Marked, submatchId: nat, flags: Flags)
    requires Printable(m) && Numbered(m, if nofirstsub then submatchId else submatchId + 1)
    requires first as char in "*+?" && second as char in "*+?"
    ensures var u := Run(Print(m, Single) + [first, second], Started(nofirstsub, 0, result, submatchId, flags));
      u.status == if second as char == '?' then Elsewhere else Badrpt
  {
    hide Inv, Run, Print, Inside, Step, Printable, Numbered, Submatches, Recased;
    var x := Print(m, Single);
    var pat := x + [first, second];
    var below, w := FirstPiece(m, pat, nofirstsub, result, submatchId, flags);
    Does(pat, w, below + [ParseCatenation], ParsePostfix);
    DoubledStep(pat, w);
    Stopped(pat, Started(nofirstsub, 0, result, submatchId, flags), Step(pat, w));
  }

  lemma DoubledStep(pat: Bytes, s: State)
    requires Running(s) && s.re + 2 == |pat| && s.stack[|s.stack| - 1] == ParsePostfix
    requires pat[s.re] as char in "*+?" && pat[s.re + 1] as char in "*+?"
    ensures Step(pat, s).status == if pat[s.re + 1] as char == '?' then Elsewhere else Badrpt
  {
  }

  /** Up to the first atom. */
  lemma FirstAtom(pat: Bytes, nofirstsub: bool, result: Marked, submatchId: nat, flags: Flags)
      returns (below: seq<Symbol>, w: State)
    ensures Reaches(pat, Started(nofirstsub, 0, result, submatchId, flags), w) && Inv(pat, w)
    ensures w == Started(nofirstsub, 0, result, submatchId, flags).(stack := below + [ParseCatenation, ParsePostfix, ParseAtom])
    ensures below == if nofirstsub then [ParseUnion] else [MarkForSubmatch(submatchId), ParseUnion]
  {
    hide Inv, Run, Step;
    var s := Started(nofirstsub, 0, result, submatchId, flags);
    var guard: seq<Symbol> := if nofirstsub then [] else [MarkForSubmatch(submatchId)];
    assert s.stack == guard + [ParseRe];
    BeginRe(pat, s, guard);
    var s1 := s.(stack := guard + [ParseUnion, ParseBranch]);
    below := guard + [ParseUnion];
    assert s1.stack == below + [ParseBranch];
    DoBranch(pat, s1, below);
    var s2 := s1.(stack := below + [ParseCatenation, ParsePiece]);
    var base := below + [ParseCatenation];
    assert s2.stack == base + [ParsePiece];
    DoPiece(pat, s2, base);
    w := s2.(stack := base + [ParsePostfix, ParseAtom]);
    assert w.stack == below + [ParseCatenation, ParsePostfix, ParseAtom];
  }

  /** Up to the operators behind it. */
  lemma FirstPiece(m: Marked, pat: Bytes, nofirstsub: bool, result: Marked, submatchId: nat, flags: Flags)
      returns (below: seq<Symbol>, w: State)
    requires Printable(m) && Numbered(m, if nofirstsub then submatchId else submatchId + 1)
    requires Print(m, Single) <= pat
    ensures Reaches(pat, Started(nofirstsub, 0, result, submatchId, flags), w) && w.status == Ok && w.re == |Print(m, Single)|
    ensures w.stack == below + [ParseCatenation] + [ParsePostfix] && w.depth == 0
  {
    hide Inv, Run, Print, Inside, Step, Printable, Numbered, Submatches, Recased;
    var v;
    below, v := FirstAtom(pat, nofirstsub, result, submatchId, flags);
    var base := below + [ParseCatenation];
    assert v.stack == (base + [ParsePostfix]) + Todo(Single);
    w := ReadSingle(pat, v, base + [ParsePostfix], m);
  }

  /** A backslash at the end is refused. */
  lemma TrailingBackslash(m: Marked, nofirstsub: bool, result: Marked, submatchId: nat, flags: Flags)
    requires Printable(m) && Numbered(m, if nofirstsub then submatchId else submatchId + 1)
    ensures var u := Run(Print(m, Single) + [BACKSLASH], Started(nofirstsub, 0, result, submatchId, flags)); u.status == Eescape
  {
    hide Inv, Run, Print, Inside, Step, Printable, Numbered, Submatches, Recased;
    var pat := Print(m, Single) + [BACKSLASH];
    var below, w := FirstPiece(m, pat, nofirstsub, result, submatchId, flags);
    var base := below + [ParseCatenation];
    DoPostfixEnd(pat, w, base);
    var w1 := w.(stack := base);
    DoCatenationMore(pat, w1, below);
    var inner := below + [ParseCatenation, PostCatenation(w1.result)];
    var w2 := w1.(stack := below + [ParseCatenation, PostCatenation(w1.result), ParsePiece]);
    assert w2.stack == inner + [ParsePiece];
    DoPiece(pat, w2, inner);
    var w3 := w2.(stack := inner + [ParsePostfix, ParseAtom]);
    assert w3.stack == (inner + [ParsePostfix]) + [ParseAtom];
    Does(pat, w3, inner + [ParsePostfix], ParseAtom);
    EscapeStep(pat, w3);
    Stopped(pat, Started(nofirstsub, 0, result, submatchId, flags), Step(pat, w3));
  }

  lemma EscapeStep(pat: Bytes, s: State)
    requires Running(s) && s.re + 1 == |pat| && pat[s.re] == BACKSLASH && s.stack[|s.stack| - 1] == ParseAtom
    ensures Step(pat, s).status == Eescape
  {
  }

  lemma DoGroupMark(pat: Bytes, s: State, base: seq<Symbol>, id: nat) returns (u: State)
    requires Inv(pat, s) && s.status == Ok && s.stack == base + [MarkForSubmatch(id)]
    ensures Reaches(pat, s, u) && u == s.(stack := base, result := u.result)
  {
    hide Run;
    Does(pat, s, base, MarkForSubmatch(id));
    u := Step(pat, s);
  }

  /** Everything that is open at the end of the text is finished. */
  lemma AtTheEnd(pat: Bytes, s: State, nofirstsub: bool, id: nat, first: nat) returns (u: State)
    requires Inv(pat, s) && s.status == Ok && s.re == |pat|
    requires var below: seq<Symbol> := if nofirstsub then [ParseUnion] else [MarkForSubmatch(first), ParseUnion];
      s.stack == below + [ParseCatenation, ParsePostfix, MarkForSubmatch(id), ParseUnion]
    ensures Reaches(pat, s, u) && u == s.(stack := [], result := u.result)
  {
    hide Inv, Run, Step, Closes, PieceEnds;
    var guard: seq<Symbol> := if nofirstsub then [] else [MarkForSubmatch(first)];
    var below := guard + [ParseUnion];
    var a := below + [ParseCatenation, ParsePostfix, MarkForSubmatch(id)];
    assert s.stack == a + [ParseUnion];
    DoUnionEnd(pat, s, a);
    assert a == (below + [ParseCatenation, ParsePostfix]) + [MarkForSubmatch(id)];
    var s1 := DoGroupMark(pat, s.(stack := a), below + [ParseCatenation, ParsePostfix], id);
    assert s1.stack == (below + [ParseCatenation]) + [ParsePostfix];
    EndOfText(pat, s1.depth);
    DoPostfixEnd(pat, s1, below + [ParseCatenation]);
    var s2 := s1.(stack := below + [ParseCatenation]);
    DoCatenationEnd(pat, s2, below);
    var s3 := s2.(stack := below);
    DoUnionEnd(pat, s3, guard);
    u := s3.(stack := guard);
    if !nofirstsub {
      assert u.stack == [] + [MarkForSubmatch(first)];
      u := DoGroupMark(pat, u, [], first);
    }
  }

  lemma EndOfText(pat: Bytes, depth: nat)
    ensures Closes(pat, |pat|, depth) && PieceEnds(pat, |pat|) && DepthAfter(pat, |pat|, depth) == depth
  {
  }

  /** A group that is not closed leaves its depth, for which tre_parse returns REG_EPAREN. */
  lemma UnclosedGroup(m: Marked, nofirstsub: bool, result: Marked, submatchId: nat, flags: Flags)
    requires Printable(m) && m.id == -1 && Numbered(m, if nofirstsub then submatchId + 1 else submatchId + 2)
    ensures var u := Run([LPAREN] + PatternText(m), Started(nofirstsub, 0, result, submatchId, flags));
      u.status == Ok && u.depth == 1
  {
    hide Inv, Run, Print, Inside, Step, Printable, Numbered, Submatches, Recased, Closes, PieceEnds;
    var pat := [LPAREN] + PatternText(m);
    var below, w := FirstAtom(pat, nofirstsub, result, submatchId, flags);
    var base := below + [ParseCatenation, ParsePostfix];
    assert w.stack == base + [ParseAtom];
    FirstOfText(m);
    assert At(pat, 0, Open(true)) && (|pat| > 1 ==> pat[1] == PatternText(m)[0]);
    OpensGroup(pat, w, base);
    var guard := MarkForSubmatch(w.submatchId);
    var v := w.(stack := base + [guard, ParseUnion, ParseBranch], re := 1, depth := 1, submatchId := w.submatchId + 1);
    assert v.stack == (base + [guard]) + Todo(Alternatives);
    EndOfText(pat, 1);
    assert pat[1..] == PatternText(m);
    var x := ReadAlternatives(pat, v, base + [guard], m);
    assert x.stack == below + [ParseCatenation, ParsePostfix, guard, ParseUnion];
    var u := AtTheEnd(pat, x, nofirstsub, w.submatchId, submatchId);
    RunStops(pat, u);
  }

  lemma OpensGroup(pat: Bytes, s: State, base: seq<Symbol>)
    requires Inv(pat, s) && s.status == Ok && s.stack == base + [ParseAtom] && s.re == 0 && s.depth == 0
    requires |pat| > 0 && pat[0] == LPAREN && (|pat| > 1 ==> pat[1] != QUESTIONMARK)
    ensures Reaches(pat, s, s.(stack := base + [MarkForSubmatch(s.submatchId), ParseUnion, ParseBranch], re := 1, depth := 1,
                               submatchId := s.submatchId + 1))
  {
    hide Reaches;
    Does(pat, s, base, ParseAtom);
    var u := Step(pat, s);
    assert u.stack == base + [MarkForSubmatch(s.submatchId), ParseRe];
    ReIntoUnion(pat, s, u, base, MarkForSubmatch(s.submatchId));
  }
}
