/** Printing a tree with its submatches as an extended regular expression, with no more groups than the submatches and
    precedence ask for, and parsing it again: the parser gives the tree back. */
module TreParsePrinted {
  import opened Text
  import opened TreAst
  import opened TreMarked
  import opened TreParse

  /** What a place in a pattern can hold without a group around it. */
  datatype Level = Alternatives | Branch | Chain | Piece | Single

  function Rank(level: Level): nat {
    match level
    case Alternatives => 0
    case Branch => 1
    case Chain => 2
    case Piece => 3
    case Single => 4
  }

  predicate Printable(m: Marked) {
    match m.node
    case Lit(lo, hi) => lo == hi < 256
    case Nothing => true
    case Cat(l, r) => Printable(l) && Printable(r)
    case Alt(l, r) => Printable(l) && Printable(r)
    case Iter(a, min, max) => Printable(a) && ((min <= 1 && max == -1) || (min == 0 && max == 1))
  }

  /** The submatches of m are numbered from n on, in the order in which their groups open. */
  predicate Numbered(m: Marked, n: nat) {
    && (m.id == -1 || m.id == n)
    && var k := if m.id == -1 then n else n + 1;
      match m.node
      case Cat(l, r) => Numbered(l, k) && Numbered(r, k + Submatches(l))
      case Alt(l, r) => Numbered(l, k) && Numbered(r, k + Submatches(l))
      case Iter(a, _, _) => Numbered(a, k)
      case _ => true
  }

  predicate Fits(m: Marked, level: Level) {
    m.id == -1 &&
    match m.node
    case Nothing => Rank(level) <= 1
    case Cat(_, _) => Rank(level) <= 2
    case Alt(_, _) => Rank(level) == 0
    case Iter(_, _, _) => Rank(level) <= 3
    case _ => true
  }

  predicate Special(c: Byte) {
    || c == PIPE || c == LPAREN || c == RPAREN || c == LBRACE || c == LBRACKET || c == STAR || c == QUESTIONMARK
    || c == PLUS || c == PERIOD || c == CARET || c == DOLLAR || c == BACKSLASH
  }

  function PrintByte(c: Byte): Bytes { if Special(c) then [BACKSLASH, c] else [c] }

  function Operator(min: nat, max: int): Byte { if max == 1 then QUESTIONMARK else if min == 1 then PLUS else STAR }

  function Open(capture: bool): Bytes { if capture then [LPAREN] else [LPAREN, QUESTIONMARK, COLON] }

  /** The text of a tree without a group around it. */
  function Inside(m: Marked): Bytes
    requires Printable(m)
    decreases m, 0
  {
    match m.node
    case Lit(c, _) => PrintByte(c)
    case Nothing => []
    case Cat(l, r) => Print(l, Chain) + Print(r, Piece)
    case Alt(l, r) => Print(l, Alternatives) + [PIPE] + Print(r, Branch)
    case Iter(a, min, max) => Print(a, Single) + [Operator(min, max)]
  }

  /** A submatch is a capturing group; where precedence asks for one, another tree is a group that captures nothing. */
  function Print(m: Marked, level: Level): Bytes
    requires Printable(m)
    decreases m, 1
  {
    if Fits(m, level) then Inside(m) else Open(m.id >= 0) + Inside(m) + [RPAREN]
  }

  /** What the parser makes of a printed tree: when case is ignored, every letter stands for both of its forms. */
  function Recased(m: Marked, flags: Flags): (r: Marked)
    requires Printable(m)
    ensures r.id == m.id
    decreases m
  {
    Marked(RecasedNode(m, flags), m.id)
  }

  function RecasedNode(m: Marked, flags: Flags): Node
    requires Printable(m)
    decreases m, 0
  {
    match m.node
    case Lit(c, _) => LiteralAtom(c, flags)
    case Nothing => Nothing
    case Cat(l, r) => Cat(Recased(l, flags), Recased(r, flags))
    case Alt(l, r) => Alt(Recased(l, flags), Recased(r, flags))
    case Iter(a, min, max) => Iter(Recased(a, flags), min, max)
  }

  lemma {:induction false} SameCase(m: Marked, flags: Flags)
    requires Printable(m) && !flags.icase
    ensures Recased(m, flags) == m
  {
    match m.node
    case Cat(l, r) => SameCase(l, flags); SameCase(r, flags);
    case Alt(l, r) => SameCase(l, flags); SameCase(r, flags);
    case Iter(a, _, _) => SameCase(a, flags);
    case _ =>
  }

  lemma RecasedRoot(m: Marked, flags: Flags)
    requires Printable(m)
    ensures Printable(Fresh(m.node)) && Recased(m, flags) == Recased(Fresh(m.node), flags).(id := m.id)
  {
    assert RecasedNode(Fresh(m.node), flags) == RecasedNode(m, flags);
  }

  lemma RecasedParts(m: Marked, flags: Flags)
    requires Printable(m) && m.id == -1
    ensures m.node.Lit? ==> Recased(m, flags) == Fresh(LiteralAtom(m.node.codeMin, flags))
    ensures m.node.Nothing? ==> Recased(m, flags) == m
    ensures m.node.Cat? ==> Recased(m, flags) == Fresh(Cat(Recased(m.node.left, flags), Recased(m.node.right, flags)))
    ensures m.node.Alt? ==> Recased(m, flags) == Fresh(Alt(Recased(m.node.left, flags), Recased(m.node.right, flags)))
    ensures m.node.Iter? ==> Recased(m, flags) == Fresh(Iter(Recased(m.node.arg, flags), m.node.min, m.node.max))
  {
    hide Recased, LiteralAtom;
    RecasedHere(m, flags);
  }

  lemma RecasedHere(m: Marked, flags: Flags)
    requires Printable(m)
    ensures Recased(m, flags) == Marked(RecasedNode(m, flags), m.id)
  {
  }

  /** A whole pattern: the root needs no group around it. */
  function PatternText(m: Marked): Bytes
    requires Printable(m)
  {
    Print(Fresh(m.node), Alternatives)
  }

  // ----- first bytes -----

  /** Begins a piece. */
  predicate Leads(c: Byte) { c != PIPE && c != RPAREN && !IsPostfix(c) }

  lemma {:induction false} FirstByte(m: Marked, level: Level)
    requires Printable(m)
    ensures var x := Print(m, level);
      if Rank(level) >= 2 then |x| > 0 && Leads(x[0]) else x == [] || x[0] != QUESTIONMARK
    decreases m
  {
    if Fits(m, level) {
      match m.node
      case Lit(c, _) =>
      case Nothing =>
      case Cat(l, r) => FirstByte(l, Chain);
      case Alt(l, r) => FirstByte(l, Alternatives);
      case Iter(a, min, max) => FirstByte(a, Single);
    }
  }

  /** x is the text at p. */
  predicate At(pat: Bytes, p: nat, x: Bytes) { p + |x| <= |pat| && pat[p..p + |x|] == x }

  lemma AtParts(pat: Bytes, p: nat, x: Bytes, y: Bytes)
    requires At(pat, p, x + y)
    ensures At(pat, p, x) && At(pat, p + |x|, y)
    ensures |y| > 0 ==> pat[p + |x|] == y[0]
  {
    var z := x + y;
    assert pat[p..p + |x|] == pat[p..p + |z|][..|x|] == z[..|x|] == x;
    assert pat[p + |x|..p + |z|] == pat[p..p + |z|][|x|..] == z[|x|..] == y;
    assert |y| > 0 ==> pat[p + |x|] == pat[p + |x|..p + |z|][0];
  }

  lemma AtThree(pat: Bytes, p: nat, x: Bytes, y: Bytes, z: Bytes)
    requires At(pat, p, x + y + z)
    ensures At(pat, p, x) && At(pat, p + |x|, y) && At(pat, p + |x| + |y|, z)
    ensures |y| > 0 ==> pat[p + |x|] == y[0]
    ensures |z| > 0 ==> pat[p + |x| + |y|] == z[0]
  {
    AtParts(pat, p, x + y, z);
    AtParts(pat, p, x, y);
  }

  // ----- runs -----

  /** The run from s passes through u. */
  predicate Reaches(pat: Bytes, s: State, u: State) {
    Inv(pat, s) && Inv(pat, u) && Run(pat, s) == Run(pat, u)
  }

  lemma OneStep(pat: Bytes, s: State)
    requires Running(s) && Inv(pat, s)
    ensures Reaches(pat, s, Step(pat, s))
  {
    StepKeeps(pat, s);
  }

  /** The branch that ends at p is followed by the end, by another branch, or by the end of its group. */
  predicate Closes(pat: Bytes, p: nat, depth: nat) {
    p == |pat| || (p < |pat| && (pat[p] == PIPE || (pat[p] == RPAREN && depth > 0)))
  }

  function DepthAfter(pat: Bytes, p: nat, depth: nat): nat {
    if p < |pat| && pat[p] == RPAREN && depth > 0 then depth - 1 else depth
  }

  /** Where the parser stands when it is about to read something of this level. */
  function Todo(level: Level): seq<Symbol> {
    match level
    case Alternatives => [ParseUnion, ParseBranch]
    case Branch => [ParseBranch]
    case Chain => [ParseCatenation, ParsePiece]
    case Piece => [ParsePiece]
    case Single => [ParseAtom]
  }

  /** And when it has read it. */
  function Done(level: Level): seq<Symbol> {
    match level
    case Alternatives => [ParseUnion]
    case Chain => [ParseCatenation]
    case _ => []
  }

  predicate Ready(pat: Bytes, s: State, base: seq<Symbol>, m: Marked, level: Level)
    requires Printable(m)
  {
    var x := Print(m, level);
    && Inv(pat, s) && s.status == Ok && s.stack == base + Todo(level)
    && Numbered(m, s.submatchId) && At(pat, s.re, x)
    && (Rank(level) <= 1 ==> Closes(pat, s.re + |x|, s.depth))
    && (2 <= Rank(level) <= 3 ==> PieceEnds(pat, s.re + |x|))
  }

  predicate Read(pat: Bytes, s: State, u: State, base: seq<Symbol>, m: Marked, level: Level)
    requires Printable(m)
  {
    var x := Print(m, level);
    && Reaches(pat, s, u) && u.status == Ok && u.flags == s.flags && u.stack == base + Done(level)
    && u.re == s.re + |x| && u.result == Recased(m, s.flags) && u.submatchId == s.submatchId + Submatches(m)
    && u.depth == (if Rank(level) <= 1 then DepthAfter(pat, u.re, s.depth) else s.depth)
  }

  // ----- single turns -----

  lemma Does(pat: Bytes, s: State, base: seq<Symbol>, top: Symbol)
    requires Inv(pat, s) && s.status == Ok && s.stack == base + [top]
    ensures Running(s) && s.stack[|s.stack| - 1] == top && s.stack[..|s.stack| - 1] == base
    ensures Reaches(pat, s, Step(pat, s))
  {
    OneStep(pat, s);
  }

  lemma DoPiece(pat: Bytes, s: State, base: seq<Symbol>)
    requires Inv(pat, s) && s.status == Ok && s.stack == base + [ParsePiece]
    ensures Reaches(pat, s, s.(stack := base + [ParsePostfix, ParseAtom]))
  {
    hide Inv, Reaches;
    Does(pat, s, base, ParsePiece);
  }

  lemma DoBranch(pat: Bytes, s: State, base: seq<Symbol>)
    requires Inv(pat, s) && s.status == Ok && s.stack == base + [ParseBranch]
    ensures Reaches(pat, s, s.(stack := base + [ParseCatenation, ParsePiece]))
  {
    hide Inv, Reaches;
    Does(pat, s, base, ParseBranch);
  }

  lemma DoPostfixEnd(pat: Bytes, s: State, base: seq<Symbol>)
    requires Inv(pat, s) && s.status == Ok && s.stack == base + [ParsePostfix] && PieceEnds(pat, s.re)
    ensures Reaches(pat, s, s.(stack := base))
  {
    hide Reaches;
    Does(pat, s, base, ParsePostfix);
  }

  lemma DoOperator(pat: Bytes, s: State, base: seq<Symbol>, min: nat, max: int)
    requires Inv(pat, s) && s.status == Ok && s.stack == base + [ParsePostfix]
    requires (min <= 1 && max == -1) || (min == 0 && max == 1)
    requires s.re < |pat| && pat[s.re] == Operator(min, max) && PieceEnds(pat, s.re + 1)
    ensures Reaches(pat, s, s.(stack := base + [ParsePostfix], re := s.re + 1, result := Fresh(Iter(s.result, min, max))))
  {
    hide Reaches;
    Does(pat, s, base, ParsePostfix);
  }

  lemma DoCatenationEnd(pat: Bytes, s: State, base: seq<Symbol>)
    requires Inv(pat, s) && s.status == Ok && s.stack == base + [ParseCatenation] && Closes(pat, s.re, s.depth)
    ensures Reaches(pat, s, s.(stack := base, depth := DepthAfter(pat, s.re, s.depth)))
  {
    hide Reaches;
    Does(pat, s, base, ParseCatenation);
  }

  lemma DoCatenationMore(pat: Bytes, s: State, base: seq<Symbol>)
    requires Inv(pat, s) && s.status == Ok && s.stack == base + [ParseCatenation] && s.re < |pat| && Leads(pat[s.re])
    ensures Reaches(pat, s, s.(stack := base + [ParseCatenation, PostCatenation(s.result), ParsePiece]))
  {
    hide Reaches;
    Does(pat, s, base, ParseCatenation);
  }

  lemma DoPostCatenation(pat: Bytes, s: State, base: seq<Symbol>, tree: Marked)
    requires Inv(pat, s) && s.status == Ok && s.stack == base + [PostCatenation(tree)]
    ensures Reaches(pat, s, s.(stack := base, result := Fresh(Cat(tree, s.result))))
  {
    hide Inv, Reaches;
    Does(pat, s, base, PostCatenation(tree));
  }

  lemma DoUnionMore(pat: Bytes, s: State, base: seq<Symbol>)
    requires Inv(pat, s) && s.status == Ok && s.stack == base + [ParseUnion] && s.re < |pat| && pat[s.re] == PIPE
    ensures Reaches(pat, s, s.(stack := base + [ParseUnion, PostUnion(s.result), ParseBranch], re := s.re + 1))
  {
    hide Reaches;
    Does(pat, s, base, ParseUnion);
  }

  lemma DoPostUnion(pat: Bytes, s: State, base: seq<Symbol>, tree: Marked)
    requires Inv(pat, s) && s.status == Ok && s.stack == base + [PostUnion(tree)]
    ensures Reaches(pat, s, s.(stack := base, result := Fresh(Alt(tree, s.result))))
  {
    hide Inv, Reaches;
    Does(pat, s, base, PostUnion(tree));
  }

  lemma DoByte(pat: Bytes, s: State, base: seq<Symbol>, c: Byte)
    requires Inv(pat, s) && s.status == Ok && s.stack == base + [ParseAtom] && At(pat, s.re, PrintByte(c))
    ensures Reaches(pat, s, s.(stack := base, re := s.re + |PrintByte(c)|, result := Fresh(LiteralAtom(c, s.flags))))
  {
    hide Reaches;
    Does(pat, s, base, ParseAtom);
    var x := PrintByte(c);
    assert pat[s.re] == pat[s.re..s.re + |x|][0] == x[0];
    if Special(c) {
      assert pat[s.re + 1] == pat[s.re..s.re + |x|][1] == x[1];
    }
  }

  lemma DoEmpty(pat: Bytes, s: State, base: seq<Symbol>)
    requires Inv(pat, s) && s.status == Ok && s.stack == base + [ParseAtom] && Closes(pat, s.re, s.depth)
    ensures Reaches(pat, s, s.(stack := base, result := Fresh(Nothing)))
  {
    hide Reaches;
    Does(pat, s, base, ParseAtom);
  }

  /** What the opening of a group leaves on the stack. */
  function Guard(s: State, capture: bool): Symbol { if capture then MarkForSubmatch(s.submatchId) else RestoreCflags(s.flags) }

  lemma OpenBytes(pat: Bytes, p: nat, capture: bool)
    requires At(pat, p, Open(capture))
    ensures pat[p] == LPAREN && (!capture ==> p + 2 < |pat| && pat[p + 1] == QUESTIONMARK && pat[p + 2] == COLON)
  {
    var x := pat[p..p + |Open(capture)|];
    assert pat[p] == x[0];
    if !capture {
      assert pat[p + 1] == x[1] && pat[p + 2] == x[2];
    }
  }

  lemma DoOpen(pat: Bytes, s: State, base: seq<Symbol>, capture: bool)
    requires Inv(pat, s) && s.status == Ok && s.stack == base + [ParseAtom] && At(pat, s.re, Open(capture))
    requires capture ==> s.re + 1 < |pat| && pat[s.re + 1] != QUESTIONMARK
    ensures Reaches(pat, s, s.(stack := base + [Guard(s, capture), ParseUnion, ParseBranch], re := s.re + |Open(capture)|,
                               depth := s.depth + 1, submatchId := s.submatchId + if capture then 1 else 0))
  {
    hide Reaches;
    Does(pat, s, base, ParseAtom);
    OpenBytes(pat, s.re, capture);
    var u := Step(pat, s);
    assert u.stack == base + [Guard(s, capture), ParseRe];
    ReIntoUnion(pat, s, u, base, Guard(s, capture));
  }

  lemma ReIntoUnion(pat: Bytes, s: State, u: State, base: seq<Symbol>, guard: Symbol)
    requires Reaches(pat, s, u) && u.status == Ok && u.stack == base + [guard, ParseRe]
    ensures Reaches(pat, s, u.(stack := base + [guard, ParseUnion, ParseBranch]))
  {
    assert u.stack == (base + [guard]) + [ParseRe];
    Does(pat, u, base + [guard], ParseRe);
    assert (base + [guard]) + [ParseUnion, ParseBranch] == base + [guard, ParseUnion, ParseBranch];
  }

  /** What the end of a group does to its tree. */
  function Closed(guard: Symbol, m: Marked): Marked { if guard.MarkForSubmatch? then m.(id := guard.id) else m }

  lemma DoClose(pat: Bytes, s: State, base: seq<Symbol>, guard: Symbol)
    requires Inv(pat, s) && s.status == Ok && s.stack == base + [guard, ParseUnion] && s.re < |pat| && pat[s.re] == RPAREN
    requires guard == RestoreCflags(s.flags) || (guard.MarkForSubmatch? && s.result.id == -1)
    ensures Reaches(pat, s, s.(stack := base, re := s.re + 1, result := Closed(guard, s.result)))
  {
    assert s.stack == (base + [guard]) + [ParseUnion];
    Does(pat, s, base + [guard], ParseUnion);
    var u := Step(pat, s);
    assert u.stack == base + [guard];
    Does(pat, u, base, guard);
  }

  // ----- texts, one level at a time -----

  lemma TextOfChain(m: Marked, l: Marked, r: Marked)
    requires Printable(m) && m == Fresh(Cat(l, r))
    ensures Print(m, Chain) == Print(l, Chain) + Print(r, Piece) && Print(m, Branch) == Print(m, Chain)
  {
  }

  lemma TextOfUnion(m: Marked, l: Marked, r: Marked)
    requires Printable(m) && m == Fresh(Alt(l, r))
    ensures Print(m, Alternatives) == Print(l, Alternatives) + [PIPE] + Print(r, Branch)
  {
  }

  lemma TextOfIteration(m: Marked, a: Marked, min: nat, max: int)
    requires Printable(m) && m == Fresh(Iter(a, min, max))
    ensures Print(m, Piece) == Print(a, Single) + [Operator(min, max)]
  {
  }

  lemma TextOfGroup(m: Marked)
    requires Printable(m) && !Fits(m, Single)
    ensures Print(m, Single) == Open(m.id >= 0) + PatternText(m) + [RPAREN]
  {
    assert Inside(m) == Inside(Fresh(m.node));
  }

  lemma SameText(m: Marked)
    requires Printable(m)
    ensures m.id >= 0 || !m.node.Iter? ==> Print(m, Piece) == Print(m, Single)
    ensures m.id >= 0 || !m.node.Cat? ==> Print(m, Chain) == Print(m, Piece)
    ensures m.id >= 0 || m.node != Nothing ==> Print(m, Branch) == Print(m, Chain)
    ensures m.id >= 0 || !m.node.Alt? ==> Print(m, Alternatives) == Print(m, Branch)
    ensures m == Fresh(Nothing) ==> Print(m, Branch) == []
    ensures m.id == -1 && m.node.Lit? ==> Print(m, Single) == PrintByte(m.node.codeMin)
  {
  }

  /** The numbers of the parts. */
  lemma NumberedParts(m: Marked, n: nat)
    requires Numbered(m, n)
    ensures m.id >= 0 ==> m.id == n && Numbered(Fresh(m.node), n + 1) && Submatches(m) == 1 + Submatches(Fresh(m.node))
    ensures m.id == -1 ==> m == Fresh(m.node)
  {
  }

  lemma NumberedKids(m: Marked, n: nat)
    requires Numbered(m, n)
    ensures m.id == -1 && m.node.Cat? ==> Submatches(m) == Submatches(m.node.left) + Submatches(m.node.right)
    ensures m.id == -1 && m.node.Cat? ==> Numbered(m.node.left, n) && Numbered(m.node.right, n + Submatches(m.node.left))
    ensures m.id == -1 && m.node.Alt? ==> Submatches(m) == Submatches(m.node.left) + Submatches(m.node.right)
    ensures m.id == -1 && m.node.Alt? ==> Numbered(m.node.left, n) && Numbered(m.node.right, n + Submatches(m.node.left))
    ensures m.id == -1 && m.node.Iter? ==> Numbered(m.node.arg, n) && Submatches(m) == Submatches(m.node.arg)
    ensures m.id == -1 && (m.node.Lit? || m.node.Nothing?) ==> Submatches(m) == 0
  {
  }

  lemma ClosesEndsPiece(pat: Bytes, p: nat, depth: nat)
    requires Closes(pat, p, depth)
    ensures PieceEnds(pat, p)
  {
  }

  // ----- the parser reads what was printed -----

  lemma ReadSingle(pat: Bytes, s: State, base: seq<Symbol>, m: Marked) returns (u: State)
    requires Printable(m) && Ready(pat, s, base, m, Single)
    ensures Read(pat, s, u, base, m, Single)
    decreases m.node, if Fits(m, Single) then 0 else 1, 0
  {
    hide Inv, Run, Print, Inside, PrintByte, Open, Operator, Closes, PieceEnds, At, DepthAfter, Special, Leads, Numbered, Submatches, LiteralAtom, Recased;
    SameText(m);
    NumberedKids(m, s.submatchId);
    if m.id == -1 && m.node.Lit? {
      var c := m.node.codeMin;
      RecasedParts(m, s.flags);
      DoByte(pat, s, base, c);
      u := s.(stack := base, re := s.re + |PrintByte(c)|, result := Fresh(LiteralAtom(c, s.flags)));
    } else {
      u := ReadGroup(pat, s, base, m);
    }
  }

  lemma BehindOpening(pat: Bytes, p: nat, m: Marked)
    requires Printable(m) && !Fits(m, Single) && At(pat, p, Print(m, Single))
    ensures var q := p + |Open(m.id >= 0)|; var e := q + |PatternText(m)|;
      && At(pat, p, Open(m.id >= 0)) && At(pat, q, PatternText(m))
      && e + 1 == p + |Print(m, Single)| <= |pat| && pat[e] == RPAREN
      && (forall depth: nat :: depth > 0 ==> Closes(pat, e, depth) && DepthAfter(pat, e, depth) == depth - 1)
    ensures m.id >= 0 ==> p + 1 < |pat| && pat[p + 1] != QUESTIONMARK
  {
    hide Print, Inside, PatternText, Printable, Fits;
    TextOfGroup(m);
    var x, y, z := Open(m.id >= 0), PatternText(m), [RPAREN];
    AtThree(pat, p, x, y, z);
    FirstOfText(m);
  }

  lemma FirstOfText(m: Marked)
    requires Printable(m)
    ensures var x := PatternText(m); x == [] || x[0] != QUESTIONMARK
  {
    FirstByte(Fresh(m.node), Alternatives);
  }

  lemma ReadGroup(pat: Bytes, s: State, base: seq<Symbol>, m: Marked) returns (u: State)
    requires Printable(m) && Ready(pat, s, base, m, Single) && (m.id >= 0 || !m.node.Lit?)
    ensures Read(pat, s, u, base, m, Single)
    decreases m.node, 0, 6
  {
    hide Inv, Run, Print, Inside, PrintByte, Open, Operator, Closes, PieceEnds, At, DepthAfter, Special, Leads, Numbered, Submatches, LiteralAtom, Recased;
    NumberedParts(m, s.submatchId);
    RecasedRoot(m, s.flags);
    BehindOpening(pat, s.re, m);
    var capture := m.id >= 0;
    DoOpen(pat, s, base, capture);
    var guard := Guard(s, capture);
    var v := s.(stack := base + [guard, ParseUnion, ParseBranch], re := s.re + |Open(capture)|,
                depth := s.depth + 1, submatchId := s.submatchId + if capture then 1 else 0);
    assert v.stack == (base + [guard]) + Todo(Alternatives);
    var w := ReadAlternatives(pat, v, base + [guard], Fresh(m.node));
    assert w.stack == base + [guard, ParseUnion];
    DoClose(pat, w, base, guard);
    u := w.(stack := base, re := w.re + 1, result := Closed(guard, w.result));
  }

  lemma ReadPiece(pat: Bytes, s: State, base: seq<Symbol>, m: Marked) returns (u: State)
    requires Printable(m) && Ready(pat, s, base, m, Piece)
    ensures Read(pat, s, u, base, m, Piece)
    decreases m.node, if Fits(m, Piece) then 0 else 1, 1
  {
    hide Inv, Run, Print, Inside, PrintByte, Open, Operator, Closes, PieceEnds, At, DepthAfter, Special, Leads, Numbered, Submatches, LiteralAtom, Recased;
    NumberedParts(m, s.submatchId);
    NumberedKids(m, s.submatchId);
    DoPiece(pat, s, base);
    var v := s.(stack := base + [ParsePostfix, ParseAtom]);
    assert v.stack == (base + [ParsePostfix]) + Todo(Single);
    var w;
    if m.id == -1 && m.node.Iter? {
      var a, min, max := m.node.arg, m.node.min, m.node.max;
      TextOfIteration(m, a, min, max);
      RecasedParts(m, s.flags);
      AtParts(pat, s.re, Print(a, Single), [Operator(min, max)]);
      var x := ReadSingle(pat, v, base + [ParsePostfix], a);
      assert x.re < |pat| by { hide *; InRange(pat, x.re, [Operator(min, max)]); }
      DoOperator(pat, x, base, min, max);
      w := x.(re := x.re + 1, result := Fresh(Iter(x.result, min, max)));
    } else {
      SameText(m);
      w := ReadSingle(pat, v, base + [ParsePostfix], m);
    }
    DoPostfixEnd(pat, w, base);
    u := w.(stack := base);
  }

  lemma InRange(pat: Bytes, p: nat, x: Bytes)
    requires At(pat, p, x) && |x| > 0
    ensures p < |pat|
  {
  }

  lemma ReadChain(pat: Bytes, s: State, base: seq<Symbol>, m: Marked) returns (u: State)
    requires Printable(m) && Ready(pat, s, base, m, Chain)
    ensures Read(pat, s, u, base, m, Chain)
    decreases m.node, if Fits(m, Chain) then 0 else 1, 2
  {
    hide Inv, Run, Print, Inside, PrintByte, Open, Operator, Closes, PieceEnds, At, DepthAfter, Special, Leads, Numbered, Submatches, LiteralAtom, Recased;
    if m.id == -1 && m.node.Cat? {
      var l, r := m.node.left, m.node.right;
      NumberedKids(m, s.submatchId);
      RecasedParts(m, s.flags);
      BetweenPieces(pat, s.re, m, l, r);
      var v := ReadChain(pat, s, base, l);
      DoCatenationMore(pat, v, base);
      var w := v.(stack := base + [ParseCatenation, PostCatenation(v.result), ParsePiece]);
      var inner := base + [ParseCatenation, PostCatenation(v.result)];
      assert w.stack == inner + Todo(Piece);
      var x := ReadPiece(pat, w, inner, r);
      assert x.stack == (base + [ParseCatenation]) + [PostCatenation(v.result)];
      DoPostCatenation(pat, x, base + [ParseCatenation], v.result);
      u := x.(stack := base + [ParseCatenation], result := Fresh(Cat(v.result, x.result)));
    } else {
      SameText(m);
      assert s.stack == (base + [ParseCatenation]) + Todo(Piece);
      u := ReadPiece(pat, s, base + [ParseCatenation], m);
    }
  }

  lemma BetweenPieces(pat: Bytes, p: nat, m: Marked, l: Marked, r: Marked)
    requires Printable(m) && m == Fresh(Cat(l, r)) && At(pat, p, Print(m, Chain))
    ensures var q := p + |Print(l, Chain)|;
      && At(pat, p, Print(l, Chain)) && At(pat, q, Print(r, Piece))
      && q + |Print(r, Piece)| == p + |Print(m, Chain)|
      && q < |pat| && Leads(pat[q]) && PieceEnds(pat, q)
  {
    TextOfChain(m, l, r);
    AtParts(pat, p, Print(l, Chain), Print(r, Piece));
    FirstByte(r, Piece);
  }

  lemma ReadBranch(pat: Bytes, s: State, base: seq<Symbol>, m: Marked) returns (u: State)
    requires Printable(m) && Ready(pat, s, base, m, Branch)
    ensures Read(pat, s, u, base, m, Branch)
    decreases m.node, if Fits(m, Branch) then 0 else 1, 3
  {
    hide Inv, Run, Print, Inside, PrintByte, Open, Operator, Closes, PieceEnds, At, DepthAfter, Special, Leads, Numbered, Submatches, LiteralAtom, Recased;
    SameText(m);
    ClosesEndsPiece(pat, s.re + |Print(m, Branch)|, s.depth);
    DoBranch(pat, s, base);
    var v := s.(stack := base + [ParseCatenation, ParsePiece]);
    assert v.stack == (base + [ParseCatenation]) + [ParsePiece];
    var w;
    if m == Fresh(Nothing) {
      NumberedKids(m, s.submatchId);
      RecasedParts(m, s.flags);
      w := ReadNothing(pat, v, base + [ParseCatenation]);
    } else {
      assert v.stack == base + Todo(Chain);
      w := ReadChain(pat, v, base, m);
    }
    DoCatenationEnd(pat, w, base);
    u := w.(stack := base, depth := DepthAfter(pat, w.re, w.depth));
  }

  /** An empty branch. */
  lemma ReadNothing(pat: Bytes, s: State, base: seq<Symbol>) returns (u: State)
    requires Inv(pat, s) && s.status == Ok && s.stack == base + [ParsePiece] && Closes(pat, s.re, s.depth)
    ensures Reaches(pat, s, u) && u == s.(stack := base, result := Fresh(Nothing))
  {
    hide Inv, Run, Closes, PieceEnds;
    ClosesEndsPiece(pat, s.re, s.depth);
    DoPiece(pat, s, base);
    var v := s.(stack := base + [ParsePostfix, ParseAtom]);
    assert v.stack == (base + [ParsePostfix]) + [ParseAtom];
    DoEmpty(pat, v, base + [ParsePostfix]);
    var w := v.(stack := base + [ParsePostfix], result := Fresh(Nothing));
    DoPostfixEnd(pat, w, base);
    u := w.(stack := base);
  }

  lemma ReadAlternatives(pat: Bytes, s: State, base: seq<Symbol>, m: Marked) returns (u: State)
    requires Printable(m) && Ready(pat, s, base, m, Alternatives)
    ensures Read(pat, s, u, base, m, Alternatives)
    decreases m.node, if Fits(m, Alternatives) then 0 else 1, 4
  {
    hide Inv, Run, Print, Inside, PrintByte, Open, Operator, Closes, PieceEnds, At, DepthAfter, Special, Leads, Numbered, Submatches, LiteralAtom, Recased;
    if m.id == -1 && m.node.Alt? {
      var l, r := m.node.left, m.node.right;
      NumberedKids(m, s.submatchId);
      RecasedParts(m, s.flags);
      BetweenBranches(pat, s.re, s.depth, m, l, r);
      var v := ReadAlternatives(pat, s, base, l);
      DoUnionMore(pat, v, base);
      var w := v.(stack := base + [ParseUnion, PostUnion(v.result), ParseBranch], re := v.re + 1);
      var inner := base + [ParseUnion, PostUnion(v.result)];
      assert w.stack == inner + Todo(Branch);
      var x := ReadBranch(pat, w, inner, r);
      assert x.stack == (base + [ParseUnion]) + [PostUnion(v.result)];
      DoPostUnion(pat, x, base + [ParseUnion], v.result);
      u := x.(stack := base + [ParseUnion], result := Fresh(Alt(v.result, x.result)));
    } else {
      SameText(m);
      assert s.stack == (base + [ParseUnion]) + Todo(Branch);
      u := ReadBranch(pat, s, base + [ParseUnion], m);
    }
  }

  lemma BetweenBranches(pat: Bytes, p: nat, depth: nat, m: Marked, l: Marked, r: Marked)
    requires Printable(m) && m == Fresh(Alt(l, r)) && At(pat, p, Print(m, Alternatives))
    ensures var q := p + |Print(l, Alternatives)|;
      && At(pat, p, Print(l, Alternatives)) && At(pat, q + 1, Print(r, Branch))
      && q + 1 + |Print(r, Branch)| == p + |Print(m, Alternatives)|
      && q < |pat| && pat[q] == PIPE && Closes(pat, q, depth) && DepthAfter(pat, q, depth) == depth
  {
    TextOfUnion(m, l, r);
    AtThree(pat, p, Print(l, Alternatives), [PIPE], Print(r, Branch));
  }

  /** The whole text, from the start symbol to the end of the text. */
  lemma ReadText(pat: Bytes, v: State, base: seq<Symbol>, m: Marked) returns (w: State)
    requires Printable(m) && m.id == -1 && Numbered(m, v.submatchId) && pat == Print(m, Alternatives)
    requires Inv(pat, v) && v.status == Ok && v.re == 0 && v.stack == base + [ParseUnion, ParseBranch]
    ensures Read(pat, v, w, base, m, Alternatives) && w.re == |pat| && w.depth == v.depth
  {
    hide Inv, Run, Print, Inside, At, Closes, DepthAfter, Step, PieceEnds, Printable, Numbered;
    WholeText(pat, v.depth);
    assert v.stack == base + Todo(Alternatives);
    w := ReadAlternatives(pat, v, base, m);
  }

  lemma ReadFromRe(pat: Bytes, s: State, base: seq<Symbol>, m: Marked) returns (u: State)
    requires Printable(m) && m.id == -1 && Numbered(m, s.submatchId) && pat == Print(m, Alternatives)
    requires Inv(pat, s) && s.status == Ok && s.re == 0 && s.stack == base + [ParseRe]
    requires base == [] || (|base| == 1 && base[0].MarkForSubmatch?)
    ensures Reaches(pat, s, u) && u.status == Ok && u.depth == s.depth && u.stack == [] && u.re == |pat|
    ensures u.result == if base == [] then Recased(m, s.flags) else Recased(m, s.flags).(id := base[0].id)
    ensures u.flags == s.flags && u.submatchId == s.submatchId + Submatches(m)
  {
    hide Inv, Run, Print, Inside, At, Closes, DepthAfter, Step, PieceEnds, Printable, Numbered, Submatches;
    BeginRe(pat, s, base);
    var v := s.(stack := base + [ParseUnion, ParseBranch]);
    var w := ReadText(pat, v, base, m);
    EndRe(pat, w, base);
    u := w.(stack := [], result := if base == [] then w.result else w.result.(id := base[0].id));
  }

  /** Parsing what was printed gives the tree back with its submatches, letters in both forms when case is ignored, reads everything and leaves nothing open; so
      the parser ends with status Ok and the stack as it was. */
  lemma RoundTrip(m: Marked, nofirstsub: bool, result: Marked, submatchId: nat, flags: Flags)
    requires Printable(m) && Numbered(m, submatchId) && (m.id == -1 <==> nofirstsub)
    ensures var pat := PatternText(m);
      var u := Run(pat, Started(nofirstsub, 0, result, submatchId, flags));
      && u.status == Ok && u.depth == 0 && u.stack == [] && u.result == Recased(m, flags) && u.re == |pat| && u.flags == flags
      && u.submatchId == submatchId + Submatches(m)
  {
    hide Inv, Run, Print, Inside, Step, Printable, Numbered, Submatches;
    var pat, inner := PatternText(m), Fresh(m.node);
    var s := Started(nofirstsub, 0, result, submatchId, flags);
    var base: seq<Symbol> := if nofirstsub then [] else [MarkForSubmatch(submatchId)];
    assert s.stack == base + [ParseRe];
    NumberedParts(m, submatchId);
    RecasedRoot(m, flags);
    var u := ReadFromRe(pat, s, base, inner);
    RunStops(pat, u);
  }

  lemma BeginRe(pat: Bytes, s: State, base: seq<Symbol>)
    requires Inv(pat, s) && s.status == Ok && s.stack == base + [ParseRe]
    ensures Reaches(pat, s, s.(stack := base + [ParseUnion, ParseBranch]))
  {
    hide Inv, Reaches;
    Does(pat, s, base, ParseRe);
  }

  lemma WholeText(pat: Bytes, depth: nat)
    ensures At(pat, 0, pat) && Closes(pat, |pat|, depth) && DepthAfter(pat, |pat|, depth) == depth
  {
  }

  lemma EndRe(pat: Bytes, s: State, base: seq<Symbol>)
    requires Inv(pat, s) && s.status == Ok && s.stack == base + [ParseUnion] && s.re == |pat| && s.result.id == -1
    requires base == [] || (|base| == 1 && base[0].MarkForSubmatch?)
    ensures Reaches(pat, s, s.(stack := [], result := if base == [] then s.result else s.result.(id := base[0].id)))
  {
    hide Inv, Run;
    DoUnionEnd(pat, s, base);
    if base != [] {
      DoMark(pat, s.(stack := base), base[0].id);
    }
  }

  lemma DoUnionEnd(pat: Bytes, s: State, base: seq<Symbol>)
    requires Inv(pat, s) && s.status == Ok && s.stack == base + [ParseUnion] && s.re == |pat|
    ensures Reaches(pat, s, s.(stack := base))
  {
    hide Reaches;
    Does(pat, s, base, ParseUnion);
  }

  lemma DoMark(pat: Bytes, s: State, id: nat)
    requires Inv(pat, s) && s.status == Ok && s.stack == [MarkForSubmatch(id)] && s.result.id == -1
    ensures Reaches(pat, s, s.(stack := [], result := s.result.(id := id)))
  {
    hide Inv, Reaches;
    assert s.stack == [] + [MarkForSubmatch(id)];
    Does(pat, s, [], MarkForSubmatch(id));
  }

  lemma RunStops(pat: Bytes, s: State)
    requires Inv(pat, s) && s.stack == []
    ensures Run(pat, s) == s
  {
  }

  /** Hence no two trees are printed alike. */
  lemma PrintIsUnambiguous(m: Marked, r: Marked)
    requires Printable(m) && Printable(r) && PatternText(m) == PatternText(r)
    requires m.id == r.id == 0 && Numbered(m, 0) && Numbered(r, 0)
    ensures m == r
  {
    hide *;
    var flags := Flags(false, false);
    RoundTrip(m, false, Fresh(Nothing), 0, flags);
    RoundTrip(r, false, Fresh(Nothing), 0, flags);
    SameCase(m, flags);
    SameCase(r, flags);
  }

  /** The same for the parser itself. */
  method ParsePrinted(m: Marked, newline: bool) returns (status: Status, result: Marked)
    requires Printable(m) && m.id == 0 && Numbered(m, 0)
    ensures status == Ok && result == m
  {
    hide *;
    var p := new Parser(PatternText(m), Flags(false, newline));
    RoundTrip(m, false, p.result, 0, p.flags);
    SameCase(m, p.flags);
    status := p.Parse(false);
    result := p.result;
  }
}
