/** tre_parse (tre-parse.c) for extended regular expressions: a parser that keeps its own stack.

    Brackets, bounds, assertions, back references, macros, minimal repetition and the flag letters of
    `(?...)` are parsed elsewhere; meeting one of them ends the run with status Elsewhere. */
module TreParse {
  import opened Text
  import opened TreAst
  import opened TreMarked

  datatype Flags = Flags(icase: bool, newline: bool)

  datatype Status = Ok | Eparen | Badrpt | Eescape | Elsewhere

  /** A stack entry: a parse symbol with what is pushed below it. */
  datatype Symbol =
    | ParseRe
    | ParseAtom
    | MarkForSubmatch(id: nat)
    | ParseBranch
    | ParsePiece
    | ParseCatenation
    | PostCatenation(tree: Marked)
    | ParseUnion
    | PostUnion(tree: Marked)
    | ParsePostfix
    | RestoreCflags(flags: Flags)

  datatype State = State(stack: seq<Symbol>, re: nat, depth: nat, result: Marked, submatchId: nat, flags: Flags, status: Status)

  const PIPE: Byte := '|' as int
  const LPAREN: Byte := '(' as int
  const RPAREN: Byte := ')' as int
  const LBRACE: Byte := '{' as int
  const LBRACKET: Byte := '[' as int
  const STAR: Byte := '*' as int
  const QUESTIONMARK: Byte := '?' as int
  const PLUS: Byte := '+' as int
  const PERIOD: Byte := '.' as int
  const COLON: Byte := ':' as int
  const CARET: Byte := '^' as int
  const DOLLAR: Byte := '$' as int
  const BACKSLASH: Byte := 92

  predicate IsPostfix(c: Byte) { c == STAR || c == PLUS || c == QUESTIONMARK || c == LBRACE }

  /** Behind a backslash: macros, assertions, `\x`, `\Q` and back references. */
  predicate SpecialEscape(c: Byte) {
    || c as int in {'t' as int, 'n' as int, 'r' as int, 'f' as int, 'a' as int, 'e' as int, 'w' as int, 'W' as int,
                    's' as int, 'S' as int, 'd' as int, 'D' as int, 'Q' as int, 'b' as int, 'B' as int,
                    '<' as int, '>' as int, 'x' as int}
    || '0' as int <= c <= '9' as int
  }

  // ----- one turn of the loop -----

  function Push(s: State, symbols: seq<Symbol>): State { s.(stack := s.stack + symbols) }

  function New(s: State, node: Node, read: nat): State { s.(result := Fresh(node), re := s.re + read) }

  function Catenate(pat: Bytes, s: State): State
    requires s.re <= |pat|
  {
    if s.re >= |pat| || pat[s.re] == PIPE then s
    else if pat[s.re] == RPAREN && s.depth > 0 then s.(depth := s.depth - 1)
    else Push(s, [ParseCatenation, PostCatenation(s.result), ParsePiece])
  }

  function Unite(pat: Bytes, s: State): State
    requires s.re <= |pat|
  {
    if s.re >= |pat| then s
    else if pat[s.re] == PIPE then Push(s, [ParseUnion, PostUnion(s.result), ParseBranch]).(re := s.re + 1)
    else if pat[s.re] == RPAREN then s.(re := s.re + 1)
    else s
  }

  function Postfix(pat: Bytes, s: State): State
    requires s.re <= |pat|
  {
    if s.re >= |pat| then s
    else if pat[s.re] == PLUS || pat[s.re] == QUESTIONMARK || pat[s.re] == STAR then
      if s.re + 1 < |pat| && pat[s.re + 1] == QUESTIONMARK then s.(status := Elsewhere)
      else if s.re + 1 < |pat| && (pat[s.re + 1] == STAR || pat[s.re + 1] == PLUS) then s.(status := Badrpt)
      else
        var iteration := Iter(s.result, if pat[s.re] == PLUS then 1 else 0, if pat[s.re] == QUESTIONMARK then 1 else -1);
        Push(New(s, iteration, 1), [ParsePostfix])
    else if pat[s.re] == LBRACE then s.(status := Elsewhere)
    else s
  }

  function LiteralAtom(c: Byte, flags: Flags): Node {
    if flags.icase && (ToUpper(c) != c || ToLower(c) != c)
    then Alt(Fresh(Lit(ToUpper(c), ToUpper(c))), Fresh(Lit(ToLower(c), ToLower(c))))
    else Lit(c, c)
  }

  function Atom(pat: Bytes, s: State): State
    requires s.re <= |pat|
  {
    if s.re >= |pat| then New(s, Nothing, 0) else
      var c := pat[s.re];
      if c == LPAREN then
        if s.re + 1 < |pat| && pat[s.re + 1] == QUESTIONMARK then
          if s.re + 2 < |pat| && pat[s.re + 2] == COLON
          then Push(s, [RestoreCflags(s.flags), ParseRe]).(re := s.re + 3, depth := s.depth + 1)
          else s.(status := Elsewhere)
        else Push(s, [MarkForSubmatch(s.submatchId), ParseRe]).(re := s.re + 1, depth := s.depth + 1, submatchId := s.submatchId + 1)
      else if c == RPAREN && s.depth > 0 then New(s, Nothing, 0)
      else if c == LBRACKET || c == CARET || c == DOLLAR then s.(status := Elsewhere)
      else if c == BACKSLASH then
        if s.re + 1 >= |pat| then s.(status := Eescape)
        else if SpecialEscape(pat[s.re + 1]) then s.(status := Elsewhere)
        else New(s, Lit(pat[s.re + 1], pat[s.re + 1]), 2)
      else if c == PERIOD then New(s, if s.flags.newline then Alt(Fresh(Lit(0, 9)), Fresh(Lit(11, 255))) else Lit(0, 255), 1)
      else if c == PIPE || IsPostfix(c) then New(s, Nothing, 0)
      else New(s, LiteralAtom(c, s.flags), 1)
  }

  predicate Running(s: State) { s.status == Ok && |s.stack| > 0 }

  function Step(pat: Bytes, s: State): State
    requires Running(s) && s.re <= |pat|
  {
    var n := |s.stack| - 1;
    var t := s.(stack := s.stack[..n]);
    match s.stack[n]
    case ParseRe => Push(t, [ParseUnion, ParseBranch])
    case ParseBranch => Push(t, [ParseCatenation, ParsePiece])
    case ParsePiece => Push(t, [ParsePostfix, ParseAtom])
    case ParseCatenation => Catenate(pat, t)
    case PostCatenation(tree) => New(t, Cat(tree, t.result), 0)
    case ParseUnion => Unite(pat, t)
    case PostUnion(tree) => New(t, Alt(tree, t.result), 0)
    case ParsePostfix => Postfix(pat, t)
    case ParseAtom => Atom(pat, t)
    case MarkForSubmatch(id) =>
      t.(result := if t.result.id >= 0 then Marked(Cat(Fresh(Nothing), t.result), id) else t.result.(id := id))
    case RestoreCflags(flags) => t.(flags := flags)
  }

  // ----- the parser stops on every pattern -----

  /** What may lie directly below a symbol. */
  predicate Above(upper: Symbol, lower: Symbol) {
    match upper
    case ParseAtom => lower.ParsePostfix?
    case ParsePostfix => lower.ParseCatenation? || lower.PostCatenation?
    case ParsePiece => lower.ParseCatenation? || lower.PostCatenation?
    case PostCatenation(_) => lower.ParseCatenation?
    case ParseCatenation => lower.ParseUnion? || lower.PostUnion?
    case ParseBranch => lower.ParseUnion? || lower.PostUnion?
    case PostUnion(_) => lower.ParseUnion?
    case ParseUnion => lower.RestoreCflags? || lower.MarkForSubmatch?
    case ParseRe => lower.RestoreCflags? || lower.MarkForSubmatch?
    case RestoreCflags(_) => lower.ParsePostfix?
    case MarkForSubmatch(_) => lower.ParsePostfix?
  }

  predicate Stacked(stack: seq<Symbol>) {
    forall i | 0 <= i < |stack| - 1 :: Above(stack[i + 1], stack[i])
  }

  /** No postfix operator comes next. */
  predicate PieceEnds(pat: Bytes, re: nat) { re >= |pat| || !IsPostfix(pat[re]) }

  predicate Inv(pat: Bytes, s: State) {
    && s.re <= |pat| && Stacked(s.stack)
    && (Running(s) && (s.stack[|s.stack| - 1].ParseCatenation? || s.stack[|s.stack| - 1].PostCatenation?) ==> PieceEnds(pat, s.re))
  }

  function Weight(symbol: Symbol): nat {
    match symbol
    case ParsePiece => 3
    case ParseBranch => 5
    case ParseRe => 7
    case _ => 1
  }

  function Weights(stack: seq<Symbol>): nat {
    if stack == [] then 0 else Weights(stack[..|stack| - 1]) + Weight(stack[|stack| - 1])
  }

  /** An atom at this place reads a byte. */
  predicate Readable(pat: Bytes, re: nat, depth: nat) {
    re < |pat| && pat[re] != PIPE && !IsPostfix(pat[re]) && !(pat[re] == RPAREN && depth > 0)
  }

  /** A piece or atom that is about to read a byte counts as having read a part of it. */
  function Ahead(pat: Bytes, s: State): nat {
    if |s.stack| > 0 && (s.stack[|s.stack| - 1].ParsePiece? || s.stack[|s.stack| - 1].ParseAtom?) && Readable(pat, s.re, s.depth)
    then 5 else 0
  }

  function Measure(pat: Bytes, s: State): nat
    requires s.re <= |pat|
  {
    if !Running(s) then 0 else 20 * (|pat| - s.re) + Weights(s.stack) - Ahead(pat, s) + 1
  }

  /** Taking the top symbol off. */
  lemma Popped(stack: seq<Symbol>)
    requires Stacked(stack) && |stack| > 0
    ensures var n := |stack| - 1; var rest := stack[..n];
      && Stacked(rest) && Weights(stack) == Weights(rest) + Weight(stack[n])
      && (n > 0 ==> Above(stack[n], rest[n - 1]))
  {
  }

  lemma PushedWeighs(stack: seq<Symbol>, a: Symbol, b: Symbol, c: Symbol)
    ensures Weights(stack + [a]) == Weights(stack) + Weight(a)
    ensures Weights(stack + [a, b]) == Weights(stack) + Weight(a) + Weight(b)
    ensures Weights(stack + [a, b, c]) == Weights(stack) + Weight(a) + Weight(b) + Weight(c)
  {
    assert (stack + [a])[..|stack|] == stack;
    assert (stack + [a, b])[..|stack| + 1] == stack + [a];
    assert (stack + [a, b, c])[..|stack| + 2] == stack + [a, b];
  }

  /** Putting one to three symbols on. */
  lemma Pushed(stack: seq<Symbol>, a: Symbol, b: Symbol, c: Symbol)
    requires Stacked(stack) && (|stack| > 0 ==> Above(a, stack[|stack| - 1]))
    ensures Stacked(stack + [a]) && Weights(stack + [a]) == Weights(stack) + Weight(a)
    ensures Weights(stack + [a, b]) == Weights(stack) + Weight(a) + Weight(b)
    ensures Weights(stack + [a, b, c]) == Weights(stack) + Weight(a) + Weight(b) + Weight(c)
    ensures Above(b, a) ==> Stacked(stack + [a, b])
    ensures Above(b, a) && Above(c, b) ==> Stacked(stack + [a, b, c])
  {
    hide Weights, Weight, Above;
    PushedWeighs(stack, a, b, c);
  }

  lemma PlainKeeps(pat: Bytes, s: State)
    requires Running(s) && Inv(pat, s)
    requires var top := s.stack[|s.stack| - 1]; top.ParseRe? || top.ParseBranch? || top.ParsePiece?
    ensures Inv(pat, Step(pat, s)) && Measure(pat, Step(pat, s)) < Measure(pat, s)
  {
    hide Stacked, Weights, Readable;
    var rest := s.stack[..|s.stack| - 1];
    Popped(s.stack);
    match s.stack[|s.stack| - 1]
    case ParseRe => Pushed(rest, ParseUnion, ParseBranch, ParseRe);
    case ParseBranch => Pushed(rest, ParseCatenation, ParsePiece, ParseRe);
    case ParsePiece => Pushed(rest, ParsePostfix, ParseAtom, ParseRe);
  }

  lemma CatenationKeeps(pat: Bytes, s: State)
    requires Running(s) && Inv(pat, s) && s.stack[|s.stack| - 1].ParseCatenation?
    ensures Inv(pat, Step(pat, s)) && Measure(pat, Step(pat, s)) < Measure(pat, s)
  {
    hide Stacked, Weights;
    Popped(s.stack);
    Pushed(s.stack[..|s.stack| - 1], ParseCatenation, PostCatenation(s.result), ParsePiece);
  }

  lemma UnionKeeps(pat: Bytes, s: State)
    requires Running(s) && Inv(pat, s) && s.stack[|s.stack| - 1].ParseUnion?
    ensures Inv(pat, Step(pat, s)) && Measure(pat, Step(pat, s)) < Measure(pat, s)
  {
    hide Stacked, Weights;
    Popped(s.stack);
    Pushed(s.stack[..|s.stack| - 1], ParseUnion, PostUnion(s.result), ParseBranch);
  }

  lemma PostfixKeeps(pat: Bytes, s: State)
    requires Running(s) && Inv(pat, s) && s.stack[|s.stack| - 1].ParsePostfix?
    ensures Inv(pat, Step(pat, s)) && Measure(pat, Step(pat, s)) < Measure(pat, s)
  {
    hide Stacked, Weights;
    Popped(s.stack);
    Pushed(s.stack[..|s.stack| - 1], ParsePostfix, ParseRe, ParseRe);
  }

  lemma AtomKeeps(pat: Bytes, s: State)
    requires Running(s) && Inv(pat, s) && s.stack[|s.stack| - 1].ParseAtom?
    ensures Inv(pat, Step(pat, s)) && Measure(pat, Step(pat, s)) < Measure(pat, s)
  {
    hide Stacked, Weights, LiteralAtom, SpecialEscape;
    var rest := s.stack[..|s.stack| - 1];
    Popped(s.stack);
    Pushed(rest, RestoreCflags(s.flags), ParseRe, ParseRe);
    Pushed(rest, MarkForSubmatch(s.submatchId), ParseRe, ParseRe);
  }

  lemma PopKeeps(pat: Bytes, s: State)
    requires Running(s) && Inv(pat, s)
    requires var top := s.stack[|s.stack| - 1];
      top.PostCatenation? || top.PostUnion? || top.MarkForSubmatch? || top.RestoreCflags?
    ensures Inv(pat, Step(pat, s)) && Measure(pat, Step(pat, s)) < Measure(pat, s)
  {
    hide Stacked, Weights;
    Popped(s.stack);
  }

  lemma StepKeeps(pat: Bytes, s: State)
    requires Running(s) && Inv(pat, s)
    ensures Inv(pat, Step(pat, s)) && Measure(pat, Step(pat, s)) < Measure(pat, s)
  {
    hide Inv, Step, Measure;
    match s.stack[|s.stack| - 1]
    case ParseRe => PlainKeeps(pat, s);
    case ParseBranch => PlainKeeps(pat, s);
    case ParsePiece => PlainKeeps(pat, s);
    case ParseCatenation => CatenationKeeps(pat, s);
    case ParseUnion => UnionKeeps(pat, s);
    case ParsePostfix => PostfixKeeps(pat, s);
    case ParseAtom => AtomKeeps(pat, s);
    case PostCatenation(_) => PopKeeps(pat, s);
    case PostUnion(_) => PopKeeps(pat, s);
    case MarkForSubmatch(_) => PopKeeps(pat, s);
    case RestoreCflags(_) => PopKeeps(pat, s);
  }

  /** The state in which the parser stops. */
  function Run(pat: Bytes, s: State): State
    requires Inv(pat, s)
    decreases Measure(pat, s)
  {
    if Running(s) then StepKeeps(pat, s); Run(pat, Step(pat, s)) else s
  }

  // ----- the parser itself -----

  class Parser {
    const pat: Bytes
    var stack: seq<Symbol>
    var re: nat
    var result: Marked
    var submatchId: nat
    var flags: Flags

    constructor (pat: Bytes, flags: Flags)
      ensures this.pat == pat && this.flags == flags && re == 0 && stack == [] && submatchId == 0 && result == Fresh(Nothing)
    {
      this.pat, this.flags := pat, flags;
      re, stack, result, submatchId := 0, [], Fresh(Nothing), 0;
    }

    /** Where the run stands; the first `bottom` entries of the stack belong to the caller. */
    ghost function Now(bottom: nat, depth: nat, status: Status): State
      requires bottom <= |stack|
      reads this
    {
      State(stack[bottom..], re, depth, result, submatchId, flags, status)
    }

    /** The PARSE_ATOM case. */
    method AtomCase(ghost bottom: nat, depth: nat) returns (newDepth: nat, status: Status)
      requires bottom <= |stack| && re <= |pat|
      modifies this
      ensures bottom <= |stack| && stack[..bottom] == old(stack[..bottom])
      ensures Now(bottom, newDepth, status) == Atom(pat, old(Now(bottom, depth, Ok)))
    {
      newDepth, status := depth, Ok;
      if re >= |pat| {
        result := Fresh(Nothing);
        return;
      }
      var c := pat[re];
      if c == LPAREN {
        if re + 1 < |pat| && pat[re + 1] == QUESTIONMARK {
          if re + 2 < |pat| && pat[re + 2] == COLON {
            re := re + 3;
            newDepth := depth + 1;
            stack := stack + [RestoreCflags(flags), ParseRe];
          } else {
            status := Elsewhere;
          }
        } else {
          newDepth := depth + 1;
          re := re + 1;
          stack := stack + [MarkForSubmatch(submatchId), ParseRe];
          submatchId := submatchId + 1;
        }
      } else if c == RPAREN && depth > 0 {
        result := Fresh(Nothing);
      } else if c == LBRACKET || c == CARET || c == DOLLAR {
        status := Elsewhere;
      } else if c == BACKSLASH {
        if re + 1 >= |pat| {
          status := Eescape;
        } else if SpecialEscape(pat[re + 1]) {
          status := Elsewhere;
        } else {
          result := Fresh(Lit(pat[re + 1], pat[re + 1]));
          re := re + 2;
        }
      } else if c == PERIOD {
        result := Fresh(if flags.newline then Alt(Fresh(Lit(0, 9)), Fresh(Lit(11, 255))) else Lit(0, 255));
        re := re + 1;
      } else if c == PIPE || IsPostfix(c) {
        result := Fresh(Nothing);
      } else {
        if flags.icase && (ToUpper(c) != c || ToLower(c) != c) {
          result := Fresh(Alt(Fresh(Lit(ToUpper(c), ToUpper(c))), Fresh(Lit(ToLower(c), ToLower(c)))));
        } else {
          result := Fresh(Lit(c, c));
        }
        re := re + 1;
      }
    }

    /** The PARSE_POSTFIX case. */
    method PostfixCase(ghost bottom: nat, ghost depth: nat) returns (status: Status)
      requires bottom <= |stack| && re <= |pat|
      modifies this
      ensures bottom <= |stack| && stack[..bottom] == old(stack[..bottom])
      ensures Now(bottom, depth, status) == Postfix(pat, old(Now(bottom, depth, Ok)))
    {
      status := Ok;
      if re >= |pat| {
        return;
      }
      if pat[re] == PLUS || pat[re] == QUESTIONMARK || pat[re] == STAR {
        var repMin, repMax := 0, -1;
        if pat[re] == PLUS {
          repMin := 1;
        }
        if pat[re] == QUESTIONMARK {
          repMax := 1;
        }
        if re + 1 < |pat| {
          if pat[re + 1] == QUESTIONMARK {
            return Elsewhere;
          } else if pat[re + 1] == STAR || pat[re + 1] == PLUS {
            return Badrpt;
          }
        }
        re := re + 1;
        result := Fresh(Iter(result, repMin, repMax));
        stack := stack + [ParsePostfix];
      } else if pat[re] == LBRACE {
        status := Elsewhere;
      }
    }

    /** One symbol off the stack. */
    method Turn(ghost bottom: nat, depth: nat) returns (newDepth: nat, status: Status)
      requires bottom < |stack| && re <= |pat|
      modifies this
      ensures bottom <= |stack| && stack[..bottom] == old(stack[..bottom])
      ensures Now(bottom, newDepth, status) == Step(pat, old(Now(bottom, depth, Ok)))
    {
      hide Atom, Postfix;
      var symbol := stack[|stack| - 1];
      assert stack[bottom..][|stack| - bottom - 1] == symbol;
      assert stack[..|stack| - 1][bottom..] == stack[bottom..][..|stack| - bottom - 1];
      stack := stack[..|stack| - 1];
      newDepth, status := depth, Ok;
      match symbol
      case ParseRe =>
        stack := stack + [ParseUnion, ParseBranch];
      case ParseBranch =>
        stack := stack + [ParseCatenation, ParsePiece];
      case ParsePiece =>
        stack := stack + [ParsePostfix, ParseAtom];
      case ParseCatenation =>
        if re >= |pat| || pat[re] == PIPE {
        } else if pat[re] == RPAREN && depth > 0 {
          newDepth := depth - 1;
        } else {
          stack := stack + [ParseCatenation, PostCatenation(result), ParsePiece];
        }
      case PostCatenation(tree) =>
        result := Fresh(Cat(tree, result));
      case ParseUnion =>
        if re < |pat| {
          if pat[re] == PIPE {
            stack := stack + [ParseUnion, PostUnion(result), ParseBranch];
            re := re + 1;
          } else if pat[re] == RPAREN {
            re := re + 1;
          }
        }
      case PostUnion(tree) =>
        result := Fresh(Alt(tree, result));
      case ParsePostfix =>
        status := PostfixCase(bottom, depth);
      case ParseAtom =>
        newDepth, status := AtomCase(bottom, depth);
      case MarkForSubmatch(id) =>
        if result.id >= 0 {
          result := Fresh(Cat(Fresh(Nothing), result));
        }
        result := result.(id := id);
      case RestoreCflags(f) =>
        flags := f;
    }

    /** tre_parse. */
    method Parse(nofirstsub: bool) returns (status: Status)
      requires re <= |pat|
      modifies this
      ensures var u := Run(pat, Started(nofirstsub, old(re), old(result), old(submatchId), old(flags)));
        && status == (if u.status == Ok && u.depth > 0 then Eparen else u.status)
        && (status == Ok ==> stack == old(stack) && result == u.result && re == u.re && submatchId == u.submatchId)
    {
      var bottom, depth := |stack|, 0;
      status := Ok;
      if !nofirstsub {
        stack := stack + [MarkForSubmatch(submatchId)];
        submatchId := submatchId + 1;
      }
      stack := stack + [ParseRe];
      ghost var s := Now(bottom, 0, Ok);
      ghost var start := s;
      assert s == Started(nofirstsub, old(re), old(result), old(submatchId), old(flags));
      while |stack| > bottom && status == Ok
        invariant bottom <= |stack| && stack[..bottom] == old(stack)
        invariant s == Now(bottom, depth, status) && Inv(pat, s) && Run(pat, s) == Run(pat, start)
        decreases Measure(pat, s)
      {
        StepKeeps(pat, s);
        depth, status := Turn(bottom, depth);
        s := Step(pat, s);
      }
      if status == Ok && depth > 0 {
        status := Eparen;
      }
    }
  }

  /** Where tre_parse starts. */
  function Started(nofirstsub: bool, re: nat, result: Marked, submatchId: nat, flags: Flags): (s: State)
    ensures forall pat: Bytes | re <= |pat| :: Inv(pat, s)
  {
    if nofirstsub then State([ParseRe], re, 0, result, submatchId, flags, Ok)
    else State([MarkForSubmatch(submatchId), ParseRe], re, 0, result, submatchId + 1, flags, Ok)
  }
}
