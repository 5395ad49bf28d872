/** Matching a pattern with any number of submatches: the span reported for the whole pattern.

    Whatever tags the groups need, tag 0 marks where the match starts. So a match is reported exactly
    when the pattern occurs, the reported span is an occurrence, and the exact condition for it to be the
    leftmost-longest one is that of TreOvertaken. */
module TreGroups {
  import opened TreAst
  import opened TreExpand
  import opened TreAutomaton
  import opened TreTnfa
  import opened TreCompile
  import opened TreParallel
  import opened TreLeftmost
  import opened TreParallelRun
  import opened TreTags
  import opened TreTagPositions
  import opened TreMarked
  import opened TreSubmatches
  import opened TreOvertaken
  import opened TreMatch
  import opened TreRegset
  import TreAddTags

  // ----- where tre_add_tags puts tag 0 -----

  /** The tags around the operands of a union. */
  lemma TagsAround(l: Ast, r: Ast, i: nat, j: nat, p: Pass)
    ensures var t := Union(Catenation(l, Tag(i)), Catenation(r, Tag(j)));
      && (WellFormed(l) && WellFormed(r) ==> WellFormed(TagLeft(t, p)) && WellFormed(TagLeft(Union(l, r), p)))
      && (NoZero(l) && NoZero(r) && i > 0 && j > 0 ==> NoZero(t) && NoZero(Union(l, r)))
      && (NoZero(l) && NoZero(r) && i > 0 && j > 0 && p.tag > 0 ==> NoZero(TagLeft(t, p)) && NoZero(TagLeft(Union(l, r), p)))
  {
    var cl, cr := Catenation(l, Tag(i)), Catenation(r, Tag(j));
    assert WellFormed(l) ==> WellFormed(cl);
    assert WellFormed(r) ==> WellFormed(cr);
    assert WellFormed(l) && WellFormed(r) ==> WellFormed(Union(cl, cr));
    assert NoZero(l) && i > 0 ==> NoZero(cl);
    assert NoZero(r) && j > 0 ==> NoZero(cr);
    assert WellFormed(Tag(p.tag));
  }

  lemma {:induction false} PlaceWellFormed(m: Marked, p: Pass)
    requires WellFormed(Unmarked(m))
    ensures WellFormed(Place(m, p).tree)
    decreases m, 1
  {
    var q := p.(pending := p.pending || m.id >= 0);
    match m.node
    case Lit(_, _) =>
    case Nothing =>
    case Cat(l, r) => CatWellFormed(m, l, r, q);
    case Iter(a, _, _) => PlaceWellFormed(a, AfterTag(q).(direction := Minimize));
    case Alt(l, r) => AltWellFormed(m, l, r, q);
  }

  lemma {:induction false} CatWellFormed(m: Marked, l: Marked, r: Marked, p: Pass)
    requires m.node == Cat(l, r) && WellFormed(Unmarked(m))
    ensures WellFormed(PlaceCat(m, l, r, p).tree)
    decreases m, 0
  {
    hide Place, Count;
    var first := Count(l, p.pending);
    var reserve := first.num > 0 && Count(r, first.pending).num > 0;
    var p1 := if reserve then p.(nextTag := p.nextTag + 1) else p;
    PlaceWellFormed(l, p1);
    PlaceWellFormed(r, AfterLeft(Place(l, p1).pass, p, first.num, reserve));
  }

  lemma {:induction false} AltWellFormed(m: Marked, l: Marked, r: Marked, p: Pass)
    requires m.node == Alt(l, r) && WellFormed(Unmarked(m))
    ensures WellFormed(PlaceAlt(m, l, r, p).tree)
    decreases m, 0
  {
    hide Place, Submatches;
    var reserved := Reserved(AfterTag(p), Submatches(m) > 0);
    PlaceWellFormed(l, reserved);
    var q := Place(l, reserved).pass.(pending := false);
    PlaceWellFormed(r, q);
    TagsAround(Place(l, reserved).tree, Place(r, q).tree, LeftTag(p), RightTag(p), p);
  }

  /** The tags still to come are not 0. */
  predicate Later(p: Pass) { p.tag > 0 && p.nextTag > 0 }

  /** Tags placed later are not 0, and the direction of tag 0 stays. */
  ghost predicate PlacedLater(p: Pass, r: Placed) {
    NoZero(r.tree) && Later(r.pass) && DirectionOf(r.pass.dirs, 0) == DirectionOf(p.dirs, 0)
  }

  lemma {:induction false} LaterTags(m: Marked, p: Pass)
    requires Later(p)
    ensures PlacedLater(p, Place(m, p))
    decreases m, 1
  {
    var q := p.(pending := p.pending || m.id >= 0);
    match m.node
    case Lit(_, _) =>
    case Nothing =>
    case Cat(l, r) => LaterCat(m, l, r, q);
    case Iter(a, _, _) => LaterTags(a, AfterTag(q).(direction := Minimize));
    case Alt(l, r) => LaterAlt(m, l, r, q);
  }

  lemma {:induction false} LaterCat(m: Marked, l: Marked, r: Marked, p: Pass)
    requires m.node == Cat(l, r) && Later(p)
    ensures PlacedLater(p, PlaceCat(m, l, r, p))
    decreases m, 0
  {
    hide Place, Count;
    var first := Count(l, p.pending);
    var reserve := first.num > 0 && Count(r, first.pending).num > 0;
    var p1 := if reserve then p.(nextTag := p.nextTag + 1) else p;
    LaterTags(l, p1);
    LaterTags(r, AfterLeft(Place(l, p1).pass, p, first.num, reserve));
  }

  lemma {:induction false} LaterAlt(m: Marked, l: Marked, r: Marked, p: Pass)
    requires m.node == Alt(l, r) && Later(p)
    ensures PlacedLater(p, PlaceAlt(m, l, r, p))
    decreases m, 0
  {
    hide Place, Submatches;
    var reserved := Reserved(AfterTag(p), Submatches(m) > 0);
    LaterTags(l, reserved);
    var q := Place(l, reserved).pass.(pending := false);
    LaterTags(r, q);
    TagsAround(Place(l, reserved).tree, Place(r, q).tree, LeftTag(p), RightTag(p), p);
  }

  /** Tag 0 is due, to be minimized. */
  predicate Due(p: Pass) { p.pending && p.tag == 0 && p.nextTag > 0 && p.direction == Minimize }

  /** Tag 0 is placed in front of everything that reads a byte, or nothing reads a byte and it is still due. */
  ghost predicate PlacedFirst(p: Pass, num: nat, pending: bool, r: Placed) {
    if num > 0 then Led(r.tree) && Later(r.pass) && DirectionOf(r.pass.dirs, 0) == Minimize
    else pending && Blank(r.tree) && r.pass == p
  }

  lemma {:induction false} StartTag(m: Marked, p: Pass)
    requires Due(p.(pending := p.pending || m.id >= 0))
    ensures PlacedFirst(p.(pending := true), Count(m, p.pending).num, Count(m, p.pending).pending, Place(m, p))
    decreases m, 1
  {
    var q := p.(pending := true);
    match m.node
    case Lit(_, _) =>
    case Nothing =>
    case Cat(l, r) => StartCat(m, l, r, q);
    case Iter(a, _, _) => LaterTags(a, AfterTag(q).(direction := Minimize));
    case Alt(l, r) => StartAlt(m, l, r, q);
  }

  lemma {:induction false} StartCat(m: Marked, l: Marked, r: Marked, p: Pass)
    requires m.node == Cat(l, r) && Due(p)
    ensures var first := Count(l, true); var second := Count(r, first.pending);
      PlacedFirst(p, first.num + second.num, second.pending, PlaceCat(m, l, r, p))
    decreases m, 0
  {
    hide Place, Count;
    var first := Count(l, true);
    var reserve := first.num > 0 && Count(r, first.pending).num > 0;
    var p1 := if reserve then p.(nextTag := p.nextTag + 1) else p;
    StartTag(l, p1);
    var p2 := AfterLeft(Place(l, p1).pass, p, first.num, reserve);
    if first.num > 0 {
      LaterTags(r, p2);
    } else {
      assert p2 == p;
      StartTag(r, p);
    }
  }

  lemma StartAlt(m: Marked, l: Marked, r: Marked, p: Pass)
    requires m.node == Alt(l, r) && Due(p)
    ensures var x := PlaceAlt(m, l, r, p);
      Led(x.tree) && Later(x.pass) && DirectionOf(x.pass.dirs, 0) == Minimize
    decreases m, 0
  {
    hide Place, Submatches;
    var reserved := Reserved(AfterTag(p), Submatches(m) > 0);
    LaterTags(l, reserved);
    var q := Place(l, reserved).pass.(pending := false);
    LaterTags(r, q);
    TagsAround(Place(l, reserved).tree, Place(r, q).tree, LeftTag(p), RightTag(p), p);
  }

  /** A pattern that is a submatch as a whole: tag 0 leads, unless the pattern reads nothing. */
  lemma WholeIsLed(m: Marked)
    requires m.id >= 0
    ensures var g := PlaceTags(m);
      if g.numTags > 0 then Led(g.tree) && DirectionOf(g.dirs, 0) == Minimize else Blank(g.tree)
  {
    hide Place, Count;
    StartTag(m, Pass(false, 0, 1, Minimize, map[]));
  }

  // ----- tag 0 and the unrolling of bounded repetition -----

  lemma {:induction false} CopyNoZero(t: Ast, flags: CopyFlags)
    requires NoZero(t)
    ensures NoZero(CopyOf(t, flags))
  {
    match t
    case Catenation(l, r) => CopyNoZero(l, flags); CopyNoZero(r, flags);
    case Union(l, r) => CopyNoZero(l, flags); CopyNoZero(r, flags);
    case Iteration(a, _, _) => CopyNoZero(a, flags);
    case _ =>
  }

  lemma {:induction false} UntaggedNoZero(a: Ast, n: nat)
    requires n > 0 && NoZero(a)
    ensures NoZero(Untagged(a, n))
  {
    CopyNoZero(a, RemoveTags);
    if n > 1 {
      UntaggedNoZero(a, n - 1);
    }
  }

  lemma {:induction false} OptionalNoZero(a: Ast, n: nat)
    requires n > 0 && NoZero(a)
    ensures NoZero(Optional(a, n))
  {
    if n > 1 {
      OptionalNoZero(a, n - 1);
    }
  }

  lemma UnrollNoZero(a: Ast, min: nat, max: int)
    requires NeedsUnrolling(min, max) && (max == -1 || min <= max) && NoZero(a)
    ensures NoZero(Unroll(a, min, max))
  {
    if min > 1 {
      UntaggedNoZero(a, min - 1);
    }
    if max != -1 && max > min {
      OptionalNoZero(a, max - min);
    }
  }

  lemma {:induction false} MaximizeNoZero(t: Ast, dirs: Directions)
    requires NoZero(t)
    ensures DirectionOf(MaximizeFirst(t, dirs), 0) == DirectionOf(dirs, 0)
  {
    match t
    case Catenation(l, r) => MaximizeNoZero(l, dirs); MaximizeNoZero(r, dirs);
    case Union(l, r) => MaximizeNoZero(l, dirs); MaximizeNoZero(r, dirs);
    case Iteration(a, _, _) => MaximizeNoZero(a, dirs);
    case _ =>
  }

  lemma {:induction false} ExpandNoZero(t: Ast, dirs: Directions)
    requires WellFormed(t) && NoZero(t)
    ensures NoZero(Expand(t)) && DirectionOf(ExpandDirs(t, dirs), 0) == DirectionOf(dirs, 0)
  {
    match t
    case Catenation(l, r) => ExpandNoZero(l, dirs); ExpandNoZero(r, ExpandDirs(l, dirs));
    case Union(l, r) => ExpandNoZero(l, dirs); ExpandNoZero(r, ExpandDirs(l, dirs));
    case Iteration(a, min, max) =>
      ExpandNoZero(a, dirs);
      MaximizeNoZero(Expand(a), ExpandDirs(a, dirs));
      if NeedsUnrolling(min, max) {
        UnrollNoZero(Expand(a), min, max);
      }
    case _ =>
  }

  lemma {:induction false} ExpandBlank(t: Ast, dirs: Directions)
    requires Blank(t)
    ensures WellFormed(t) && Expand(t) == t && ExpandDirs(t, dirs) == dirs
  {
    match t
    case Catenation(l, r) => ExpandBlank(l, dirs); ExpandBlank(r, dirs);
    case _ =>
  }

  lemma {:induction false} ExpandLed(t: Ast, dirs: Directions)
    requires WellFormed(t) && Led(t)
    ensures Led(Expand(t)) && DirectionOf(ExpandDirs(t, dirs), 0) == DirectionOf(dirs, 0)
  {
    if Blank(t.left) && Led(t.right) {
      ExpandBlank(t.left, dirs);
      ExpandLed(t.right, dirs);
    } else if t.left == Tag(0) {
      ExpandNoZero(t.right, dirs);
      assert Expand(t.left) == Tag(0) && ExpandDirs(t.left, dirs) == dirs;
    } else {
      ExpandLed(t.left, dirs);
      ExpandNoZero(t.right, ExpandDirs(t.left, dirs));
    }
  }

  // ----- the span of the whole match -----

  /** Behind the end of the leftmost-longest occurrence no arrival in the final state wins over the first
      one of its step. */
  ghost predicate NotOvertaken(t: Ast, a: Automaton, dirs: Directions, firstChar: int, s: Word, n: nat) {
    forall b, e: nat | LeftmostLongestSpan(t, s, Span(b, e)) ::
      Undisturbed(a, dirs, s, LoopStart(firstChar, s), Sim([], NoMatch), n, e)
  }

  /** The matcher reports the leftmost-longest occurrence in s. */
  ghost predicate StaysLeftmost(m: Marked, firstChar: int, s: Word)
    requires WellFormed(PlaceTags(m).tree)
  {
    var t, g := Unmarked(m), PlaceTags(m);
    g.numTags == 0 || NotOvertaken(t, AutomatonOf(Expand(g.tree)), ExpandDirs(g.tree, g.dirs), firstChar, s, g.numTags)
  }

  /** What is promised of the span of a pattern with groups. */
  ghost predicate SpanOfGroups(m: Marked, firstChar: int, s: Word, span: Span)
    requires WellFormed(PlaceTags(m).tree)
  {
    var t := Unmarked(m);
    && (span.NoSpan? <==> forall i, j :: !Occurs(t, s, i, j))
    && (span.Span? ==> Occurs(t, s, span.so, span.eo))
    && (LeftmostLongestSpan(t, s, span) <==> StaysLeftmost(m, firstChar, s))
  }

  /** Accepted stretches and occurrences are the same, and so are the best of them. */
  lemma SameBest(t: Ast, a: Automaton, s: Word, b: int, e: nat)
    requires forall i, j :: Accepted(a, s, i, j) <==> Occurs(t, s, i, j)
    ensures IsBest(a, s, 0, b, e) <==> LeftmostLongestSpan(t, s, Span(b, e))
  {
  }

  lemma SameResult(t: Ast, a: Automaton, s: Word, r: Result, n: nat)
    requires n > 0 && (r.Match? ==> |r.tags| > 0)
    requires forall i, j :: Accepted(a, s, i, j) <==> Occurs(t, s, i, j)
    requires r.Match? ==> Accepted(a, s, r.tags[0], r.eo)
    ensures LeftmostLongest(a, s, 0, r) <==> LeftmostLongestSpan(t, s, SpanOf(r, n))
  {
    if LeftmostLongest(a, s, 0, r) {
      FromAutomaton(t, a, s, r, n);
    } else if r.NoMatch? {
      var i, j :| 0 <= i && Accepted(a, s, i, j);
      assert Occurs(t, s, i, j);
    } else {
      var i, j :| 0 <= i && Accepted(a, s, i, j) && !(BestFrom(r) < i || (BestFrom(r) == i && j <= r.eo));
      assert Occurs(t, s, i, j);
    }
  }

  lemma SomeTag(t: Ast, a: Automaton, tnfa: Tnfa, dirs: Directions, s: Word, n: nat)
    requires n > 0 && Closed(a) && FirstCharSound(tnfa, a) && IsBytes(s) && TagZeroAtStart(a) && DirectionOf(dirs, 0) == Minimize
    requires forall i, j :: Accepted(a, s, i, j) <==> Occurs(t, s, i, j)
    ensures var span := SpanOf(RunParallel(a, dirs, tnfa.firstChar, s, n), n);
      && (span.NoSpan? <==> forall i, j :: !Occurs(t, s, i, j))
      && (span.Span? ==> Occurs(t, s, span.so, span.eo))
      && (LeftmostLongestSpan(t, s, span) <==> NotOvertaken(t, a, dirs, tnfa.firstChar, s, n))
  {
    hide Accepted, Occurs, LeftmostLongest, LeftmostLongestSpan, TagZeroAtStart, FirstCharSound, Closed, RunParallel, Undisturbed, IsBest;
    var r := RunParallel(a, dirs, tnfa.firstChar, s, n);
    ParallelFindsMatch(a, tnfa, dirs, s, n);
    ParallelSpanIsAccepted(a, tnfa, dirs, s, n);
    LeftmostExactly(a, tnfa, dirs, s, n);
    SameResult(t, a, s, r, n);
    forall b: int, e: nat ensures IsBest(a, s, 0, b, e) <==> LeftmostLongestSpan(t, s, Span(b, e)) {
      SameBest(t, a, s, b, e);
    }
  }

  lemma GroupsMatch(m: Marked, tnfa: Tnfa, s: Word)
    requires m.id >= 0 && WellFormed(Unmarked(m)) && WellFormed(PlaceTags(m).tree) && IsBytes(s)
    requires FirstCharSound(tnfa, AutomatonOf(Expand(PlaceTags(m).tree)))
    ensures var g := PlaceTags(m);
      SpanOfGroups(m, tnfa.firstChar, s,
        SpanOf(RunParallel(AutomatonOf(Expand(g.tree)), ExpandDirs(g.tree, g.dirs), tnfa.firstChar, s, g.numTags), g.numTags))
  {
    hide Accepted, Occurs, LeftmostLongestSpan, FirstCharSound, RunParallel, Expand, ExpandDirs, AutomatonOf, PlaceTags, Place;
    var t, g := Unmarked(m), PlaceTags(m);
    var tree := Expand(g.tree);
    var a, dirs := AutomatonOf(tree), ExpandDirs(g.tree, g.dirs);
    TagsKeepLanguage(m);
    SameStretches(t, g.tree, s);
    AutomatonIsClosed(tree);
    WholeIsLed(m);
    if g.numTags > 0 {
      ExpandLed(g.tree, g.dirs);
      LedIsOneTag(tree);
      SomeTag(t, a, tnfa, dirs, s, g.numTags);
    } else {
      NoTag(t, g.tree, a, tnfa, dirs, s);
    }
  }

  lemma TagsKeepLanguage(m: Marked)
    requires WellFormed(Unmarked(m))
    ensures WellFormed(PlaceTags(m).tree) && Lang(PlaceTags(m).tree) == Lang(Unmarked(m))
  {
    hide Place, Lang, WellFormed, Unmarked;
    var p := Pass(false, 0, 1, Minimize, map[]);
    PlaceKeepsLanguage(m, p);
    PlaceWellFormed(m, p);
  }

  lemma {:induction false} BlankHasNoTag(t: Ast)
    requires Blank(t)
    ensures TagFree(t) && !Places(t)
  {
    match t
    case Catenation(l, r) => BlankHasNoTag(l); BlankHasNoTag(r);
    case _ =>
  }

  lemma NoTag(t: Ast, tree: Ast, a: Automaton, tnfa: Tnfa, dirs: Directions, s: Word)
    requires Blank(tree) && Lang(tree) == Lang(t) && Closed(a) && FirstCharSound(tnfa, a) && IsBytes(s)
    requires forall i, j :: Accepted(a, s, i, j) <==> Occurs(t, s, i, j)
    ensures var span := SpanOf(RunParallel(a, dirs, tnfa.firstChar, s, 0), 0);
      && LeftmostLongestSpan(t, s, span) && (span.NoSpan? <==> forall i, j :: !Occurs(t, s, i, j))
      && (span.Span? ==> Occurs(t, s, span.so, span.eo))
  {
    hide Lang, RunParallel, FirstCharSound, Closed;
    BlankHasNoTag(tree);
    assert forall i, j :: Occurs(tree, s, i, j) <==> Occurs(t, s, i, j);
    EmptyMatch(tree, a, tnfa, dirs, s);
  }

  lemma {:induction false} NoMarksIsPlain(m: Marked)
    requires Submatches(m) == 0
    ensures TagFree(Unmarked(m)) && m == TreSubmatches.Plain(Unmarked(m))
  {
    UnmarkedTagFree(m);
    match m.node
    case Cat(l, r) => NoMarksIsPlain(l); NoMarksIsPlain(r);
    case Iter(a, _, _) => NoMarksIsPlain(a);
    case Alt(l, r) => NoMarksIsPlain(l); NoMarksIsPlain(r);
    case _ =>
  }

  lemma OnlyWholeIsPlain(m: Marked)
    requires m.id == 0 && Submatches(m) == 1
    ensures TagFree(Unmarked(m)) && m == WholeMarked(Unmarked(m))
  {
    UnmarkedTagFree(m);
    match m.node
    case Cat(l, r) => NoMarksIsPlain(l); NoMarksIsPlain(r);
    case Iter(a, _, _) => NoMarksIsPlain(a);
    case Alt(l, r) => NoMarksIsPlain(l); NoMarksIsPlain(r);
    case _ =>
  }

  /** When only the whole is a submatch the span is always the leftmost-longest one. */
  lemma OnlyWholeMatch(m: Marked, tnfa: Tnfa, s: Word)
    requires m.id == 0 && Submatches(m) == 1 && WellFormed(Unmarked(m)) && WellFormed(PlaceTags(m).tree) && IsBytes(s)
    requires FirstCharSound(tnfa, AutomatonOf(Expand(PlaceTags(m).tree)))
    ensures var g := PlaceTags(m);
      LeftmostLongestSpan(Unmarked(m), s,
        SpanOf(RunParallel(AutomatonOf(Expand(g.tree)), ExpandDirs(g.tree, g.dirs), tnfa.firstChar, s, g.numTags), g.numTags))
  {
    hide LeftmostLongestSpan, FirstCharSound, RunParallel, Expand, ExpandDirs, AutomatonOf, PlaceTags, Unmarked,
        TreSubmatches.Plain, Submatches;
    OnlyWholeIsPlain(m);
    WholeMatchTags(Unmarked(m));
    MatchIsLeftmostLongest(Unmarked(m), PlaceTags(m), tnfa, s);
  }

  /** With no group in the pattern the matcher always reports the leftmost-longest occurrence. */
  lemma OnlyWholeStays(m: Marked, tnfa: Tnfa, s: Word)
    requires m.id == 0 && Submatches(m) == 1 && WellFormed(Unmarked(m)) && WellFormed(PlaceTags(m).tree) && IsBytes(s)
    requires FirstCharSound(tnfa, AutomatonOf(Expand(PlaceTags(m).tree)))
    ensures StaysLeftmost(m, tnfa.firstChar, s)
  {
    hide *;
    GroupsMatch(m, tnfa, s);
    OnlyWholeMatch(m, tnfa, s);
    GroupsPromise(m, tnfa, s);
  }

  lemma GroupsPromise(m: Marked, tnfa: Tnfa, s: Word)
    requires WellFormed(PlaceTags(m).tree)
    ensures var g := PlaceTags(m);
      var span := SpanOf(RunParallel(AutomatonOf(Expand(g.tree)), ExpandDirs(g.tree, g.dirs), tnfa.firstChar, s, g.numTags), g.numTags);
      SpanOfGroups(m, tnfa.firstChar, s, span) ==> (LeftmostLongestSpan(Unmarked(m), s, span) <==> StaysLeftmost(m, tnfa.firstChar, s))
  {
  }

  /** What tre_regcomp leaves in the pattern buffer. */
  datatype Preg = Preg(tnfa: Tnfa, data: SubmatchData)

  ghost predicate Compiled(m: Marked, preg: Preg, offs: seq<nat>) {
    var g := PlaceTags(m);
    && OnlyRoot(m) && WellFormed(Unmarked(m)) && WellFormed(g.tree) && preg.data == DataOf(m)
    && Represents(preg.tnfa, AutomatonOf(Expand(g.tree)), offs) && FirstCharSound(preg.tnfa, AutomatonOf(Expand(g.tree)))
    && preg.tnfa.tagDirections == ExpandDirs(g.tree, g.dirs) && preg.tnfa.numTags == g.numTags
  }

  lemma CompiledMeans(m: Marked, preg: Preg, offs: seq<nat>)
    requires Compiled(m, preg, offs)
    ensures m.id == 0 && OnlyRoot(m) && WellFormed(Unmarked(m)) && WellFormed(PlaceTags(m).tree)
    ensures FirstCharSound(preg.tnfa, AutomatonOf(Expand(PlaceTags(m).tree)))
  {
  }

  /** tre_regcomp after the parser. */
  method RegComp(m: Marked) returns (preg: Preg, ghost offs: seq<nat>)
    requires OnlyRoot(m) && WellFormed(Unmarked(m))
    ensures Compiled(m, preg, offs)
  {
    hide PlaceTags, Expand, ExpandDirs, AutomatonOf, Represents, FirstCharSound, WellFormed, DataOf, OnlyRoot;
    var g, data := TreAddTags.AddTags(m);
    TagsKeepLanguage(m);
    var tnfa;
    tnfa, offs := CompileAst(g.tree, g.dirs, g.numTags);
    preg := Preg(tnfa, data);
  }

  /** tre_fill_pmatch for one register. */
  method FillPmatch(preg: Preg, tags: seq<int>, eo: int) returns (pmatch: Span)
    requires 0 in preg.data.so && 0 in preg.data.eo
    requires preg.data.so[0] != preg.tnfa.numTags ==> preg.data.so[0] < |tags|
    requires preg.data.eo[0] != preg.tnfa.numTags ==> preg.data.eo[0] < |tags|
    ensures var so := if preg.data.so[0] == preg.tnfa.numTags then eo else tags[preg.data.so[0]];
      var end := if preg.data.eo[0] == preg.tnfa.numTags then eo else tags[preg.data.eo[0]];
      pmatch == if so == -1 || end == -1 then Span(-1, -1) else Span(so, end)
  {
    var soTag, eoTag := preg.data.so[0], preg.data.eo[0];
    pmatch := Span(if soTag == preg.tnfa.numTags then eo else tags[soTag], if eoTag == preg.tnfa.numTags then eo else tags[eoTag]);
    if pmatch.so == -1 || pmatch.eo == -1 {
      pmatch := Span(-1, -1);
    }
  }

  /** tre_regnexec with one register. */
  method RegNExec(preg: Preg, s: Word, ghost m: Marked, ghost offs: seq<nat>) returns (pmatch: Span)
    requires Compiled(m, preg, offs) && IsBytes(s)
    ensures WellFormed(PlaceTags(m).tree) && SpanOfGroups(m, preg.tnfa.firstChar, s, pmatch)
  {
    hide PlaceTags, Expand, ExpandDirs, AutomatonOf, Represents, FirstCharSound, WellFormed, SpanOfGroups, RunParallel, SpanOf,
        DataOf, OnlyRoot;
    ghost var a := AutomatonOf(Expand(PlaceTags(m).tree));
    var tnfa := preg.tnfa;
    CompiledMeans(m, preg, offs);
    GroupsMatch(m, tnfa, s);
    var ok, eo, tags := TnfaRunParallel(tnfa, s, tnfa.numTags, a, offs);
    ParallelTagCount(a, tnfa, s, tnfa.numTags);
    ghost var r := RunParallel(a, tnfa.tagDirections, tnfa.firstChar, s, tnfa.numTags);
    ResultSpan(r, tnfa.numTags);
    WholeOffsets(m);
    if ok {
      SpanIsInside(m, tnfa.firstChar, s, SpanOf(r, tnfa.numTags));
      pmatch := FillPmatch(preg, tags, eo);
    } else {
      pmatch := NoSpan;
    }
  }

  lemma SpanIsInside(m: Marked, firstChar: int, s: Word, span: Span)
    requires WellFormed(PlaceTags(m).tree) && SpanOfGroups(m, firstChar, s, span) && span.Span?
    ensures 0 <= span.so <= span.eo <= |s| && Occurs(Unmarked(m), s, span.so, span.eo)
  {
  }

  /** Compile a pattern with groups and match it against a string. */
  method RegExecGroups(m: Marked, s: Word) returns (pmatch: Span, preg: Preg)
    requires OnlyRoot(m) && WellFormed(Unmarked(m)) && IsBytes(s)
    ensures WellFormed(PlaceTags(m).tree) && SpanOfGroups(m, preg.tnfa.firstChar, s, pmatch)
    ensures Submatches(m) == 1 ==> LeftmostLongestSpan(Unmarked(m), s, pmatch)
  {
    hide PlaceTags, Submatches, Compiled, WellFormed, StaysLeftmost, LeftmostLongestSpan, OnlyRoot;
    ghost var offs;
    preg, offs := RegComp(m);
    pmatch := RegNExec(preg, s, m, offs);
    if Submatches(m) == 1 {
      CompiledMeans(m, preg, offs);
      OnlyWholeStays(m, preg.tnfa, s);
    }
  }

  lemma ResultSpan(r: Result, n: nat)
    requires r.Match? ==> |r.tags| == n
    ensures SpanOf(r, n) == if r.NoMatch? then NoSpan else if n == 0 then Span(r.eo, r.eo) else Span(r.tags[0], r.eo)
  {
  }
}
