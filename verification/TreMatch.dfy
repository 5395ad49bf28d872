/** From the parsed tree to the reported span (tre_add_tags, the rest of tre_compile, tre_match and
    tre_fill_pmatch), for a pattern whose only submatch is the whole match.

    The main theorem is `MatchIsLeftmostLongest`: the reported span is a word of the pattern's
    language, no other occurrence starts further left, none with the same start is longer, and
    nothing is reported exactly when there is no occurrence. */
module TreMatch {
  import opened TreAst
  import opened TreExpand
  import opened TrePositions
  import opened TreAutomaton
  import opened TreTnfa
  import opened TreCompile
  import opened TreParallel
  import opened TreLeftmost
  import opened TreParallelRun
  import opened TreTags
  import TreSubmatches
  import opened TreTagPositions

  // ----- the whole -----

  datatype Span = NoSpan | Span(so: int, eo: int)

  /** s[i..j] is a word of the pattern. */
  ghost predicate Occurs(t: Ast, s: Word, i: int, j: int) { 0 <= i <= j <= |s| && s[i..j] in Lang(t) }

  /** The leftmost occurrence, and the longest of those; none exactly when nothing occurs. */
  ghost predicate LeftmostLongestSpan(t: Ast, s: Word, r: Span) {
    if r.NoSpan? then forall i, j :: !Occurs(t, s, i, j)
    else
      && Occurs(t, s, r.so, r.eo)
      && forall i, j | Occurs(t, s, i, j) :: r.so < i || (r.so == i && j <= r.eo)
  }

  /** tre_fill_pmatch for submatch 0: its start is tag 0, or the end tag when there is no tag. */
  function SpanOf(r: Result, numTags: nat): Span {
    if r.NoMatch? then NoSpan
    else if numTags == 0 then Span(r.eo, r.eo)
    else if |r.tags| > 0 then Span(r.tags[0], r.eo) else NoSpan
  }

  /** The automaton accepts the stretches where the pattern occurs, and its first match is theirs. */
  lemma FromAutomaton(t: Ast, a: Automaton, s: Word, r: Result, numTags: nat)
    requires numTags > 0 && LeftmostLongest(a, s, 0, r)
    requires forall i, j :: Accepted(a, s, i, j) <==> Occurs(t, s, i, j)
    ensures LeftmostLongestSpan(t, s, SpanOf(r, numTags))
  {
    forall i, j | Occurs(t, s, i, j) ensures r.Match? {
      assert Accepted(a, s, i, j);
    }
    if r.Match? {
      forall i, j | Occurs(t, s, i, j) ensures r.tags[0] < i || (r.tags[0] == i && j <= r.eo) {
        assert Accepted(a, s, i, j);
      }
    }
  }

  lemma SameStretches(t: Ast, tree: Ast, s: Word)
    requires WellFormed(tree) && Lang(tree) == Lang(t)
    ensures forall i, j :: Accepted(AutomatonOf(Expand(tree)), s, i, j) <==> Occurs(t, s, i, j)
  {
    forall i, j ensures Accepted(AutomatonOf(Expand(tree)), s, i, j) <==> Occurs(t, s, i, j) {
      if 0 <= i <= j <= |s| {
        CompileKeepsLanguage(tree, s[i..j]);
      }
    }
  }

  lemma UnionMatch(l: Ast, r: Ast, a: Automaton, tnfa: Tnfa, s: Word)
    requires TagFree(l) && TagFree(r) && a == AutomatonOf(UnionTree(l, r)) && FirstCharSound(tnfa, a) && IsBytes(s)
    ensures LeftmostLongest(a, s, 0, RunParallel(a, UNION_DIRS, tnfa.firstChar, s, 3))
  {
    UnionIsRanked(l, r);
    AutomatonIsClosed(UnionTree(l, r));
    RankedIsLeftmostLongest(a, tnfa, UNION_DIRS, UnionRanking(l, r), s);
  }

  lemma LedMatch(tree: Ast, a: Automaton, dirs: Directions, tnfa: Tnfa, s: Word)
    requires Led(tree) && a == AutomatonOf(tree) && DirectionOf(dirs, 0) == Minimize && FirstCharSound(tnfa, a) && IsBytes(s)
    ensures LeftmostLongest(a, s, 0, RunParallel(a, dirs, tnfa.firstChar, s, 1))
  {
    LedIsOneTag(tree);
    FinalHasNoSteps(tree);
    AutomatonIsClosed(tree);
    OneTagIsLeftmostLongest(a, tnfa, dirs, s);
  }

  lemma ExpandUnionTree(l: Ast, r: Ast)
    requires WellFormed(l) && WellFormed(r) && TagFree(l) && TagFree(r)
    ensures WellFormed(UnionTree(l, r)) && Expand(UnionTree(l, r)) == UnionTree(Expand(l), Expand(r))
    ensures TagFree(Expand(l)) && TagFree(Expand(r)) && ExpandDirs(UnionTree(l, r), UNION_DIRS) == UNION_DIRS
  {
    ExpandTagFree(l, UNION_DIRS);
    ExpandTagFree(r, UNION_DIRS);
    UnionTreeExpands(l, r, UNION_DIRS);
  }

  /** The span the matcher reports for the automaton of a tagged pattern. */
  lemma MatchIsLeftmostLongest(t: Ast, g: Tagged, tnfa: Tnfa, s: Word)
    requires WellFormed(t) && TagFree(t) && IsBytes(s) && g == TagWholeMatch(t)
    requires WellFormed(g.tree) && FirstCharSound(tnfa, AutomatonOf(Expand(g.tree)))
    ensures LeftmostLongestSpan(t, s,
      SpanOf(RunParallel(AutomatonOf(Expand(g.tree)), ExpandDirs(g.tree, g.dirs), tnfa.firstChar, s, g.numTags), g.numTags))
  {
    var tree := Expand(g.tree);
    var a, dirs := AutomatonOf(tree), ExpandDirs(g.tree, g.dirs);
    TaggingKeepsLanguage(t);
    SameStretches(t, g.tree, s);
    if t.Union? {
      ExpandUnionTree(t.left, t.right);
      UnionMatch(Expand(t.left), Expand(t.right), a, tnfa, s);
      FromAutomaton(t, a, s, RunParallel(a, dirs, tnfa.firstChar, s, 3), 3);
    } else if Places(t) {
      PlacedIsLed(t);
      PlacedDirs(t, g.dirs);
      LedMatch(tree, a, dirs, tnfa, s);
      FromAutomaton(t, a, s, RunParallel(a, dirs, tnfa.firstChar, s, 1), 1);
    } else {
      AutomatonIsClosed(tree);
      EmptyMatch(t, a, tnfa, dirs, s);
    }
  }

  lemma OccursEmpty(t: Ast, s: Word)
    requires Lang(t) == iset{[]}
    ensures forall i, j :: Occurs(t, s, i, j) <==> 0 <= i == j <= |s|
  {
    hide Lang;
    forall i, j ensures Occurs(t, s, i, j) <==> 0 <= i == j <= |s| {
      if 0 <= i <= j <= |s| {
        assert s[i..j] in Lang(t) <==> s[i..j] == [];
      }
    }
  }

  /** A pattern of empty nodes matches the empty word at offset 0. */
  lemma EmptyMatch(t: Ast, a: Automaton, tnfa: Tnfa, dirs: Directions, s: Word)
    requires TagFree(t) && !Places(t) && Closed(a) && FirstCharSound(tnfa, a) && IsBytes(s)
    requires forall i, j :: Accepted(a, s, i, j) <==> Occurs(t, s, i, j)
    ensures LeftmostLongestSpan(t, s, SpanOf(RunParallel(a, dirs, tnfa.firstChar, s, 0), 0))
  {
    hide Lang, RunParallel, Accepted, Closed, FirstCharSound;
    BlankLanguage(t);
    ParallelFindsMatch(a, tnfa, dirs, s, 0);
    OccursEmpty(t, s);
    assert Occurs(t, s, 0, 0);
    assert Accepted(a, s, 0, 0);
  }

  /** The reported tags are as many as asked for. */
  lemma ParallelTagCount(a: Automaton, tnfa: Tnfa, s: Word, n: nat)
    ensures var r := RunParallel(a, tnfa.tagDirections, tnfa.firstChar, s, n); r.Match? ==> |r.tags| == n
  {
    var lo := LoopStart(tnfa.firstChar, s);
    if lo <= |s| {
      RunFromTagCount(a, tnfa.tagDirections, s, lo, Sim([], NoMatch), n);
    }
  }

  lemma {:induction false} RunFromTagCount(a: Automaton, dirs: Directions, s: Word, pos: nat, sim: Sim, n: nat)
    requires pos <= |s| && SimTagged(sim, n)
    ensures var r := RunFrom(a, dirs, s, pos, sim, n); r.Match? ==> |r.tags| == n
    decreases |s| - pos
  {
    if !(sim.best.Match? && (n == 0 || sim.next == [])) && pos < |s| {
      var sim1 := if sim.best.NoMatch? then AddInitial(a, sim, pos, n) else sim;
      RunFromTagCount(a, dirs, s, pos + 1, Advance(a, dirs, sim1, s[pos], pos + 1, n), n);
    }
  }
}
