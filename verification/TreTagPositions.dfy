/** Where the tags of TreTags end up in the automaton. */
module TreTagPositions {
  import opened TreAst
  import opened TrePositions
  import opened TreAutomaton
  import opened TreParallel
  import opened TreLeftmost
  import opened TreTags
  import opened TreEvaluate

  // ----- where the tags end up -----

  lemma {:induction false} TagFreeEmpty(t: Ast, tags: seq<nat>)
    requires TagFree(t)
    ensures EmptyTags(t, tags) == tags
  {
    match t
    case Catenation(l, r) => TagFreeEmpty(r, tags); TagFreeEmpty(l, tags);
    case Union(l, r) => TagFreeEmpty(l, tags); TagFreeEmpty(r, tags);
    case Iteration(a, _, _) => TagFreeEmpty(a, tags);
    case _ =>
  }

  predicate Untags(s: PosSet) { forall i | 0 <= i < |s| :: s[i].tags == [] }

  lemma {:induction false} TagFreeEnds(t: Ast, base: nat)
    requires TagFree(t)
    ensures Untags(Npfl(t, base).firstpos) && Untags(Npfl(t, base).lastpos)
  {
    hide NumPos;
    match t
    case Catenation(l, r) =>
      TagFreeEnds(l, base);
      TagFreeEnds(r, base + NumPos(l));
      TagFreeEmpty(l, []);
      TagFreeEmpty(r, []);
    case Union(l, r) => TagFreeEnds(l, base); TagFreeEnds(r, base + NumPos(l));
    case Iteration(a, _, _) => TagFreeEnds(a, base);
    case _ =>
  }

  predicate UntaggedEdges(edges: seq<Edge>) { forall e | e in edges :: e.0.tags == [] && e.1.tags == [] }

  lemma {:induction false} CrossHas(p1: PosSet, p2: PosSet, e: Edge)
    ensures e in Cross(p1, p2) <==> e.0 in p1 && e.1 in p2
    decreases |p1|
  {
    if p1 != [] {
      CrossHas(p1[1..], p2, e);
      var head := EdgesFrom(p1[0], p2);
      if e.0 == p1[0] && e.1 in p2 {
        var i :| 0 <= i < |p2| && p2[i] == e.1;
        assert head[i] == e;
      }
      if e in head {
        var i :| 0 <= i < |head| && head[i] == e;
        assert e.1 == p2[i];
      }
    }
  }

  lemma UntaggedCross(p1: PosSet, p2: PosSet)
    requires Untags(p1) && Untags(p2)
    ensures UntaggedEdges(Cross(p1, p2))
  {
    forall e | e in Cross(p1, p2) ensures e.0.tags == [] && e.1.tags == [] { CrossHas(p1, p2, e); }
  }

  lemma {:induction false} TagFreeEdges(t: Ast, base: nat)
    requires TagFree(t)
    ensures UntaggedEdges(Edges(t, base))
  {
    match t
    case Catenation(l, r) =>
      TagFreeEdges(l, base);
      TagFreeEdges(r, base + NumPos(l));
      TagFreeEnds(l, base);
      TagFreeEnds(r, base + NumPos(l));
      UntaggedCross(Npfl(l, base).lastpos, Npfl(r, base + NumPos(l)).firstpos);
    case Union(l, r) => TagFreeEdges(l, base); TagFreeEdges(r, base + NumPos(l));
    case Iteration(a, _, _) =>
      TagFreeEdges(a, base);
      TagFreeEnds(a, base);
      UntaggedCross(Npfl(a, base).lastpos, Npfl(a, base).firstpos);
    case _ =>
  }

  lemma {:induction false} BlankFacts(t: Ast, base: nat, tags: seq<nat>)
    requires Blank(t)
    ensures Nullable(t) && NumPos(t) == 0 && EmptyTags(t, tags) == tags
    ensures Npfl(t, base) == Attr(true, [], []) && Edges(t, base) == []
  {
    match t
    case Catenation(l, r) => BlankFacts(l, base, EmptyTags(r, tags)); BlankFacts(r, base, tags);
    case _ =>
  }

  // ----- tags other than 0 -----

  lemma {:induction false} NoZeroEmpty(t: Ast, tags: seq<nat>)
    requires NoZero(t)
    ensures 0 in EmptyTags(t, tags) <==> 0 in tags
  {
    match t
    case Catenation(l, r) => NoZeroEmpty(r, tags); NoZeroEmpty(l, EmptyTags(r, tags));
    case Union(l, r) => NoZeroEmpty(l, tags); NoZeroEmpty(r, tags);
    case Iteration(a, _, _) => NoZeroEmpty(a, tags);
    case _ =>
  }

  predicate ZeroFree(s: PosSet) { forall i | 0 <= i < |s| :: 0 !in s[i].tags }

  lemma AddZeroFree(s: PosSet, tags: seq<nat>)
    requires ZeroFree(s) && 0 !in tags
    ensures ZeroFree(TrePositions.AddTags(s, tags))
  {
  }

  lemma {:induction false} NoZeroEnds(t: Ast, base: nat)
    requires NoZero(t)
    ensures ZeroFree(Npfl(t, base).firstpos) && ZeroFree(Npfl(t, base).lastpos)
  {
    match t
    case Catenation(l, r) =>
      NoZeroEnds(l, base);
      NoZeroEnds(r, base + NumPos(l));
      NoZeroEmpty(l, []);
      NoZeroEmpty(r, []);
      AddZeroFree(Npfl(r, base + NumPos(l)).firstpos, EmptyTags(l, []));
      AddZeroFree(Npfl(l, base).lastpos, EmptyTags(r, []));
    case Union(l, r) => NoZeroEnds(l, base); NoZeroEnds(r, base + NumPos(l));
    case Iteration(a, _, _) => NoZeroEnds(a, base);
    case _ =>
  }

  predicate ZeroFreeEdges(edges: seq<Edge>) { forall e | e in edges :: 0 !in e.0.tags && 0 !in e.1.tags }

  lemma ZeroFreeCross(p1: PosSet, p2: PosSet)
    requires ZeroFree(p1) && ZeroFree(p2)
    ensures ZeroFreeEdges(Cross(p1, p2))
  {
    forall e | e in Cross(p1, p2) ensures 0 !in e.0.tags && 0 !in e.1.tags { CrossHas(p1, p2, e); }
  }

  lemma {:induction false} NoZeroEdges(t: Ast, base: nat)
    requires NoZero(t)
    ensures ZeroFreeEdges(Edges(t, base))
  {
    hide Npfl, NumPos;
    match t
    case Catenation(l, r) =>
      NoZeroEdges(l, base);
      NoZeroEdges(r, base + NumPos(l));
      NoZeroEnds(l, base);
      NoZeroEnds(r, base + NumPos(l));
      ZeroFreeCross(Npfl(l, base).lastpos, Npfl(r, base + NumPos(l)).firstpos);
    case Union(l, r) => NoZeroEdges(l, base); NoZeroEdges(r, base + NumPos(l));
    case Iteration(a, _, _) =>
      NoZeroEdges(a, base);
      NoZeroEnds(a, base);
      ZeroFreeCross(Npfl(a, base).lastpos, Npfl(a, base).firstpos);
    case _ =>
  }

  predicate OnlyZero(s: PosSet) { forall i | 0 <= i < |s| :: 0 in s[i].tags }

  ghost predicate LedFacts(t: Ast, base: nat) {
    && OnlyZero(Npfl(t, base).firstpos) && ZeroFree(Npfl(t, base).lastpos) && ZeroFreeEdges(Edges(t, base))
    && forall tags :: 0 in EmptyTags(t, tags)
  }

  lemma TagZeroEmpty(tags: seq<nat>)
    ensures 0 in EmptyTags(Tag(0), tags)
  {
  }

  /** A tag in front. */
  lemma TagInFront(id: nat, u: Ast, base: nat)
    ensures var t := Catenation(Tag(id), u);
      && Npfl(t, base).lastpos == Npfl(u, base).lastpos
      && Npfl(t, base).firstpos == TrePositions.AddTags(Npfl(u, base).firstpos, [id])
      && Edges(t, base) == Edges(u, base)
      && id in EmptyTags(t, [])
  {
    hide Npfl, Edges, NumPos, EmptyTags, Cross;
    AtLeaf(0, id, base);
    AtCatenation(Tag(id), u, base, 0);
    CatEmpty(Tag(id), u, []);
    CrossNone(Npfl(u, base).firstpos);
    LeadTag(id, EmptyTags(u, []));
    var first := TrePositions.AddTags(Npfl(u, base).firstpos, [id]);
    assert first + [] == first;
    assert TrePositions.AddTags([], EmptyTags(u, [])) + Npfl(u, base).lastpos == Npfl(u, base).lastpos;
  }

  lemma LeadTag(id: nat, tags: seq<nat>)
    ensures id in EmptyTags(Tag(id), tags)
  {
  }

  lemma StartTagFacts(r: Ast, base: nat)
    requires NoZero(r)
    ensures LedFacts(Catenation(Tag(0), r), base)
  {
    NoZeroEnds(r, base);
    NoZeroEdges(r, base);
    TagInFront(0, r, base);
    forall tags ensures 0 in EmptyTags(Catenation(Tag(0), r), tags) {
      TagZeroEmpty(EmptyTags(r, tags));
    }
  }

  lemma LedLeftFacts(l: Ast, r: Ast, base: nat)
    requires LedFacts(l, base) && NoZero(r)
    ensures LedFacts(Catenation(l, r), base)
  {
    hide Npfl, Edges, EmptyTags, NumPos, NoZero, Cross;
    var num := NumPos(l);
    AtCatenation(l, r, base, num);
    NoZeroEnds(r, base + num);
    NoZeroEdges(r, base + num);
    NoZeroEmpty(r, []);
    assert 0 in EmptyTags(l, []);
    forall tags ensures 0 in EmptyTags(Catenation(l, r), tags) {
      CatEmpty(l, r, tags);
    }
    ZeroFreeCross(Npfl(l, base).lastpos, Npfl(r, base + num).firstpos);
    AddZeroFree(Npfl(l, base).lastpos, EmptyTags(r, []));
    assert OnlyZero(TrePositions.AddTags(Npfl(r, base + num).firstpos, EmptyTags(l, [])));
  }

  lemma BlankLeftEnds(l: Ast, r: Ast, base: nat)
    requires Blank(l)
    ensures Npfl(Catenation(l, r), base).firstpos == Npfl(r, base).firstpos
    ensures Npfl(Catenation(l, r), base).lastpos == Npfl(r, base).lastpos
    ensures Edges(Catenation(l, r), base) == Edges(r, base)
  {
    BlankFacts(l, base, []);
    var right := Npfl(r, base);
    AddNoTags(right.firstpos);
    assert base + NumPos(l) == base;
    assert Npfl(Catenation(l, r), base) == CatAttr(Attr(true, [], []), right, [], EmptyTags(r, []));
    assert TrePositions.AddTags([], EmptyTags(r, [])) == [];
    assert right.firstpos + [] == right.firstpos && [] + right.lastpos == right.lastpos;
    assert Cross([], right.firstpos) == [];
  }

  lemma BlankLeftFacts(l: Ast, r: Ast, base: nat)
    requires Blank(l) && LedFacts(r, base)
    ensures LedFacts(Catenation(l, r), base)
  {
    var t := Catenation(l, r);
    BlankLeftEnds(l, r, base);
    forall tags ensures 0 in EmptyTags(t, tags) {
      BlankFacts(l, base, EmptyTags(r, tags));
      assert EmptyTags(t, tags) == EmptyTags(r, tags);
    }
  }

  /** Tag 0 is set on entering the tree, whether or not by a byte, and nowhere else. */
  lemma {:induction false} LedEnds(t: Ast, base: nat)
    requires Led(t)
    ensures LedFacts(t, base)
  {
    if Blank(t.left) && Led(t.right) {
      LedEnds(t.right, base);
      BlankLeftFacts(t.left, t.right, base);
    } else if t.left == Tag(0) {
      StartTagFacts(t.right, base);
    } else {
      LedEnds(t.left, base);
      LedLeftFacts(t.left, t.right, base);
    }
  }

  // ----- the automaton of a tagged tree -----

  lemma StepHasEdge(t: Ast, q: nat, s: Step) returns (e: Edge)
    requires q < |AutomatonOf(t).out| && s in AutomatonOf(t).out[q]
    ensures e in Edges(WithFinal(t), 0) && e.0.position == q && EdgeStep(e) == s
  {
    var edges := Edges(WithFinal(t), 0);
    AddStepsHas(NoSteps(NumPos(WithFinal(t))), edges, q, s);
    var i :| 0 <= i < |edges| && edges[i].0.position == q && EdgeStep(edges[i]) == s;
    e := edges[i];
  }

  lemma StartHasEntry(t: Ast, s: Start) returns (i: nat)
    requires s in AutomatonOf(t).initial
    ensures var first := Npfl(WithFinal(t), 0).firstpos;
      i < |first| && s == Start(first[i].position, first[i].tags)
  {
    var first := Npfl(WithFinal(t), 0).firstpos;
    var j :| 0 <= j < |Starts(first)| && Starts(first)[j] == s;
    i := j;
  }

  /** The edges of the whole: those of the tree, and one from each last position to the final state. */
  lemma WholeEdge(t: Ast, e: Edge)
    requires e in Edges(WithFinal(t), 0)
    ensures e in Edges(t, 0) || (e.0 in Npfl(t, 0).lastpos && e.1 == PosTags(NumPos(t), 0, 0, []))
  {
    CrossHas(Npfl(t, 0).lastpos, Npfl(Literal(0, 0), NumPos(t)).firstpos, e);
  }

  /** The entries of firstpos of the whole: those of the tree, and the final state when the tree is nullable. */
  lemma WholeFirst(t: Ast)
    ensures Npfl(WithFinal(t), 0).firstpos
         == (if Nullable(t) then [PosTags(NumPos(t), 0, 0, EmptyTags(t, []))] else []) + Npfl(t, 0).firstpos
  {
    var dummy := Npfl(Literal(0, 0), NumPos(t)).firstpos;
    assert dummy == [PosTags(NumPos(t), 0, 0, [])];
    assert [] + EmptyTags(t, []) == EmptyTags(t, []);
    assert TrePositions.AddTags(dummy, EmptyTags(t, [])) == [PosTags(NumPos(t), 0, 0, EmptyTags(t, []))];
  }

  lemma FinalHasNoSteps(t: Ast)
    ensures AutomatonOf(t).final < |AutomatonOf(t).out| && AutomatonOf(t).out[AutomatonOf(t).final] == []
  {
    assert |AutomatonOf(t).out| == NumPos(WithFinal(t)) == NumPos(t) + NumPos(Literal(0, 0));
    var steps := AutomatonOf(t).out[NumPos(t)];
    if steps != [] {
      var e := StepHasEdge(t, NumPos(t), steps[0]);
      WholeEdge(t, e);
      EdgesAreFollows(t, 0);
      EndSetDescribes(false, t, 0);
      PositionsInRange(t, 0, NumPos(t), e.1.position, 0);
    }
  }

  lemma {:induction false} MergedTag(t1: seq<nat>, t2: seq<nat>, id: nat)
    ensures id in MergeTags(t1, t2) <==> id in t1 || id in t2
    decreases |t2|
  {
    if t2 != [] {
      MergedTag(t1, t2[..|t2| - 1], id);
      assert t2 == t2[..|t2| - 1] + [t2[|t2| - 1]];
    }
  }

  lemma LedIsOneTag(t: Ast)
    requires Led(t)
    ensures TagZeroAtStart(AutomatonOf(t))
  {
    hide Npfl, Edges, EmptyTags, NumPos, AutomatonOf, Led;
    var a := AutomatonOf(t);
    LedEnds(t, 0);
    forall q, s | 0 <= q < |a.out| && s in a.out[q] ensures 0 !in s.tags {
      var e := StepHasEdge(t, q, s);
      WholeEdge(t, e);
      MergedTag(e.0.tags, e.1.tags, 0);
    }
    WholeFirst(t);
    forall st | st in a.initial ensures 0 in st.tags {
      var i := StartHasEntry(t, st);
    }
  }

  // ----- a union at the root -----

  /** States of the left operand have rank 0, those of the right operand rank 1. */
  function UnionRanking(l: Ast, r: Ast): (k: Ranking)
    ensures forall q: nat | q < NumPos(l) :: RankOf(k, q) == 0
    ensures forall q: nat | NumPos(l) <= q < NumPos(l) + NumPos(r) :: RankOf(k, q) == 1
  {
    Ranking(3, seq(NumPos(l), _ => 0) + seq(NumPos(r), _ => 1), [{1}, {2}])
  }

  lemma UnionNeverOvertakes(l: Ast, r: Ast, r1: nat, r2: nat)
    requires r1 <= r2
    ensures NeverOvertakes(UNION_DIRS, UnionRanking(l, r), r1, r2)
  {
    var k := UnionRanking(l, r);
    forall from: int, pos: int | from <= pos && 0 <= pos
      ensures !Wins(UNION_DIRS, Stamped(Base(3, from), EndsOf(k, r2), pos), Stamped(Base(3, from), EndsOf(k, r1), pos), 0)
    {
      var x, y := Stamped(Base(3, from), EndsOf(k, r2), pos), Stamped(Base(3, from), EndsOf(k, r1), pos);
      assert x[0] == y[0];
      assert Wins(UNION_DIRS, x, y, 0) == Wins(UNION_DIRS, x, y, 1);
      assert !Wins(UNION_DIRS, x, y, 3);
      assert DirectionOf(UNION_DIRS, 1) == DirectionOf(UNION_DIRS, 2) == Maximize;
      assert Wins(UNION_DIRS, x, y, 2) == (x[2] > y[2]);
      assert Wins(UNION_DIRS, x, y, 1) == (if x[1] == y[1] then x[2] > y[2] else x[1] > y[1]);
    }
  }

  lemma CrossNothing(p: PosSet)
    ensures Cross(p, []) == []
  {
    var x := Cross(p, []);
    if x != [] {
      CrossHas(p, [], x[0]);
    }
  }

  /** First and last positions of one operand with the tag after it. */
  lemma OperandEnds(x: Ast, id: nat, base: nat)
    requires TagFree(x)
    ensures var t := Catenation(x, Tag(id));
      && Npfl(t, base).firstpos == Npfl(x, base).firstpos
      && Npfl(t, base).lastpos == TrePositions.AddTags(Npfl(x, base).lastpos, [id])
      && Edges(t, base) == Edges(x, base)
  {
    var t, mid := Catenation(x, Tag(id)), base + NumPos(x);
    TagFreeEmpty(x, []);
    assert Npfl(Tag(id), mid) == Attr(true, [], []);
    assert EmptyTags(Tag(id), []) == [id];
    var last := Npfl(x, base).lastpos;
    assert TrePositions.AddTags([], []) + Npfl(x, base).firstpos == Npfl(x, base).firstpos;
    assert TrePositions.AddTags(last, [id]) + [] == TrePositions.AddTags(last, [id]);
    CrossNothing(last);
  }

  lemma OperandLast(x: Ast, id: nat, base: nat, e: PosTags)
    requires TagFree(x) && e in Npfl(Catenation(x, Tag(id)), base).lastpos
    ensures e.tags == [id] && InRange(x, base, e.position)
  {
    var last := Npfl(x, base).lastpos;
    OperandEnds(x, id, base);
    TagFreeEnds(x, base);
    var i :| 0 <= i < |last| && TrePositions.AddTags(last, [id])[i] == e;
    assert last[i].tags + [id] == [id];
    EndSetDescribes(false, x, base);
    PositionsInRange(x, base, last[i].position, 0, 0);
  }

  lemma OperandFirst(x: Ast, base: nat, e: PosTags)
    requires TagFree(x) && e in Npfl(x, base).firstpos
    ensures e.tags == [] && InRange(x, base, e.position)
  {
    TagFreeEnds(x, base);
    EndSetDescribes(true, x, base);
    PositionsInRange(x, base, e.position, 0, 0);
  }

  lemma InnerEdge(x: Ast, base: nat, e: Edge)
    requires TagFree(x) && e in Edges(x, base)
    ensures e.0.tags == [] == e.1.tags && InRange(x, base, e.0.position) && InRange(x, base, e.1.position)
  {
    TagFreeEdges(x, base);
    EdgesAreFollows(x, base);
    PositionsInRange(x, base, e.0.position, e.1.position, 0);
  }

  lemma UnionNumPos(l: Ast, r: Ast)
    ensures NumPos(UnionTree(l, r)) == NumPos(l) + NumPos(r)
  {
    var cl, cr := Catenation(l, Tag(1)), Catenation(r, Tag(2));
    var u := Union(cl, cr);
    assert NumPos(cl) == NumPos(l) && NumPos(cr) == NumPos(r);
    assert NumPos(u) == NumPos(l) + NumPos(r) == NumPos(Catenation(Tag(0), u));
  }

  lemma UnionEnds(l: Ast, r: Ast)
    requires TagFree(l) && TagFree(r)
    ensures Npfl(UnionTree(l, r), 0).lastpos
         == Npfl(Catenation(l, Tag(1)), 0).lastpos + Npfl(Catenation(r, Tag(2)), NumPos(l)).lastpos
    ensures Npfl(UnionTree(l, r), 0).firstpos == TrePositions.AddTags(Npfl(l, 0).firstpos + Npfl(r, NumPos(l)).firstpos, [0])
    ensures Edges(UnionTree(l, r), 0) == Edges(l, 0) + Edges(r, NumPos(l))
    ensures 0 in EmptyTags(UnionTree(l, r), [])
  {
    var cl, cr := Catenation(l, Tag(1)), Catenation(r, Tag(2));
    var u := Union(cl, cr);
    OperandEnds(l, 1, 0);
    OperandEnds(r, 2, NumPos(l));
    assert NumPos(cl) == NumPos(l);
    assert Npfl(u, 0) == UnionAttr(Npfl(cl, 0), Npfl(cr, NumPos(l)));
    assert Edges(u, 0) == Edges(cl, 0) + Edges(cr, NumPos(l));
    TagInFront(0, u, 0);
  }

  /** Where an edge of the whole runs: inside one operand, or from one operand to the final state. */
  lemma UnionEdge(l: Ast, r: Ast, e: Edge)
    requires TagFree(l) && TagFree(r) && e in Edges(WithFinal(UnionTree(l, r)), 0)
    ensures var nl, n := NumPos(l), NumPos(l) + NumPos(r);
      || (EdgeStep(e).tags == [] && ((e.0.position < nl && e.1.position < nl) || (nl <= e.0.position < n && nl <= e.1.position < n)))
      || (e.1.position == n && e.0.position < nl && EdgeStep(e).tags == [1])
      || (e.1.position == n && nl <= e.0.position < n && EdgeStep(e).tags == [2])
  {
    var t := UnionTree(l, r);
    UnionNumPos(l, r);
    UnionEnds(l, r);
    WholeEdge(t, e);
    if e in Edges(l, 0) {
      InnerEdge(l, 0, e);
    } else if e in Edges(r, NumPos(l)) {
      InnerEdge(r, NumPos(l), e);
    } else if e.0 in Npfl(Catenation(l, Tag(1)), 0).lastpos {
      OperandLast(l, 1, 0, e.0);
    } else {
      OperandLast(r, 2, NumPos(l), e.0);
    }
  }

  lemma UnionStepRanked(l: Ast, r: Ast, a: Automaton, q: nat, s: Step)
    requires TagFree(l) && TagFree(r) && a == AutomatonOf(UnionTree(l, r)) && q < |a.out| && s in a.out[q]
    ensures StepRanked(a, UnionRanking(l, r), q, s)
  {
    var e := StepHasEdge(UnionTree(l, r), q, s);
    UnionNumPos(l, r);
    UnionEdge(l, r, e);
    assert a.final == NumPos(l) + NumPos(r);
  }

  /** The initial entries: those of the left operand, then those of the right one. */
  lemma UnionFirst(l: Ast, r: Ast, i: nat)
    requires TagFree(l) && TagFree(r) && i < |Npfl(UnionTree(l, r), 0).firstpos|
    ensures var e := Npfl(UnionTree(l, r), 0).firstpos[i];
      && e.tags == [0]
      && (if i < |Npfl(l, 0).firstpos| then e.position < NumPos(l) else InRange(r, NumPos(l), e.position))
  {
    var fl, fr := Npfl(l, 0).firstpos, Npfl(r, NumPos(l)).firstpos;
    UnionEnds(l, r);
    if i < |fl| {
      OperandFirst(l, 0, fl[i]);
    } else {
      OperandFirst(r, NumPos(l), fr[i - |fl|]);
    }
  }

  ghost predicate UnionStart(l: Ast, r: Ast, dummies: nat, i: nat, e: PosTags) {
    && (i < dummies ==> e.position == NumPos(l) + NumPos(r) && 0 in e.tags)
    && (i >= dummies ==> e.tags == [0])
    && (0 <= i - dummies < |Npfl(l, 0).firstpos| ==> e.position < NumPos(l))
    && (i - dummies >= |Npfl(l, 0).firstpos| ==> InRange(r, NumPos(l), e.position))
  }

  lemma UnionDummy(l: Ast, r: Ast) returns (dummy: PosSet)
    requires TagFree(l) && TagFree(r)
    ensures Npfl(WithFinal(UnionTree(l, r)), 0).firstpos == dummy + Npfl(UnionTree(l, r), 0).firstpos
    ensures forall i | 0 <= i < |dummy| :: dummy[i].position == NumPos(l) + NumPos(r) && 0 in dummy[i].tags
  {
    var t := UnionTree(l, r);
    UnionNumPos(l, r);
    UnionEnds(l, r);
    WholeFirst(t);
    dummy := if Nullable(t) then [PosTags(NumPos(t), 0, 0, EmptyTags(t, []))] else [];
  }

  /** The entries of firstpos of the whole, in order. */
  lemma UnionStarts(l: Ast, r: Ast, first: PosSet, dummy: PosSet, i: nat)
    requires TagFree(l) && TagFree(r) && first == dummy + Npfl(UnionTree(l, r), 0).firstpos && i < |first|
    requires forall i | 0 <= i < |dummy| :: dummy[i].position == NumPos(l) + NumPos(r) && 0 in dummy[i].tags
    ensures UnionStart(l, r, |dummy|, i, first[i])
  {
    if i >= |dummy| {
      UnionFirst(l, r, i - |dummy|);
    }
  }

  lemma EntryRanked(l: Ast, r: Ast, a: Automaton, dummies: nat, i: nat, e: PosTags)
    requires UnionStart(l, r, dummies, i, e) && a.final == NumPos(l) + NumPos(r)
    ensures StartRanked(a, UnionRanking(l, r), Start(e.position, e.tags))
  {
  }

  lemma EntriesInOrder(l: Ast, r: Ast, dummies: nat, i: nat, e: PosTags, j: nat, f: PosTags)
    requires UnionStart(l, r, dummies, i, e) && UnionStart(l, r, dummies, j, f) && i < j
    requires e.position != NumPos(l) + NumPos(r) && f.position != NumPos(l) + NumPos(r)
    ensures RankOf(UnionRanking(l, r), e.position) <= RankOf(UnionRanking(l, r), f.position)
  {
  }

  lemma UnionFirstList(l: Ast, r: Ast, first: PosSet) returns (dummies: nat)
    requires TagFree(l) && TagFree(r) && first == Npfl(WithFinal(UnionTree(l, r)), 0).firstpos
    ensures forall i | 0 <= i < |first| :: UnionStart(l, r, dummies, i, first[i])
  {
    var dummy := UnionDummy(l, r);
    dummies := |dummy|;
    forall i | 0 <= i < |first| ensures UnionStart(l, r, |dummy|, i, first[i]) {
      UnionStarts(l, r, first, dummy, i);
    }
  }

  lemma UnionInitial(l: Ast, r: Ast, a: Automaton, first: PosSet, dummies: nat)
    requires a.initial == Starts(first) && a.final == NumPos(l) + NumPos(r)
    requires forall i | 0 <= i < |first| :: UnionStart(l, r, dummies, i, first[i])
    ensures var k := UnionRanking(l, r);
      && (forall s | s in a.initial :: StartRanked(a, k, s))
      && (forall i, j | 0 <= i < j < |a.initial| && a.initial[i].target != a.final && a.initial[j].target != a.final ::
            RankOf(k, a.initial[i].target) <= RankOf(k, a.initial[j].target))
  {
    var k := UnionRanking(l, r);
    forall s | s in a.initial ensures StartRanked(a, k, s) {
      var i :| 0 <= i < |a.initial| && a.initial[i] == s;
      EntryRanked(l, r, a, dummies, i, first[i]);
    }
    forall i, j | 0 <= i < j < |a.initial| && a.initial[i].target != a.final && a.initial[j].target != a.final
      ensures RankOf(k, a.initial[i].target) <= RankOf(k, a.initial[j].target)
    {
      EntriesInOrder(l, r, dummies, i, first[i], j, first[j]);
    }
  }

  lemma UnionIsRanked(l: Ast, r: Ast)
    requires TagFree(l) && TagFree(r)
    ensures Ranked(AutomatonOf(UnionTree(l, r)), UNION_DIRS, UnionRanking(l, r))
  {
    var a, k := AutomatonOf(UnionTree(l, r)), UnionRanking(l, r);
    forall r1: nat, r2: nat | r1 <= r2 ensures NeverOvertakes(UNION_DIRS, k, r1, r2) {
      UnionNeverOvertakes(l, r, r1, r2);
    }
    forall q, s | 0 <= q < |a.out| && s in a.out[q] ensures StepRanked(a, k, q, s) {
      UnionStepRanked(l, r, a, q, s);
    }
    var first := Npfl(WithFinal(UnionTree(l, r)), 0).firstpos;
    var dummies := UnionFirstList(l, r, first);
    UnionNumPos(l, r);
    UnionInitial(l, r, a, first, dummies);
  }
}
