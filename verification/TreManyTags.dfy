/** With more than one tag the match of the parallel matcher need not start leftmost. The pattern
    `ax|x(z*)(z*)`, tagged as tre_add_tags tags it, loses the match "ax" at the start of "axz" to "xz". */
module TreManyTags {
  import opened TreAst
  import opened TreExpand
  import opened TrePositions
  import opened TreAutomaton
  import opened TreTnfa
  import opened TreParallel
  import opened TreLeftmost
  import opened TreTags
  import opened TreEvaluate
  import opened TreMarked
  import opened TreSubmatches
  import opened TreMatch
  import TreGroups
  import T = Text
  import TreParse
  import TreParsePrinted

  const A: nat := 'a' as nat
  const X: nat := 'x' as nat
  const Z: nat := 'z' as nat

  // ----- the pattern and its tags -----

  function Byte1(c: nat): Marked { Marked(Lit(c, c), -1) }

  function Group(id: nat): Marked { Marked(Iter(Byte1(Z), 0, -1), id) }

  function LeftBranch(): Marked { Marked(Cat(Byte1(A), Byte1(X)), -1) }

  function Front3(): Marked { Marked(Cat(Byte1(X), Group(1)), -1) }

  function RightBranch(): Marked { Marked(Cat(Front3(), Group(2)), -1) }

  /** `ax|x(z*)(z*)`, the whole being submatch 0. */
  function Pattern(): Marked { Marked(Alt(LeftBranch(), RightBranch()), 0) }

  function Star(): Ast { Iteration(Literal(Z, Z), 0, -1) }

  function TaggedGroup(tag: nat): Ast { Catenation(Tag(tag), Star()) }

  function TaggedLeft(): Ast { Catenation(Catenation(Literal(A, A), Literal(X, X)), Tag(1)) }

  function TaggedFront(): Ast { Catenation(Literal(X, X), TaggedGroup(3)) }

  function TaggedBoth(): Ast { Catenation(TaggedFront(), TaggedGroup(4)) }

  function TaggedRight(): Ast { Catenation(TaggedBoth(), Tag(2)) }

  function BothSides(): Ast { Union(TaggedLeft(), TaggedRight()) }

  function TaggedTree(): Ast { Catenation(Tag(0), BothSides()) }

  const DIRS: Directions := map[0 := Minimize, 1 := Maximize, 2 := Maximize, 3 := Minimize, 4 := Maximize]

  lemma GroupTags(id: nat, p: Pass)
    ensures Count(Group(id), p.pending) == Counted(1, true)
    ensures Place(Group(id), p) == Placed(TaggedGroup(p.tag),
      Pass(true, p.nextTag, p.nextTag + 1, Maximize, p.dirs[p.tag := p.direction]))
  {
  }

  lemma ByteTags(c: nat, p: Pass)
    requires !p.pending
    ensures Count(Byte1(c), false) == Counted(0, false) && Place(Byte1(c), p) == Placed(Literal(c, c), p)
  {
  }

  lemma LeftTags(p: Pass)
    requires !p.pending
    ensures Count(LeftBranch(), false) == Counted(0, false)
    ensures Place(LeftBranch(), p) == Placed(Catenation(Literal(A, A), Literal(X, X)), p)
  {
    hide Place, Count;
    ByteTags(A, p);
    ByteTags(X, p);
    UnmarkedCat(Byte1(A), Byte1(X), p);
  }

  lemma FrontTags(p: Pass)
    requires !p.pending
    ensures Count(Front3(), false) == Counted(1, true)
    ensures Place(Front3(), p) == Placed(Catenation(Literal(X, X), TaggedGroup(p.tag)),
      Pass(true, p.nextTag, p.nextTag + 1, Maximize, p.dirs[p.tag := p.direction]))
  {
    hide Place, Count;
    ByteTags(X, p);
    GroupTags(1, p);
    UnmarkedCat(Byte1(X), Group(1), p);
    assert AfterLeft(p, p, 0, false) == p;
  }

  lemma RightTags(dirs: Directions)
    ensures Count(RightBranch(), false) == Counted(2, true)
    ensures Place(RightBranch(), Pass(false, 3, 4, Minimize, dirs)).tree == TaggedBoth()
    ensures Place(RightBranch(), Pass(false, 3, 4, Minimize, dirs)).pass.dirs == dirs[3 := Minimize][4 := Maximize]
  {
    hide Place, Count, PlaceAlt, Submatches;
    var p := Pass(false, 3, 4, Minimize, dirs);
    FrontTags(p.(nextTag := 5));
    GroupTags(2, Pass(true, 4, 5, Maximize, dirs[3 := Minimize]));
    CountOfCat(Front3(), Group(2), false);
    PlaceOfCat(RightBranch(), Front3(), Group(2), p);
  }

  /** What tre_add_tags makes of the pattern. */
  lemma PatternTags()
    ensures PlaceTags(Pattern()) == Tagged(TaggedTree(), 5, DIRS)
  {
    hide Place, Count, Submatches, LeftBranch, RightBranch, PlaceAlt;
    var p := Pass(true, 0, 1, Minimize, map[]);
    var dirs := map[0 := Minimize];
    var reserved := Pass(false, 3, 4, Minimize, dirs);
    LeftTags(reserved);
    RightTags(dirs);
    PlaceAltRoot(Pattern(), LeftBranch(), RightBranch(), p, reserved);
    assert reserved.(pending := false) == reserved && p.(pending := false) == Pass(false, 0, 1, Minimize, map[]);
    assert dirs[3 := Minimize][4 := Maximize][1 := Maximize][2 := Maximize] == DIRS;
    CountPattern();
  }

  lemma CountPattern()
    ensures Count(Pattern(), false).num == 5
  {
    hide Place, Count, Submatches, LeftBranch, RightBranch;
    LeftTags(Pass(false, 0, 0, Minimize, map[]));
    RightTags(map[]);
    CountOfRootAlt(LeftBranch(), RightBranch());
  }

  // ----- its automaton -----

  function TwoGroups(): Automaton {
    Automaton([Start(0, [0]), Start(2, [0])],
              [[Step(A, A, 1, [])],
               [Step(X, X, 5, [1])],
               [Step(X, X, 5, [3, 4, 2]), Step(X, X, 4, [3, 4]), Step(X, X, 3, [3])],
               [Step(Z, Z, 5, [4, 2]), Step(Z, Z, 4, [4]), Step(Z, Z, 3, [])],
               [Step(Z, Z, 5, [2]), Step(Z, Z, 4, [])],
               []], 5)
  }

  // The attributes of the parts, from the leaves up: positions 0 and 1 are those of "ax", 2 to 4 those of
  // "x(z*)(z*)", and 5 is the final state.

  lemma AtStar(base: nat)
    ensures var one := P(base, Z, []);
      && NumPos(Star()) == 1 && Npfl(Star(), base) == Attr(true, [one], [one]) && Edges(Star(), base) == [(one, one)]
      && EmptyTags(Star(), []) == []
  {
    CrossOne(P(base, Z, []), P(base, Z, []));
  }

  lemma GroupPositions(tag: nat, base: nat)
    ensures Npfl(TaggedGroup(tag), base) == Attr(true, [P(base, Z, [tag])], [P(base, Z, [])])
    ensures EmptyTags(TaggedGroup(tag), []) == [tag] && NumPos(TaggedGroup(tag)) == 1
    ensures Edges(TaggedGroup(tag), base) == [(P(base, Z, []), P(base, Z, []))]
  {
    hide Npfl, Edges, NumPos, EmptyTags, Cross, Star;
    AtLeaf(Z, tag, base);
    AtStar(base);
    AtCatenation(Tag(tag), Star(), base, 0);
    CatEmpty(Tag(tag), Star(), []);
    TagOne(P(base, Z, []), [tag]);
    CrossNone([P(base, Z, [])]);
    assert TrePositions.AddTags([], []) == [];
  }

  lemma LeftPositions()
    ensures Npfl(TaggedLeft(), 0) == Attr(false, [P(0, A, [])], [P(1, X, [1])])
    ensures NumPos(TaggedLeft()) == 2 && Edges(TaggedLeft(), 0) == [(P(0, A, []), P(1, X, []))]
  {
    hide Npfl, Edges, NumPos, EmptyTags, Cross;
    AtLeaf(A, 1, 0);
    AtLeaf(X, 1, 1);
    AtLeaf(X, 1, 2);
    AtCatenation(Literal(A, A), Literal(X, X), 0, 1);
    CrossOne(P(0, A, []), P(1, X, []));
    AtCatenation(Catenation(Literal(A, A), Literal(X, X)), Tag(1), 0, 2);
    TagOne(P(1, X, []), [1]);
    NoneAfter([P(1, X, [])]);
  }

  lemma FrontPositions()
    ensures Npfl(TaggedFront(), 2) == Attr(false, [P(2, X, [])], [P(2, X, [3]), P(3, Z, [])])
    ensures NumPos(TaggedFront()) == 2
    ensures Edges(TaggedFront(), 2) == [(P(2, X, []), P(3, Z, [3])), (P(3, Z, []), P(3, Z, []))]
  {
    hide Npfl, Edges, NumPos, EmptyTags, Cross, TaggedGroup;
    AtLeaf(X, 3, 2);
    GroupPositions(3, 3);
    AtCatenation(Literal(X, X), TaggedGroup(3), 2, 1);
    CrossOne(P(2, X, []), P(3, Z, [3]));
    TagOne(P(2, X, []), [3]);
  }

  lemma BothPositions()
    ensures Npfl(TaggedBoth(), 2) == Attr(false, [P(2, X, [])], [P(2, X, [3, 4]), P(3, Z, [4]), P(4, Z, [])])
    ensures NumPos(TaggedBoth()) == 3
    ensures Edges(TaggedBoth(), 2) ==
      [(P(2, X, [3]), P(4, Z, [4])), (P(3, Z, []), P(4, Z, [4])),
       (P(2, X, []), P(3, Z, [3])), (P(3, Z, []), P(3, Z, [])), (P(4, Z, []), P(4, Z, []))]
  {
    hide Npfl, Edges, NumPos, EmptyTags, Cross, TaggedGroup, TaggedFront;
    FrontPositions();
    GroupPositions(4, 4);
    AtCatenation(TaggedFront(), TaggedGroup(4), 2, 2);
    TagOne(P(3, Z, []), [4]);
    TagMore(P(2, X, [3]), [P(3, Z, [])], [4]);
    CrossOne(P(3, Z, []), P(4, Z, [4]));
    CrossMore(P(2, X, [3]), [P(3, Z, [])], P(4, Z, [4]));
    assert [P(2, X, [3])] + [P(3, Z, [])] == [P(2, X, [3]), P(3, Z, [])];
    assert [3] + [4] == [3, 4];
  }

  lemma RightPositions()
    ensures Npfl(TaggedRight(), 2) == Attr(false, [P(2, X, [])], [P(2, X, [3, 4, 2]), P(3, Z, [4, 2]), P(4, Z, [2])])
    ensures NumPos(TaggedRight()) == 3 && Edges(TaggedRight(), 2) == Edges(TaggedBoth(), 2)
  {
    hide Npfl, Edges, NumPos, EmptyTags, Cross, TaggedBoth;
    BothPositions();
    AtLeaf(Z, 2, 5);
    var last, rest := [P(2, X, [3, 4]), P(3, Z, [4]), P(4, Z, [])], [P(3, Z, [4]), P(4, Z, [])];
    AtCatenation(TaggedBoth(), Tag(2), 2, 3);
    TagOne(P(4, Z, []), [2]);
    TagMore(P(3, Z, [4]), [P(4, Z, [])], [2]);
    TagMore(P(2, X, [3, 4]), rest, [2]);
    assert [P(2, X, [3, 4])] + rest == last && [P(3, Z, [4])] + [P(4, Z, [])] == rest;
    assert [3, 4] + [2] == [3, 4, 2] && [4] + [2] == [4, 2] && [] + [2] == [2];
    NoneAfter(last);
  }

  function ToFinal(): seq<Edge> {
    [(P(1, X, [1]), P(5, 0, [])), (P(2, X, [3, 4, 2]), P(5, 0, [])), (P(3, Z, [4, 2]), P(5, 0, [])), (P(4, Z, [2]), P(5, 0, []))]
  }

  function Inside(): seq<Edge> {
    [(P(0, A, []), P(1, X, [])),
     (P(2, X, [3]), P(4, Z, [4])), (P(3, Z, []), P(4, Z, [4])),
     (P(2, X, []), P(3, Z, [3])), (P(3, Z, []), P(3, Z, [])), (P(4, Z, []), P(4, Z, []))]
  }

  const LAST: PosSet := [P(1, X, [1]), P(2, X, [3, 4, 2]), P(3, Z, [4, 2]), P(4, Z, [2])]

  lemma UnionPositions()
    ensures Npfl(BothSides(), 0) == Attr(false, [P(0, A, []), P(2, X, [])], LAST)
    ensures NumPos(BothSides()) == 5 && Edges(BothSides(), 0) == Inside()
  {
    hide Npfl, Edges, NumPos, Cross, TaggedLeft, TaggedRight, TaggedBoth;
    LeftPositions();
    RightPositions();
    BothPositions();
    AtUnion(TaggedLeft(), TaggedRight(), 0, 2);
    assert [P(0, A, [])] + [P(2, X, [])] == [P(0, A, []), P(2, X, [])];
  }

  lemma TreePositions()
    ensures Npfl(WithFinal(TaggedTree()), 0).firstpos == [P(0, A, [0]), P(2, X, [0])]
    ensures NumPos(TaggedTree()) == 5 && NumPos(WithFinal(TaggedTree())) == 6
    ensures Edges(WithFinal(TaggedTree()), 0) == ToFinal() + Inside()
  {
    hide Npfl, Edges, NumPos, EmptyTags, Cross, BothSides, ToFinal, Inside;
    UnionPositions();
    AtLeaf(0, 0, 0);
    AtLeaf(0, 0, 5);
    AtCatenation(Tag(0), BothSides(), 0, 0);
    TagOne(P(2, X, []), [0]);
    TagMore(P(0, A, []), [P(2, X, [])], [0]);
    assert [P(0, A, [])] + [P(2, X, [])] == [P(0, A, []), P(2, X, [])];
    CrossNone([P(0, A, []), P(2, X, [])]);
    AtCatenation(TaggedTree(), Literal(0, 0), 0, 5);
    CrossLast();
  }

  lemma CrossLast()
    ensures Cross(LAST, [P(5, 0, [])]) == ToFinal()
  {
    hide Cross;
    var rest, two := [P(2, X, [3, 4, 2]), P(3, Z, [4, 2]), P(4, Z, [2])], [P(3, Z, [4, 2]), P(4, Z, [2])];
    CrossOne(P(4, Z, [2]), P(5, 0, []));
    CrossMore(P(3, Z, [4, 2]), [P(4, Z, [2])], P(5, 0, []));
    CrossMore(P(2, X, [3, 4, 2]), two, P(5, 0, []));
    CrossMore(P(1, X, [1]), rest, P(5, 0, []));
    assert [P(3, Z, [4, 2])] + [P(4, Z, [2])] == two && [P(2, X, [3, 4, 2])] + two == rest && [P(1, X, [1])] + rest == LAST;
  }

  function Ends(): seq<seq<Step>> {
    [[], [Step(X, X, 5, [1])], [Step(X, X, 5, [3, 4, 2])], [Step(Z, Z, 5, [4, 2])], [Step(Z, Z, 5, [2])], []]
  }

  lemma AddEnds(rest: seq<Edge>)
    ensures AddSteps(NoSteps(6), ToFinal() + rest) == AddSteps(Ends(), rest)
  {
    hide AddSteps, EdgeStep;
    var f := P(5, 0, []);
    var e := ToFinal();
    PlainStep(P(1, X, [1]), f);
    PlainStep(P(2, X, [3, 4, 2]), f);
    PlainStep(P(3, Z, [4, 2]), f);
    PlainStep(P(4, Z, [2]), f);
    var out0 := NoSteps(6);
    var out1 := out0[1 := [Step(X, X, 5, [1])]];
    var out2 := out1[2 := [Step(X, X, 5, [3, 4, 2])]];
    var out3 := out2[3 := [Step(Z, Z, 5, [4, 2])]];
    var out4 := out3[4 := [Step(Z, Z, 5, [2])]];
    Adds(out0, e[0], e[1..] + rest, 1, out1[1]);
    Adds(out1, e[1], e[2..] + rest, 2, out2[2]);
    Adds(out2, e[2], e[3..] + rest, 3, out3[3]);
    Adds(out3, e[3], rest, 4, out4[4]);
    assert out4 == Ends();
    assert e + rest == [e[0]] + (e[1..] + rest) && e[1..] + rest == [e[1]] + (e[2..] + rest);
    assert e[2..] + rest == [e[2]] + (e[3..] + rest) && e[3..] + rest == [e[3]] + rest;
  }

  lemma AddInside()
    ensures AddSteps(Ends(), Inside()) == TwoGroups().out
  {
    hide AddSteps, EdgeStep;
    var e := Inside();
    PlainStep(P(0, A, []), P(1, X, []));
    PlainStep(P(3, Z, []), P(4, Z, [4]));
    PlainStep(P(2, X, []), P(3, Z, [3]));
    PlainStep(P(3, Z, []), P(3, Z, []));
    PlainStep(P(4, Z, []), P(4, Z, []));
    MergedStep();
    var out0 := Ends();
    var out1 := out0[0 := [Step(A, A, 1, [])]];
    var out2 := out1[2 := [Step(X, X, 5, [3, 4, 2]), Step(X, X, 4, [3, 4])]];
    var out3 := out2[3 := [Step(Z, Z, 5, [4, 2]), Step(Z, Z, 4, [4])]];
    var out4 := out3[2 := [Step(X, X, 5, [3, 4, 2]), Step(X, X, 4, [3, 4]), Step(X, X, 3, [3])]];
    var out5 := out4[3 := [Step(Z, Z, 5, [4, 2]), Step(Z, Z, 4, [4]), Step(Z, Z, 3, [])]];
    var out6 := out5[4 := [Step(Z, Z, 5, [2]), Step(Z, Z, 4, [])]];
    Adds(out0, e[0], e[1..], 0, out1[0]);
    Adds(out1, e[1], e[2..], 2, out2[2]);
    Adds(out2, e[2], e[3..], 3, out3[3]);
    Adds(out3, e[3], e[4..], 2, out4[2]);
    Adds(out4, e[4], e[5..], 3, out5[3]);
    Adds(out5, e[5], [], 4, out6[4]);
    assert out6 == TwoGroups().out;
    assert e == [e[0]] + e[1..] && e[1..] == [e[1]] + e[2..] && e[2..] == [e[2]] + e[3..];
    assert e[3..] == [e[3]] + e[4..] && e[4..] == [e[4]] + e[5..] && e[5..] == [e[5]] + [];
    NothingToAdd(out6);
  }

  lemma MergedStep()
    ensures EdgeStep((P(2, X, [3]), P(4, Z, [4]))) == Step(X, X, 4, [3, 4])
  {
    assert [4][..0] == [] && MergeTags([3], []) == [3] && [3] + [4] == [3, 4];
  }

  lemma PatternAutomaton()
    ensures AutomatonOf(TaggedTree()) == TwoGroups()
  {
    hide Npfl, NumPos, Edges, AddSteps, TaggedTree, ToFinal, Inside, Ends;
    TreePositions();
    AddEnds(Inside());
    AddInside();
  }

  /** tre_expand_ast leaves the tree alone. */
  lemma PatternExpands()
    ensures WellFormed(TaggedTree()) && Expand(TaggedTree()) == TaggedTree() && ExpandDirs(TaggedTree(), DIRS) == DIRS
  {
  }

  // ----- its run on "axz" -----

  const N: nat := 5

  function Text(): Word { [A, X, Z] }

  /** The entry for `state` with the values of the five tags. */
  function E(state: nat, t0: int, t1: int, t2: int, t3: int, t4: int): (e: Entry)
    ensures |e.tags| == N
  {
    Entry(state, [t0, t1, t2, t3, t4])
  }

  lemma VisitAllSnoc(sim: Sim, front: seq<Entry>, x: Entry, pos: nat)
    requires SimTagged(sim, N) && |x.tags| == N && forall y | y in front :: |y.tags| == N
    ensures VisitAll(5, DIRS, sim, front + [x], pos, N) == Visit(5, DIRS, VisitAll(5, DIRS, sim, front, pos, N), x, pos)
  {
    assert (front + [x])[..|front|] == front;
  }

  lemma ArrivalsSnoc(front: seq<Entry>, e: Entry, c: nat, pos: nat)
    requires |e.tags| == N && e.state < 6 && forall y | y in front :: |y.tags| == N
    ensures Arrivals(TwoGroups(), front + [e], c, pos, N)
         == Arrivals(TwoGroups(), front, c, pos, N) + Leaving(TwoGroups().out[e.state], e.tags, c, pos)
  {
    assert (front + [e])[..|front|] == front;
  }

  lemma LeavingSnoc(front: seq<Step>, s: Step, tags: seq<int>, c: nat, pos: nat)
    ensures Leaving(front + [s], tags, c, pos)
         == Leaving(front, tags, c, pos) + if Reads(s, c) then [Entry(s.target, SetTags(tags, s.tags, pos))] else []
  {
    assert (front + [s])[..|front|] == front;
  }

  /** Up to three tags set in the order of the list. */
  lemma TagsSet(tags: seq<int>, i: nat, j: nat, k: nat, pos: int)
    requires |tags| == N && i < N && j < N && k < N
    ensures SetTags(tags, [], pos) == tags && SetTags(tags, [i], pos) == tags[i := pos]
    ensures SetTags(tags, [i, j], pos) == tags[i := pos][j := pos]
    ensures SetTags(tags, [i, j, k], pos) == tags[i := pos][j := pos][k := pos]
  {
    assert [i][..0] == [] && [i, j][..1] == [i] && [i, j, k][..2] == [i, j];
  }

  /** Where the states lead on the bytes of the text. */
  lemma LeavingZeroOne(t: seq<int>, pos: nat)
    requires |t| == N
    ensures Leaving(TwoGroups().out[0], t, A, pos) == [Entry(1, t)] && Leaving(TwoGroups().out[0], t, X, pos) == []
    ensures Leaving(TwoGroups().out[1], t, X, pos) == [Entry(5, t[1 := pos])]
  {
    hide SetTags;
    TagsSet(t, 1, 0, 0, pos);
    LeavingSnoc([], Step(A, A, 1, []), t, A, pos);
    LeavingSnoc([], Step(A, A, 1, []), t, X, pos);
    LeavingSnoc([], Step(X, X, 5, [1]), t, X, pos);
    assert [] + [Step(A, A, 1, [])] == [Step(A, A, 1, [])] && [] + [Step(X, X, 5, [1])] == [Step(X, X, 5, [1])];
  }

  lemma LeavingThree(s1: Step, s2: Step, s3: Step, t: seq<int>, c: nat, pos: nat)
    requires Reads(s1, c) == Reads(s2, c) == Reads(s3, c)
    ensures var e1, e2 := Entry(s1.target, SetTags(t, s1.tags, pos)), Entry(s2.target, SetTags(t, s2.tags, pos));
      var e3 := Entry(s3.target, SetTags(t, s3.tags, pos));
      && Leaving([s1, s2, s3], t, c, pos) == (if Reads(s1, c) then [e1, e2, e3] else [])
      && Leaving([s1, s2], t, c, pos) == (if Reads(s1, c) then [e1, e2] else [])
  {
    hide SetTags, Leaving;
    NoLeaving(t, c, pos);
    LeavingSnoc([], s1, t, c, pos);
    LeavingSnoc([s1], s2, t, c, pos);
    LeavingSnoc([s1, s2], s3, t, c, pos);
    assert [] + [s1] == [s1] && [s1] + [s2] == [s1, s2] && [s1, s2] + [s3] == [s1, s2, s3];
  }

  lemma NoLeaving(t: seq<int>, c: nat, pos: nat)
    ensures Leaving([], t, c, pos) == []
  {
  }

  lemma LeavingTwo(t: seq<int>, pos: nat)
    requires |t| == N
    ensures Leaving(TwoGroups().out[2], t, A, pos) == []
    ensures Leaving(TwoGroups().out[2], t, X, pos)
         == [Entry(5, t[3 := pos][4 := pos][2 := pos]), Entry(4, t[3 := pos][4 := pos]), Entry(3, t[3 := pos])]
  {
    hide SetTags, Leaving;
    TagsSet(t, 3, 4, 2, pos);
    LeavingThree(Step(X, X, 5, [3, 4, 2]), Step(X, X, 4, [3, 4]), Step(X, X, 3, [3]), t, A, pos);
    LeavingThree(Step(X, X, 5, [3, 4, 2]), Step(X, X, 4, [3, 4]), Step(X, X, 3, [3]), t, X, pos);
  }

  lemma LeavingThreeFour(t: seq<int>, pos: nat)
    requires |t| == N
    ensures Leaving(TwoGroups().out[3], t, Z, pos)
         == [Entry(5, t[4 := pos][2 := pos]), Entry(4, t[4 := pos]), Entry(3, t)]
    ensures Leaving(TwoGroups().out[4], t, Z, pos) == [Entry(5, t[2 := pos]), Entry(4, t)]
    ensures Leaving(TwoGroups().out[5], t, Z, pos) == []
  {
    hide SetTags, Leaving;
    TagsSet(t, 4, 2, 0, pos);
    TagsSet(t, 2, 0, 0, pos);
    LeavingThree(Step(Z, Z, 5, [4, 2]), Step(Z, Z, 4, [4]), Step(Z, Z, 3, []), t, Z, pos);
    LeavingThree(Step(Z, Z, 5, [2]), Step(Z, Z, 4, []), Step(Z, Z, 4, []), t, Z, pos);
    NoLeaving(t, Z, pos);
  }

  lemma ArrivalsOne(e: Entry, c: nat, pos: nat)
    requires |e.tags| == N && e.state < 6
    ensures Arrivals(TwoGroups(), [e], c, pos, N) == Leaving(TwoGroups().out[e.state], e.tags, c, pos)
  {
    assert [e][..0] == [] && Arrivals(TwoGroups(), [], c, pos, N) == [];
  }

  lemma VisitAllOne(sim: Sim, x: Entry, pos: nat)
    requires SimTagged(sim, N) && |x.tags| == N
    ensures VisitAll(5, DIRS, sim, [x], pos, N) == Visit(5, DIRS, sim, x, pos)
  {
    assert [x][..0] == [] && VisitAll(5, DIRS, sim, [], pos, N) == sim;
  }

  /** Both initial states are added behind what is there already. */
  lemma BothStarts(next: seq<Entry>, pos: nat)
    requires (forall e | e in next :: |e.tags| == N) && !Present(next, 0) && !Present(next, 2)
    ensures AddInitial(TwoGroups(), Sim(next, NoMatch), pos, N)
         == Sim(next + [E(0, pos, -1, -1, -1, -1), E(2, pos, -1, -1, -1, -1)], NoMatch)
  {
    var a, sim := TwoGroups(), Sim(next, NoMatch);
    var x, y := StartEntry(a.initial[0], pos, N), StartEntry(a.initial[1], pos, N);
    TagsSet(Unset(N), 0, 0, 0, pos);
    assert x == E(0, pos, -1, -1, -1, -1) && y == E(2, pos, -1, -1, -1, -1);
    assert StartEntries(a, pos, N) == [x, y];
    hide SetTags, Find;
    VisitStartsTwo(sim, x, y, pos);
    PresentSnoc(next, x, 2);
  }

  lemma VisitStartsTwo(sim: Sim, x: Entry, y: Entry, pos: nat)
    requires SimTagged(sim, N) && |x.tags| == |y.tags| == N
    ensures VisitStarts(5, sim, [x, y], pos, N) == VisitStart(5, VisitStart(5, sim, x, pos), y, pos)
  {
    assert [x, y][..1] == [x] && [x][..0] == [];
    assert VisitStarts(5, sim, [], pos, N) == sim;
  }

  // The list at the three bytes of the text.

  const AT0 := [E(0, 0, -1, -1, -1, -1), E(2, 0, -1, -1, -1, -1)]
  const AT1 := [E(1, 0, -1, -1, -1, -1)]
  const STARTED1 := [E(1, 0, -1, -1, -1, -1), E(0, 1, -1, -1, -1, -1), E(2, 1, -1, -1, -1, -1)]
  const AT2 := [E(5, 0, 2, -1, -1, -1), E(4, 1, -1, -1, 2, 2), E(3, 1, -1, -1, 2, -1)]

  /** "ax", from the left operand. */
  const LEFTMOST := Match(2, [0, 2, -1, -1, -1])

  /** "xz", from the right operand with the z in the first group. */
  const LATER := Match(3, [1, -1, 3, 2, 3])

  lemma AfterA()
    ensures Advance(TwoGroups(), DIRS, Sim(AT0, NoMatch), A, 1, N) == Sim(AT1, NoMatch)
  {
    hide Leaving, Arrivals, VisitAll;
    var e, f := AT0[0], AT0[1];
    LeavingZeroOne(e.tags, 1);
    LeavingTwo(f.tags, 1);
    ArrivalsOne(e, A, 1);
    ArrivalsSnoc([e], f, A, 1);
    assert AT0 == [e] + [f];
    assert Arrivals(TwoGroups(), AT0, A, 1, N) == AT1;
    VisitAllOne(Sim([], NoMatch), AT1[0], 1);
  }

  lemma XArrivals()
    ensures Arrivals(TwoGroups(), STARTED1, X, 2, N) == [E(5, 0, 2, -1, -1, -1), E(5, 1, -1, 2, 2, 2), AT2[1], AT2[2]]
  {
    hide Leaving, Arrivals;
    var e, f, g := STARTED1[0], STARTED1[1], STARTED1[2];
    LeavingZeroOne(e.tags, 2);
    LeavingZeroOne(f.tags, 2);
    LeavingTwo(g.tags, 2);
    ArrivalsOne(e, X, 2);
    ArrivalsSnoc([e], f, X, 2);
    ArrivalsSnoc([e, f], g, X, 2);
    assert [e] + [f] == [e, f] && STARTED1 == [e, f] + [g];
    assert e.tags[1 := 2] == [0, 2, -1, -1, -1] && g.tags[3 := 2] == AT2[2].tags;
    assert AT2[2].tags[4 := 2] == AT2[1].tags && AT2[1].tags[2 := 2] == [1, -1, 2, 2, 2];
  }

  /** The first differing tag decides. */
  lemma WinsAt(t: seq<int>, u: seq<int>, i: nat)
    requires |t| == |u| == N && i < N && (forall j | 0 <= j < i :: t[j] == u[j]) && t[i] != u[i]
    ensures Wins(DIRS, t, u, 0) <==> if DirectionOf(DIRS, i) == Minimize then t[i] < u[i] else t[i] > u[i]
  {
    WinsFrom(t, u, i, 0);
  }

  lemma {:induction false} WinsFrom(t: seq<int>, u: seq<int>, i: nat, k: nat)
    requires |t| == |u| == N && k <= i < N && (forall j | 0 <= j < i :: t[j] == u[j]) && t[i] != u[i]
    ensures Wins(DIRS, t, u, k) <==> if DirectionOf(DIRS, i) == Minimize then t[i] < u[i] else t[i] > u[i]
    decreases i - k
  {
    if k < i {
      WinsFrom(t, u, i, k + 1);
    }
  }

  /** A new state that does not touch the best match. */
  lemma Appended(sim: Sim, x: Entry, pos: nat)
    requires SimTagged(sim, N) && |x.tags| == N && !Present(sim.next, x.state)
    requires x.state != 5 || (sim.best.Match? && x.tags[0] > sim.best.tags[0])
    ensures Visit(5, DIRS, sim, x, pos) == Sim(sim.next + [x], sim.best)
  {
  }

  lemma XVisits(x: Entry, y: Entry, sim: Sim)
    requires sim == Sim([], NoMatch) && |x.tags| == |y.tags| == N
    ensures VisitAll(5, DIRS, sim, [x, y, AT2[1], AT2[2]], 2, N)
         == Visit(5, DIRS, Visit(5, DIRS, Visit(5, DIRS, Visit(5, DIRS, sim, x, 2), y, 2), AT2[1], 2), AT2[2], 2)
  {
    hide VisitAll, Visit;
    VisitAllOne(sim, x, 2);
    VisitAllSnoc(sim, [x], y, 2);
    VisitAllSnoc(sim, [x, y], AT2[1], 2);
    VisitAllSnoc(sim, [x, y, AT2[1]], AT2[2], 2);
    assert [x] + [y] == [x, y] && [x, y] + [AT2[1]] == [x, y, AT2[1]];
    assert [x, y, AT2[1]] + [AT2[2]] == [x, y, AT2[1], AT2[2]];
  }

  lemma AfterX()
    ensures Advance(TwoGroups(), DIRS, Sim(STARTED1, NoMatch), X, 2, N) == Sim(AT2, LEFTMOST)
  {
    hide Leaving, Arrivals, VisitAll, Wins, Find;
    var x, y := E(5, 0, 2, -1, -1, -1), E(5, 1, -1, 2, 2, 2);
    XArrivals();
    XVisits(x, y, Sim([], NoMatch));
    FirstFinal(x, 2);
    WinsAt(y.tags, x.tags, 0);
    FindFirst(x, y.state);
    FindFirst(x, 4);
    Appended(Sim([x], LEFTMOST), AT2[1], 2);
    FindFirst(x, 3);
    PresentSnoc([x], AT2[1], 3);
    Appended(Sim([x, AT2[1]], LEFTMOST), AT2[2], 2);
    assert [x] + [AT2[1]] == [x, AT2[1]] && [x, AT2[1]] + [AT2[2]] == AT2;
  }

  lemma FindFirst(x: Entry, q: nat)
    ensures Find([x], q) == if x.state == q then 0 else 1
  {
  }

  lemma FirstFinal(x: Entry, pos: nat)
    requires |x.tags| == N && x.state == 5
    ensures Visit(5, DIRS, Sim([], NoMatch), x, pos) == Sim([x], Match(pos, x.tags))
  {
    assert [] + [x] == [x];
  }

  lemma ZArrivals()
    ensures Arrivals(TwoGroups(), AT2, Z, 3, N)
         == [E(5, 1, -1, 3, 2, 2), E(4, 1, -1, -1, 2, 2), E(5, 1, -1, 3, 2, 3), E(4, 1, -1, -1, 2, 3), E(3, 1, -1, -1, 2, -1)]
  {
    hide Leaving, Arrivals;
    var e, f, g := AT2[0], AT2[1], AT2[2];
    LeavingThreeFour(e.tags, 3);
    LeavingThreeFour(f.tags, 3);
    LeavingThreeFour(g.tags, 3);
    ArrivalsOne(e, Z, 3);
    ArrivalsSnoc([e], f, Z, 3);
    ArrivalsSnoc([e, f], g, Z, 3);
    assert [e] + [f] == [e, f] && AT2 == [e, f] + [g];
    assert f.tags[2 := 3] == [1, -1, 3, 2, 2] && g.tags[4 := 3] == [1, -1, -1, 2, 3];
    assert [1, -1, -1, 2, 3][2 := 3] == [1, -1, 3, 2, 3];
  }

  lemma AfterZ()
    ensures Advance(TwoGroups(), DIRS, Sim(AT2, LEFTMOST), Z, 3, N).best == LATER
  {
    hide Leaving, Arrivals, VisitAll, Wins, Find;
    var x1, x2, x3 := E(5, 1, -1, 3, 2, 2), E(4, 1, -1, -1, 2, 2), E(5, 1, -1, 3, 2, 3);
    var x4, x5 := E(4, 1, -1, -1, 2, 3), E(3, 1, -1, -1, 2, -1);
    var none := Sim([], LEFTMOST);
    ZArrivals();
    VisitAllOne(none, x1, 3);
    VisitAllSnoc(none, [x1], x2, 3);
    VisitAllSnoc(none, [x1, x2], x3, 3);
    VisitAllSnoc(none, [x1, x2, x3], x4, 3);
    VisitAllSnoc(none, [x1, x2, x3, x4], x5, 3);
    assert [x1] + [x2] == [x1, x2] && [x1, x2] + [x3] == [x1, x2, x3];
    assert [x1, x2, x3] + [x4] == [x1, x2, x3, x4] && [x1, x2, x3, x4] + [x5] == [x1, x2, x3, x4, x5];
    Appended(none, x1, 3);
    FindFirst(x1, 4);
    FindFirst(x1, 5);
    Appended(Sim([x1], LEFTMOST), x2, 3);
    PresentSnoc([x1], x2, 5);
    WinsAt(x3.tags, x1.tags, 4);
    var won := VisitAll(5, DIRS, none, [x1, x2, x3], 3, N);
    assert VisitAll(5, DIRS, none, [x1], 3, N) == Sim([x1], LEFTMOST) by {
      assert [] + [x1] == [x1];
    }
    assert VisitAll(5, DIRS, none, [x1, x2], 3, N) == Sim([x1, x2], LEFTMOST);
    assert won == Sim([x3, x2], LATER);
    BestStays(won, x4, 3);
    BestStays(Visit(5, DIRS, won, x4, 3), x5, 3);
  }

  lemma BestStays(sim: Sim, x: Entry, pos: nat)
    requires SimTagged(sim, N) && |x.tags| == N && x.state != 5
    ensures Visit(5, DIRS, sim, x, pos).best == sim.best
  {
  }

  // ----- the result -----

  lemma WholeRun()
    ensures RunFrom(TwoGroups(), DIRS, Text(), 0, Sim([], NoMatch), N) == LATER
  {
    hide RunFrom, Advance, AddInitial, Find, TwoGroups;
    var a, s := TwoGroups(), Text();
    BothStarts([], 0);
    assert [] + AT0 == AT0;
    AfterA();
    FindFirst(AT1[0], 0);
    FindFirst(AT1[0], 2);
    BothStarts(AT1, 1);
    assert AT1 + [E(0, 1, -1, -1, -1, -1), E(2, 1, -1, -1, -1, -1)] == STARTED1;
    AfterX();
    AfterZ();
    RunFromTurn(a, DIRS, s, 0, Sim([], NoMatch), N);
    RunFromTurn(a, DIRS, s, 1, Sim(AT1, NoMatch), N);
    RunFromTurn(a, DIRS, s, 2, Sim(AT2, LEFTMOST), N);
    RunFromTurn(a, DIRS, s, 3, Advance(a, DIRS, Sim(AT2, LEFTMOST), Z, 3, N), N);
  }

  lemma FirstTwoBytesAccepted()
    ensures Accepted(TwoGroups(), Text(), 0, 2)
  {
    var a, w := TwoGroups(), [A, X];
    assert Text()[0..2] == w;
    assert Front(w) == [A] && Front([A]) == [] && Last(w) == X && Last([A]) == A;
    assert Start(0, [0]) in a.initial && IsInitial(a, 0);
    assert Step(A, A, 1, []) in a.out[0] && HasStep(a, 0, A, 1);
    assert Step(X, X, 5, [1]) in a.out[1] && HasStep(a, 1, X, 5);
    assert Reached(a, [], 0);
    assert Reached(a, [A], 1);
    assert Reached(a, w, 5);
  }

  /** The pattern can start with more than one byte, so no byte is searched for first. */
  lemma NoFirstChar(tnfa: Tnfa)
    requires FirstCharSound(tnfa, TwoGroups())
    ensures tnfa.firstChar < 0
  {
    var a := TwoGroups();
    assert Start(0, [0]) in a.initial && IsInitial(a, 0);
    assert Start(2, [0]) in a.initial && IsInitial(a, 2);
    assert Step(A, A, 1, []) in a.out[0] && HasStep(a, 0, A, 1);
    assert Step(X, X, 3, [3]) in a.out[2] && HasStep(a, 2, X, 3);
  }

  lemma TwoGroupsStart()
    ensures TagZeroAtStart(TwoGroups())
  {
  }

  lemma PatternIsWellFormed()
    ensures WellFormed(Unmarked(Pattern()))
  {
  }

  /** The bytes of `ax|x(z*)(z*)`. */
  const PATTERN_TEXT: T.Bytes := [97, 120, 124, 120, 40, 122, 42, 41, 40, 122, 42, 41]

  lemma BytePrinted(c: nat, level: TreParsePrinted.Level)
    requires c == A || c == X || c == Z
    ensures TreParsePrinted.Printable(Byte1(c)) && TreParsePrinted.Print(Byte1(c), level) == [c]
  {
  }

  lemma GroupPrinted(id: nat, level: TreParsePrinted.Level)
    ensures TreParsePrinted.Printable(Group(id)) && TreParsePrinted.Print(Group(id), level) == [40, 122, 42, 41]
  {
    BytePrinted(Z, TreParsePrinted.Single);
  }

  lemma BranchesPrinted()
    ensures TreParsePrinted.Printable(LeftBranch()) && TreParsePrinted.Printable(RightBranch())
    ensures TreParsePrinted.Print(LeftBranch(), TreParsePrinted.Alternatives) == [97, 120]
    ensures TreParsePrinted.Print(RightBranch(), TreParsePrinted.Branch) == [120, 40, 122, 42, 41, 40, 122, 42, 41]
  {
    BytePrinted(A, TreParsePrinted.Chain);
    BytePrinted(X, TreParsePrinted.Chain);
    BytePrinted(X, TreParsePrinted.Piece);
    GroupPrinted(1, TreParsePrinted.Piece);
    GroupPrinted(2, TreParsePrinted.Piece);
    assert TreParsePrinted.Print(Front3(), TreParsePrinted.Chain) == [120, 40, 122, 42, 41];
  }

  lemma PatternNumbered()
    ensures TreParsePrinted.Numbered(Pattern(), 0) && Pattern().id == 0
  {
    assert Submatches(Byte1(X)) == 0 && Submatches(LeftBranch()) == 0;
    assert TreParsePrinted.Numbered(LeftBranch(), 1);
    assert TreParsePrinted.Numbered(Front3(), 1) && Submatches(Front3()) == 1;
  }

  lemma PatternPrinted()
    ensures TreParsePrinted.Printable(Pattern()) && TreParsePrinted.PatternText(Pattern()) == PATTERN_TEXT
  {
    hide LeftBranch, RightBranch, TreParsePrinted.Print, TreParsePrinted.Printable;
    BranchesPrinted();
    PrintableUnion();
    TreParsePrinted.TextOfUnion(Fresh(Pattern().node), LeftBranch(), RightBranch());
    assert [97, 120] + [TreParse.PIPE] + [120, 40, 122, 42, 41, 40, 122, 42, 41] == PATTERN_TEXT;
  }

  lemma PrintableUnion()
    requires TreParsePrinted.Printable(LeftBranch()) && TreParsePrinted.Printable(RightBranch())
    ensures TreParsePrinted.Printable(Pattern()) && TreParsePrinted.Printable(Fresh(Pattern().node))
  {
    hide LeftBranch, RightBranch;
  }

  /** The parser makes the pattern of its text. */
  lemma PatternParsed(result: Marked, flags: TreParse.Flags)
    requires !flags.icase
    ensures var u := TreParse.Run(PATTERN_TEXT, TreParse.Started(false, 0, result, 0, flags));
      u.status == TreParse.Ok && u.depth == 0 && u.result == Pattern()
  {
    hide *;
    PatternNumbered();
    PatternPrinted();
    TreParsePrinted.RoundTrip(Pattern(), false, result, 0, flags);
    TreParsePrinted.SameCase(Pattern(), flags);
  }

  /** The pattern with its tags, expanded and compiled: tag 0 is where a match starts and is minimized, "ax"
      occurs at the start of "axz", and yet the match that is reported is "xz". */
  lemma GroupsLoseLeftmost(tnfa: Tnfa)
    requires WellFormed(PlaceTags(Pattern()).tree)
    requires FirstCharSound(tnfa, AutomatonOf(Expand(PlaceTags(Pattern()).tree)))
    ensures var g := PlaceTags(Pattern());
      var a, dirs := AutomatonOf(Expand(g.tree)), ExpandDirs(g.tree, g.dirs);
      var r := RunParallel(a, dirs, tnfa.firstChar, Text(), g.numTags);
      && TagZeroAtStart(a) && DirectionOf(dirs, 0) == Minimize && Occurs(Unmarked(Pattern()), Text(), 0, 2)
      && SpanOf(r, g.numTags) == Span(1, 3) && !LeftmostLongestSpan(Unmarked(Pattern()), Text(), Span(1, 3))
  {
    hide RunFrom, Accepted, Occurs, TagZeroAtStart, TwoGroups, TaggedTree, PlaceTags, Expand, ExpandDirs, Pattern,
        Unmarked, Lang, WellFormed;
    PatternIsWellFormed();
    TreGroups.TagsKeepLanguage(Pattern());
    SameStretches(Unmarked(Pattern()), PlaceTags(Pattern()).tree, Text());
    PatternTags();
    PatternExpands();
    PatternAutomaton();
    NoFirstChar(tnfa);
    WholeRun();
    TwoGroupsStart();
    FirstTwoBytesAccepted();
  }
}
