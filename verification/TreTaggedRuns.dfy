/** The runs of a tree: the words it reads together with the tags set in the gaps between their bytes.  A tag sets the
    position that has been read up to; in one gap the order of the tags does not matter. */
module TreTaggedRuns {
  import opened TreAst
  import opened TreExpand
  import opened TrePositions
  import opened TreAutomaton

  type Tags = set<nat>

  /** gaps[i] are the tags set before byte i is read; the last gap is the one behind the word. */
  datatype Run = Run(word: Word, gaps: seq<Tags>)

  predicate Ok(r: Run) { |r.gaps| == |r.word| + 1 }

  /** One run after the other: the gap where they meet holds the tags of both. */
  function Then(u: Run, v: Run): (r: Run)
    requires Ok(u) && Ok(v)
    ensures Ok(r)
  {
    var n := |u.word|;
    Run(u.word + v.word, seq(n + |v.word| + 1, i requires 0 <= i < n + |v.word| + 1 =>
      if i < n then u.gaps[i] else if i == n then u.gaps[n] + v.gaps[0] else v.gaps[i - n]))
  }

  const NO_RUN := Run([], [{}])

  /** The runs of a tree. Where nothing is read, the left operand of a union is preferred, and an iteration makes one round
      if its argument can do without reading; a round of an iteration that reads something reads something itself. */
  ghost predicate IsRun(t: Ast, r: Run)
    decreases t, 0
  {
    match t
    case Literal(lo, hi) => |r.word| == 1 && lo <= r.word[0] <= hi && r.gaps == [{}, {}]
    case Empty => r == NO_RUN
    case Tag(id) => r == Run([], [{id}])
    case Catenation(a, b) => exists u, v :: Ok(u) && Ok(v) && IsRun(a, u) && IsRun(b, v) && r == Then(u, v)
    case Union(a, b) =>
      if r.word == [] then IsRun(if [] in Lang(a) then a else b, r) else IsRun(a, r) || IsRun(b, r)
    case Iteration(a, min, max) =>
      if r.word == [] then (if [] in Lang(a) then IsRun(a, r) else min == 0 && r == NO_RUN)
      else exists n: nat :: n > 0 && (max == -1 || n <= max) && Rounds(a, r, n)
  }

  ghost predicate Rounds(a: Ast, r: Run, n: nat)
    decreases a, 1, n
  {
    if n == 0 then r == NO_RUN
    else exists u, v :: Ok(u) && Ok(v) && u.word != [] && IsRun(a, u) && Rounds(a, v, n - 1) && r == Then(u, v)
  }

  // ----- runs that read nothing -----

  function TagSet(tags: seq<nat>): Tags { set id | id in tags }

  lemma TagSetBoth(a: seq<nat>, b: seq<nat>)
    ensures TagSet(a + b) == TagSet(a) + TagSet(b)
  {
  }

  function EmptySet(t: Ast): Tags { TagSet(EmptyTags(t, [])) }

  lemma {:induction false} EmptyTagsAdded(t: Ast, tags: seq<nat>)
    ensures TagSet(EmptyTags(t, tags)) == TagSet(tags) + EmptySet(t)
  {
    match t
    case Catenation(a, b) =>
      EmptyTagsAdded(b, tags);
      EmptyTagsAdded(a, EmptyTags(b, tags));
      EmptyTagsAdded(a, EmptyTags(b, []));
    case Union(a, b) =>
      EmptyTagsAdded(a, tags);
      EmptyTagsAdded(b, tags);
    case Iteration(a, _, _) => EmptyTagsAdded(a, tags);
    case Tag(id) => assert TagSet(AddTag(tags, id)) == TagSet(tags) + {id} && TagSet(AddTag([], id)) == {id};
    case _ =>
  }

  lemma EmptySetOfCat(a: Ast, b: Ast)
    ensures EmptySet(Catenation(a, b)) == EmptySet(a) + EmptySet(b)
  {
    EmptyTagsAdded(a, EmptyTags(b, []));
  }

  lemma ThenEmpty(u: Run, v: Run)
    requires Ok(u) && Ok(v)
    ensures Then(u, v).word == [] <==> u.word == [] && v.word == []
    ensures u.word == [] && v.word == [] ==> Then(u, v) == Run([], [u.gaps[0] + v.gaps[0]])
  {
  }

  /** There is one run that reads nothing, if the tree can do so. */
  lemma {:induction false} OnlyEmptyRun(t: Ast, r: Run)
    requires Simple(t) && r.word == []
    ensures IsRun(t, r) <==> Nullable(t) && r == Run([], [EmptySet(t)])
    decreases t, 1
  {
    assert TagSet([]) == {};
    match t
    case Catenation(a, b) => OnlyEmptyRunOfCat(a, b, r);
    case Union(a, b) =>
      EmptyWordIffNullable(a);
      OnlyEmptyRun(a, r);
      OnlyEmptyRun(b, r);
    case Iteration(a, _, _) =>
      EmptyWordIffNullable(a);
      OnlyEmptyRun(a, r);
    case Tag(id) => assert TagSet(AddTag([], id)) == {id};
    case _ =>
  }

  lemma PartsOfRun(a: Ast, b: Ast, r: Run) returns (u: Run, v: Run)
    requires IsRun(Catenation(a, b), r)
    ensures Ok(u) && Ok(v) && IsRun(a, u) && IsRun(b, v) && r == Then(u, v)
  {
    hide Then, Ok;
    u, v :| Ok(u) && Ok(v) && IsRun(a, u) && IsRun(b, v) && r == Then(u, v);
  }

  lemma RunOfParts(a: Ast, b: Ast, u: Run, v: Run)
    requires Ok(u) && Ok(v) && IsRun(a, u) && IsRun(b, v)
    ensures IsRun(Catenation(a, b), Then(u, v))
  {
    hide Then;
  }

  lemma {:induction false} OnlyEmptyRunOfCat(a: Ast, b: Ast, r: Run)
    requires Simple(Catenation(a, b)) && r.word == []
    ensures IsRun(Catenation(a, b), r) <==> Nullable(Catenation(a, b)) && r == Run([], [EmptySet(Catenation(a, b))])
    decreases Catenation(a, b), 0
  {
    hide IsRun, Then, EmptySet;
    EmptySetOfCat(a, b);
    var u, v := Run([], [EmptySet(a)]), Run([], [EmptySet(b)]);
    OnlyEmptyRun(a, u);
    OnlyEmptyRun(b, v);
    ThenEmpty(u, v);
    if Nullable(a) && Nullable(b) {
      RunOfParts(a, b, u, v);
    }
    if IsRun(Catenation(a, b), r) {
      var u', v' := PartsOfRun(a, b, r);
      ThenEmpty(u', v');
      OnlyEmptyRun(a, u');
      OnlyEmptyRun(b, v');
    }
  }

  // ----- where a word can start, end and go on, with the tags set there -----

  ghost predicate InSet(s: PosSet, p: nat, g: Tags) { exists e :: e in s && e.position == p && TagSet(e.tags) == g }

  ghost predicate Enters(t: Ast, base: nat, p: nat, g: Tags) { InSet(Npfl(t, base).firstpos, p, g) }

  ghost predicate Leaves(t: Ast, base: nat, p: nat, g: Tags) { InSet(Npfl(t, base).lastpos, p, g) }

  ghost predicate InEdges(edges: seq<Edge>, p: nat, q: nat, g: Tags) {
    exists e :: e in edges && e.0.position == p && e.1.position == q && TagSet(e.0.tags) + TagSet(e.1.tags) == g
  }

  ghost predicate GoesOn(t: Ast, base: nat, p: nat, q: nat, g: Tags) { InEdges(Edges(t, base), p, q, g) }

  lemma InEitherSet(a: PosSet, b: PosSet, p: nat, g: Tags)
    ensures InSet(a + b, p, g) <==> InSet(a, p, g) || InSet(b, p, g)
  {
  }

  lemma InTaggedSet(s: PosSet, tags: seq<nat>, p: nat, g: Tags)
    ensures InSet(AddTags(s, tags), p, g) <==> exists h :: InSet(s, p, h) && g == h + TagSet(tags)
  {
    var more := AddTags(s, tags);
    forall i | 0 <= i < |s| ensures TagSet(more[i].tags) == TagSet(s[i].tags) + TagSet(tags) {
      TagSetBoth(s[i].tags, tags);
    }
    if InSet(more, p, g) {
      var e :| e in more && e.position == p && TagSet(e.tags) == g;
      var i :| 0 <= i < |s| && more[i] == e;
      assert s[i] in s && InSet(s, p, TagSet(s[i].tags));
    }
    if h :| InSet(s, p, h) && g == h + TagSet(tags) {
      var e :| e in s && e.position == p && TagSet(e.tags) == h;
      var i :| 0 <= i < |s| && s[i] == e;
      assert more[i] in more;
    }
  }

  lemma InEitherEdges(a: seq<Edge>, b: seq<Edge>, p: nat, q: nat, g: Tags)
    ensures InEdges(a + b, p, q, g) <==> InEdges(a, p, q, g) || InEdges(b, p, q, g)
  {
  }

  lemma {:induction false} InCross(s1: PosSet, s2: PosSet, p: nat, q: nat, g: Tags)
    ensures InEdges(Cross(s1, s2), p, q, g) <==> exists h1, h2 :: InSet(s1, p, h1) && InSet(s2, q, h2) && g == h1 + h2
  {
    forall e: Edge ensures e in Cross(s1, s2) <==> e.0 in s1 && e.1 in s2 {
      CrossHolds(s1, s2, e);
    }
    if h1, h2 :| InSet(s1, p, h1) && InSet(s2, q, h2) && g == h1 + h2 {
      var e1 :| e1 in s1 && e1.position == p && TagSet(e1.tags) == h1;
      var e2 :| e2 in s2 && e2.position == q && TagSet(e2.tags) == h2;
      assert (e1, e2) in Cross(s1, s2);
    }
    if InEdges(Cross(s1, s2), p, q, g) {
      var e :| e in Cross(s1, s2) && e.0.position == p && e.1.position == q && TagSet(e.0.tags) + TagSet(e.1.tags) == g;
      assert InSet(s1, p, TagSet(e.0.tags)) && InSet(s2, q, TagSet(e.1.tags));
    }
  }

  lemma {:induction false} CrossHolds(s1: PosSet, s2: PosSet, e: Edge)
    ensures e in Cross(s1, s2) <==> e.0 in s1 && e.1 in s2
    decreases |s1|
  {
    if s1 != [] {
      CrossHolds(s1[1..], s2, e);
      assert s1 == [s1[0]] + s1[1..];
      var head := EdgesFrom(s1[0], s2);
      assert e in head <==> e.0 == s1[0] && e.1 in s2 by {
        if e.0 == s1[0] && e.1 in s2 {
          var i :| 0 <= i < |s2| && s2[i] == e.1;
          assert head[i] == e;
        }
      }
    }
  }

  // ----- each kind of node -----

  lemma CatEnters(a: Ast, b: Ast, base: nat, p: nat, g: Tags)
    ensures Enters(Catenation(a, b), base, p, g) <==>
      || Enters(a, base, p, g)
      || (Nullable(a) && exists h :: Enters(b, base + NumPos(a), p, h) && g == h + EmptySet(a))
  {
    hide InSet;
    NpflOfCat(a, b, base);
    var first, second := Npfl(a, base), Npfl(b, base + NumPos(a));
    var more := AddTags(second.firstpos, EmptyTags(a, []));
    InTaggedSet(second.firstpos, EmptyTags(a, []), p, g);
    InEitherSet(more, first.firstpos, p, g);
    forall h ensures Enters(b, base + NumPos(a), p, h) <==> InSet(second.firstpos, p, h) {
    }
    assert EmptySet(a) == TagSet(EmptyTags(a, []));
    assert Npfl(Catenation(a, b), base).firstpos == if Nullable(a) then more + first.firstpos else first.firstpos;
  }

  lemma CatLeaves(a: Ast, b: Ast, base: nat, p: nat, g: Tags)
    ensures Leaves(Catenation(a, b), base, p, g) <==>
      || Leaves(b, base + NumPos(a), p, g)
      || (Nullable(b) && exists h :: Leaves(a, base, p, h) && g == h + EmptySet(b))
  {
    hide InSet;
    NpflOfCat(a, b, base);
    var first, second := Npfl(a, base), Npfl(b, base + NumPos(a));
    var more := AddTags(first.lastpos, EmptyTags(b, []));
    InTaggedSet(first.lastpos, EmptyTags(b, []), p, g);
    InEitherSet(more, second.lastpos, p, g);
    forall h ensures Leaves(a, base, p, h) <==> InSet(first.lastpos, p, h) {
    }
  }

  lemma CatGoesOn(a: Ast, b: Ast, base: nat, p: nat, q: nat, g: Tags)
    ensures GoesOn(Catenation(a, b), base, p, q, g) <==>
      || GoesOn(a, base, p, q, g) || GoesOn(b, base + NumPos(a), p, q, g)
      || exists h1, h2 :: Leaves(a, base, p, h1) && Enters(b, base + NumPos(a), q, h2) && g == h1 + h2
  {
    hide InSet, InEdges, Npfl;
    EdgesOfCat(a, b, base);
    var mid := base + NumPos(a);
    var x := Cross(Npfl(a, base).lastpos, Npfl(b, mid).firstpos);
    InCross(Npfl(a, base).lastpos, Npfl(b, mid).firstpos, p, q, g);
    InEitherEdges(x, Edges(a, base), p, q, g);
    InEitherEdges(x + Edges(a, base), Edges(b, mid), p, q, g);
  }

  lemma UnionParts(a: Ast, b: Ast, base: nat, p: nat, q: nat, g: Tags)
    ensures var t, mid := Union(a, b), base + NumPos(a);
      && (Enters(t, base, p, g) <==> Enters(a, base, p, g) || Enters(b, mid, p, g))
      && (Leaves(t, base, p, g) <==> Leaves(a, base, p, g) || Leaves(b, mid, p, g))
      && (GoesOn(t, base, p, q, g) <==> GoesOn(a, base, p, q, g) || GoesOn(b, mid, p, q, g))
  {
    hide InSet, InEdges;
    var mid := base + NumPos(a);
    InEitherSet(Npfl(a, base).firstpos, Npfl(b, mid).firstpos, p, g);
    InEitherSet(Npfl(a, base).lastpos, Npfl(b, mid).lastpos, p, g);
    InEitherEdges(Edges(a, base), Edges(b, mid), p, q, g);
  }

  lemma IterParts(a: Ast, min: nat, max: int, base: nat, p: nat, q: nat, g: Tags)
    ensures var t := Iteration(a, min, max);
      && (Enters(t, base, p, g) <==> Enters(a, base, p, g))
      && (Leaves(t, base, p, g) <==> Leaves(a, base, p, g))
      && (GoesOn(t, base, p, q, g) <==>
           || GoesOn(a, base, p, q, g)
           || (max == -1 && exists h1, h2 :: Leaves(a, base, p, h1) && Enters(a, base, q, h2) && g == h1 + h2))
  {
    hide InSet, InEdges;
    var x := if max == -1 then Cross(Npfl(a, base).lastpos, Npfl(a, base).firstpos) else [];
    InCross(Npfl(a, base).lastpos, Npfl(a, base).firstpos, p, q, g);
    InEitherEdges(x, Edges(a, base), p, q, g);
    NoEdges(p, q, g);
  }

  lemma NoEdges(p: nat, q: nat, g: Tags)
    ensures !InEdges([], p, q, g)
  {
  }

  /** Without the tags these are the positions of TreAutomaton. */
  lemma TaggedPositions(t: Ast, base: nat, p: nat, q: nat, g: Tags)
    ensures Enters(t, base, p, g) ==> IsFirst(t, base, p)
    ensures Leaves(t, base, p, g) ==> IsLast(t, base, p)
    ensures GoesOn(t, base, p, q, g) ==> Follows(t, base, p, q)
  {
    EndSetDescribes(true, t, base);
    EndSetDescribes(false, t, base);
    EdgesAreFollows(t, base);
    if GoesOn(t, base, p, q, g) {
      var edges := Edges(t, base);
      var e :| e in edges && e.0.position == p && e.1.position == q;
      var i :| 0 <= i < |edges| && edges[i] == e;
      assert Follows(t, base, edges[i].0.position, edges[i].1.position);
    }
  }

  /** Positions of the left operand come before those of the right one. */
  lemma TaggedInRange(t: Ast, base: nat, p: nat, q: nat, g: Tags)
    ensures Enters(t, base, p, g) || Leaves(t, base, p, g) ==> InRange(t, base, p)
    ensures GoesOn(t, base, p, q, g) ==> InRange(t, base, p) && InRange(t, base, q)
  {
    TaggedPositions(t, base, p, q, g);
    PositionsInRange(t, base, p, q, 0);
  }
}
