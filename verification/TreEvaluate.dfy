/** The automaton of a given tree, worked out step by step: one turn of each recursion of TrePositions and
    TreAutomaton, for the trees that are written out elsewhere. */
module TreEvaluate {
  import opened TreAst
  import opened TrePositions
  import opened TreAutomaton

  function P(position: nat, c: nat, tags: seq<nat>): PosTags { PosTags(position, c, c, tags) }

  lemma TagOne(p: PosTags, tags: seq<nat>)
    ensures AddTags([p], tags) == [p.(tags := p.tags + tags)]
    ensures p.tags == [] ==> AddTags([p], tags) == [p.(tags := tags)]
  {
    assert p.tags == [] ==> p.tags + tags == tags;
  }

  lemma TagMore(p: PosTags, s: PosSet, tags: seq<nat>)
    ensures AddTags([p] + s, tags) == [p.(tags := p.tags + tags)] + AddTags(s, tags)
    ensures p.tags == [] ==> AddTags([p] + s, tags) == [p.(tags := tags)] + AddTags(s, tags)
  {
    assert p.tags == [] ==> p.tags + tags == tags;
  }

  lemma CrossOne(p: PosTags, q: PosTags)
    ensures Cross([p], [q]) == [(p, q)]
  {
    assert Cross([p][1..], [q]) == [];
  }

  lemma CrossMore(p: PosTags, s: PosSet, q: PosTags)
    ensures Cross([p] + s, [q]) == [(p, q)] + Cross(s, [q])
  {
    assert ([p] + s)[1..] == s;
  }

  lemma {:induction false} NoneAfter(p1: PosSet)
    ensures Cross(p1, []) == []
    decreases |p1|
  {
    if p1 != [] {
      NoneAfter(p1[1..]);
    }
  }

  lemma AtUnion(l: Ast, r: Ast, base: nat, num: nat)
    requires num == NumPos(l)
    ensures var t := Union(l, r);
      && NumPos(t) == num + NumPos(r) && Npfl(t, base) == UnionAttr(Npfl(l, base), Npfl(r, base + num))
      && Edges(t, base) == Edges(l, base) + Edges(r, base + num)
  {
  }

  lemma AtLeaf(c: nat, tag: nat, base: nat)
    ensures var one := P(base, c, []);
      && NumPos(Literal(c, c)) == 1 && Npfl(Literal(c, c), base) == Attr(false, [one], [one]) && Edges(Literal(c, c), base) == []
    ensures NumPos(Tag(tag)) == 0 && Npfl(Tag(tag), base) == Attr(true, [], []) && Edges(Tag(tag), base) == []
    ensures EmptyTags(Tag(tag), []) == [tag]
  {
  }

  lemma CrossNone(s: PosSet)
    ensures Cross([], s) == []
  {
  }

  /** One turn of the recursions at a catenation. */
  lemma AtCatenation(l: Ast, r: Ast, base: nat, num: nat)
    requires num == NumPos(l)
    ensures var t := Catenation(l, r);
      && NumPos(t) == num + NumPos(r)
      && Npfl(t, base) == CatAttr(Npfl(l, base), Npfl(r, base + num), EmptyTags(l, []), EmptyTags(r, []))
      && Edges(t, base)
      == Cross(Npfl(l, base).lastpos, Npfl(r, base + num).firstpos) + Edges(l, base) + Edges(r, base + num)
  {
  }

  lemma CatEmpty(l: Ast, r: Ast, tags: seq<nat>)
    ensures EmptyTags(Catenation(l, r), tags) == EmptyTags(l, EmptyTags(r, tags))
  {
  }

  /** One edge is added. */
  lemma Adds(out: seq<seq<Step>>, e: Edge, rest: seq<Edge>, p: nat, steps: seq<Step>)
    requires e.0.position == p < |out| && steps == out[p] + [EdgeStep(e)]
    ensures AddSteps(out, [e] + rest) == AddSteps(out[p := steps], rest)
  {
    assert ([e] + rest)[1..] == rest;
  }

  /** The step of an edge of which one end at most carries tags. */
  lemma PlainStep(p: PosTags, q: PosTags)
    ensures q.tags == [] ==> EdgeStep((p, q)) == Step(p.codeMin, p.codeMax, q.position, p.tags)
    ensures p.tags == [] && |q.tags| == 1 ==> EdgeStep((p, q)) == Step(p.codeMin, p.codeMax, q.position, q.tags)
  {
    if |q.tags| == 1 {
      assert q.tags[..0] == [] && MergeTags([], []) == [] && [] + [q.tags[0]] == q.tags;
    }
  }

  lemma NothingToAdd(out: seq<seq<Step>>)
    ensures AddSteps(out, []) == out
  {
  }
}
