/** The two passes of tre_add_tags (tre-compile.c) agree: as many tags are placed as were counted, and they
    are numbered from 0 on without gaps or repetitions, each with a direction. */
module TreTagNumbers {
  import opened TreAst
  import opened TreMarked
  import opened TreTags
  import opened TreSubmatches

  predicate InTree(t: Ast, id: nat) {
    match t
    case Tag(i) => i == id
    case Catenation(l, r) => InTree(l, id) || InTree(r, id)
    case Union(l, r) => InTree(l, id) || InTree(r, id)
    case Iteration(a, _, _) => InTree(a, id)
    case _ => false
  }

  function TagNodes(t: Ast): nat {
    match t
    case Tag(_) => 1
    case Catenation(l, r) => TagNodes(l) + TagNodes(r)
    case Union(l, r) => TagNodes(l) + TagNodes(r)
    case Iteration(a, _, _) => TagNodes(a)
    case _ => 0
  }

  /** The numbers a node with `num` tags uses up: the next tag, and those behind the one after it but one. */
  predicate Uses(p: Pass, num: nat, id: nat) {
    num > 0 && (id == p.tag || p.nextTag <= id < p.nextTag + num - 1)
  }

  ghost predicate UsesExactly(p: Pass, num: nat, tree: Ast) {
    TagNodes(tree) == num && forall id: nat :: InTree(tree, id) <==> Uses(p, num, id)
  }

  ghost predicate GivesDirections(before: Directions, tree: Ast, after: Directions) {
    forall id: nat :: id in after <==> id in before || InTree(tree, id)
  }

  /** The second pass on a node for which the first one counted `c`. */
  ghost predicate Agree(p: Pass, c: Counted, r: Placed) {
    && r.pass.pending == c.pending && r.pass.nextTag == p.nextTag + c.num
    && r.pass.tag == (if c.num == 0 then p.tag else p.nextTag + c.num - 1)
    && UsesExactly(p, c.num, r.tree) && GivesDirections(p.dirs, r.tree, r.pass.dirs)
  }

  // ----- one tag in front -----

  lemma InFront(t: Ast, p: Pass, id: nat)
    ensures InTree(TagLeft(t, p), id) <==> InTree(t, id) || (p.pending && id == p.tag)
    ensures TagNodes(TagLeft(t, p)) == TagNodes(t) + if p.pending then 1 else 0
  {
    hide InTree, TagNodes;
    TagOnly(p.tag, id);
    InCatenation(Tag(p.tag), t, id);
  }

  /** A tag, if one is due, and then what is placed behind it. */
  lemma AgreeBehind(p: Pass, c: Counted, r: Placed)
    requires Agree(AfterTag(p), c, r) && p.tag < p.nextTag
    ensures Agree(p, Counted(c.num + if p.pending then 1 else 0, c.pending), Placed(TagLeft(r.tree, p), r.pass))
  {
    hide InTree, TagNodes, TagLeft;
    var tree, num := TagLeft(r.tree, p), c.num + if p.pending then 1 else 0;
    InFront(r.tree, p, 0);
    forall id: nat ensures InTree(tree, id) <==> Uses(p, num, id) {
      InFront(r.tree, p, id);
    }
    forall id: nat ensures id in r.pass.dirs <==> id in p.dirs || InTree(tree, id) {
      InFront(r.tree, p, id);
    }
  }

  /** A node without tags of its own. */
  lemma AgreeLeaf(t: Ast, p: Pass)
    requires TagNodes(t) == 0 && (forall id: nat :: !InTree(t, id)) && p.tag < p.nextTag
    ensures Agree(p, Counted(if p.pending then 1 else 0, false), Placed(TagLeft(t, p), AfterTag(p)))
  {
    hide InTree, TagNodes, TagLeft;
    AgreeBehind(p, Counted(0, false), Placed(t, AfterTag(p)));
  }

  /** The direction and the way two parts are joined do not matter. */
  lemma AgreeIn(p: Pass, c: Counted, r: Placed, t: Ast, direction: Direction)
    requires Agree(p, c, r) && TagNodes(t) == TagNodes(r.tree) && forall id: nat :: InTree(t, id) <==> InTree(r.tree, id)
    ensures Agree(p, c, Placed(t, r.pass.(direction := direction)))
  {
  }

  // ----- two operands -----

  /** The numbers of the operands of a catenation: those of the right one follow those of the left one. */
  lemma TwoRanges(p: Pass, n1: nat, n2: nat, id: nat)
    requires p.tag < p.nextTag
    ensures var reserve := n1 > 0 && n2 > 0;
      var p1 := if reserve then p.(nextTag := p.nextTag + 1) else p;
      var p2 := p.(tag := if reserve then p.nextTag else if n1 == 0 then p.tag else p.nextTag + n1 - 1, nextTag := p.nextTag + n1);
      Uses(p, n1 + n2, id) <==> Uses(p1, n1, id) || Uses(p2, n2, id)
  {
  }

  /** Only the numbers of a pass decide. */
  lemma SameUses(p2: Pass, p: Pass, n1: nat, reserve: bool, n2: nat, id: nat)
    requires p2.nextTag == p.nextTag + n1
    requires p2.tag == if reserve then p.nextTag else if n1 == 0 then p.tag else p.nextTag + n1 - 1
    ensures var q := p.(tag := if reserve then p.nextTag else if n1 == 0 then p.tag else p.nextTag + n1 - 1, nextTag := p.nextTag + n1);
      Uses(p2, n2, id) <==> Uses(q, n2, id)
  {
  }

  lemma {:induction false} AgreeCat(m: Marked, l: Marked, r: Marked, p: Pass)
    requires m.node == Cat(l, r) && p.tag < p.nextTag
    ensures var first := Count(l, p.pending); var second := Count(r, first.pending);
      Agree(p, Counted(first.num + second.num, second.pending), PlaceCat(m, l, r, p))
    decreases m, 0
  {
    hide Place, Count, InTree, TagNodes, Uses;
    var first := Count(l, p.pending);
    var second := Count(r, first.pending);
    var reserve := first.num > 0 && second.num > 0;
    var p1 := if reserve then p.(nextTag := p.nextTag + 1) else p;
    Numbers(l, p1);
    var left := Place(l, p1);
    var p2 := AfterLeft(left.pass, p, first.num, reserve);
    Numbers(r, p2);
    var right := Place(r, p2);
    var tree := Catenation(left.tree, right.tree);
    forall id: nat ensures InTree(tree, id) <==> Uses(p, first.num + second.num, id) {
      TwoRanges(p, first.num, second.num, id);
      SameUses(p2, p, first.num, reserve, second.num, id);
      InCatenation(left.tree, right.tree, id);
    }
    forall id: nat ensures id in right.pass.dirs <==> id in p.dirs || InTree(tree, id) {
      InCatenation(left.tree, right.tree, id);
    }
    InCatenation(left.tree, right.tree, 0);
  }

  lemma InCatenation(l: Ast, r: Ast, id: nat)
    ensures InTree(Catenation(l, r), id) <==> InTree(l, id) || InTree(r, id)
    ensures TagNodes(Catenation(l, r)) == TagNodes(l) + TagNodes(r)
  {
  }

  lemma TagOnly(i: nat, id: nat)
    ensures (InTree(Tag(i), id) <==> id == i) && TagNodes(Tag(i)) == 1
  {
  }

  lemma InBoth(l: Ast, r: Ast, id: nat)
    ensures InTree(Union(l, r), id) <==> InTree(l, id) || InTree(r, id)
    ensures TagNodes(Union(l, r)) == TagNodes(l) + TagNodes(r)
  {
  }

  lemma InUnion(l: Ast, r: Ast, i: nat, j: nat, id: nat)
    ensures InTree(Union(l, r), id) <==> InTree(l, id) || InTree(r, id)
    ensures TagNodes(Union(l, r)) == TagNodes(l) + TagNodes(r)
    ensures var t := Union(Catenation(l, Tag(i)), Catenation(r, Tag(j)));
      (InTree(t, id) <==> InTree(l, id) || InTree(r, id) || id == i || id == j) && TagNodes(t) == TagNodes(l) + TagNodes(r) + 2
  {
    hide InTree, TagNodes;
    TagOnly(i, id);
    TagOnly(j, id);
    InCatenation(l, Tag(i), id);
    InCatenation(r, Tag(j), id);
    InBoth(l, r, id);
    InBoth(Catenation(l, Tag(i)), Catenation(r, Tag(j)), id);
  }

  /** Two operands, the second numbered after the first. */
  lemma {:induction false} Operands(m: Marked, l: Marked, r: Marked, p: Pass)
    requires m.node == Alt(l, r) && p.tag < p.nextTag && !p.pending
    ensures var first, second := Count(l, false), Count(r, false);
      var left := Place(l, p); var right := Place(r, left.pass.(pending := false));
      && Agree(p, Counted(first.num + second.num, second.pending), Placed(Union(left.tree, right.tree), right.pass))
      && left.pass.pending == first.pending && right.pass.pending == second.pending
    decreases m, 0
  {
    hide Place, Count, InTree, TagNodes;
    var first, second := Count(l, false), Count(r, false);
    Numbers(l, p);
    var left := Place(l, p);
    var p2 := left.pass.(pending := false);
    Numbers(r, p2);
    var right := Place(r, p2);
    forall id: nat ensures InTree(Union(left.tree, right.tree), id) <==> Uses(p, first.num + second.num, id) {
      InUnion(left.tree, right.tree, 0, 0, id);
    }
    forall id: nat ensures id in right.pass.dirs <==> id in p.dirs || InTree(Union(left.tree, right.tree), id) {
      InUnion(left.tree, right.tree, 0, 0, id);
    }
    InUnion(left.tree, right.tree, 0, 0, 0);
  }

  /** The two tags behind the operands. */
  lemma AgreeTagged(p: Pass, n: nat, pending: bool, left: Ast, right: Ast, q: Pass)
    requires p.tag < p.nextTag && !p.pending
    requires Agree(Reserved(p, true), Counted(n, pending), Placed(Union(left, right), q))
    ensures var tree := Union(Catenation(left, Tag(LeftTag(p))), Catenation(right, Tag(RightTag(p))));
      Agree(p, Counted(n + 2, pending), Placed(tree, q.(dirs := q.dirs[LeftTag(p) := Maximize][RightTag(p) := Maximize])))
  {
    hide InTree, TagNodes;
    var i, j := LeftTag(p), RightTag(p);
    var tree := Union(Catenation(left, Tag(i)), Catenation(right, Tag(j)));
    forall id: nat ensures InTree(tree, id) <==> Uses(p, n + 2, id) {
      InUnion(left, right, i, j, id);
    }
    forall id: nat ensures id in q.dirs[i := Maximize][j := Maximize] <==> id in p.dirs || InTree(tree, id) {
      InUnion(left, right, i, j, id);
    }
    InUnion(left, right, i, j, 0);
  }

  lemma {:induction false} AgreeAlt(m: Marked, l: Marked, r: Marked, p: Pass)
    requires m.node == Alt(l, r) && p.tag < p.nextTag
    ensures var first, second := Count(l, false), Count(r, false);
      Agree(p, Counted(first.num + second.num + (if p.pending then 1 else 0) + if Submatches(m) > 0 then 2 else 0,
                       first.pending || second.pending), PlaceAlt(m, l, r, p))
    decreases m, 1
  {
    hide Place, Count, Agree, TagLeft, Submatches;
    var some, q := Submatches(m) > 0, AfterTag(p);
    var first, second := Count(l, false), Count(r, false);
    var n := first.num + second.num;
    var reserved := Reserved(q, some);
    Operands(m, l, r, reserved);
    var left := Place(l, reserved);
    var right := Place(r, left.pass.(pending := false));
    var tree := Union(left.tree, right.tree);
    var pass := right.pass;
    if some {
      AgreeTagged(q, n, second.pending, left.tree, right.tree, right.pass);
      tree := Union(Catenation(left.tree, Tag(LeftTag(q))), Catenation(right.tree, Tag(RightTag(q))));
      pass := pass.(dirs := pass.dirs[LeftTag(q) := Maximize][RightTag(q) := Maximize]);
      n := n + 2;
    }
    Finished(q, n, second.pending, tree, pass, first.pending || second.pending);
    AgreeBehind(p, Counted(n, first.pending || second.pending), Placed(tree,
        pass.(pending := first.pending || second.pending, direction := Maximize)));
    Joined(m, l, r, p);
  }

  /** The tree and the pass of a union, put together. */
  lemma Joined(m: Marked, l: Marked, r: Marked, p: Pass)
    requires m.node == Alt(l, r)
    ensures var some, q := Submatches(m) > 0, AfterTag(p);
      var left := Place(l, Reserved(q, some)); var right := Place(r, left.pass.(pending := false));
      var after := right.pass.(pending := left.pass.pending || right.pass.pending, direction := Maximize);
      PlaceAlt(m, l, r, p) ==
      if some then Placed(TagLeft(Union(Catenation(left.tree, Tag(LeftTag(q))), Catenation(right.tree, Tag(RightTag(q)))), p),
                          after.(dirs := after.dirs[LeftTag(q) := Maximize][RightTag(q) := Maximize]))
      else Placed(TagLeft(Union(left.tree, right.tree), p), after)
  {
    hide Place, Count, TagLeft, Submatches;
    assert LeftTag(AfterTag(p)) == LeftTag(p) && RightTag(AfterTag(p)) == RightTag(p);
  }

  /** What is left to do for regset and the direction. */
  lemma Finished(p: Pass, n: nat, pending: bool, tree: Ast, q: Pass, pending': bool)
    requires Agree(p, Counted(n, pending), Placed(tree, q))
    ensures Agree(p, Counted(n, pending'), Placed(tree, q.(pending := pending', direction := Maximize)))
  {
  }

  // ----- every node -----

  /** A node that is a group leaves its own offsets pending. */
  lemma AgreeMarked(p: Pass, c: Counted, r: Placed, b: bool)
    requires Agree(p.(pending := p.pending || b), c, r)
    ensures Agree(p, Counted(c.num, c.pending || b), Placed(r.tree, r.pass.(pending := r.pass.pending || b)))
  {
  }

  lemma {:induction false} Numbers(m: Marked, p: Pass)
    requires p.tag < p.nextTag
    ensures Agree(p, Count(m, p.pending), Place(m, p))
    decreases m, 2
  {
    hide Agree, PlaceCat, PlaceAlt, Submatches, InTree, TagNodes, TagLeft, AfterTag;
    var b := m.id >= 0;
    var q := p.(pending := p.pending || b);
    var here := if q.pending then 1 else 0;
    match m.node
    case Lit(lo, hi) =>
      NoTags(lo, hi);
      AgreeLeaf(Literal(lo, hi), q);
      AgreeMarked(p, Counted(here, false), Placed(TagLeft(Literal(lo, hi), q), AfterTag(q)), b);
    case Nothing =>
      AgreeNothing(q);
      AgreeMarked(p, Counted(0, q.pending), Placed(Empty, q), b);
    case Cat(l, r) =>
      AgreeCat(m, l, r, q);
      var first := Count(l, q.pending);
      var second := Count(r, first.pending);
      AgreeMarked(p, Counted(first.num + second.num, second.pending), PlaceCat(m, l, r, q), b);
    case Iter(a, min, max) =>
      AgreeIter(m, a, q);
      var inner, c := Place(a, AfterTag(q).(direction := Minimize)), Count(a, false);
      AgreeMarked(p, Counted(c.num + here, c.pending),
                  Placed(TagLeft(Iteration(inner.tree, min, max), q), inner.pass.(direction := Maximize)), b);
    case Alt(l, r) =>
      AgreeAlt(m, l, r, q);
      var first, second := Count(l, false), Count(r, false);
      AgreeMarked(p, Counted(first.num + second.num + here + if Submatches(m) > 0 then 2 else 0, first.pending || second.pending),
                  PlaceAlt(m, l, r, q), b);
  }

  lemma NoTags(lo: nat, hi: nat)
    ensures TagNodes(Literal(lo, hi)) == 0 && forall id: nat :: !InTree(Literal(lo, hi), id)
  {
  }

  lemma AgreeNothing(p: Pass)
    ensures Agree(p, Counted(0, p.pending), Placed(Empty, p))
  {
  }

  lemma {:induction false} AgreeIter(m: Marked, a: Marked, p: Pass)
    requires m.node.Iter? && a == m.node.arg && p.tag < p.nextTag
    ensures var inner := Place(a, AfterTag(p).(direction := Minimize)); var c := Count(a, false);
      Agree(p, Counted(c.num + if p.pending then 1 else 0, c.pending),
            Placed(TagLeft(Iteration(inner.tree, m.node.min, m.node.max), p), inner.pass.(direction := Maximize)))
    decreases m, 1
  {
    hide Place, Count, TagLeft;
    var start := AfterTag(p).(direction := Minimize);
    Numbers(a, start);
    var inner, c := Place(a, start), Count(a, false);
    var tree := Iteration(inner.tree, m.node.min, m.node.max);
    AgreeIn(start, c, inner, tree, Maximize);
    var r := Placed(tree, inner.pass.(direction := Maximize));
    assert Agree(AfterTag(p), c, r);
    AgreeBehind(p, c, r);
  }

  /** As many tags as counted, numbered 0, 1, 2, and so on, and exactly these have directions. */
  lemma PassesAgree(m: Marked)
    ensures var g := PlaceTags(m);
      && TagNodes(g.tree) == g.numTags
      && (forall id: nat :: InTree(g.tree, id) <==> id < g.numTags)
      && (forall id: nat :: id in g.dirs <==> id < g.numTags)
  {
    hide Place, Count, InTree, TagNodes;
    Numbers(m, Pass(false, 0, 1, Minimize, map[]));
  }
}
