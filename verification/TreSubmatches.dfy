/** tre_add_tags (tre-compile.c) for patterns with any number of submatches, without minimal repetition:
    where the tags go, how they are numbered and in which direction each is optimized. The loop over the
    symbol stack is in TreAddTags. */
module TreSubmatches {
  import opened TreAst
  import opened TreMarked
  import opened TreTags

  // ----- the first pass -----

  /** num_tags of a node, and whether regset is left non-empty. */
  datatype Counted = Counted(num: nat, pending: bool)

  function Count(m: Marked, pending0: bool): Counted {
    var pending := pending0 || m.id >= 0;
    var here := if pending then 1 else 0;
    var r := match m.node
      case Lit(_, _) => Counted(here, false)
      case Nothing => Counted(0, pending)
      case Cat(l, r) =>
        var first := Count(l, pending);
        var second := Count(r, first.pending);
        Counted(first.num + second.num, second.pending)
      case Iter(a, _, _) =>
        var inner := Count(a, false);
        Counted(inner.num + here, inner.pending)
      case Alt(l, r) =>
        var first, second := Count(l, false), Count(r, false);
        Counted(first.num + second.num + here + if Submatches(m) > 0 then 2 else 0, first.pending || second.pending);
    Counted(r.num, r.pending || m.id >= 0)
  }

  // ----- the second pass -----

  /** `pending`: regset is not empty; the tag to be added next, the one after it, and its direction. */
  datatype Pass = Pass(pending: bool, tag: nat, nextTag: nat, direction: Direction, dirs: Directions)

  /** A tag has been added: the pending offsets use it. */
  function Used(p: Pass): Pass {
    Pass(false, p.nextTag, p.nextTag + 1, p.direction, p.dirs[p.tag := p.direction])
  }

  /** tre_add_tag_left, if a tag is due. */
  function TagLeft(t: Ast, p: Pass): Ast { if p.pending then Catenation(Tag(p.tag), t) else t }

  function AfterTag(p: Pass): Pass { if p.pending then Used(p) else p }

  datatype Placed = Placed(tree: Ast, pass: Pass)

  function Place(m: Marked, p0: Pass): Placed
    decreases m, 1
  {
    var p := p0.(pending := p0.pending || m.id >= 0);
    var r := match m.node
      case Lit(lo, hi) => Placed(TagLeft(Literal(lo, hi), p), AfterTag(p))
      case Nothing => Placed(Empty, p)
      case Cat(l, r) => PlaceCat(m, l, r, p)
      case Iter(a, min, max) =>
        var inner := Place(a, AfterTag(p).(direction := Minimize));
        Placed(TagLeft(Iteration(inner.tree, min, max), p), inner.pass.(direction := Maximize))
      case Alt(l, r) => PlaceAlt(m, l, r, p);
    Placed(r.tree, r.pass.(pending := r.pass.pending || m.id >= 0))
  }

  /** Between the operands of a catenation: the numbers for the left operand are used up, and the reserved
      one, if any, comes next. */
  function AfterLeft(q: Pass, p: Pass, num: nat, reserve: bool): Pass {
    Pass(q.pending, if reserve then p.nextTag else q.tag, p.nextTag + num, q.direction, q.dirs)
  }

  /** When both operands take tags, the next one is reserved for the right operand. */
  function PlaceCat(m: Marked, l: Marked, r: Marked, p: Pass): Placed
    requires m.node == Cat(l, r)
    decreases m, 0
  {
    var first := Count(l, p.pending);
    var reserve := first.num > 0 && Count(r, first.pending).num > 0;
    var left := Place(l, if reserve then p.(nextTag := p.nextTag + 1) else p);
    var right := Place(r, AfterLeft(left.pass, p, first.num, reserve));
    Placed(Catenation(left.tree, right.tree), right.pass)
  }

  /** The tags behind the operands of a union. */
  function LeftTag(p: Pass): nat { if p.pending then p.nextTag else p.tag }

  function RightTag(p: Pass): nat { if p.pending then p.nextTag + 1 else p.nextTag }

  /** The numbers that are left for the operands. */
  function Reserved(p: Pass, some: bool): Pass {
    if some then p.(tag := p.nextTag + 1, nextTag := p.nextTag + 2) else p
  }

  /** A union with submatches has a tag behind each operand, a smaller one behind the left operand. */
  function PlaceAlt(m: Marked, l: Marked, r: Marked, p: Pass): Placed
    requires m.node == Alt(l, r)
    decreases m, 0
  {
    var some := Submatches(m) > 0;
    var left := Place(l, Reserved(AfterTag(p), some));
    var right := Place(r, left.pass.(pending := false));
    var after := right.pass.(pending := left.pass.pending || right.pass.pending, direction := Maximize);
    if some then
      Placed(TagLeft(Union(Catenation(left.tree, Tag(LeftTag(p))), Catenation(right.tree, Tag(RightTag(p)))), p),
             after.(dirs := after.dirs[LeftTag(p) := Maximize][RightTag(p) := Maximize]))
    else Placed(TagLeft(Union(left.tree, right.tree), p), after)
  }

  /** tre_add_tags. */
  function PlaceTags(m: Marked): Tagged {
    var r := Place(m, Pass(false, 0, 1, Minimize, map[]));
    Tagged(r.tree, Count(m, false).num, r.pass.dirs)
  }

  // ----- the tags do not change the language -----

  lemma {:induction false} PlaceKeepsLanguage(m: Marked, p: Pass)
    ensures Lang(Place(m, p).tree) == Lang(Unmarked(m))
    decreases m, 1
  {
    var q := p.(pending := p.pending || m.id >= 0);
    match m.node
    case Lit(lo, hi) => TagLeftKeeps(Literal(lo, hi), q);
    case Nothing =>
    case Cat(l, r) => CatKeepsLanguage(m, l, r, q);
    case Iter(a, min, max) =>
      PlaceKeepsLanguage(a, AfterTag(q).(direction := Minimize));
      TagLeftKeeps(Iteration(Place(a, AfterTag(q).(direction := Minimize)).tree, min, max), q);
    case Alt(l, r) => AltKeepsLanguage(m, l, r, q);
  }

  lemma TagLeftKeeps(t: Ast, p: Pass)
    ensures Lang(TagLeft(t, p)) == Lang(t)
  {
    TagBefore(t, p.tag);
  }

  lemma {:induction false} CatKeepsLanguage(m: Marked, l: Marked, r: Marked, p: Pass)
    requires m.node == Cat(l, r)
    ensures Lang(PlaceCat(m, l, r, p).tree) == Lang(Unmarked(m))
    decreases m, 0
  {
    hide Lang, Place, Count, Concat;
    var first := Count(l, p.pending);
    var reserve := first.num > 0 && Count(r, first.pending).num > 0;
    var p1 := if reserve then p.(nextTag := p.nextTag + 1) else p;
    var p2 := AfterLeft(Place(l, p1).pass, p, first.num, reserve);
    PlaceKeepsLanguage(l, p1);
    PlaceKeepsLanguage(r, p2);
    LangOfCatenation(Place(l, p1).tree, Place(r, p2).tree);
    LangOfCatenation(Unmarked(l), Unmarked(r));
  }

  lemma {:induction false} AltKeepsLanguage(m: Marked, l: Marked, r: Marked, p: Pass)
    requires m.node == Alt(l, r)
    ensures Lang(PlaceAlt(m, l, r, p).tree) == Lang(Unmarked(m))
    decreases m, 0
  {
    hide Lang, Place, Submatches, Concat;
    var leftTag, rightTag := LeftTag(p), RightTag(p);
    var reserved := Reserved(AfterTag(p), Submatches(m) > 0);
    var q := Place(l, reserved).pass.(pending := false);
    var left, right := Place(l, reserved).tree, Place(r, q).tree;
    PlaceKeepsLanguage(l, reserved);
    PlaceKeepsLanguage(r, q);
    TagBehind(left, leftTag);
    TagBehind(right, rightTag);
    LangOfUnion(left, right);
    LangOfUnion(Catenation(left, Tag(leftTag)), Catenation(right, Tag(rightTag)));
    LangOfUnion(Unmarked(l), Unmarked(r));
    TagLeftKeeps(Union(left, right), p);
    TagLeftKeeps(Union(Catenation(left, Tag(leftTag)), Catenation(right, Tag(rightTag))), p);
  }

  // ----- only the whole match -----

  /** The tree without marks. */
  function Plain(t: Ast): (m: Marked)
    requires TagFree(t)
    ensures Unmarked(m) == t && m.id == -1 && Submatches(m) == 0
  {
    match t
    case Literal(lo, hi) => Marked(Lit(lo, hi), -1)
    case Empty => Marked(Nothing, -1)
    case Catenation(l, r) => Marked(Cat(Plain(l), Plain(r)), -1)
    case Iteration(a, min, max) => Marked(Iter(Plain(a), min, max), -1)
    case Union(l, r) => Marked(Alt(Plain(l), Plain(r)), -1)
  }

  /** The tree marked as the parser marks it when the pattern has no groups: the whole is submatch 0. */
  function WholeMarked(t: Ast): Marked
    requires TagFree(t)
  {
    Plain(t).(id := 0)
  }

  /** Nothing pending: no tag is placed, and none is used up. */
  lemma {:induction false} NothingPending(t: Ast, p: Pass)
    requires TagFree(t) && !p.pending
    ensures Count(Plain(t), false) == Counted(0, false)
    ensures Place(Plain(t), p).tree == t && Place(Plain(t), p).pass == p.(direction := Place(Plain(t), p).pass.direction)
    decreases t
  {
    match t
    case Literal(_, _) =>
    case Empty =>
    case Catenation(l, r) =>
      NothingPending(l, p);
      NothingPending(r, AfterLeft(Place(Plain(l), p).pass, p, 0, false));
    case Iteration(a, _, _) =>
      NothingPending(a, p.(direction := Minimize));
    case Union(l, r) =>
      NothingPending(l, p);
      NothingPending(r, Place(Plain(l), p).pass);
  }

  /** What becomes of the start of the whole match when it is pending. */
  ghost predicate Started(t: Ast, p: Pass)
    requires TagFree(t)
  {
    var q := Place(Plain(t), p).pass;
    && Count(Plain(t), true) == Counted(if Places(t) then 1 else 0, !Places(t))
    && Place(Plain(t), p).tree == (if Places(t) then PlaceTag(t, p.tag) else t)
    && q.pending == !Places(t) && (if Places(t) then q.dirs == p.dirs[p.tag := p.direction] else q == p)
  }

  lemma PlaceOfCat(m: Marked, l: Marked, r: Marked, p: Pass)
    requires m == Marked(Cat(l, r), -1)
    ensures Place(m, p) == PlaceCat(m, l, r, p)
  {
    hide PlaceCat, PlaceAlt, Count, Submatches, AfterTag, TagLeft;
    assert p.(pending := p.pending || m.id >= 0) == p;
  }

  lemma CountOfCat(l: Marked, r: Marked, pending: bool)
    ensures var first := Count(l, pending); var second := Count(r, first.pending);
      Count(Marked(Cat(l, r), -1), pending) == Counted(first.num + second.num, second.pending)
  {
  }

  /** An unmarked catenation of which at most one operand takes a tag. */
  lemma UnmarkedCat(l: Marked, r: Marked, p: Pass)
    requires var first := Count(l, p.pending); first.num == 0 || Count(r, first.pending).num == 0
    ensures var m := Marked(Cat(l, r), -1); var first := Count(l, p.pending); var q := AfterLeft(Place(l, p).pass, p, first.num, false);
      && Count(m, p.pending) == Counted(first.num + Count(r, first.pending).num, Count(r, first.pending).pending)
      && Place(m, p) == Placed(Catenation(Place(l, p).tree, Place(r, q).tree), Place(r, q).pass)
  {
    hide Place, PlaceAlt, Count, Submatches, AfterTag, TagLeft;
    CountOfCat(l, r, p.pending);
    PlaceOfCat(Marked(Cat(l, r), -1), l, r, p);
  }

  lemma StartedCat(l: Ast, r: Ast, p: Pass)
    requires TagFree(l) && TagFree(r) && p.pending && Started(l, p) && (!Places(l) ==> Started(r, p))
    ensures Started(Catenation(l, r), p)
  {
    hide Place, Count, PlaceTag, Places, Plain, Submatches;
    PlainCat(l, r);
    PlaceTagCat(l, r, p.tag);
    if Places(l) {
      NothingPending(r, AfterLeft(Place(Plain(l), p).pass, p, 1, false));
      UnmarkedCat(Plain(l), Plain(r), p);
    } else {
      UnmarkedCat(Plain(l), Plain(r), p);
      assert AfterLeft(Place(Plain(l), p).pass, p, 0, false) == p;
    }
  }

  lemma PlainCat(l: Ast, r: Ast)
    requires TagFree(l) && TagFree(r)
    ensures TagFree(Catenation(l, r)) && Plain(Catenation(l, r)) == Marked(Cat(Plain(l), Plain(r)), -1)
  {
  }

  lemma PlaceTagCat(l: Ast, r: Ast, id: nat)
    ensures PlaceTag(Catenation(l, r), id)
         == if Places(l) then Catenation(PlaceTag(l, id), r) else Catenation(l, PlaceTag(r, id))
    ensures Places(Catenation(l, r)) <==> Places(l) || Places(r)
  {
  }

  /** One tag, before the first node that takes one. */
  lemma {:induction false} StartPending(t: Ast, p: Pass)
    requires TagFree(t) && p.pending
    ensures Started(t, p)
    decreases t
  {
    match t
    case Catenation(l, r) =>
      StartPending(l, p);
      if !Places(l) {
        StartPending(r, p);
      }
      StartedCat(l, r, p);
    case _ => StartedHere(t, p);
  }

  lemma StartedHere(t: Ast, p: Pass)
    requires TagFree(t) && p.pending && !t.Catenation?
    ensures Started(t, p)
  {
    match t
    case Iteration(a, _, _) =>
      NothingPending(a, AfterTag(p).(direction := Minimize));
    case Union(l, r) => StartedUnion(l, r, p);
    case _ =>
  }

  lemma StartedUnion(l: Ast, r: Ast, p: Pass)
    requires TagFree(l) && TagFree(r) && p.pending
    ensures Started(Union(l, r), p)
  {
    NothingPending(l, AfterTag(p));
    NothingPending(r, Place(Plain(l), AfterTag(p)).pass);
  }

  /** For a pattern without groups tre_add_tags does what TagWholeMatch says. */
  lemma WholeMatchTags(t: Ast)
    requires TagFree(t)
    ensures PlaceTags(WholeMarked(t)) == TagWholeMatch(t)
  {
    var p := Pass(true, 0, 1, Minimize, map[]);
    match t
    case Union(l, r) => UnionTags(l, r);
    case Catenation(l, r) =>
      StartPending(t, p);
      SamePlaces(t);
    case _ =>
      StartPending(t, p);
  }

  lemma SamePlaces(t: Ast)
    requires TagFree(t) && t.Catenation?
    ensures var m := Pass(false, 0, 1, Minimize, map[]);
      && Place(WholeMarked(t), m).tree == Place(Plain(t), m.(pending := true)).tree
      && Place(WholeMarked(t), m).pass.dirs == Place(Plain(t), m.(pending := true)).pass.dirs
      && Count(WholeMarked(t), false).num == Count(Plain(t), true).num
  {
    hide Count, PlaceTag;
    CountRoot(t);
  }

  lemma CountRoot(t: Ast)
    requires TagFree(t) && t.Catenation?
    ensures Count(WholeMarked(t), false).num == Count(Plain(t), true).num
  {
  }

  lemma UnionTags(l: Ast, r: Ast)
    requires TagFree(l) && TagFree(r)
    ensures PlaceTags(WholeMarked(Union(l, r))) == TagWholeMatch(Union(l, r))
  {
    var m := WholeMarked(Union(l, r));
    assert Submatches(m) == 1;
    var p := Pass(true, 0, 1, Minimize, map[]);
    var reserved := Pass(false, 3, 4, Minimize, map[0 := Minimize]);
    assert AfterTag(p) == Pass(false, 1, 2, Minimize, map[0 := Minimize]);
    NothingPending(l, reserved);
    NothingPending(r, Place(Plain(l), reserved).pass);
    assert map[0 := Minimize][1 := Maximize][2 := Maximize] == UNION_DIRS;
    PlaceAltRoot(m, Plain(l), Plain(r), p, reserved);
  }

  lemma CountOfRootAlt(l: Marked, r: Marked)
    ensures Count(Marked(Alt(l, r), 0), false).num == Count(l, false).num + Count(r, false).num + 3
  {
    assert Submatches(Marked(Alt(l, r), 0)) > 0;
  }

  lemma PlaceAltRoot(m: Marked, l: Marked, r: Marked, p: Pass, reserved: Pass)
    requires m == Marked(Alt(l, r), 0) && p == Pass(true, 0, 1, Minimize, map[])
    requires reserved == Pass(false, 3, 4, Minimize, map[0 := Minimize])
    ensures var left := Place(l, reserved); var right := Place(r, left.pass.(pending := false));
      && Place(m, p.(pending := false)).tree == Catenation(Tag(0), Union(Catenation(left.tree, Tag(1)), Catenation(right.tree, Tag(2))))
      && Place(m, p.(pending := false)).pass.dirs == right.pass.dirs[1 := Maximize][2 := Maximize]
  {
    assert Submatches(m) > 0;
    assert map[][0 := Minimize] == map[0 := Minimize];
    hide Submatches, Count;
  }
}
