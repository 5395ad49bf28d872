/** tre_add_tags (tre-compile.c) for a pattern whose only submatch is the whole match. */
module TreTags {
  import opened TreAst
  import opened TreExpand

  // ----- tre_add_tags -----

  /** Whether tre_add_tags finds a node to put the start tag before: only empty nodes take none. */
  predicate Places(t: Ast) {
    match t
    case Catenation(l, r) => Places(l) || Places(r)
    case Empty => false
    case Tag(_) => false
    case _ => true
  }

  /** tre_add_tag_left at the first node that takes the pending tag. */
  function PlaceTag(t: Ast, id: nat): Ast {
    match t
    case Catenation(l, r) => if Places(l) then Catenation(PlaceTag(l, id), r) else Catenation(l, PlaceTag(r, id))
    case Empty => t
    case Tag(_) => t
    case _ => Catenation(Tag(id), t)
  }

  /** Tags around and behind the operands of a union at the root. */
  function UnionTree(l: Ast, r: Ast): Ast {
    Catenation(Tag(0), Union(Catenation(l, Tag(1)), Catenation(r, Tag(2))))
  }

  const UNION_DIRS: Directions := map[0 := Minimize, 1 := Maximize, 2 := Maximize]

  datatype Tagged = Tagged(tree: Ast, numTags: nat, dirs: Directions)

  /** What tre_add_tags makes of a tree whose root is the only submatch: a start tag, and after the
      operands of a union at the root one tag each. */
  function TagWholeMatch(t: Ast): Tagged {
    if t.Union? then Tagged(UnionTree(t.left, t.right), 3, UNION_DIRS)
    else if Places(t) then Tagged(PlaceTag(t, 0), 1, map[0 := Minimize])
    else Tagged(t, 0, map[])
  }

  lemma LangOfCatenation(l: Ast, r: Ast)
    ensures Lang(Catenation(l, r)) == Concat(Lang(l), Lang(r))
  {
  }

  lemma TagBehind(x: Ast, id: nat)
    ensures Lang(Catenation(x, Tag(id))) == Lang(x)
  {
    var none := Lang(Tag(id));
    assert none == iset{[]};
    LangOfCatenation(x, Tag(id));
    ConcatUnitRight(Lang(x));
  }

  lemma TagBefore(x: Ast, id: nat)
    ensures Lang(Catenation(Tag(id), x)) == Lang(x)
  {
    var none := Lang(Tag(id));
    assert none == iset{[]};
    LangOfCatenation(Tag(id), x);
    ConcatUnitLeft(Lang(x));
  }

  lemma {:induction false} PlaceTagLanguage(t: Ast, id: nat)
    ensures Lang(PlaceTag(t, id)) == Lang(t)
  {
    match t
    case Catenation(l, r) =>
      PlaceTagLanguage(l, id);
      PlaceTagLanguage(r, id);
      LangOfCatenation(l, r);
      LangOfCatenation(PlaceTag(l, id), r);
      LangOfCatenation(l, PlaceTag(r, id));
    case Empty =>
    case Tag(_) =>
    case _ => TagBefore(t, id);
  }

  lemma {:induction false} PlaceTagWellFormed(t: Ast, id: nat)
    requires WellFormed(t)
    ensures WellFormed(PlaceTag(t, id))
  {
    match t
    case Catenation(l, r) => PlaceTagWellFormed(l, id); PlaceTagWellFormed(r, id);
    case _ => assert WellFormed(Tag(id));
  }

  lemma UnionTreeLanguage(l: Ast, r: Ast)
    ensures Lang(UnionTree(l, r)) == Lang(Union(l, r))
  {
    var cl, cr := Catenation(l, Tag(1)), Catenation(r, Tag(2));
    TagBehind(l, 1);
    TagBehind(r, 2);
    LangOfUnion(cl, cr);
    LangOfUnion(l, r);
    TagBefore(Union(cl, cr), 0);
  }

  lemma LangOfUnion(l: Ast, r: Ast)
    ensures Lang(Union(l, r)) == Lang(l) + Lang(r)
  {
  }

  lemma ExpandTagBehind(x: Ast, id: nat, dirs: Directions)
    requires WellFormed(x)
    ensures var t := Catenation(x, Tag(id));
      WellFormed(t) && Expand(t) == Catenation(Expand(x), Tag(id)) && ExpandDirs(t, dirs) == ExpandDirs(x, dirs)
  {
    assert WellFormed(Tag(id)) && Expand(Tag(id)) == Tag(id);
  }

  lemma ExpandTagBefore(x: Ast, id: nat, dirs: Directions)
    requires WellFormed(x)
    ensures var t := Catenation(Tag(id), x);
      WellFormed(t) && Expand(t) == Catenation(Tag(id), Expand(x)) && ExpandDirs(t, dirs) == ExpandDirs(x, dirs)
  {
    assert WellFormed(Tag(id)) && Expand(Tag(id)) == Tag(id) && ExpandDirs(Tag(id), dirs) == dirs;
  }

  lemma ExpandUnion(l: Ast, r: Ast, dirs: Directions)
    requires WellFormed(l) && WellFormed(r)
    ensures WellFormed(Union(l, r))
    ensures Expand(Union(l, r)) == Union(Expand(l), Expand(r))
    ensures ExpandDirs(Union(l, r), dirs) == ExpandDirs(r, ExpandDirs(l, dirs))
  {
    var t := Union(l, r);
    assert WellFormed(t);
  }

  lemma UnionTreeExpands(l: Ast, r: Ast, dirs: Directions)
    requires WellFormed(l) && WellFormed(r)
    ensures WellFormed(UnionTree(l, r))
    ensures Expand(UnionTree(l, r)) == UnionTree(Expand(l), Expand(r))
    ensures ExpandDirs(UnionTree(l, r), dirs) == ExpandDirs(r, ExpandDirs(l, dirs))
  {
    var cl, cr := Catenation(l, Tag(1)), Catenation(r, Tag(2));
    ExpandTagBehind(l, 1, dirs);
    ExpandTagBehind(r, 2, ExpandDirs(l, dirs));
    ExpandUnion(cl, cr, dirs);
    ExpandTagBefore(Union(cl, cr), 0, dirs);
  }

  /** The tags do not change the language. */
  lemma TaggingKeepsLanguage(t: Ast)
    requires WellFormed(t)
    ensures WellFormed(TagWholeMatch(t).tree) && Lang(TagWholeMatch(t).tree) == Lang(t)
  {
    if t.Union? {
      UnionTreeLanguage(t.left, t.right);
      UnionTreeExpands(t.left, t.right, map[]);
    } else if Places(t) {
      PlaceTagLanguage(t, 0);
      PlaceTagWellFormed(t, 0);
    }
  }

  /** Only empty nodes. */
  predicate Blank(t: Ast) {
    match t
    case Catenation(l, r) => Blank(l) && Blank(r)
    case Empty => true
    case _ => false
  }

  /** Tags other than 0 only. */
  predicate NoZero(t: Ast) {
    match t
    case Tag(id) => id != 0
    case Catenation(l, r) => NoZero(l) && NoZero(r)
    case Union(l, r) => NoZero(l) && NoZero(r)
    case Iteration(a, _, _) => NoZero(a)
    case _ => true
  }

  lemma {:induction false} TagFreeNoZero(t: Ast)
    requires TagFree(t)
    ensures NoZero(t)
  {
    match t
    case Catenation(l, r) => TagFreeNoZero(l); TagFreeNoZero(r);
    case Union(l, r) => TagFreeNoZero(l); TagFreeNoZero(r);
    case Iteration(a, _, _) => TagFreeNoZero(a);
    case _ =>
  }

  /** Tag 0 stands before everything that reads a byte, outside all iterations and unions, and nowhere else. */
  predicate Led(t: Ast) {
    t.Catenation?
    && (((t.left == Tag(0) || Led(t.left)) && NoZero(t.right)) || (Blank(t.left) && Led(t.right)))
  }

  lemma {:induction false} BlankStays(t: Ast)
    requires TagFree(t) && !Places(t) && WellFormed(t)
    ensures Blank(Expand(t))
  {
    match t
    case Catenation(l, r) => BlankStays(l); BlankStays(r);
    case _ =>
  }

  lemma {:induction false} PlacedIsLed(t: Ast)
    requires TagFree(t) && WellFormed(t) && Places(t)
    ensures WellFormed(PlaceTag(t, 0)) && Led(Expand(PlaceTag(t, 0)))
  {
    ExpandTagFree(t, map[]);
    TagFreeNoZero(Expand(t));
    match t
    case Catenation(l, r) =>
      ExpandTagFree(r, map[]);
      TagFreeNoZero(Expand(r));
      if Places(l) {
        PlacedIsLed(l);
      } else {
        BlankStays(l);
        PlacedIsLed(r);
      }
    case _ =>
  }

  lemma {:induction false} PlacedDirs(t: Ast, dirs: Directions)
    requires TagFree(t) && WellFormed(t)
    ensures WellFormed(PlaceTag(t, 0)) && ExpandDirs(PlaceTag(t, 0), dirs) == dirs
  {
    ExpandTagFree(t, dirs);
    match t
    case Catenation(l, r) =>
      PlacedDirs(l, dirs);
      PlacedDirs(r, dirs);
      ExpandTagFree(l, dirs);
      ExpandTagFree(r, dirs);
    case _ =>
  }

  lemma {:induction false} BlankLanguage(t: Ast)
    requires TagFree(t) && !Places(t)
    ensures Lang(t) == iset{[]}
  {
    match t
    case Catenation(l, r) => BlankLanguage(l); BlankLanguage(r); ConcatUnitLeft(iset{[]});
    case _ =>
  }
}
