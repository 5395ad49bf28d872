/** What unrolling bounded repetition does to the tags (tre_copy_ast and tre_expand_ast, tre-compile.c): which copies keep
    them, and which tags are optimized the other way afterwards. */
module TreExpandTags {
  import opened TreAst
  import opened TreExpand

  /** The tags of a tree, from left to right. */
  function TagsOf(t: Ast): seq<nat> {
    match t
    case Tag(id) => [id]
    case Catenation(l, r) => TagsOf(l) + TagsOf(r)
    case Union(l, r) => TagsOf(l) + TagsOf(r)
    case Iteration(a, _, _) => TagsOf(a)
    case _ => []
  }

  function Times(s: seq<nat>, n: nat): seq<nat> { if n == 0 then [] else s + Times(s, n - 1) }

  lemma {:induction false} TagsOfCopy(t: Ast, flags: CopyFlags)
    ensures TagsOf(CopyOf(t, flags)) == if flags == RemoveTags then [] else TagsOf(t)
  {
    match t
    case Catenation(l, r) => TagsOfCopy(l, flags); TagsOfCopy(r, flags);
    case Union(l, r) => TagsOfCopy(l, flags); TagsOfCopy(r, flags);
    case Iteration(a, _, _) => TagsOfCopy(a, flags);
    case _ =>
  }

  lemma {:induction false} TagsOfUntagged(a: Ast, n: nat)
    requires n > 0
    ensures TagsOf(Untagged(a, n)) == []
  {
    TagsOfCopy(a, RemoveTags);
    if n > 1 {
      TagsOfUntagged(a, n - 1);
    }
  }

  lemma TagsOfRequired(a: Ast, n: nat)
    requires n > 0
    ensures TagsOf(Required(a, n)) == TagsOf(a)
  {
    if n > 1 {
      TagsOfUntagged(a, n - 1);
    }
  }

  lemma {:induction false} TagsOfOptional(a: Ast, n: nat)
    requires n > 0
    ensures TagsOf(Optional(a, n)) == Times(TagsOf(a), n)
  {
    if n == 1 {
      assert TagsOf(a) + Times(TagsOf(a), 0) == TagsOf(a);
    } else {
      TagsOfOptional(a, n - 1);
    }
  }

  /** Of the copies that must be there only the last has its tags, and each of the others has. */
  function TaggedCopies(min: nat, max: int): nat
    requires max == -1 || min <= max
  {
    if min <= 1 && max <= 1 then 1 else (if min == 0 then 0 else 1) + if max == -1 then 1 else max - min
  }

  lemma TagsOfUnrolled(a: Ast, min: nat, max: int)
    requires (min > 1 || max > 1) && (max == -1 || min <= max)
    ensures TagsOf(Unroll(a, min, max)) == Times(TagsOf(a), TaggedCopies(min, max))
  {
    if min > 0 {
      TagsOfRequired(a, min);
    }
    if max > min {
      TagsOfOptional(a, max - min);
    }
    assert Times(TagsOf(a), 1) == TagsOf(a) + Times(TagsOf(a), 0) == TagsOf(a);
    assert Times(TagsOf(a), 2) == TagsOf(a) + Times(TagsOf(a), 1);
  }

  function TagsExpanded(t: Ast): seq<nat>
    requires WellFormed(t)
  {
    match t
    case Tag(id) => [id]
    case Catenation(l, r) => TagsExpanded(l) + TagsExpanded(r)
    case Union(l, r) => TagsExpanded(l) + TagsExpanded(r)
    case Iteration(a, min, max) => Times(TagsExpanded(a), TaggedCopies(min, max))
    case _ => []
  }

  /** The tags after expansion: those of an iteration as often as copies keep them. */
  lemma {:induction false} ExpandedTags(t: Ast)
    requires WellFormed(t)
    ensures TagsOf(Expand(t)) == TagsExpanded(t)
  {
    match t
    case Catenation(l, r) => ExpandedTags(l); ExpandedTags(r);
    case Union(l, r) => ExpandedTags(l); ExpandedTags(r);
    case Iteration(a, min, max) =>
      ExpandedTags(a);
      if min > 1 || max > 1 {
        TagsOfUnrolled(Expand(a), min, max);
      } else {
        assert Times(TagsExpanded(a), 1) == TagsExpanded(a) + Times(TagsExpanded(a), 0) == TagsExpanded(a);
      }
    case _ =>
  }

  lemma {:induction false} InTimes(s: seq<nat>, n: nat, id: nat)
    requires n > 0
    ensures id in Times(s, n) <==> id in s
    ensures (Times(s, n) == [] <==> s == []) && (s != [] ==> Times(s, n)[0] == s[0])
  {
    if n > 1 {
      InTimes(s, n - 1, id);
    }
  }

  /** No tag is lost, and the first one stays the first. */
  lemma {:induction false} ExpandKeepsTags(t: Ast, id: nat)
    requires WellFormed(t)
    ensures id in TagsOf(Expand(t)) <==> id in TagsOf(t)
    ensures (TagsOf(Expand(t)) == [] <==> TagsOf(t) == []) && (TagsOf(t) != [] ==> TagsOf(Expand(t))[0] == TagsOf(t)[0])
  {
    ExpandedTags(t);
    match t
    case Catenation(l, r) => ExpandedTags(l); ExpandedTags(r); ExpandKeepsTags(l, id); ExpandKeepsTags(r, id);
    case Union(l, r) => ExpandedTags(l); ExpandedTags(r); ExpandKeepsTags(l, id); ExpandKeepsTags(r, id);
    case Iteration(a, min, max) =>
      ExpandedTags(a);
      ExpandKeepsTags(a, id);
      InTimes(TagsExpanded(a), TaggedCopies(min, max), id);
    case _ =>
  }

  // ----- directions -----

  lemma {:induction false} HasTags(t: Ast)
    ensures HasTag(t) <==> TagsOf(t) != []
  {
    match t
    case Catenation(l, r) => HasTags(l); HasTags(r);
    case Union(l, r) => HasTags(l); HasTags(r);
    case Iteration(a, _, _) => HasTags(a);
    case _ =>
  }

  lemma {:induction false} FirstIsMaximized(t: Ast, dirs: Directions)
    ensures MaximizeFirst(t, dirs) == if TagsOf(t) == [] then dirs else dirs[TagsOf(t)[0] := Maximize]
  {
    match t
    case Catenation(l, r) => HasTags(l); FirstIsMaximized(l, dirs); FirstIsMaximized(r, dirs);
    case Union(l, r) => HasTags(l); FirstIsMaximized(l, dirs); FirstIsMaximized(r, dirs);
    case Iteration(a, _, _) => FirstIsMaximized(a, dirs);
    case _ =>
  }

  /** The tag is the first one in what some iteration repeats by count, at least once. */
  predicate LeadsCounted(t: Ast, id: nat) {
    match t
    case Catenation(l, r) => LeadsCounted(l, id) || LeadsCounted(r, id)
    case Union(l, r) => LeadsCounted(l, id) || LeadsCounted(r, id)
    case Iteration(a, min, max) =>
      LeadsCounted(a, id) || (min > 0 && (min > 1 || max > 1) && TagsOf(a) != [] && TagsOf(a)[0] == id)
    case _ => false
  }

  /** Those tags are maximized afterwards, and no other tag changes its direction. */
  lemma {:induction false} ExpandedDirections(t: Ast, dirs: Directions, id: nat)
    requires WellFormed(t)
    ensures var after := ExpandDirs(t, dirs);
      if LeadsCounted(t, id) then id in after && after[id] == Maximize
      else (id in after <==> id in dirs) && (id in dirs ==> after[id] == dirs[id])
  {
    match t
    case Catenation(l, r) => ExpandedDirections(l, dirs, id); ExpandedDirections(r, ExpandDirs(l, dirs), id);
    case Union(l, r) => ExpandedDirections(l, dirs, id); ExpandedDirections(r, ExpandDirs(l, dirs), id);
    case Iteration(a, min, max) =>
      ExpandedDirections(a, dirs, id);
      FirstIsMaximized(Expand(a), ExpandDirs(a, dirs));
      ExpandKeepsTags(a, id);
    case _ =>
  }
}
