/** Unrolling of bounded repetition (tre_copy_ast and tre_expand_ast, tre-compile.c).

    Both C functions walk the tree with an explicit stack.  Each loop is proved against a
    "big-step" reading of its stack: `...Run` applies, top first, the whole effect of every
    frame, so one loop iteration replaces a frame by smaller ones with the same total effect. */
module TreExpand {
  import opened TreAst

  // ----- what the two functions compute -----

  datatype CopyFlags = KeepTags | RemoveTags | MaximizeFirstTag

  function CopyOf(t: Ast, flags: CopyFlags): Ast {
    match t
    case Tag(_) => if flags == RemoveTags then Empty else t
    case Catenation(l, r) => Catenation(CopyOf(l, flags), CopyOf(r, flags))
    case Union(l, r) => Union(CopyOf(l, flags), CopyOf(r, flags))
    case Iteration(a, min, max) => Iteration(CopyOf(a, flags), min, max)
    case _ => t
  }

  predicate HasTag(t: Ast) { !TagFree(t) }

  /** The directions after the first tag of `t`, in left-to-right order, has been maximized. */
  function MaximizeFirst(t: Ast, dirs: Directions): Directions {
    match t
    case Tag(id) => dirs[id := Maximize]
    case Catenation(l, r) => if HasTag(l) then MaximizeFirst(l, dirs) else MaximizeFirst(r, dirs)
    case Union(l, r) => if HasTag(l) then MaximizeFirst(l, dirs) else MaximizeFirst(r, dirs)
    case Iteration(a, _, _) => MaximizeFirst(a, dirs)
    case _ => dirs
  }

  /** `n` catenated copies, all but the last without tags. */
  function Required(a: Ast, n: nat): Ast
    requires n > 0
  {
    if n == 1 then a else Catenation(Untagged(a, n - 1), a)
  }

  function Untagged(a: Ast, n: nat): Ast
    requires n > 0
  {
    if n == 1 then CopyOf(a, RemoveTags) else Catenation(Untagged(a, n - 1), CopyOf(a, RemoveTags))
  }

  /** `(a(a(a)?)?)?`, nested `n` deep. */
  function Optional(a: Ast, n: nat): Ast
    requires n > 0
  {
    if n == 1 then Iteration(a, 0, 1) else Iteration(Catenation(a, Optional(a, n - 1)), 0, 1)
  }

  predicate NeedsUnrolling(min: nat, max: int) { min > 1 || max > 1 }

  function Unroll(a: Ast, min: nat, max: int): Ast
    requires NeedsUnrolling(min, max) && (max == -1 || min <= max)
  {
    if max == -1 then Catenation(Required(a, min), Iteration(a, 0, -1))
    else if min == 0 then Optional(a, max)
    else if min == max then Required(a, min)
    else Catenation(Required(a, min), Optional(a, max - min))
  }

  function Expand(t: Ast): Ast
    requires WellFormed(t)
  {
    match t
    case Catenation(l, r) => Catenation(Expand(l), Expand(r))
    case Union(l, r) => Union(Expand(l), Expand(r))
    case Iteration(a, min, max) =>
      if NeedsUnrolling(min, max) then Unroll(Expand(a), min, max) else Iteration(Expand(a), min, max)
    case _ => t
  }

  function ExpandDirs(t: Ast, dirs: Directions): Directions
    requires WellFormed(t)
  {
    match t
    case Catenation(l, r) => ExpandDirs(r, ExpandDirs(l, dirs))
    case Union(l, r) => ExpandDirs(r, ExpandDirs(l, dirs))
    case Iteration(a, min, max) => AfterIterDirs(Iteration(Expand(a), min, max), ExpandDirs(a, dirs))
    case _ => dirs
  }

  // What EXPAND_AFTER_ITER does to an iteration whose argument is already expanded.
  function AfterIter(t: Ast): Ast
    requires t.Iteration? && (t.max == -1 || t.min <= t.max)
  {
    if NeedsUnrolling(t.min, t.max) then Unroll(t.arg, t.min, t.max) else t
  }

  function AfterIterDirs(t: Ast, dirs: Directions): Directions
    requires t.Iteration?
  {
    if NeedsUnrolling(t.min, t.max) && t.min > 0 then MaximizeFirst(t.arg, dirs) else dirs
  }

  // ----- properties of expansion -----

  /** What tre_ast_to_tnfa asserts of every iteration: max is -1 or 1, and min is 0 or 1. */
  predicate Simple(t: Ast) {
    match t
    case Catenation(l, r) => Simple(l) && Simple(r)
    case Union(l, r) => Simple(l) && Simple(r)
    case Iteration(a, min, max) => Simple(a) && min <= 1 && (max == -1 || max == 1)
    case _ => true
  }

  lemma {:induction false} CopyKeepsLanguage(t: Ast, flags: CopyFlags)
    ensures Lang(CopyOf(t, flags)) == Lang(t)
  {
    match t
    case Catenation(l, r) => CopyKeepsLanguage(l, flags); CopyKeepsLanguage(r, flags);
    case Union(l, r) => CopyKeepsLanguage(l, flags); CopyKeepsLanguage(r, flags);
    case Iteration(a, _, _) => CopyKeepsLanguage(a, flags);
    case _ =>
  }

  /** A copy that keeps its tags is equal to the original. */
  lemma {:induction false} CopyIsEqual(t: Ast, flags: CopyFlags)
    requires flags != RemoveTags || TagFree(t)
    ensures CopyOf(t, flags) == t
  {
    match t
    case Catenation(l, r) => CopyIsEqual(l, flags); CopyIsEqual(r, flags);
    case Union(l, r) => CopyIsEqual(l, flags); CopyIsEqual(r, flags);
    case Iteration(a, _, _) => CopyIsEqual(a, flags);
    case _ =>
  }

  lemma {:induction false} UntaggedLanguage(a: Ast, n: nat)
    requires n > 0
    ensures Lang(Untagged(a, n)) == Power(Lang(a), n)
  {
    CopyKeepsLanguage(a, RemoveTags);
    if n == 1 {
      PowerOne(Lang(a));
    } else {
      UntaggedLanguage(a, n - 1);
      PowerSnoc(Lang(a), n);
    }
  }

  lemma PowerSnoc(a: Language, n: nat)
    requires n > 0
    ensures Concat(Power(a, n - 1), a) == Power(a, n)
  {
    hide Power, Concat;
    PowerOne(a);
    PowerAdd(a, n - 1, 1);
  }

  lemma PowerOne(a: Language)
    ensures Power(a, 1) == a
  {
    ConcatUnitRight(a);
    assert Power(a, 0) == iset{[]};
  }

  lemma RequiredLanguage(a: Ast, n: nat)
    requires n > 0
    ensures Lang(Required(a, n)) == Power(Lang(a), n)
  {
    if n == 1 {
      PowerOne(Lang(a));
    } else {
      UntaggedLanguage(a, n - 1);
      PowerSnoc(Lang(a), n);
    }
  }

  /** At most n + 1 words are no words, or one word and then at most n words. */
  lemma PowersSucc(a: Language, n: nat)
    ensures Powers(a, 0, n + 1) == iset{[]} + Concat(a, Powers(a, 0, n))
  {
    var rest := Powers(a, 0, n);
    forall w | w in Powers(a, 0, n + 1)
      ensures w in iset{[]} + Concat(a, rest)
    {
      var i: nat :| InBounds(i, 0, n + 1) && w in Power(a, i);
      if i > 0 {
        var u, v := Split(a, Power(a, i - 1), w);
        assert InBounds(i - 1, 0, n);
        assert InPowers(a, 0, n, v);
        Join(a, rest, u, v);
      }
    }
    forall w | w in iset{[]} + Concat(a, rest)
      ensures w in Powers(a, 0, n + 1)
    {
      if w == [] {
        assert InBounds(0, 0, n + 1) && w in Power(a, 0);
      } else {
        var u, v := Split(a, rest, w);
        var i: nat :| InBounds(i, 0, n) && v in Power(a, i);
        Join(a, Power(a, i), u, v);
        assert InBounds(i + 1, 0, n + 1) && w in Power(a, i + 1);
      }
    }
  }

  /** `x?` is the empty word or a word of x. */
  lemma OptionLanguage(x: Language)
    ensures Powers(x, 0, 1) == iset{[]} + x
  {
    PowersSucc(x, 0);
    PowersZero(x);
    ConcatUnitRight(x);
  }

  lemma PowersZero(x: Language)
    ensures Powers(x, 0, 0) == iset{[]}
  {
    assert InBounds(0, 0, 0) && [] in Power(x, 0);
  }

  lemma {:induction false} OptionalLanguage(a: Ast, n: nat)
    requires n > 0
    ensures Lang(Optional(a, n)) == Powers(Lang(a), 0, n)
  {
    hide Power;
    if n > 1 {
      OptionalLanguage(a, n - 1);
      OptionLanguage(Concat(Lang(a), Powers(Lang(a), 0, n - 1)));
      PowersSucc(Lang(a), n - 1);
    }
  }

  /** Between min and max words are min words and then at most max - min more. */
  lemma PowersShift(a: Language, min: nat, max: int)
    requires max == -1 || min <= max
    ensures Powers(a, min, max) == Concat(Power(a, min), Powers(a, 0, if max == -1 then -1 else max - min))
  {
    var top := if max == -1 then -1 else max - min;
    forall w | w in Powers(a, min, max)
      ensures w in Concat(Power(a, min), Powers(a, 0, top))
    {
      var i: nat :| InBounds(i, min, max) && w in Power(a, i);
      PowerAdd(a, min, i - min);
      var u, v := Split(Power(a, min), Power(a, i - min), w);
      assert InBounds(i - min, 0, top);
      assert InPowers(a, 0, top, v);
      Join(Power(a, min), Powers(a, 0, top), u, v);
    }
    forall w | w in Concat(Power(a, min), Powers(a, 0, top))
      ensures w in Powers(a, min, max)
    {
      var u, v := Split(Power(a, min), Powers(a, 0, top), w);
      var i: nat :| InBounds(i, 0, top) && v in Power(a, i);
      Join(Power(a, min), Power(a, i), u, v);
      PowerAdd(a, min, i);
      assert InBounds(min + i, min, max) && w in Power(a, min + i);
    }
  }

  lemma UnrollLanguage(a: Ast, min: nat, max: int)
    requires NeedsUnrolling(min, max) && (max == -1 || min <= max)
    ensures Lang(Unroll(a, min, max)) == Powers(Lang(a), min, max)
  {
    PowersShift(Lang(a), min, max);
    if min > 0 {
      RequiredLanguage(a, min);
    }
    if max != -1 && max > min {
      OptionalLanguage(a, max - min);
    }
    if min == max {
      PowersZero(Lang(a));
      ConcatUnitRight(Power(Lang(a), min));
    }
  }

  /** Unrolling every {m,n} of a tree, at any nesting depth, keeps its language. */
  lemma {:induction false} ExpandKeepsLanguage(t: Ast)
    requires WellFormed(t)
    ensures Lang(Expand(t)) == Lang(t)
  {
    match t
    case Catenation(l, r) => ExpandKeepsLanguage(l); ExpandKeepsLanguage(r);
    case Union(l, r) => ExpandKeepsLanguage(l); ExpandKeepsLanguage(r);
    case Iteration(a, min, max) =>
      ExpandKeepsLanguage(a);
      if NeedsUnrolling(min, max) {
        UnrollLanguage(Expand(a), min, max);
      }
    case _ =>
  }

  lemma {:induction false} CopySimple(t: Ast, flags: CopyFlags)
    ensures Simple(CopyOf(t, flags)) == Simple(t)
  {
    match t
    case Catenation(l, r) => CopySimple(l, flags); CopySimple(r, flags);
    case Union(l, r) => CopySimple(l, flags); CopySimple(r, flags);
    case Iteration(a, _, _) => CopySimple(a, flags);
    case _ =>
  }

  lemma {:induction false} UntaggedSimple(a: Ast, n: nat)
    requires n > 0 && Simple(a)
    ensures Simple(Untagged(a, n))
  {
    CopySimple(a, RemoveTags);
    if n > 1 {
      UntaggedSimple(a, n - 1);
    }
  }

  lemma {:induction false} OptionalSimple(a: Ast, n: nat)
    requires n > 0 && Simple(a)
    ensures Simple(Optional(a, n))
  {
    if n > 1 {
      OptionalSimple(a, n - 1);
    }
  }

  lemma UnrollSimple(a: Ast, min: nat, max: int)
    requires NeedsUnrolling(min, max) && (max == -1 || min <= max) && Simple(a)
    ensures Simple(Unroll(a, min, max))
  {
    if min > 1 {
      UntaggedSimple(a, min - 1);
    }
    if max != -1 && max > min {
      OptionalSimple(a, max - min);
    }
  }

  /** After expansion the assertions of tre_ast_to_tnfa about iterations cannot fail. */
  lemma {:induction false} ExpandIsSimple(t: Ast)
    requires WellFormed(t)
    ensures Simple(Expand(t))
  {
    match t
    case Catenation(l, r) => ExpandIsSimple(l); ExpandIsSimple(r);
    case Union(l, r) => ExpandIsSimple(l); ExpandIsSimple(r);
    case Iteration(a, min, max) =>
      ExpandIsSimple(a);
      if NeedsUnrolling(min, max) {
        UnrollSimple(Expand(a), min, max);
      }
    case _ =>
  }

  /** A tree without tags stays without tags, and no tag direction changes. */
  lemma {:induction false} ExpandTagFree(t: Ast, dirs: Directions)
    requires WellFormed(t) && TagFree(t)
    ensures TagFree(Expand(t)) && ExpandDirs(t, dirs) == dirs
  {
    match t
    case Catenation(l, r) => ExpandTagFree(l, dirs); ExpandTagFree(r, dirs);
    case Union(l, r) => ExpandTagFree(l, dirs); ExpandTagFree(r, dirs);
    case Iteration(a, min, max) =>
      ExpandTagFree(a, dirs);
      MaximizeFirstTagFree(Expand(a), dirs);
      if NeedsUnrolling(min, max) {
        UnrollTagFree(Expand(a), min, max);
      }
    case _ =>
  }

  lemma {:induction false} MaximizeFirstTagFree(t: Ast, dirs: Directions)
    requires TagFree(t)
    ensures MaximizeFirst(t, dirs) == dirs
  {
    match t
    case Catenation(l, r) => MaximizeFirstTagFree(r, dirs);
    case Union(l, r) => MaximizeFirstTagFree(r, dirs);
    case Iteration(a, _, _) => MaximizeFirstTagFree(a, dirs);
    case _ =>
  }

  lemma UnrollTagFree(a: Ast, min: nat, max: int)
    requires NeedsUnrolling(min, max) && (max == -1 || min <= max) && TagFree(a)
    ensures TagFree(Unroll(a, min, max))
  {
    if min > 1 {
      UntaggedTagFree(a, min - 1);
    }
    if max != -1 && max > min {
      OptionalTagFree(a, max - min);
    }
  }

  lemma {:induction false} UntaggedTagFree(a: Ast, n: nat)
    requires n > 0 && TagFree(a)
    ensures TagFree(Untagged(a, n))
  {
    CopyIsEqual(a, RemoveTags);
    if n > 1 {
      UntaggedTagFree(a, n - 1);
    }
  }

  lemma {:induction false} OptionalTagFree(a: Ast, n: nat)
    requires n > 0 && TagFree(a)
    ensures TagFree(Optional(a, n))
  {
    if n > 1 {
      OptionalTagFree(a, n - 1);
    }
  }

  // ----- writing the two children of one node, one after the other -----

  lemma PutBothChildren(t: Ast, p: Path, s: Ast, a: Ast, b: Ast)
    requires IsNode(t, p) && HasChild(s, R)
    ensures var t1 := Put(t, p, s);
      IsNode(t1, p) && Sub(t1, p) == s && IsNode(t1, p + [L]) && Sub(t1, p + [L]) == s.left &&
      var t2 := Put(t1, p + [L], a);
      IsNode(t2, p + [R]) && Sub(t2, p + [R]) == s.right &&
      Put(t2, p + [R], b) == Put(t, p, s.(left := a, right := b))
  {
    var t1 := Put(t, p, s);
    PutGet(t, p, s);
    Extend(t1, p, L, a);
    var s2 := s.(left := a);
    PutTwice(t, p, s, s2);
    var t2 := Put(t, p, s2);
    PutGet(t, p, s2);
    Extend(t2, p, R, b);
    PutTwice(t, p, s2, s2.(right := b));
  }

  lemma PutArgument(t: Ast, p: Path, s: Ast, a: Ast)
    requires IsNode(t, p) && s.Iteration?
    ensures var t1 := Put(t, p, s);
      IsNode(t1, p) && Sub(t1, p) == s && IsNode(t1, p + [L]) && Sub(t1, p + [L]) == s.arg &&
      Put(t1, p + [L], a) == Put(t, p, s.(arg := a))
  {
    PutGet(t, p, s);
    Extend(Put(t, p, s), p, L, a);
    PutTwice(t, p, s, s.(arg := a));
  }

  // ----- tre_copy_ast -----

  datatype CopyFrame = CopyRecurse(node: Ast) | CopySetResult(ptr: Path)

  /** `copy` is the tree under construction, `result` the place to fill next. */
  datatype CopyState = CopyState(copy: Ast, result: Path, firstTag: bool, dirs: Directions)

  function LastLeaf(t: Ast): Path {
    match t
    case Catenation(_, r) => [R] + LastLeaf(r)
    case Union(_, r) => [R] + LastLeaf(r)
    case Iteration(a, _, _) => [L] + LastLeaf(a)
    case _ => []
  }

  predicate CopyReady(f: CopyFrame, st: CopyState) { f.CopyRecurse? ==> IsNode(st.copy, st.result) }

  function CopyApply(f: CopyFrame, st: CopyState, flags: CopyFlags): CopyState
    requires CopyReady(f, st)
  {
    match f
    case CopySetResult(p) => st.(result := p)
    case CopyRecurse(n) =>
      CopyState(Put(st.copy, st.result, CopyOf(n, flags)), st.result + LastLeaf(n),
                st.firstTag && (flags != MaximizeFirstTag || TagFree(n)),
                if flags == MaximizeFirstTag && st.firstTag then MaximizeFirst(n, st.dirs) else st.dirs)
  }

  predicate CopyOk(stack: seq<CopyFrame>, st: CopyState, flags: CopyFlags)
    decreases |stack|
  {
    stack == [] || (CopyReady(stack[0], st) && CopyOk(stack[1..], CopyApply(stack[0], st, flags), flags))
  }

  function CopyRun(stack: seq<CopyFrame>, st: CopyState, flags: CopyFlags): CopyState
    requires CopyOk(stack, st, flags)
    decreases |stack|
  {
    if stack == [] then st else CopyRun(stack[1..], CopyApply(stack[0], st, flags), flags)
  }

  function Size(t: Ast): nat {
    match t
    case Catenation(l, r) => 2 + Size(l) + Size(r)
    case Union(l, r) => 2 + Size(l) + Size(r)
    case Iteration(a, _, _) => 2 + Size(a)
    case _ => 1
  }

  function CopySteps(stack: seq<CopyFrame>): nat {
    if stack == [] then 0
    else (match stack[0] case CopyRecurse(n) => Size(n) case CopySetResult(_) => 1) + CopySteps(stack[1..])
  }

  lemma CopyPush(f: CopyFrame, rest: seq<CopyFrame>, st: CopyState, flags: CopyFlags)
    requires CopyReady(f, st) && CopyOk(rest, CopyApply(f, st, flags), flags)
    ensures CopyOk([f] + rest, st, flags)
    ensures CopyRun([f] + rest, st, flags) == CopyRun(rest, CopyApply(f, st, flags), flags)
    ensures CopySteps([f] + rest) == CopySteps([f]) + CopySteps(rest)
  {
    assert ([f] + rest)[1..] == rest;
  }

  lemma CopyPush3(f: CopyFrame, g: CopyFrame, h: CopyFrame, rest: seq<CopyFrame>, st: CopyState, flags: CopyFlags)
    requires CopyReady(f, st)
    requires CopyReady(g, CopyApply(f, st, flags))
    requires CopyReady(h, CopyApply(g, CopyApply(f, st, flags), flags))
    requires CopyOk(rest, CopyApply(h, CopyApply(g, CopyApply(f, st, flags), flags), flags), flags)
    ensures CopyOk([f, g, h] + rest, st, flags)
    ensures CopyRun([f, g, h] + rest, st, flags)
         == CopyRun(rest, CopyApply(h, CopyApply(g, CopyApply(f, st, flags), flags), flags), flags)
    ensures CopySteps([f, g, h] + rest) == CopySteps([f]) + CopySteps([g]) + CopySteps([h]) + CopySteps(rest)
  {
    var st1 := CopyApply(f, st, flags);
    CopyPush(h, rest, CopyApply(g, st1, flags), flags);
    CopyPush(g, [h] + rest, st1, flags);
    CopyPush(f, [g] + ([h] + rest), st, flags);
    assert [f] + ([g] + ([h] + rest)) == [f, g, h] + rest;
  }

  /** A node with two children: fill in a node without children, then the left and the right one. */
  lemma CopyTwo(n: Ast, blank: Ast, rest: seq<CopyFrame>, st: CopyState, flags: CopyFlags)
    requires (n.Catenation? && blank.Catenation?) || (n.Union? && blank.Union?)
    requires IsNode(st.copy, st.result)
    requires CopyOk(rest, CopyApply(CopyRecurse(n), st, flags), flags)
    ensures var st' := st.(copy := Put(st.copy, st.result, blank), result := st.result + [L]);
      var stack := [CopyRecurse(n.left), CopySetResult(st.result + [R]), CopyRecurse(n.right)] + rest;
      && CopyOk(stack, st', flags)
      && CopyRun(stack, st', flags) == CopyRun(rest, CopyApply(CopyRecurse(n), st, flags), flags)
      && CopySteps(stack) < Size(n) + CopySteps(rest)
  {
    var p := st.result;
    var st' := st.(copy := Put(st.copy, p, blank), result := p + [L]);
    PutBothChildren(st.copy, p, blank, CopyOf(n.left, flags), CopyOf(n.right, flags));
    var f, g, h := CopyRecurse(n.left), CopySetResult(p + [R]), CopyRecurse(n.right);
    var end := CopyApply(h, CopyApply(g, CopyApply(f, st', flags), flags), flags);
    assert end.result == p + LastLeaf(n);
    if flags == MaximizeFirstTag && TagFree(n.left) {
      MaximizeFirstTagFree(n.left, st.dirs);
    }
    assert end == CopyApply(CopyRecurse(n), st, flags);
    CopyPush3(f, g, h, rest, st', flags);
  }

  lemma CopyOne(n: Ast, rest: seq<CopyFrame>, st: CopyState, flags: CopyFlags)
    requires n.Iteration? && IsNode(st.copy, st.result)
    requires CopyOk(rest, CopyApply(CopyRecurse(n), st, flags), flags)
    ensures var st' := st.(copy := Put(st.copy, st.result, n), result := st.result + [L]);
      var stack := [CopyRecurse(n.arg)] + rest;
      && CopyOk(stack, st', flags)
      && CopyRun(stack, st', flags) == CopyRun(rest, CopyApply(CopyRecurse(n), st, flags), flags)
      && CopySteps(stack) < Size(n) + CopySteps(rest)
  {
    var p := st.result;
    var st' := st.(copy := Put(st.copy, p, n), result := p + [L]);
    PutArgument(st.copy, p, n, CopyOf(n.arg, flags));
    assert p + [L] + LastLeaf(n.arg) == p + LastLeaf(n);
    assert ([CopyRecurse(n.arg)] + rest)[1..] == rest;
  }

  /** tre_copy_ast: the copy, and the tag directions after it. */
  method CopyAst(ast: Ast, flags: CopyFlags, dirs0: Directions) returns (copy: Ast, dirs: Directions)
    ensures copy == CopyOf(ast, flags)
    ensures dirs == if flags == MaximizeFirstTag then MaximizeFirst(ast, dirs0) else dirs0
  {
    copy, dirs := Empty, dirs0;
    var stack := [CopyRecurse(ast)];
    var result: Path := [];
    var firstTag := true;
    ghost var start := CopyState(copy, result, firstTag, dirs);
    ghost var goal := CopyApply(CopyRecurse(ast), start, flags);
    assert stack[1..] == [];
    while stack != []
      invariant CopyOk(stack, CopyState(copy, result, firstTag, dirs), flags)
      invariant CopyRun(stack, CopyState(copy, result, firstTag, dirs), flags) == goal
      decreases CopySteps(stack)
    {
      var symbol := stack[0];
      ghost var rest, st := stack[1..], CopyState(copy, result, firstTag, dirs);
      stack := stack[1..];
      match symbol {
        case CopySetResult(p) =>
          result := p;
        case CopyRecurse(node) =>
          match node {
            case Catenation(left, right) =>
              CopyTwo(node, Catenation(Empty, Empty), rest, st, flags);
              copy := Put(copy, result, Catenation(Empty, Empty));
              stack := [CopyRecurse(left), CopySetResult(result + [R]), CopyRecurse(right)] + stack;
              result := result + [L];
            case Union(left, right) =>
              CopyTwo(node, node, rest, st, flags);
              copy := Put(copy, result, node);
              stack := [CopyRecurse(left), CopySetResult(result + [R]), CopyRecurse(right)] + stack;
              result := result + [L];
            case Iteration(arg, min, max) =>
              CopyOne(node, rest, st, flags);
              copy := Put(copy, result, Iteration(arg, min, max));
              stack := [CopyRecurse(arg)] + stack;
              result := result + [L];
            case Tag(id) =>
              var lit := node;
              if flags == RemoveTags {
                lit := Empty;
              } else if flags == MaximizeFirstTag && firstTag {
                dirs := dirs[id := Maximize];
                firstTag := false;
              }
              copy := Put(copy, result, lit);
              assert result + LastLeaf(node) == result;
            case _ =>
              copy := Put(copy, result, node);
              assert result + LastLeaf(node) == result;
          }
      }
    }
  }

  // ----- tre_expand_ast -----

  datatype ExpandFrame = ExpandRecurse(ptr: Path) | ExpandAfterIter(ptr: Path)

  datatype ExpandState = ExpandState(tree: Ast, dirs: Directions)

  predicate ExpandReady(f: ExpandFrame, st: ExpandState) {
    && IsNode(st.tree, f.ptr)
    && var n := Sub(st.tree, f.ptr);
       if f.ExpandRecurse? then WellFormed(n) else n.Iteration? && (n.max == -1 || n.min <= n.max)
  }

  function ExpandApply(f: ExpandFrame, st: ExpandState): ExpandState
    requires ExpandReady(f, st)
  {
    var n := Sub(st.tree, f.ptr);
    if f.ExpandRecurse? then ExpandState(Put(st.tree, f.ptr, Expand(n)), ExpandDirs(n, st.dirs))
    else ExpandState(Put(st.tree, f.ptr, AfterIter(n)), AfterIterDirs(n, st.dirs))
  }

  predicate ExpandOk(stack: seq<ExpandFrame>, st: ExpandState)
    decreases |stack|
  {
    stack == [] || (ExpandReady(stack[0], st) && ExpandOk(stack[1..], ExpandApply(stack[0], st)))
  }

  function ExpandRun(stack: seq<ExpandFrame>, st: ExpandState): ExpandState
    requires ExpandOk(stack, st)
    decreases |stack|
  {
    if stack == [] then st else ExpandRun(stack[1..], ExpandApply(stack[0], st))
  }

  function FrameSteps(f: ExpandFrame, st: ExpandState): nat
    requires ExpandReady(f, st)
  {
    if f.ExpandRecurse? then Size(Sub(st.tree, f.ptr)) else 1
  }

  function ExpandSteps(stack: seq<ExpandFrame>, st: ExpandState): nat
    requires ExpandOk(stack, st)
    decreases |stack|
  {
    if stack == [] then 0 else FrameSteps(stack[0], st) + ExpandSteps(stack[1..], ExpandApply(stack[0], st))
  }

  lemma ExpandPush2(f: ExpandFrame, g: ExpandFrame, rest: seq<ExpandFrame>, st: ExpandState)
    requires ExpandReady(f, st) && ExpandReady(g, ExpandApply(f, st))
    requires ExpandOk(rest, ExpandApply(g, ExpandApply(f, st)))
    ensures ExpandOk([f, g] + rest, st)
    ensures ExpandRun([f, g] + rest, st) == ExpandRun(rest, ExpandApply(g, ExpandApply(f, st)))
    ensures ExpandSteps([f, g] + rest, st)
         == FrameSteps(f, st) + FrameSteps(g, ExpandApply(f, st)) + ExpandSteps(rest, ExpandApply(g, ExpandApply(f, st)))
  {
    assert ([f, g] + rest)[1..] == [g] + rest;
    assert ([g] + rest)[1..] == rest;
  }

  lemma ExpandTwo(p: Path, rest: seq<ExpandFrame>, st: ExpandState)
    requires ExpandReady(ExpandRecurse(p), st) && HasChild(Sub(st.tree, p), R)
    requires ExpandOk(rest, ExpandApply(ExpandRecurse(p), st))
    ensures var stack := [ExpandRecurse(p + [L]), ExpandRecurse(p + [R])] + rest;
      var end := ExpandApply(ExpandRecurse(p), st);
      && ExpandOk(stack, st)
      && ExpandRun(stack, st) == ExpandRun(rest, end)
      && ExpandSteps(stack, st) < Size(Sub(st.tree, p)) + ExpandSteps(rest, end)
  {
    var n := Sub(st.tree, p);
    PutSame(st.tree, p);
    PutBothChildren(st.tree, p, n, Expand(n.left), Expand(n.right));
    assert n.(left := Expand(n.left), right := Expand(n.right)) == Expand(n);
    ExpandPush2(ExpandRecurse(p + [L]), ExpandRecurse(p + [R]), rest, st);
  }

  lemma ExpandOne(p: Path, rest: seq<ExpandFrame>, st: ExpandState)
    requires ExpandReady(ExpandRecurse(p), st) && Sub(st.tree, p).Iteration?
    requires ExpandOk(rest, ExpandApply(ExpandRecurse(p), st))
    ensures var stack := [ExpandRecurse(p + [L]), ExpandAfterIter(p)] + rest;
      var end := ExpandApply(ExpandRecurse(p), st);
      && ExpandOk(stack, st)
      && ExpandRun(stack, st) == ExpandRun(rest, end)
      && ExpandSteps(stack, st) < Size(Sub(st.tree, p)) + ExpandSteps(rest, end)
  {
    var n := Sub(st.tree, p);
    var mid := n.(arg := Expand(n.arg));
    PutSame(st.tree, p);
    PutArgument(st.tree, p, n, Expand(n.arg));
    PutGet(st.tree, p, mid);
    PutTwice(st.tree, p, mid, AfterIter(mid));
    assert AfterIter(mid) == Expand(n);
    ExpandPush2(ExpandRecurse(p + [L]), ExpandAfterIter(p), rest, st);
  }

  /** The loops at EXPAND_AFTER_ITER that build seq1 and seq2. */
  method UnrollCopies(arg: Ast, min: nat, max: int, dirs0: Directions) returns (node: Ast, dirs: Directions)
    requires NeedsUnrolling(min, max) && (max == -1 || min <= max)
    ensures node == Unroll(arg, min, max)
    ensures dirs == if min > 0 then MaximizeFirst(arg, dirs0) else dirs0
  {
    CopyIsEqual(arg, KeepTags);
    CopyIsEqual(arg, MaximizeFirstTag);
    dirs := dirs0;
    var seq1, seq2 := Empty, Empty;                  // NULL until the first copy is made
    for j := 0 to min
      invariant j < min || min == 0 ==> dirs == dirs0
      invariant 0 < j < min ==> seq1 == Untagged(arg, j)
      invariant j == min > 0 ==> seq1 == Required(arg, min) && dirs == MaximizeFirst(arg, dirs0)
    {
      var flags := if j + 1 < min then RemoveTags else MaximizeFirstTag;
      var copy;
      copy, dirs := CopyAst(arg, flags, dirs);
      if j != 0 {
        seq1 := Catenation(seq1, copy);
      } else {
        seq1 := copy;
      }
    }
    if max == -1 {
      seq2, dirs := CopyAst(arg, KeepTags, dirs);
      seq2 := Iteration(seq2, 0, -1);
    } else {
      ghost var dirs1 := dirs;
      for j := min to max
        invariant dirs == dirs1
        invariant j > min ==> seq2 == Optional(arg, j - min)
      {
        var copy;
        copy, dirs := CopyAst(arg, KeepTags, dirs);
        if j != min {
          seq2 := Catenation(copy, seq2);
        } else {
          seq2 := copy;
        }
        seq2 := Iteration(seq2, 0, 1);
      }
    }
    if min == 0 {
      node := seq2;
    } else if max == -1 || max > min {
      node := Catenation(seq1, seq2);
    } else {
      node := seq1;
    }
  }

  /** tre_expand_ast: the tree, overwritten in place, and the tag directions. */
  method ExpandAst(ast: Ast, dirs0: Directions) returns (tree: Ast, dirs: Directions)
    requires WellFormed(ast)
    ensures tree == Expand(ast)
    ensures dirs == ExpandDirs(ast, dirs0)
  {
    tree, dirs := ast, dirs0;
    var stack := [ExpandRecurse([])];
    ghost var goal := ExpandApply(ExpandRecurse([]), ExpandState(ast, dirs0));
    assert stack[1..] == [];
    while stack != []
      invariant ExpandOk(stack, ExpandState(tree, dirs))
      invariant ExpandRun(stack, ExpandState(tree, dirs)) == goal
      decreases ExpandSteps(stack, ExpandState(tree, dirs))
    {
      var symbol := stack[0];
      ghost var rest, st := stack[1..], ExpandState(tree, dirs);
      stack := stack[1..];
      var node := Sub(tree, symbol.ptr);
      match symbol {
        case ExpandRecurse(p) =>
          match node {
            case Union(_, _) =>
              ExpandTwo(p, rest, st);
              stack := [ExpandRecurse(p + [L]), ExpandRecurse(p + [R])] + stack;
            case Catenation(_, _) =>
              ExpandTwo(p, rest, st);
              stack := [ExpandRecurse(p + [L]), ExpandRecurse(p + [R])] + stack;
            case Iteration(_, _, _) =>
              ExpandOne(p, rest, st);
              stack := [ExpandRecurse(p + [L]), ExpandAfterIter(p)] + stack;
            case _ =>
              PutSame(tree, p);
          }
        case ExpandAfterIter(p) =>
          if node.min > 1 || node.max > 1 {
            var seq1;
            seq1, dirs := UnrollCopies(node.arg, node.min, node.max, dirs);
            tree := Put(tree, p, seq1);
          } else {
            PutSame(tree, p);
          }
      }
    }
  }
}
