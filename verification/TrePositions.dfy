/** nullable, firstpos and lastpos of every node (tre_set_union, tre_match_empty and
    tre_compute_npfl, tre-compile.c). */
module TrePositions {
  import opened TreAst

  /** tre_pos_and_tags_t. */
  datatype PosTags = PosTags(position: nat, codeMin: nat, codeMax: nat, tags: seq<nat>)
  type PosSet = seq<PosTags>

  /** The node fields that tre_compute_npfl fills in. */
  datatype Attr = Attr(nullable: bool, firstpos: PosSet, lastpos: PosSet)
  type Attrs = map<Path, Attr>

  // ----- what is computed -----

  function AddTags(s: PosSet, tags: seq<nat>): (r: PosSet)
    ensures |r| == |s|
    ensures forall i | 0 <= i < |s| :: r[i] == s[i].(tags := s[i].tags + tags)
  {
    seq(|s|, i requires 0 <= i < |s| => s[i].(tags := s[i].tags + tags))
  }

  predicate Nullable(t: Ast) {
    match t
    case Literal(_, _) => false
    case Catenation(l, r) => Nullable(l) && Nullable(r)
    case Union(l, r) => Nullable(l) || Nullable(r)
    case Iteration(a, min, _) => min == 0 || Nullable(a)
    case _ => true
  }

  function AddTag(tags: seq<nat>, id: nat): seq<nat> { if id in tags then tags else tags + [id] }

  /** The tags on the preferred empty path through a nullable tree, added to `tags`. */
  function EmptyTags(t: Ast, tags: seq<nat>): seq<nat> {
    match t
    case Tag(id) => AddTag(tags, id)
    case Catenation(l, r) => EmptyTags(l, EmptyTags(r, tags))
    case Union(l, r) => if Nullable(l) then EmptyTags(l, tags) else EmptyTags(r, tags)
    case Iteration(a, _, _) => if Nullable(a) then EmptyTags(a, tags) else tags
    case _ => tags
  }

  /** The number of positions tre_compute_npfl hands out below a node. */
  function NumPos(t: Ast): nat {
    match t
    case Literal(_, _) => 1
    case Catenation(l, r) => NumPos(l) + NumPos(r)
    case Union(l, r) => NumPos(l) + NumPos(r)
    case Iteration(a, _, _) => NumPos(a)
    case _ => 0
  }

  function UnionAttr(l: Attr, r: Attr): Attr {
    Attr(l.nullable || r.nullable, l.firstpos + r.firstpos, l.lastpos + r.lastpos)
  }

  function CatAttr(l: Attr, r: Attr, leftTags: seq<nat>, rightTags: seq<nat>): Attr {
    Attr(l.nullable && r.nullable,
         if l.nullable then AddTags(r.firstpos, leftTags) + l.firstpos else l.firstpos,
         if r.nullable then AddTags(l.lastpos, rightTags) + r.lastpos else r.lastpos)
  }

  function IterAttr(min: nat, a: Attr): Attr { Attr(min == 0 || a.nullable, a.firstpos, a.lastpos) }

  /** The attributes of a tree whose first free position is `base`. */
  function Npfl(t: Ast, base: nat): (r: Attr)
    ensures r.nullable == Nullable(t)
  {
    match t
    case Literal(lo, hi) => Attr(false, [PosTags(base, lo, hi, [])], [PosTags(base, lo, hi, [])])
    case Catenation(l, r) =>
      CatAttr(Npfl(l, base), Npfl(r, base + NumPos(l)), EmptyTags(l, []), EmptyTags(r, []))
    case Union(l, r) => UnionAttr(Npfl(l, base), Npfl(r, base + NumPos(l)))
    case Iteration(a, min, _) => IterAttr(min, Npfl(a, base))
    case _ => Attr(true, [], [])
  }

  /** Every node below `p` carries its attributes. */
  predicate Computed(attrs: Attrs, t: Ast, p: Path, base: nat)
    decreases t
  {
    && p in attrs && attrs[p] == Npfl(t, base)
    && (HasChild(t, L) ==> Computed(attrs, Child(t, L), p + [L], base))
    && (HasChild(t, R) ==> Computed(attrs, Child(t, R), p + [R], base + NumPos(Child(t, L))))
  }

  /** Only what tre_match_empty reads: the nullable fields below `p`. */
  predicate NullableComputed(attrs: Attrs, t: Ast, p: Path)
    decreases t
  {
    && p in attrs && attrs[p].nullable == Nullable(t)
    && (HasChild(t, L) ==> NullableComputed(attrs, Child(t, L), p + [L]))
    && (HasChild(t, R) ==> NullableComputed(attrs, Child(t, R), p + [R]))
  }

  lemma {:induction false} ComputedNullable(attrs: Attrs, t: Ast, p: Path, base: nat)
    requires Computed(attrs, t, p, base)
    ensures NullableComputed(attrs, t, p)
    decreases t
  {
    if HasChild(t, L) {
      ComputedNullable(attrs, Child(t, L), p + [L], base);
    }
    if HasChild(t, R) {
      ComputedNullable(attrs, Child(t, R), p + [R], base + NumPos(Child(t, L)));
    }
  }

  // ----- tre_set_union -----

  method SetUnion(set1: PosSet, set2: PosSet, tags: seq<nat>) returns (newSet: PosSet)
    ensures newSet == AddTags(set1, tags) + set2
  {
    newSet := [];
    for s1 := 0 to |set1|
      invariant newSet == AddTags(set1, tags)[..s1]
    {
      newSet := newSet + [set1[s1].(tags := set1[s1].tags + tags)];
    }
    assert newSet == AddTags(set1, tags);
    for s2 := 0 to |set2|
      invariant newSet == AddTags(set1, tags) + set2[..s2]
    {
      newSet := newSet + [set2[s2]];
    }
  }

  lemma AddNoTags(s: PosSet)
    ensures AddTags(s, []) == s
  {
    forall i | 0 <= i < |s| ensures AddTags(s, [])[i] == s[i] {
      assert s[i].tags + [] == s[i].tags;
    }
  }

  // ----- tre_match_empty -----

  function TagCount(t: Ast): nat {
    match t
    case Tag(_) => 1
    case Catenation(l, r) => TagCount(l) + TagCount(r)
    case Union(l, r) => if Nullable(l) then TagCount(l) else TagCount(r)
    case Iteration(a, _, _) => if Nullable(a) then TagCount(a) else 0
    case _ => 0
  }

  predicate AllNodes(tree: Ast, stack: seq<Path>) { forall p | p in stack :: IsNode(tree, p) }

  predicate AllReady(tree: Ast, attrs: Attrs, stack: seq<Path>) {
    AllNodes(tree, stack) && forall p | p in stack :: EmptyReady(tree, attrs, p)
  }

  /** The effect of the nodes still on the stack, top first. */
  function EmptyRun(tree: Ast, stack: seq<Path>, tags: seq<nat>): seq<nat>
    requires AllNodes(tree, stack)
  {
    if stack == [] then tags else EmptyRun(tree, stack[1..], EmptyTags(Sub(tree, stack[0]), tags))
  }

  function EmptyCount(tree: Ast, stack: seq<Path>): nat
    requires AllNodes(tree, stack)
  {
    if stack == [] then 0 else TagCount(Sub(tree, stack[0])) + EmptyCount(tree, stack[1..])
  }

  function Weight(t: Ast): nat {
    match t
    case Catenation(l, r) => 1 + Weight(l) + Weight(r)
    case Union(l, r) => 1 + Weight(l) + Weight(r)
    case Iteration(a, _, _) => 1 + Weight(a)
    case _ => 1
  }

  function EmptyWeight(tree: Ast, stack: seq<Path>): nat
    requires AllNodes(tree, stack)
  {
    if stack == [] then 0 else Weight(Sub(tree, stack[0])) + EmptyWeight(tree, stack[1..])
  }

  predicate EmptyReady(tree: Ast, attrs: Attrs, p: Path) {
    IsNode(tree, p) && Nullable(Sub(tree, p)) && NullableComputed(attrs, Sub(tree, p), p)
  }

  lemma EmptyPush(tree: Ast, attrs: Attrs, p: Path, rest: seq<Path>, tags: seq<nat>)
    requires EmptyReady(tree, attrs, p)
    requires AllReady(tree, attrs, rest)
    ensures AllReady(tree, attrs, [p] + rest)
    ensures EmptyRun(tree, [p] + rest, tags) == EmptyRun(tree, rest, EmptyTags(Sub(tree, p), tags))
    ensures EmptyCount(tree, [p] + rest) == TagCount(Sub(tree, p)) + EmptyCount(tree, rest)
    ensures EmptyWeight(tree, [p] + rest) == Weight(Sub(tree, p)) + EmptyWeight(tree, rest)
  {
    assert ([p] + rest)[1..] == rest;
  }

  lemma EmptyChild(tree: Ast, attrs: Attrs, p: Path, d: Dir)
    requires EmptyReady(tree, attrs, p) && HasChild(Sub(tree, p), d)
    ensures IsNode(tree, p + [d]) && Sub(tree, p + [d]) == Child(Sub(tree, p), d)
    ensures NullableComputed(attrs, Child(Sub(tree, p), d), p + [d])
    ensures p + [d] in attrs && attrs[p + [d]].nullable == Nullable(Child(Sub(tree, p), d))
  {
    Extend(tree, p, d, Empty);
  }

  lemma EmptyOne(tree: Ast, attrs: Attrs, p: Path, d: Dir, rest: seq<Path>, tags: seq<nat>)
    requires EmptyReady(tree, attrs, p) && HasChild(Sub(tree, p), d) && AllReady(tree, attrs, rest)
    requires Nullable(Child(Sub(tree, p), d))
    ensures AllReady(tree, attrs, [p + [d]] + rest)
    ensures EmptyRun(tree, [p + [d]] + rest, tags) == EmptyRun(tree, rest, EmptyTags(Child(Sub(tree, p), d), tags))
    ensures EmptyCount(tree, [p + [d]] + rest) == TagCount(Child(Sub(tree, p), d)) + EmptyCount(tree, rest)
    ensures EmptyWeight(tree, [p + [d]] + rest) == Weight(Child(Sub(tree, p), d)) + EmptyWeight(tree, rest)
  {
    EmptyChild(tree, attrs, p, d);
    EmptyPush(tree, attrs, p + [d], rest, tags);
  }

  lemma EmptyTop(tree: Ast, attrs: Attrs, stack: seq<Path>, tags: seq<nat>)
    requires stack != [] && AllReady(tree, attrs, stack)
    ensures EmptyReady(tree, attrs, stack[0]) && AllReady(tree, attrs, stack[1..])
    ensures EmptyRun(tree, stack, tags) == EmptyRun(tree, stack[1..], EmptyTags(Sub(tree, stack[0]), tags))
    ensures EmptyCount(tree, stack) == TagCount(Sub(tree, stack[0])) + EmptyCount(tree, stack[1..])
    ensures EmptyWeight(tree, stack) == Weight(Sub(tree, stack[0])) + EmptyWeight(tree, stack[1..])
  {
    assert stack[0] in stack;
    assert forall q | q in stack[1..] :: q in stack;
  }

  lemma EmptyBottom(tree: Ast, attrs: Attrs, tags: seq<nat>)
    ensures AllReady(tree, attrs, []) && EmptyRun(tree, [], tags) == tags && EmptyCount(tree, []) == 0
  {
  }

  /** One node of the empty path. */
  method EmptyTurn(tree: Ast, attrs: Attrs, p: Path, rest: seq<Path>, tags0: seq<nat>, seen0: nat)
      returns (stack: seq<Path>, tags: seq<nat>, seen: nat)
    requires EmptyReady(tree, attrs, p) && AllReady(tree, attrs, rest) && |tags0| <= seen0
    ensures AllReady(tree, attrs, stack) && |tags| <= seen
    ensures EmptyRun(tree, stack, tags) == EmptyRun(tree, rest, EmptyTags(Sub(tree, p), tags0))
    ensures seen + EmptyCount(tree, stack) == seen0 + TagCount(Sub(tree, p)) + EmptyCount(tree, rest)
    ensures EmptyWeight(tree, stack) < Weight(Sub(tree, p)) + EmptyWeight(tree, rest)
  {
    hide EmptyRun, EmptyCount, EmptyWeight, NullableComputed;
    stack, tags, seen := rest, tags0, seen0;
    match Sub(tree, p) {
      case Tag(id) =>
        if id !in tags {
          tags := tags + [id];
        }
        seen := seen + 1;
      case Union(_, _) =>
        EmptyChild(tree, attrs, p, L);
        EmptyChild(tree, attrs, p, R);
        if attrs[p + [L]].nullable {
          EmptyOne(tree, attrs, p, L, rest, tags);
          stack := [p + [L]] + stack;
        } else {
          EmptyOne(tree, attrs, p, R, rest, tags);
          stack := [p + [R]] + stack;
        }
      case Catenation(_, _) =>
        EmptyOne(tree, attrs, p, L, rest, EmptyTags(Sub(tree, p).right, tags));
        stack := [p + [L]] + stack;
        EmptyOne(tree, attrs, p, R, stack, tags);
        stack := [p + [R]] + stack;
      case Iteration(_, _, _) =>
        EmptyChild(tree, attrs, p, L);
        if attrs[p + [L]].nullable {
          EmptyOne(tree, attrs, p, L, rest, tags);
          stack := [p + [L]] + stack;
        }
      case Empty =>
    }
  }

  /** tre_match_empty.  The first pass of the C code counts `seen` to size the array for the second. */
  method MatchEmpty(tree: Ast, attrs: Attrs, node0: Path) returns (tags: seq<nat>, seen: nat)
    requires EmptyReady(tree, attrs, node0)
    ensures tags == EmptyTags(Sub(tree, node0), [])
    ensures |tags| <= seen == TagCount(Sub(tree, node0))
  {
    hide EmptyRun, EmptyCount, EmptyWeight, NullableComputed, Nullable, EmptyTags, TagCount, Weight, AllReady;
    tags, seen := [], 0;
    var stack := [node0];
    EmptyBottom(tree, attrs, EmptyTags(Sub(tree, node0), []));
    EmptyPush(tree, attrs, node0, [], []);
    assert [node0] + [] == stack;
    while stack != []
      invariant AllNodes(tree, stack) && AllReady(tree, attrs, stack)
      invariant EmptyRun(tree, stack, tags) == EmptyTags(Sub(tree, node0), [])
      invariant |tags| <= seen
      invariant seen + EmptyCount(tree, stack) == TagCount(Sub(tree, node0))
      decreases EmptyWeight(tree, stack)
    {
      EmptyTop(tree, attrs, stack, tags);
      ReadyNodes(tree, attrs, stack[1..]);
      stack, tags, seen := EmptyTurn(tree, attrs, stack[0], stack[1..], tags, seen);
      ReadyNodes(tree, attrs, stack);
    }
    EmptyBottom(tree, attrs, tags);
  }

  lemma ReadyNodes(tree: Ast, attrs: Attrs, stack: seq<Path>)
    requires AllReady(tree, attrs, stack)
    ensures AllNodes(tree, stack)
  {
  }

  // ----- tre_compute_npfl -----

  datatype NpflFrame = NpflRecurse(ptr: Path) | NpflPostUnion(ptr: Path) | NpflPostCatenation(ptr: Path) | NpflPostIteration(ptr: Path)

  datatype NpflState = NpflState(attrs: Attrs, nextpos: nat)

  /** The attributes after the whole subtree `t` at `p` has been filled in. */
  function Fill(attrs: Attrs, t: Ast, p: Path, base: nat): Attrs
    decreases t
  {
    var below :=
      if HasChild(t, R) then
        Fill(Fill(attrs, Child(t, L), p + [L], base), Child(t, R), p + [R], base + NumPos(Child(t, L)))
      else if HasChild(t, L) then Fill(attrs, Child(t, L), p + [L], base)
      else attrs;
    below[p := Npfl(t, base)]
  }

  predicate Under(p: Path, x: Path) { p <= x }

  ghost predicate AgreeBelow(a: Attrs, b: Attrs, p: Path) {
    forall x: Path | Under(p, x) :: (x in a <==> x in b) && (x in a ==> a[x] == b[x])
  }

  /** Filling in a subtree touches only the nodes below it. */
  lemma {:induction false} FillFrame(attrs: Attrs, t: Ast, p: Path, base: nat, x: Path)
    requires !(p <= x)
    ensures var r := Fill(attrs, t, p, base); (x in r <==> x in attrs) && (x in attrs ==> r[x] == attrs[x])
    decreases t
  {
    hide Npfl;
    if HasChild(t, L) {
      PrefixBelow(p, L, x);
      FillFrame(attrs, Child(t, L), p + [L], base, x);
    }
    if HasChild(t, R) {
      PrefixBelow(p, R, x);
      FillFrame(Fill(attrs, Child(t, L), p + [L], base), Child(t, R), p + [R], base + NumPos(Child(t, L)), x);
    }
  }

  lemma PrefixBelow(p: Path, d: Dir, x: Path)
    ensures p + [d] <= x ==> p <= x && p != x && x[|p|] == d
  {
    if p + [d] <= x {
      assert x[..|p|] == (p + [d])[..|p|] == p;
      assert x[|p|] == (p + [d])[|p|];
    }
  }

  lemma {:induction false} ComputedFrame(a: Attrs, b: Attrs, t: Ast, p: Path, base: nat)
    requires Computed(a, t, p, base) && AgreeBelow(a, b, p)
    ensures Computed(b, t, p, base)
    decreases t
  {
    assert Under(p, p);
    if HasChild(t, L) {
      assert AgreeBelow(a, b, p + [L]) by {
        forall x: Path | Under(p + [L], x) ensures Under(p, x) { PrefixBelow(p, L, x); }
      }
      ComputedFrame(a, b, Child(t, L), p + [L], base);
    }
    if HasChild(t, R) {
      assert AgreeBelow(a, b, p + [R]) by {
        forall x: Path | Under(p + [R], x) ensures Under(p, x) { PrefixBelow(p, R, x); }
      }
      ComputedFrame(a, b, Child(t, R), p + [R], base + NumPos(Child(t, L)));
    }
  }

  /** One turn of the recursions. */
  lemma FillParts(attrs: Attrs, t: Ast, p: Path, base: nat)
    ensures var attr := Npfl(t, base);
      if HasChild(t, R) then
        Fill(attrs, t, p, base) == Fill(Fill(attrs, Child(t, L), p + [L], base), Child(t, R), p + [R],
            base + NumPos(Child(t, L)))[p := attr]
      else if HasChild(t, L) then Fill(attrs, t, p, base) == Fill(attrs, Child(t, L), p + [L], base)[p := attr]
      else Fill(attrs, t, p, base) == attrs[p := attr]
  {
    hide Npfl, NumPos;
  }

  lemma ComputedParts(attrs: Attrs, t: Ast, p: Path, base: nat)
    requires p in attrs && attrs[p] == Npfl(t, base)
    requires HasChild(t, L) ==> Computed(attrs, Child(t, L), p + [L], base)
    requires HasChild(t, R) ==> Computed(attrs, Child(t, R), p + [R], base + NumPos(Child(t, L)))
    ensures Computed(attrs, t, p, base)
  {
    hide Npfl, NumPos;
  }

  /** What is filled in behind a left child does not touch it. */
  lemma LeftStays(a1: Attrs, a2: Attrs, l: Ast, r: Ast, p: Path, base: nat, mid: nat)
    requires Computed(a1, l, p + [L], base) && a2 == Fill(a1, r, p + [R], mid)
    ensures Computed(a2, l, p + [L], base)
  {
    hide Npfl, NumPos, Fill, Computed;
    forall x: Path | Under(p + [L], x)
      ensures (x in a1 <==> x in a2) && (x in a1 ==> a1[x] == a2[x])
    {
      PrefixBelow(p, L, x);
      PrefixBelow(p, R, x);
      FillFrame(a1, r, p + [R], mid, x);
    }
    ComputedFrame(a1, a2, l, p + [L], base);
  }

  lemma {:induction false} FillComputes(attrs: Attrs, t: Ast, p: Path, base: nat)
    ensures Computed(Fill(attrs, t, p, base), t, p, base)
    decreases t
  {
    hide Npfl, NumPos, Fill, Computed, AgreeBelow;
    var r := Fill(attrs, t, p, base);
    FillParts(attrs, t, p, base);
    if HasChild(t, L) {
      var l := Child(t, L);
      var a1 := Fill(attrs, l, p + [L], base);
      FillComputes(attrs, l, p + [L], base);
      var a2 := a1;
      if HasChild(t, R) {
        var rr, mid := Child(t, R), base + NumPos(l);
        a2 := Fill(a1, rr, p + [R], mid);
        FillComputes(a1, rr, p + [R], mid);
        LeftStays(a1, a2, l, rr, p, base, mid);
        AgreeBelowChild(a2, p, R, Npfl(t, base));
        ComputedFrame(a2, r, rr, p + [R], mid);
      }
      AgreeBelowChild(a2, p, L, Npfl(t, base));
      ComputedFrame(a2, r, l, p + [L], base);
    }
    ComputedParts(r, t, p, base);
  }

  lemma AgreeBelowChild(a: Attrs, p: Path, d: Dir, v: Attr)
    ensures AgreeBelow(a, a[p := v], p + [d])
  {
    forall x: Path | Under(p + [d], x) ensures x != p { PrefixBelow(p, d, x); }
  }

  predicate NpflReady(tree: Ast, f: NpflFrame, st: NpflState) {
    && IsNode(tree, f.ptr)
    && var n := Sub(tree, f.ptr);
       match f
       case NpflRecurse(_) => true
       case NpflPostUnion(p) => n.Union? && p + [L] in st.attrs && p + [R] in st.attrs
       case NpflPostIteration(p) => n.Iteration? && p + [L] in st.attrs
       case NpflPostCatenation(p) =>
         n.Catenation? && NullableComputed(st.attrs, n.left, p + [L]) && NullableComputed(st.attrs, n.right, p + [R])
  }

  function NpflApply(tree: Ast, f: NpflFrame, st: NpflState): NpflState
    requires NpflReady(tree, f, st)
  {
    var n := Sub(tree, f.ptr);
    match f
    case NpflRecurse(p) => NpflState(Fill(st.attrs, n, p, st.nextpos), st.nextpos + NumPos(n))
    case NpflPostUnion(p) => st.(attrs := st.attrs[p := UnionAttr(st.attrs[p + [L]], st.attrs[p + [R]])])
    case NpflPostIteration(p) => st.(attrs := st.attrs[p := IterAttr(n.min, st.attrs[p + [L]])])
    case NpflPostCatenation(p) =>
      st.(attrs := st.attrs[p := CatAttr(st.attrs[p + [L]], st.attrs[p + [R]], EmptyTags(n.left, []), EmptyTags(n.right, []))])
  }

  predicate NpflOk(tree: Ast, stack: seq<NpflFrame>, st: NpflState)
    decreases |stack|
  {
    stack == [] || (NpflReady(tree, stack[0], st) && NpflOk(tree, stack[1..], NpflApply(tree, stack[0], st)))
  }

  function NpflRun(tree: Ast, stack: seq<NpflFrame>, st: NpflState): NpflState
    requires NpflOk(tree, stack, st)
    decreases |stack|
  {
    if stack == [] then st else NpflRun(tree, stack[1..], NpflApply(tree, stack[0], st))
  }

  function NpflFrameSteps(tree: Ast, f: NpflFrame): nat
  {
    if f.NpflRecurse? && IsNode(tree, f.ptr) then 2 * Weight(Sub(tree, f.ptr)) else 1
  }

  function NpflSteps(tree: Ast, stack: seq<NpflFrame>): nat
  {
    if stack == [] then 0 else NpflFrameSteps(tree, stack[0]) + NpflSteps(tree, stack[1..])
  }

  lemma NpflPush(tree: Ast, f: NpflFrame, rest: seq<NpflFrame>, st: NpflState)
    requires NpflReady(tree, f, st) && NpflOk(tree, rest, NpflApply(tree, f, st))
    ensures NpflOk(tree, [f] + rest, st)
    ensures NpflRun(tree, [f] + rest, st) == NpflRun(tree, rest, NpflApply(tree, f, st))
    ensures NpflSteps(tree, [f] + rest) == NpflFrameSteps(tree, f) + NpflSteps(tree, rest)
  {
    assert ([f] + rest)[1..] == rest;
  }

  /** The attributes of the left child survive the filling in of the right one. */
  lemma FillLeftThenRight(attrs: Attrs, l: Ast, r: Ast, p: Path, base: nat)
    ensures var a1 := Fill(attrs, l, p + [L], base);
      var a2 := Fill(a1, r, p + [R], base + NumPos(l));
      Computed(a2, l, p + [L], base) && Computed(a2, r, p + [R], base + NumPos(l))
  {
    hide Fill, Npfl, NumPos, Computed;
    var a1 := Fill(attrs, l, p + [L], base);
    var a2 := Fill(a1, r, p + [R], base + NumPos(l));
    FillComputes(attrs, l, p + [L], base);
    FillComputes(a1, r, p + [R], base + NumPos(l));
    LeftStays(a1, a2, l, r, p, base, base + NumPos(l));
  }

  lemma NpflPush3(tree: Ast, f: NpflFrame, g: NpflFrame, h: NpflFrame, rest: seq<NpflFrame>,
                  st: NpflState, st1: NpflState, st2: NpflState, st3: NpflState)
    requires NpflReady(tree, f, st) && NpflApply(tree, f, st) == st1
    requires NpflReady(tree, g, st1) && NpflApply(tree, g, st1) == st2
    requires NpflReady(tree, h, st2) && NpflApply(tree, h, st2) == st3
    requires NpflOk(tree, rest, st3)
    ensures var stack := [f] + ([g] + ([h] + rest));
      && NpflOk(tree, stack, st) && NpflRun(tree, stack, st) == NpflRun(tree, rest, st3)
      && NpflSteps(tree, stack)
         == NpflFrameSteps(tree, f) + NpflFrameSteps(tree, g) + NpflFrameSteps(tree, h) + NpflSteps(tree, rest)
  {
    NpflPush(tree, h, rest, st2);
    NpflPush(tree, g, [h] + rest, st1);
    NpflPush(tree, f, [g] + ([h] + rest), st);
  }

  lemma NpflRecurseEffect(tree: Ast, p: Path, n: Ast, st: NpflState)
    requires IsNode(tree, p) && Sub(tree, p) == n
    ensures NpflReady(tree, NpflRecurse(p), st)
    ensures NpflApply(tree, NpflRecurse(p), st) == NpflState(Fill(st.attrs, n, p, st.nextpos), st.nextpos + NumPos(n))
  {
  }

  /** POST, once both children are filled in, completes the filling in of the node. */
  lemma NpflPost(tree: Ast, p: Path, n: Ast, a2: Attrs, base: nat, nextpos: nat)
    requires IsNode(tree, p) && Sub(tree, p) == n && HasChild(n, R)
    requires Computed(a2, n.left, p + [L], base) && Computed(a2, n.right, p + [R], base + NumPos(n.left))
    ensures var post := if n.Union? then NpflPostUnion(p) else NpflPostCatenation(p);
      && NpflReady(tree, post, NpflState(a2, nextpos))
      && NpflApply(tree, post, NpflState(a2, nextpos)) == NpflState(a2[p := Npfl(n, base)], nextpos)
  {
    ComputedNullable(a2, n.left, p + [L], base);
    ComputedNullable(a2, n.right, p + [R], base + NumPos(n.left));
  }

  lemma FillTwo(attrs: Attrs, n: Ast, p: Path, base: nat)
    requires HasChild(n, R)
    ensures NumPos(n) == NumPos(n.left) + NumPos(n.right)
    ensures Fill(attrs, n, p, base)
         == Fill(Fill(attrs, n.left, p + [L], base), n.right, p + [R], base + NumPos(n.left))[p := Npfl(n, base)]
  {
    hide Fill, Npfl;
    FillParts(attrs, n, p, base);
  }

  /** POST of an iteration completes the filling in of the node. */
  lemma NpflPostOne(tree: Ast, p: Path, n: Ast, st: NpflState)
    requires IsNode(tree, p) && Sub(tree, p) == n && n.Iteration?
    ensures NpflReady(tree, NpflPostIteration(p), Filled(n.arg, p + [L], st))
    ensures NpflApply(tree, NpflPostIteration(p), Filled(n.arg, p + [L], st)) == Filled(n, p, st)
  {
    hide Fill, Computed;
    FillParts(st.attrs, n, p, st.nextpos);
    FillComputes(st.attrs, n.arg, p + [L], st.nextpos);
    ComputedHere(Fill(st.attrs, n.arg, p + [L], st.nextpos), n.arg, p + [L], st.nextpos);
  }

  lemma ComputedHere(attrs: Attrs, t: Ast, p: Path, base: nat)
    requires Computed(attrs, t, p, base)
    ensures p in attrs && attrs[p] == Npfl(t, base)
  {
    hide Npfl, NumPos;
  }

  /** The state after RECURSE on `n` at `p`. */
  function Filled(n: Ast, p: Path, st: NpflState): NpflState {
    NpflState(Fill(st.attrs, n, p, st.nextpos), st.nextpos + NumPos(n))
  }

  /** RECURSE on a node with two children has the effect of RECURSE left, RECURSE right, POST. */
  lemma NpflTwo(tree: Ast, p: Path, n: Ast, post: NpflFrame, rest: seq<NpflFrame>, st: NpflState)
    requires IsNode(tree, p) && Sub(tree, p) == n && HasChild(n, R)
    requires post == if n.Union? then NpflPostUnion(p) else NpflPostCatenation(p)
    requires NpflOk(tree, rest, Filled(n, p, st))
    ensures var stack := [NpflRecurse(p + [L])] + ([NpflRecurse(p + [R])] + ([post] + rest));
      && NpflOk(tree, stack, st)
      && NpflRun(tree, stack, st) == NpflRun(tree, rest, Filled(n, p, st))
      && NpflSteps(tree, stack) < 2 * Weight(n) + NpflSteps(tree, rest)
  {
    hide Fill, Npfl, NumPos, Computed, NpflOk, NpflRun, NpflReady, NpflApply, NpflSteps;
    Extend(tree, p, L, Empty);
    Extend(tree, p, R, Empty);
    var st1 := Filled(n.left, p + [L], st);
    var st2 := Filled(n.right, p + [R], st1);
    NpflRecurseEffect(tree, p + [L], n.left, st);
    NpflRecurseEffect(tree, p + [R], n.right, st1);
    FillLeftThenRight(st.attrs, n.left, n.right, p, st.nextpos);
    NpflPost(tree, p, n, st2.attrs, st.nextpos, st2.nextpos);
    FillTwo(st.attrs, n, p, st.nextpos);
    NpflPush3(tree, NpflRecurse(p + [L]), NpflRecurse(p + [R]), post, rest, st, st1, st2, Filled(n, p, st));
  }

  lemma NpflOne(tree: Ast, p: Path, n: Ast, rest: seq<NpflFrame>, st: NpflState)
    requires IsNode(tree, p) && Sub(tree, p) == n && n.Iteration?
    requires NpflOk(tree, rest, Filled(n, p, st))
    ensures var stack := [NpflRecurse(p + [L])] + ([NpflPostIteration(p)] + rest);
      && NpflOk(tree, stack, st)
      && NpflRun(tree, stack, st) == NpflRun(tree, rest, Filled(n, p, st))
      && NpflSteps(tree, stack) < 2 * Weight(n) + NpflSteps(tree, rest)
  {
    hide Fill, Npfl, NumPos, Computed, NpflOk, NpflRun, NpflReady, NpflApply, NpflSteps;
    Extend(tree, p, L, Empty);
    var f, post := NpflRecurse(p + [L]), NpflPostIteration(p);
    var st1 := Filled(n.arg, p + [L], st);
    NpflRecurseEffect(tree, p + [L], n.arg, st);
    NpflPostOne(tree, p, n, st);
    NpflPush(tree, post, rest, st1);
    NpflPush(tree, f, [post] + rest, st);
  }

  /** The case NPFL_POST_CATENATION. */
  method PostCatenation(tree: Ast, attrs: Attrs, p: Path) returns (a: Attr)
    requires NpflReady(tree, NpflPostCatenation(p), NpflState(attrs, 0))
    ensures var n := Sub(tree, p);
      a == CatAttr(attrs[p + [L]], attrs[p + [R]], EmptyTags(n.left, []), EmptyTags(n.right, []))
  {
    Extend(tree, p, L, Empty);
    Extend(tree, p, R, Empty);
    var l, r := attrs[p + [L]], attrs[p + [R]];
    var firstpos, lastpos := l.firstpos, r.lastpos;
    if l.nullable {
      var tags, seen := MatchEmpty(tree, attrs, p + [L]);
      firstpos := SetUnion(r.firstpos, l.firstpos, tags);
    }
    if r.nullable {
      var tags, seen := MatchEmpty(tree, attrs, p + [R]);
      lastpos := SetUnion(l.lastpos, r.lastpos, tags);
    }
    a := Attr(l.nullable && r.nullable, firstpos, lastpos);
  }

  lemma NpflTop(tree: Ast, stack: seq<NpflFrame>, st: NpflState)
    requires stack != [] && NpflOk(tree, stack, st)
    ensures NpflReady(tree, stack[0], st) && NpflOk(tree, stack[1..], NpflApply(tree, stack[0], st))
    ensures NpflRun(tree, stack, st) == NpflRun(tree, stack[1..], NpflApply(tree, stack[0], st))
    ensures NpflSteps(tree, stack) == NpflFrameSteps(tree, stack[0]) + NpflSteps(tree, stack[1..])
  {
  }

  lemma NpflBottom(tree: Ast, st: NpflState)
    ensures NpflOk(tree, [], st) && NpflRun(tree, [], st) == st
  {
  }

  lemma NpflStart(tree: Ast, nextpos: nat)
    ensures var st := NpflState(map[], nextpos);
      && NpflOk(tree, [NpflRecurse([])], st)
      && NpflRun(tree, [NpflRecurse([])], st) == NpflState(Fill(map[], tree, [], nextpos), nextpos + NumPos(tree))
  {
    hide Fill, NumPos;
    NpflRecurseEffect(tree, [], tree, NpflState(map[], nextpos));
    assert [NpflRecurse([])][1..] == [];
  }

  /** The case NPFL_RECURSE. */
  method Recurse(tree: Ast, p: Path, rest: seq<NpflFrame>, attrs0: Attrs, nextpos0: nat)
      returns (stack: seq<NpflFrame>, attrs: Attrs, nextpos: nat)
    requires var st0 := NpflState(attrs0, nextpos0);
      NpflReady(tree, NpflRecurse(p), st0) && NpflOk(tree, rest, NpflApply(tree, NpflRecurse(p), st0))
    ensures var st0, st := NpflState(attrs0, nextpos0), NpflState(attrs, nextpos);
      && NpflOk(tree, stack, st) && NpflRun(tree, stack, st) == NpflRun(tree, rest, NpflApply(tree, NpflRecurse(p), st0))
      && NpflSteps(tree, stack) < 2 * Weight(Sub(tree, p)) + NpflSteps(tree, rest)
  {
    hide NpflOk, NpflRun, NpflSteps;
    var node := Sub(tree, p);
    ghost var st := NpflState(attrs0, nextpos0);
    stack, attrs, nextpos := rest, attrs0, nextpos0;
    NpflRecurseEffect(tree, p, node, st);
    match node {
      case Literal(lo, hi) =>
        attrs := attrs[p := Attr(false, [PosTags(nextpos, lo, hi, [])], [PosTags(nextpos, lo, hi, [])])];
        nextpos := nextpos + 1;
      case Union(_, _) =>
        NpflTwo(tree, p, node, NpflPostUnion(p), rest, st);
        stack := [NpflRecurse(p + [L])] + ([NpflRecurse(p + [R])] + ([NpflPostUnion(p)] + stack));
      case Catenation(_, _) =>
        NpflTwo(tree, p, node, NpflPostCatenation(p), rest, st);
        stack := [NpflRecurse(p + [L])] + ([NpflRecurse(p + [R])] + ([NpflPostCatenation(p)] + stack));
      case Iteration(_, _, _) =>
        NpflOne(tree, p, node, rest, st);
        stack := [NpflRecurse(p + [L])] + ([NpflPostIteration(p)] + stack);
      case _ =>
        attrs := attrs[p := Attr(true, [], [])];
    }
  }

  /** The cases in which a node gets its attributes from those of its children. */
  method Post(tree: Ast, symbol: NpflFrame, attrs0: Attrs, ghost nextpos: nat) returns (attrs: Attrs)
    requires !symbol.NpflRecurse? && NpflReady(tree, symbol, NpflState(attrs0, nextpos))
    ensures NpflState(attrs, nextpos) == NpflApply(tree, symbol, NpflState(attrs0, nextpos))
  {
    hide NullableComputed, EmptyTags;
    var node := Sub(tree, symbol.ptr);
    match symbol {
      case NpflPostUnion(p) =>
        var l, r := attrs0[p + [L]], attrs0[p + [R]];
        var firstpos := SetUnion(l.firstpos, r.firstpos, []);
        var lastpos := SetUnion(l.lastpos, r.lastpos, []);
        AddNoTags(l.firstpos);
        AddNoTags(l.lastpos);
        attrs := attrs0[p := Attr(l.nullable || r.nullable, firstpos, lastpos)];
      case NpflPostIteration(p) =>
        var arg := attrs0[p + [L]];
        attrs := attrs0[p := Attr(node.min == 0 || arg.nullable, arg.firstpos, arg.lastpos)];
      case NpflPostCatenation(p) =>
        var a := PostCatenation(tree, attrs0, p);
        attrs := attrs0[p := a];
    }
  }

  /** tre_compute_npfl: every node of the tree gets its attributes, and each literal its own position. */
  method ComputeNpfl(tree: Ast, nextpos0: nat) returns (attrs: Attrs, nextpos: nat)
    ensures Computed(attrs, tree, [], nextpos0)
    ensures nextpos == nextpos0 + NumPos(tree)
  {
    hide NpflOk, NpflRun, NpflSteps, NpflReady, NpflApply, Fill, Computed, NumPos, Weight;
    attrs, nextpos := map[], nextpos0;
    var stack := [NpflRecurse([])];
    FillComputes(map[], tree, [], nextpos0);
    NpflStart(tree, nextpos0);
    ghost var goal := NpflState(Fill(map[], tree, [], nextpos0), nextpos0 + NumPos(tree));
    while stack != []
      invariant NpflOk(tree, stack, NpflState(attrs, nextpos))
      invariant NpflRun(tree, stack, NpflState(attrs, nextpos)) == goal
      decreases NpflSteps(tree, stack)
    {
      NpflTop(tree, stack, NpflState(attrs, nextpos));
      var symbol := stack[0];
      if symbol.NpflRecurse? {
        ReadyNode(tree, symbol, NpflState(attrs, nextpos));
        stack, attrs, nextpos := Recurse(tree, symbol.ptr, stack[1..], attrs, nextpos);
      } else {
        attrs := Post(tree, symbol, attrs, nextpos);
        stack := stack[1..];
      }
    }
    NpflBottom(tree, NpflState(attrs, nextpos));
  }

  lemma ReadyNode(tree: Ast, f: NpflFrame, st: NpflState)
    requires NpflReady(tree, f, st)
    ensures IsNode(tree, f.ptr)
  {
  }
}
