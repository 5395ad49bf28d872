/** The position automaton of a tree, and the proof that it accepts the tree's language.

    In TRE a state is a position: to be in state p is to be about to read the literal at p,
    so the transition from p to q carries the character range of p.  The final state is the
    position of a dummy literal catenated to the tree. */
module TreAutomaton {
  import opened TreAst
  import opened TreExpand
  import opened TrePositions

  // ----- automata -----

  datatype Step = Step(codeMin: nat, codeMax: nat, target: nat, tags: seq<nat>)
  datatype Start = Start(target: nat, tags: seq<nat>)
  datatype Automaton = Automaton(initial: seq<Start>, out: seq<seq<Step>>, final: nat)

  /** Every state named is one of the automaton's. */
  ghost predicate Closed(a: Automaton) {
    && a.final < |a.out|
    && (forall s | s in a.initial :: s.target < |a.out|)
    && (forall q, s | 0 <= q < |a.out| && s in a.out[q] :: s.target < |a.out|)
  }

  predicate Reads(s: Step, c: nat) { s.codeMin <= c <= s.codeMax }

  ghost predicate IsInitial(a: Automaton, q: nat) { exists s :: s in a.initial && s.target == q }

  ghost predicate HasStep(a: Automaton, p: nat, c: nat, q: nat) {
    p < |a.out| && exists s :: s in a.out[p] && Reads(s, c) && s.target == q
  }

  function Front(w: Word): (r: Word)
    requires w != []
    ensures |r| == |w| - 1
  {
    w[..|w| - 1]
  }

  function Last(w: Word): nat
    requires w != []
  {
    w[|w| - 1]
  }

  /** Some path from an initial state reads `w` and ends in `q`. */
  ghost predicate Reached(a: Automaton, w: Word, q: nat)
    decreases |w|
  {
    if w == [] then IsInitial(a, q)
    else exists p: nat :: Reached(a, Front(w), p) && HasStep(a, p, Last(w), q)
  }

  ghost predicate Accepts(a: Automaton, w: Word) { Reached(a, w, a.final) }

  // ----- the automaton of a tree: tre_make_trans and tre_ast_to_tnfa -----

  type Edge = (PosTags, PosTags)

  /** The tags of p2 that are not already tags of p1 come after those of p1. */
  function MergeTags(t1: seq<nat>, t2: seq<nat>): seq<nat> {
    if t2 == [] then t1
    else
      var last := t2[|t2| - 1];
      var m := MergeTags(t1, t2[..|t2| - 1]);
      if last in t1 then m else m + [last]
  }

  function EdgeStep(e: Edge): Step {
    Step(e.0.codeMin, e.0.codeMax, e.1.position, MergeTags(e.0.tags, e.1.tags))
  }

  function EdgesFrom(p: PosTags, p2: PosSet): (r: seq<Edge>)
    ensures |r| == |p2| && forall i | 0 <= i < |p2| :: r[i] == (p, p2[i])
  {
    seq(|p2|, i requires 0 <= i < |p2| => (p, p2[i]))
  }

  function Cross(p1: PosSet, p2: PosSet): seq<Edge> {
    if p1 == [] then [] else EdgesFrom(p1[0], p2) + Cross(p1[1..], p2)
  }

  /** All edges of a tree, in the order tre_ast_to_tnfa makes them. */
  function Edges(t: Ast, base: nat): seq<Edge> {
    match t
    case Union(l, r) => Edges(l, base) + Edges(r, base + NumPos(l))
    case Catenation(l, r) =>
      Cross(Npfl(l, base).lastpos, Npfl(r, base + NumPos(l)).firstpos) + Edges(l, base) + Edges(r, base + NumPos(l))
    case Iteration(a, _, max) =>
      (if max == -1 then Cross(Npfl(a, base).lastpos, Npfl(a, base).firstpos) else []) + Edges(a, base)
    case _ => []
  }

  function AddStep(out: seq<seq<Step>>, e: Edge): (r: seq<seq<Step>>)
    ensures |r| == |out|
  {
    if e.0.position < |out| then out[e.0.position := out[e.0.position] + [EdgeStep(e)]] else out
  }

  function AddSteps(out: seq<seq<Step>>, edges: seq<Edge>): (r: seq<seq<Step>>)
    ensures |r| == |out|
    decreases |edges|
  {
    if edges == [] then out else AddSteps(AddStep(out, edges[0]), edges[1..])
  }

  function NoSteps(n: nat): (r: seq<seq<Step>>)
    ensures |r| == n && forall i | 0 <= i < n :: r[i] == []
  {
    seq(n, _ => [])
  }

  function Starts(first: PosSet): (r: seq<Start>)
    ensures |r| == |first| && forall i | 0 <= i < |first| :: r[i] == Start(first[i].position, first[i].tags)
  {
    seq(|first|, i requires 0 <= i < |first| => Start(first[i].position, first[i].tags))
  }

  /** The tree with the dummy literal for the final state. */
  function WithFinal(t: Ast): Ast { Catenation(t, Literal(0, 0)) }

  function AutomatonOf(t: Ast): Automaton {
    var tree := WithFinal(t);
    Automaton(Starts(Npfl(tree, 0).firstpos), AddSteps(NoSteps(NumPos(tree)), Edges(tree, 0)), NumPos(t))
  }

  // ----- positions, declaratively -----

  predicate IsFirst(t: Ast, base: nat, p: nat) {
    match t
    case Literal(_, _) => p == base
    case Catenation(l, r) => IsFirst(l, base, p) || (Nullable(l) && IsFirst(r, base + NumPos(l), p))
    case Union(l, r) => IsFirst(l, base, p) || IsFirst(r, base + NumPos(l), p)
    case Iteration(a, _, _) => IsFirst(a, base, p)
    case _ => false
  }

  predicate IsLast(t: Ast, base: nat, p: nat) {
    match t
    case Literal(_, _) => p == base
    case Catenation(l, r) => (Nullable(r) && IsLast(l, base, p)) || IsLast(r, base + NumPos(l), p)
    case Union(l, r) => IsLast(l, base, p) || IsLast(r, base + NumPos(l), p)
    case Iteration(a, _, _) => IsLast(a, base, p)
    case _ => false
  }

  predicate Follows(t: Ast, base: nat, p: nat, q: nat) {
    match t
    case Catenation(l, r) =>
      || Follows(l, base, p, q)
      || Follows(r, base + NumPos(l), p, q)
      || (IsLast(l, base, p) && IsFirst(r, base + NumPos(l), q))
    case Union(l, r) => Follows(l, base, p, q) || Follows(r, base + NumPos(l), p, q)
    case Iteration(a, _, max) => Follows(a, base, p, q) || (max == -1 && IsLast(a, base, p) && IsFirst(a, base, q))
    case _ => false
  }

  /** The literal at position `p` reads `c`. */
  predicate Spells(t: Ast, base: nat, p: nat, c: nat) {
    match t
    case Literal(lo, hi) => p == base && lo <= c <= hi
    case Catenation(l, r) => Spells(l, base, p, c) || Spells(r, base + NumPos(l), p, c)
    case Union(l, r) => Spells(l, base, p, c) || Spells(r, base + NumPos(l), p, c)
    case Iteration(a, _, _) => Spells(a, base, p, c)
    case _ => false
  }

  predicate InRange(t: Ast, base: nat, p: nat) { base <= p < base + NumPos(t) }

  lemma {:induction false} PositionsInRange(t: Ast, base: nat, p: nat, q: nat, c: nat)
    ensures IsFirst(t, base, p) ==> InRange(t, base, p)
    ensures IsLast(t, base, p) ==> InRange(t, base, p)
    ensures Spells(t, base, p, c) ==> InRange(t, base, p)
    ensures Follows(t, base, p, q) ==> InRange(t, base, p) && InRange(t, base, q)
    decreases t
  {
    match t
    case Catenation(l, r) =>
      PositionsInRange(l, base, p, q, c);
      PositionsInRange(r, base + NumPos(l), p, q, c);
      PositionsInRange(r, base + NumPos(l), q, q, c);
    case Union(l, r) =>
      PositionsInRange(l, base, p, q, c);
      PositionsInRange(r, base + NumPos(l), p, q, c);
    case Iteration(a, _, _) =>
      PositionsInRange(a, base, p, q, c);
      PositionsInRange(a, base, q, q, c);
    case _ =>
  }

  // ----- walks -----

  /** `ps` visits the positions that spell `w`, from a first to a last position. */
  ghost predicate Walk(t: Ast, base: nat, ps: seq<nat>, w: Word) {
    && |ps| == |w| > 0
    && IsFirst(t, base, ps[0])
    && IsLast(t, base, ps[|ps| - 1])
    && (forall i | 0 <= i < |ps| :: Spells(t, base, ps[i], w[i]))
    && (forall i | 0 <= i < |ps| - 1 :: Follows(t, base, ps[i], ps[i + 1]))
  }

  lemma {:induction false} EmptyWordIffNullable(t: Ast)
    requires Simple(t)
    ensures [] in Lang(t) <==> Nullable(t)
  {
    match t
    case Catenation(l, r) =>
      EmptyWordIffNullable(l);
      EmptyWordIffNullable(r);
      if [] in Lang(t) {
        var u, v := Split(Lang(l), Lang(r), []);
        assert u == [] && v == [];
      }
      if Nullable(t) {
        Join(Lang(l), Lang(r), [], []);
        var e: Word := [];
        assert e + e == e;
      }
    case Union(l, r) =>
      EmptyWordIffNullable(l);
      EmptyWordIffNullable(r);
    case Iteration(a, min, max) =>
      EmptyWordIffNullable(a);
      EmptyInPowers(Lang(a), min, max);
    case _ =>
  }

  lemma EmptyInPowers(a: Language, min: nat, max: int)
    requires min <= 1 && (max == -1 || max == 1)
    ensures [] in Powers(a, min, max) <==> min == 0 || [] in a
  {
    PowerOne(a);
    if min == 0 {
      assert InBounds(0, min, max) && [] in Power(a, 0);
    } else if [] in a {
      assert InBounds(1, min, max) && [] in Power(a, 1);
    }
    if [] in Powers(a, min, max) && min > 0 {
      var n: nat :| InBounds(n, min, max) && [] in Power(a, n);
      var u, v := Split(a, Power(a, n - 1), []);
      assert u == [];
    }
  }

  lemma WalkJoin(t: Ast, base: nat, ps: seq<nat>, u: Word, qs: seq<nat>, v: Word)
    requires |ps| == |u| > 0 && |qs| == |v| > 0
    requires IsFirst(t, base, ps[0]) && IsLast(t, base, qs[|qs| - 1])
    requires forall i | 0 <= i < |ps| :: Spells(t, base, ps[i], u[i])
    requires forall i | 0 <= i < |qs| :: Spells(t, base, qs[i], v[i])
    requires forall i | 0 <= i < |ps| - 1 :: Follows(t, base, ps[i], ps[i + 1])
    requires forall i | 0 <= i < |qs| - 1 :: Follows(t, base, qs[i], qs[i + 1])
    requires Follows(t, base, ps[|ps| - 1], qs[0])
    ensures Walk(t, base, ps + qs, u + v)
  {
    var rs, w := ps + qs, u + v;
    forall i | 0 <= i < |rs| ensures Spells(t, base, rs[i], w[i]) {
      if i >= |ps| {
        assert rs[i] == qs[i - |ps|] && w[i] == v[i - |ps|];
      }
    }
    forall i | 0 <= i < |rs| - 1 ensures Follows(t, base, rs[i], rs[i + 1]) {
      if i >= |ps| {
        assert rs[i] == qs[i - |ps|] && rs[i + 1] == qs[i + 1 - |ps|];
      }
    }
  }

  /** Walks through the operands of a catenation, one of which may be skipped, make one through it. */
  lemma CatWalk(l: Ast, r: Ast, base: nat, ps: seq<nat>, u: Word, qs: seq<nat>, v: Word)
    requires if u == [] then ps == [] && Nullable(l) else Walk(l, base, ps, u)
    requires if v == [] then qs == [] && Nullable(r) else Walk(r, base + NumPos(l), qs, v)
    requires u != [] || v != []
    ensures Walk(Catenation(l, r), base, ps + qs, u + v)
  {
    if u == [] {
      CatRight(l, r, base, qs, v);
      assert ps + qs == qs && u + v == v;
    } else if v == [] {
      CatLeft(l, r, base, ps, u);
      assert ps + qs == ps && u + v == u;
    } else {
      CatBoth(l, r, base, ps, u, qs, v);
    }
  }

  lemma CatLeft(l: Ast, r: Ast, base: nat, ps: seq<nat>, u: Word)
    requires Walk(l, base, ps, u) && Nullable(r)
    ensures Walk(Catenation(l, r), base, ps, u)
  {
  }

  lemma CatRight(l: Ast, r: Ast, base: nat, qs: seq<nat>, v: Word)
    requires Walk(r, base + NumPos(l), qs, v) && Nullable(l)
    ensures Walk(Catenation(l, r), base, qs, v)
  {
  }

  lemma CatBoth(l: Ast, r: Ast, base: nat, ps: seq<nat>, u: Word, qs: seq<nat>, v: Word)
    requires Walk(l, base, ps, u) && Walk(r, base + NumPos(l), qs, v)
    ensures Walk(Catenation(l, r), base, ps + qs, u + v)
  {
    var t := Catenation(l, r);
    forall i | 0 <= i < |ps| ensures Spells(t, base, ps[i], u[i]) {}
    forall i | 0 <= i < |qs| ensures Spells(t, base, qs[i], v[i]) {}
    forall i | 0 <= i < |ps| - 1 ensures Follows(t, base, ps[i], ps[i + 1]) {}
    forall i | 0 <= i < |qs| - 1 ensures Follows(t, base, qs[i], qs[i + 1]) {}
    WalkJoin(t, base, ps, u, qs, v);
  }

  /** Every nonempty word of the language is spelled by a walk. */
  lemma {:induction false} LangHasWalk(t: Ast, base: nat, w: Word) returns (ps: seq<nat>)
    requires Simple(t) && w in Lang(t) && w != []
    ensures Walk(t, base, ps, w)
    decreases t, 0
  {
    match t
    case Literal(_, _) => ps := [base];
    case Union(l, r) =>
      if w in Lang(l) {
        ps := LangHasWalk(l, base, w);
      } else {
        ps := LangHasWalk(r, base + NumPos(l), w);
      }
    case Catenation(l, r) =>
      var u, v := Split(Lang(l), Lang(r), w);
      EmptyWordIffNullable(l);
      EmptyWordIffNullable(r);
      var ps1: seq<nat>, ps2: seq<nat> := [], [];
      if u != [] {
        ps1 := LangHasWalk(l, base, u);
      }
      if v != [] {
        ps2 := LangHasWalk(r, base + NumPos(l), v);
      }
      CatWalk(l, r, base, ps1, u, ps2, v);
      ps := ps1 + ps2;
    case Iteration(a, min, max) =>
      var n: nat :| InBounds(n, min, max) && w in Power(Lang(a), n);
      ps := PowerHasWalk(a, min, max, base, n, w);
  }

  lemma {:induction false} PowerHasWalk(a: Ast, min: nat, max: int, base: nat, n: nat, w: Word) returns (ps: seq<nat>)
    requires Simple(a) && w in Power(Lang(a), n) && w != [] && (max == -1 || n <= 1)
    ensures Walk(Iteration(a, min, max), base, ps, w)
    decreases a, n + 1
  {
    var t := Iteration(a, min, max);
    var u, v := Split(Lang(a), Power(Lang(a), n - 1), w);
    if u == [] {
      assert w == v;
      ps := PowerHasWalk(a, min, max, base, n - 1, w);
    } else if v == [] {
      assert w == u;
      ps := LangHasWalk(a, base, w);
    } else {
      var ps1 := LangHasWalk(a, base, u);
      var ps2 := PowerHasWalk(a, min, max, base, n - 1, v);
      ps := ps1 + ps2;
      WalkJoin(t, base, ps1, u, ps2, v);
    }
  }

  /** Inside a catenation, a walk that has left the left part stays in the right part. */
  lemma {:induction false} StaysRight(l: Ast, r: Ast, base: nat, ps: seq<nat>, k: nat, i: nat)
    requires forall j | 0 <= j < |ps| - 1 :: Follows(Catenation(l, r), base, ps[j], ps[j + 1])
    requires k <= i < |ps| && ps[k] >= base + NumPos(l)
    ensures ps[i] >= base + NumPos(l)
    decreases i
  {
    if i > k {
      StaysRight(l, r, base, ps, k, i - 1);
      PositionsInRange(l, base, ps[i - 1], ps[i], 0);
      PositionsInRange(r, base + NumPos(l), ps[i - 1], ps[i], 0);
      PositionsInRange(r, base + NumPos(l), ps[i], ps[i], 0);
      assert Follows(Catenation(l, r), base, ps[i - 1], ps[i - 1 + 1]);
    }
  }

  /** A catenation's relations seen from inside one of its parts. */
  lemma CatParts(l: Ast, r: Ast, base: nat, p: nat, q: nat, c: nat)
    ensures var t := Catenation(l, r); var mid := base + NumPos(l);
      && (p < mid && Spells(t, base, p, c) ==> Spells(l, base, p, c))
      && (p >= mid && Spells(t, base, p, c) ==> Spells(r, mid, p, c))
      && (p < mid && q < mid && Follows(t, base, p, q) ==> Follows(l, base, p, q))
      && (p >= mid && Follows(t, base, p, q) ==> Follows(r, mid, p, q))
      && (p < mid && q >= mid && Follows(t, base, p, q) ==> IsLast(l, base, p) && IsFirst(r, mid, q))
      && (p < mid && IsFirst(t, base, p) ==> IsFirst(l, base, p))
      && (p >= mid && IsFirst(t, base, p) ==> Nullable(l) && IsFirst(r, mid, p))
      && (p >= mid && IsLast(t, base, p) ==> IsLast(r, mid, p))
      && (p < mid && IsLast(t, base, p) ==> Nullable(r) && IsLast(l, base, p))
  {
    PositionsInRange(l, base, p, q, c);
    PositionsInRange(r, base + NumPos(l), p, q, c);
    PositionsInRange(r, base + NumPos(l), q, q, c);
  }

  /** The part of a walk in a catenation that lies in the left operand. */
  lemma WalkLeft(l: Ast, r: Ast, base: nat, ps: seq<nat>, w: Word, k: nat)
    requires Walk(Catenation(l, r), base, ps, w) && 0 < k <= |ps|
    requires forall i | 0 <= i < k :: ps[i] < base + NumPos(l)
    requires k < |ps| ==> ps[k] >= base + NumPos(l)
    ensures Walk(l, base, ps[..k], w[..k])
    ensures k == |ps| ==> Nullable(r)
  {
    var t := Catenation(l, r);
    forall i | 0 <= i < k ensures Spells(l, base, ps[i], w[i]) {
      CatParts(l, r, base, ps[i], ps[i], w[i]);
    }
    forall i | 0 <= i < k - 1 ensures Follows(l, base, ps[i], ps[i + 1]) {
      CatParts(l, r, base, ps[i], ps[i + 1], 0);
    }
    CatParts(l, r, base, ps[0], ps[0], 0);
    if k < |ps| {
      CatParts(l, r, base, ps[k - 1], ps[k], 0);
      assert Follows(t, base, ps[k - 1], ps[k - 1 + 1]);
    } else {
      CatParts(l, r, base, ps[k - 1], ps[k - 1], 0);
    }
  }

  /** The part of a walk in a catenation that lies in the right operand. */
  lemma WalkRight(l: Ast, r: Ast, base: nat, ps: seq<nat>, w: Word, k: nat)
    requires Walk(Catenation(l, r), base, ps, w) && k < |ps|
    requires forall i | k <= i < |ps| :: ps[i] >= base + NumPos(l)
    requires k > 0 ==> ps[k - 1] < base + NumPos(l)
    ensures Walk(r, base + NumPos(l), ps[k..], w[k..])
    ensures k == 0 ==> Nullable(l)
  {
    hide Lang, EdgesFrom, IsFirst, IsLast;
    var t, mid := Catenation(l, r), base + NumPos(l);
    forall i | k <= i < |ps| ensures Spells(r, mid, ps[i], w[i]) {
      CatParts(l, r, base, ps[i], ps[i], w[i]);
    }
    forall i | k <= i < |ps| - 1 ensures Follows(r, mid, ps[i], ps[i + 1]) {
      CatParts(l, r, base, ps[i], ps[i + 1], 0);
    }
    if k == 0 {
      CatParts(l, r, base, ps[0], ps[0], 0);
    } else {
      CatParts(l, r, base, ps[k - 1], ps[k], 0);
      assert Follows(t, base, ps[k - 1], ps[k - 1 + 1]);
    }
    CatParts(l, r, base, ps[|ps| - 1], ps[|ps| - 1], 0);
    var qs, v := ps[k..], w[k..];
    forall i | 0 <= i < |qs| - 1 ensures Follows(r, mid, qs[i], qs[i + 1]) {
      assert qs[i] == ps[i + k] && qs[i + 1] == ps[i + k + 1];
    }
  }

  lemma {:induction false} FirstAtLeast(ps: seq<nat>, mid: nat) returns (k: nat)
    ensures k <= |ps| && (forall i | 0 <= i < k :: ps[i] < mid) && (k < |ps| ==> ps[k] >= mid)
  {
    k := 0;
    while k < |ps| && ps[k] < mid
      invariant k <= |ps| && forall i | 0 <= i < k :: ps[i] < mid
    {
      k := k + 1;
    }
  }

  /** Whatever a walk spells is a word of the language. */
  lemma {:induction false} WalkInLang(t: Ast, base: nat, ps: seq<nat>, w: Word)
    requires Simple(t) && Walk(t, base, ps, w)
    ensures w in Lang(t)
    decreases t, |ps|
  {
    match t
    case Literal(lo, hi) =>
      assert Spells(t, base, ps[0], w[0]);
      if |ps| > 1 && Follows(t, base, ps[0], ps[0 + 1]) {
        assert false;
      }
    case Union(l, r) => UnionWalk(l, r, base, ps, w);
    case Catenation(l, r) =>
      var mid := base + NumPos(l);
      var k := FirstAtLeast(ps, mid);
      forall i | k <= i < |ps| ensures ps[i] >= mid {
        StaysRight(l, r, base, ps, k, i);
      }
      EmptyWordIffNullable(l);
      EmptyWordIffNullable(r);
      if k > 0 {
        WalkLeft(l, r, base, ps, w, k);
        WalkInLang(l, base, ps[..k], w[..k]);
      } else {
        assert w[..0] == [];
      }
      if k < |ps| {
        WalkRight(l, r, base, ps, w, k);
        WalkInLang(r, mid, ps[k..], w[k..]);
      } else {
        assert w[k..] == [];
      }
      if k == 0 {
        WalkRight(l, r, base, ps, w, 0);
      }
      if k == |ps| {
        WalkLeft(l, r, base, ps, w, k);
      }
      Join(Lang(l), Lang(r), w[..k], w[k..]);
      assert w[..k] + w[k..] == w;
    case Iteration(a, min, max) =>
      var n := IterationWalk(a, min, max, base, ps, w);
      assert InBounds(n, min, max);
      assert InPowers(Lang(a), min, max, w);
  }

  lemma {:induction false} UnionWalk(l: Ast, r: Ast, base: nat, ps: seq<nat>, w: Word)
    requires Simple(l) && Simple(r) && Walk(Union(l, r), base, ps, w)
    ensures w in Lang(l) || w in Lang(r)
    decreases Union(l, r), 0
  {
    var t, mid := Union(l, r), base + NumPos(l);
    var left := ps[0] < mid;
    forall i | 0 <= i < |ps| ensures ps[i] < mid <==> left {
      UnionStays(l, r, base, ps, i);
    }
    forall i | 0 <= i < |ps|
      ensures if left then Spells(l, base, ps[i], w[i]) else Spells(r, mid, ps[i], w[i])
    {
      PositionsInRange(l, base, ps[i], ps[i], w[i]);
      PositionsInRange(r, mid, ps[i], ps[i], w[i]);
    }
    forall i | 0 <= i < |ps| - 1
      ensures if left then Follows(l, base, ps[i], ps[i + 1]) else Follows(r, mid, ps[i], ps[i + 1])
    {
      PositionsInRange(l, base, ps[i], ps[i + 1], 0);
      PositionsInRange(r, mid, ps[i], ps[i + 1], 0);
    }
    PositionsInRange(l, base, ps[0], ps[0], 0);
    PositionsInRange(r, mid, ps[0], ps[0], 0);
    PositionsInRange(l, base, ps[|ps| - 1], ps[0], 0);
    PositionsInRange(r, mid, ps[|ps| - 1], ps[0], 0);
    if left {
      WalkInLang(l, base, ps, w);
    } else {
      WalkInLang(r, mid, ps, w);
    }
  }

  lemma {:induction false} UnionStays(l: Ast, r: Ast, base: nat, ps: seq<nat>, i: nat)
    requires forall j | 0 <= j < |ps| - 1 :: Follows(Union(l, r), base, ps[j], ps[j + 1])
    requires i < |ps|
    ensures ps[i] < base + NumPos(l) <==> ps[0] < base + NumPos(l)
  {
    if i > 0 {
      UnionStays(l, r, base, ps, i - 1);
      PositionsInRange(l, base, ps[i - 1], ps[i], 0);
      PositionsInRange(r, base + NumPos(l), ps[i - 1], ps[i], 0);
      assert Follows(Union(l, r), base, ps[i - 1], ps[i - 1 + 1]);
    }
  }

  lemma PowerMore(a: Language, m: nat, u: Word, v: Word)
    requires u in a && v in Power(a, m)
    ensures u + v in Power(a, m + 1)
  {
    Join(a, Power(a, m), u, v);
  }

  /** The first step of a walk that leaves the argument of an iteration for its next round, or the last index. */
  lemma {:induction false} RoundEnd(a: Ast, base: nat, ps: seq<nat>, from: nat) returns (k: nat)
    requires from < |ps| && forall i | 0 <= i < from :: Follows(a, base, ps[i], ps[i + 1])
    ensures k < |ps| && (forall i | 0 <= i < k :: Follows(a, base, ps[i], ps[i + 1]))
    ensures k < |ps| - 1 ==> !Follows(a, base, ps[k], ps[k + 1])
    decreases |ps| - from
  {
    if from < |ps| - 1 && Follows(a, base, ps[from], ps[from + 1]) {
      k := RoundEnd(a, base, ps, from + 1);
    } else {
      k := from;
    }
  }

  lemma RoundWalk(a: Ast, min: nat, max: int, base: nat, ps: seq<nat>, w: Word, k: nat)
    requires Walk(Iteration(a, min, max), base, ps, w) && k < |ps|
    requires forall i | 0 <= i < k :: Follows(a, base, ps[i], ps[i + 1])
    requires k < |ps| - 1 ==> !Follows(a, base, ps[k], ps[k + 1])
    ensures Walk(a, base, ps[..k + 1], w[..k + 1])
    ensures k < |ps| - 1 ==> max == -1
  {
    var t := Iteration(a, min, max);
    forall i | 0 <= i < k + 1 ensures Spells(a, base, ps[i], w[i]) {
      assert Spells(t, base, ps[i], w[i]);
    }
    if k < |ps| - 1 {
      assert Follows(t, base, ps[k], ps[k + 1]);
    }
  }

  lemma RestWalk(a: Ast, min: nat, max: int, base: nat, ps: seq<nat>, w: Word, k: nat)
    requires Walk(Iteration(a, min, max), base, ps, w) && k < |ps| - 1
    requires !Follows(a, base, ps[k], ps[k + 1])
    ensures Walk(Iteration(a, min, max), base, ps[k + 1..], w[k + 1..])
  {
    var t, qs, v := Iteration(a, min, max), ps[k + 1..], w[k + 1..];
    assert Follows(t, base, ps[k], ps[k + 1]);
    forall i | 0 <= i < |qs| ensures Spells(t, base, qs[i], v[i]) {
      assert Spells(t, base, ps[i + k + 1], w[i + k + 1]);
    }
    forall i | 0 <= i < |qs| - 1 ensures Follows(t, base, qs[i], qs[i + 1]) {
      assert qs[i] == ps[i + k + 1] && qs[i + 1] == ps[i + k + 1 + 1];
    }
  }

  /** A walk through an iteration is one or more walks through its argument. */
  lemma {:induction false} IterationWalk(a: Ast, min: nat, max: int, base: nat, ps: seq<nat>, w: Word) returns (n: nat)
    requires Simple(Iteration(a, min, max)) && Walk(Iteration(a, min, max), base, ps, w)
    ensures n >= 1 && (max == 1 ==> n == 1) && w in Power(Lang(a), n)
    decreases a, |ps| + 1
  {
    var k := RoundEnd(a, base, ps, 0);
    var u, v := w[..k + 1], w[k + 1..];
    assert u + v == w;
    RoundWalk(a, min, max, base, ps, w, k);
    WalkInLang(a, base, ps[..k + 1], u);
    if k == |ps| - 1 {
      n := OneRound(Lang(a), u);
      assert u == w;
    } else {
      RestWalk(a, min, max, base, ps, w, k);
      var m := IterationWalk(a, min, max, base, ps[k + 1..], v);
      n := OneMoreRound(Lang(a), m, u, v);
    }
  }

  lemma OneRound(a: Language, u: Word) returns (n: nat)
    requires u in a
    ensures n == 1 && u in Power(a, n)
  {
    PowerOne(a);
    n := 1;
  }

  lemma OneMoreRound(a: Language, m: nat, u: Word, v: Word) returns (n: nat)
    requires u in a && v in Power(a, m)
    ensures n == m + 1 && u + v in Power(a, n)
  {
    PowerMore(a, m, u, v);
    n := m + 1;
  }

  // ----- the computed sets are the declarative ones -----

  /** `IsFirst` and `IsLast` together, to prove both halves of npfl at once. */
  predicate IsEnd(first: bool, t: Ast, base: nat, p: nat) {
    if first then IsFirst(t, base, p) else IsLast(t, base, p)
  }

  function EndSet(first: bool, t: Ast, base: nat): PosSet {
    if first then Npfl(t, base).firstpos else Npfl(t, base).lastpos
  }

  ghost predicate HasPosition(s: PosSet, p: nat) { exists i :: 0 <= i < |s| && s[i].position == p }

  ghost predicate CodesOf(t: Ast, base: nat, e: PosTags) {
    forall c: nat :: Spells(t, base, e.position, c) <==> e.codeMin <= c <= e.codeMax
  }

  predicate Distinct(s: PosSet) { forall i, j | 0 <= i < j < |s| :: s[i].position != s[j].position }

  ghost predicate Entries(first: bool, t: Ast, base: nat, s: PosSet) {
    && (forall i | 0 <= i < |s| :: IsEnd(first, t, base, s[i].position) && CodesOf(t, base, s[i]))
    && Distinct(s)
  }

  ghost predicate Describes(first: bool, t: Ast, base: nat, s: PosSet) {
    Entries(first, t, base, s) && forall p: nat | IsEnd(first, t, base, p) :: HasPosition(s, p)
  }

  lemma CodesLeft(t: Ast, base: nat, e: PosTags)
    requires HasChild(t, R) && CodesOf(t.left, base, e) && e.position < base + NumPos(t.left)
    ensures CodesOf(t, base, e)
  {
    forall c: nat ensures Spells(t, base, e.position, c) <==> e.codeMin <= c <= e.codeMax {
      PositionsInRange(t.right, base + NumPos(t.left), e.position, 0, c);
    }
  }

  lemma CodesRight(t: Ast, base: nat, e: PosTags)
    requires HasChild(t, R) && CodesOf(t.right, base + NumPos(t.left), e) && e.position >= base + NumPos(t.left)
    ensures CodesOf(t, base, e)
  {
    forall c: nat ensures Spells(t, base, e.position, c) <==> e.codeMin <= c <= e.codeMax {
      PositionsInRange(t.left, base, e.position, 0, c);
    }
  }

  lemma HasEither(a: PosSet, b: PosSet, p: nat)
    ensures HasPosition(a + b, p) <==> HasPosition(a, p) || HasPosition(b, p)
  {
    if HasPosition(a, p) {
      var i :| 0 <= i < |a| && a[i].position == p;
      assert (a + b)[i].position == p;
    }
    if HasPosition(b, p) {
      var i :| 0 <= i < |b| && b[i].position == p;
      assert (a + b)[|a| + i].position == p;
    }
  }

  lemma HasTagged(a: PosSet, tags: seq<nat>, p: nat)
    ensures HasPosition(AddTags(a, tags), p) <==> HasPosition(a, p)
  {
    var b := AddTags(a, tags);
    assert forall i | 0 <= i < |a| :: b[i].position == a[i].position;
  }

  /** The entries of a left and a right part, in either order, are the entries of the node. */
  lemma JoinEntries(first: bool, t: Ast, base: nat, l: PosSet, r: PosSet)
    requires HasChild(t, R)
    requires Entries(first, t.left, base, l) && Entries(first, t.right, base + NumPos(t.left), r)
    requires forall p | IsEnd(first, t.left, base, p) && l != [] :: IsEnd(first, t, base, p)
    requires forall p | IsEnd(first, t.right, base + NumPos(t.left), p) && r != [] :: IsEnd(first, t, base, p)
    ensures Entries(first, t, base, l + r) && Entries(first, t, base, r + l)
  {
    var mid := base + NumPos(t.left);
    forall i | 0 <= i < |l| ensures l[i].position < mid && CodesOf(t, base, l[i]) {
      PositionsInRange(t.left, base, l[i].position, 0, 0);
      CodesLeft(t, base, l[i]);
    }
    forall i | 0 <= i < |r| ensures r[i].position >= mid && CodesOf(t, base, r[i]) {
      PositionsInRange(t.right, mid, r[i].position, 0, 0);
      CodesRight(t, base, r[i]);
    }
  }

  lemma TaggedEntries(first: bool, t: Ast, base: nat, s: PosSet, tags: seq<nat>)
    requires Entries(first, t, base, s)
    ensures Entries(first, t, base, AddTags(s, tags))
  {
    var r := AddTags(s, tags);
    forall i | 0 <= i < |r| ensures CodesOf(t, base, r[i]) {
      forall c: nat ensures Spells(t, base, r[i].position, c) <==> r[i].codeMin <= c <= r[i].codeMax {
        assert CodesOf(t, base, s[i]);
        assert Spells(t, base, s[i].position, c) <==> s[i].codeMin <= c <= s[i].codeMax;
      }
    }
  }

  lemma ExtraEntries(first: bool, t: Ast, base: nat, s: PosSet, tags: seq<nat>)
    requires Describes(first, t, base, s)
    ensures Describes(first, t, base, AddTags(s, tags))
  {
    TaggedEntries(first, t, base, s, tags);
    forall p: nat | IsEnd(first, t, base, p) ensures HasPosition(AddTags(s, tags), p) {
      HasTagged(s, tags, p);
    }
  }

  /** firstpos (or lastpos) lists each first (or last) position once, with its character range. */
  lemma {:induction false} EndSetDescribes(first: bool, t: Ast, base: nat)
    ensures Describes(first, t, base, EndSet(first, t, base))
  {
    match t
    case Literal(_, _) =>
      assert EndSet(first, t, base)[0].position == base;
    case Union(l, r) =>
      EndSetDescribes(first, l, base);
      EndSetDescribes(first, r, base + NumPos(l));
      JoinDescribes(first, t, base, EndSet(first, l, base), EndSet(first, r, base + NumPos(l)));
    case Catenation(l, r) =>
      EndSetDescribes(first, l, base);
      EndSetDescribes(first, r, base + NumPos(l));
      CatDescribes(first, l, r, base);
    case Iteration(a, _, _) =>
      EndSetDescribes(first, a, base);
      IterDescribes(first, t, base);
    case _ =>
  }

  lemma IterDescribes(first: bool, t: Ast, base: nat)
    requires t.Iteration? && Describes(first, t.arg, base, EndSet(first, t.arg, base))
    ensures Describes(first, t, base, EndSet(first, t, base))
  {
    var s := EndSet(first, t.arg, base);
    forall i | 0 <= i < |s| ensures CodesOf(t, base, s[i]) {
      forall c: nat ensures Spells(t, base, s[i].position, c) <==> s[i].codeMin <= c <= s[i].codeMax {
        assert CodesOf(t.arg, base, s[i]);
        assert Spells(t.arg, base, s[i].position, c) <==> s[i].codeMin <= c <= s[i].codeMax;
      }
    }
  }

  lemma JoinDescribes(first: bool, t: Ast, base: nat, l: PosSet, r: PosSet)
    requires HasChild(t, R)
    requires Describes(first, t.left, base, l) && Describes(first, t.right, base + NumPos(t.left), r)
    requires forall p ::
      (IsEnd(first, t, base, p) <==> IsEnd(first, t.left, base, p) || IsEnd(first, t.right, base + NumPos(t.left), p))
    ensures Describes(first, t, base, l + r) && Describes(first, t, base, r + l)
  {
    JoinEntries(first, t, base, l, r);
    forall p: nat | IsEnd(first, t, base, p) ensures HasPosition(l + r, p) && HasPosition(r + l, p) {
      HasEither(l, r, p);
      HasEither(r, l, p);
    }
  }

  lemma CatDescribes(first: bool, l: Ast, r: Ast, base: nat)
    requires Describes(first, l, base, EndSet(first, l, base))
    requires Describes(first, r, base + NumPos(l), EndSet(first, r, base + NumPos(l)))
    ensures Describes(first, Catenation(l, r), base, EndSet(first, Catenation(l, r), base))
  {
    hide Npfl, NumPos, EmptyTags, Nullable, Describes;
    EndSetOfCat(first, l, r, base, Npfl(l, base), Npfl(r, base + NumPos(l)));
    if first {
      CatFirst(l, r, base, Npfl(l, base).firstpos, Npfl(r, base + NumPos(l)).firstpos);
    } else {
      CatLast(l, r, base, Npfl(l, base).lastpos, Npfl(r, base + NumPos(l)).lastpos);
    }
  }

  lemma NpflOfCat(l: Ast, r: Ast, base: nat)
    ensures Npfl(Catenation(l, r), base)
         == CatAttr(Npfl(l, base), Npfl(r, base + NumPos(l)), EmptyTags(l, []), EmptyTags(r, []))
  {
  }

  lemma EndSetOfCat(first: bool, l: Ast, r: Ast, base: nat, a: Attr, b: Attr)
    requires a == Npfl(l, base) && b == Npfl(r, base + NumPos(l))
    ensures EndSet(first, Catenation(l, r), base)
      == if first then (if a.nullable then AddTags(b.firstpos, EmptyTags(l, [])) + a.firstpos else a.firstpos)
         else (if b.nullable then AddTags(a.lastpos, EmptyTags(r, [])) + b.lastpos else b.lastpos)
  {
    NpflOfCat(l, r, base);
  }

  lemma CatFirst(l: Ast, r: Ast, base: nat, ls: PosSet, rs: PosSet)
    requires Describes(true, l, base, ls) && Describes(true, r, base + NumPos(l), rs)
    ensures Describes(true, Catenation(l, r), base, if Nullable(l) then AddTags(rs, EmptyTags(l, [])) + ls else ls)
  {
    hide Entries, Spells, NumPos;
    var t := Catenation(l, r);
    if Nullable(l) {
      ExtraEntries(true, r, base + NumPos(l), rs, EmptyTags(l, []));
      JoinDescribes(true, t, base, ls, AddTags(rs, EmptyTags(l, [])));
    } else {
      JoinEntries(true, t, base, ls, []);
      assert ls + [] == ls;
    }
  }

  lemma CatLast(l: Ast, r: Ast, base: nat, ls: PosSet, rs: PosSet)
    requires Describes(false, l, base, ls) && Describes(false, r, base + NumPos(l), rs)
    ensures Describes(false, Catenation(l, r), base, if Nullable(r) then AddTags(ls, EmptyTags(r, [])) + rs else rs)
  {
    hide Entries, Spells, NumPos;
    var t := Catenation(l, r);
    if Nullable(r) {
      ExtraEntries(false, l, base, ls, EmptyTags(r, []));
      JoinDescribes(false, t, base, AddTags(ls, EmptyTags(r, [])), rs);
    } else {
      JoinEntries(false, t, base, [], rs);
      assert [] + rs == rs;
    }
  }

  // ----- the edges are the follow relation -----

  ghost predicate HasEdge(edges: seq<Edge>, p: nat, q: nat) {
    exists i :: 0 <= i < |edges| && edges[i].0.position == p && edges[i].1.position == q
  }

  ghost predicate EdgeCodes(t: Ast, base: nat, edges: seq<Edge>) {
    forall i | 0 <= i < |edges| :: CodesOf(t, base, edges[i].0)
  }

  lemma HasEdgeEither(a: seq<Edge>, b: seq<Edge>, p: nat, q: nat)
    ensures HasEdge(a + b, p, q) <==> HasEdge(a, p, q) || HasEdge(b, p, q)
  {
    if HasEdge(a, p, q) {
      var i :| 0 <= i < |a| && a[i].0.position == p && a[i].1.position == q;
      assert (a + b)[i] == a[i];
    }
    if HasEdge(b, p, q) {
      var i :| 0 <= i < |b| && b[i].0.position == p && b[i].1.position == q;
      assert (a + b)[|a| + i] == b[i];
    }
  }

  lemma {:induction false} CrossEdges(p1: PosSet, p2: PosSet, p: nat, q: nat)
    ensures HasEdge(Cross(p1, p2), p, q) <==> HasPosition(p1, p) && HasPosition(p2, q)
    ensures forall i | 0 <= i < |Cross(p1, p2)| :: Cross(p1, p2)[i].0 in p1 && Cross(p1, p2)[i].1 in p2
    decreases |p1|
  {
    if p1 != [] {
      CrossEdges(p1[1..], p2, p, q);
      var head := EdgesFrom(p1[0], p2);
      HasEdgeEither(head, Cross(p1[1..], p2), p, q);
      HasEither([p1[0]], p1[1..], p);
      assert [p1[0]] + p1[1..] == p1;
      assert HasPosition([p1[0]], p) <==> p1[0].position == p by {
        assert [p1[0]][0].position == p1[0].position;
      }
      if HasEdge(head, p, q) {
        var i :| 0 <= i < |head| && head[i].0.position == p && head[i].1.position == q;
        assert p2[i].position == q;
      }
      if p1[0].position == p && HasPosition(p2, q) {
        var i :| 0 <= i < |p2| && p2[i].position == q;
        assert head[i].1.position == q;
      }
    }
  }

  predicate SourcesBelow(edges: seq<Edge>, n: nat) { forall i | 0 <= i < |edges| :: edges[i].0.position < n }
  predicate SourcesFrom(edges: seq<Edge>, n: nat) { forall i | 0 <= i < |edges| :: edges[i].0.position >= n }

  lemma EdgeCodesLeft(t: Ast, base: nat, edges: seq<Edge>)
    requires HasChild(t, R) && EdgeCodes(t.left, base, edges)
    requires SourcesBelow(edges, base + NumPos(t.left))
    ensures EdgeCodes(t, base, edges)
  {
    forall i | 0 <= i < |edges| ensures CodesOf(t, base, edges[i].0) { CodesLeft(t, base, edges[i].0); }
  }

  lemma EdgeCodesRight(t: Ast, base: nat, edges: seq<Edge>)
    requires HasChild(t, R) && EdgeCodes(t.right, base + NumPos(t.left), edges)
    requires SourcesFrom(edges, base + NumPos(t.left))
    ensures EdgeCodes(t, base, edges)
  {
    forall i | 0 <= i < |edges| ensures CodesOf(t, base, edges[i].0) { CodesRight(t, base, edges[i].0); }
  }

  /** What the edges of a tree must be. */
  ghost predicate EdgesDescribe(t: Ast, base: nat, edges: seq<Edge>) {
    && EdgeCodes(t, base, edges)
    && (forall i | 0 <= i < |edges| :: Follows(t, base, edges[i].0.position, edges[i].1.position))
    && (forall p, q | Follows(t, base, p, q) :: HasEdge(edges, p, q))
  }

  lemma EndPositions(first: bool, t: Ast, base: nat, p: nat)
    ensures HasPosition(EndSet(first, t, base), p) <==> IsEnd(first, t, base, p)
  {
    EndSetDescribes(first, t, base);
  }

  lemma EndCodes(t: Ast, base: nat, e: PosTags)
    requires e in EndSet(false, t, base)
    ensures CodesOf(t, base, e) && IsLast(t, base, e.position)
  {
    EndSetDescribes(false, t, base);
  }

  /** tre_ast_to_tnfa makes an edge from p to q exactly when q can follow p. */
  lemma {:induction false} EdgesAreFollows(t: Ast, base: nat)
    ensures EdgesDescribe(t, base, Edges(t, base))
  {
    match t
    case Union(l, r) =>
      EdgesAreFollows(l, base);
      EdgesAreFollows(r, base + NumPos(l));
      UnionEdges(l, r, base);
    case Catenation(l, r) =>
      EdgesAreFollows(l, base);
      EdgesAreFollows(r, base + NumPos(l));
      CatEdges(l, r, base);
    case Iteration(a, _, _) =>
      EdgesAreFollows(a, base);
      IterEdges(t, base);
    case _ =>
  }

  lemma PartsInRange(l: Ast, r: Ast, base: nat)
    requires EdgesDescribe(l, base, Edges(l, base)) && EdgesDescribe(r, base + NumPos(l), Edges(r, base + NumPos(l)))
    ensures SourcesBelow(Edges(l, base), base + NumPos(l))
    ensures SourcesFrom(Edges(r, base + NumPos(l)), base + NumPos(l))
  {
    var el, er := Edges(l, base), Edges(r, base + NumPos(l));
    forall i | 0 <= i < |el| ensures el[i].0.position < base + NumPos(l) {
      PositionsInRange(l, base, el[i].0.position, el[i].1.position, 0);
    }
    forall i | 0 <= i < |er| ensures er[i].0.position >= base + NumPos(l) {
      PositionsInRange(r, base + NumPos(l), er[i].0.position, er[i].1.position, 0);
    }
  }

  lemma UnionEdges(l: Ast, r: Ast, base: nat)
    requires EdgesDescribe(l, base, Edges(l, base)) && EdgesDescribe(r, base + NumPos(l), Edges(r, base + NumPos(l)))
    ensures EdgesDescribe(Union(l, r), base, Edges(Union(l, r), base))
  {
    var t, el, er := Union(l, r), Edges(l, base), Edges(r, base + NumPos(l));
    PartsInRange(l, r, base);
    EdgeCodesLeft(t, base, el);
    EdgeCodesRight(t, base, er);
    forall p, q | Follows(t, base, p, q) ensures HasEdge(el + er, p, q) { HasEdgeEither(el, er, p, q); }
  }

  /** The edges from the last positions of the left operand to the first of the right one. */
  lemma CatCross(l: Ast, r: Ast, base: nat)
    ensures var t, mid := Catenation(l, r), base + NumPos(l);
      var x := Cross(EndSet(false, l, base), EndSet(true, r, mid));
      && EdgeCodes(t, base, x)
      && (forall i | 0 <= i < |x| :: Follows(t, base, x[i].0.position, x[i].1.position))
      && (forall p, q | IsLast(l, base, p) && IsFirst(r, mid, q) :: HasEdge(x, p, q))
  {
    hide Cross, Npfl, NumPos, Spells;
    var t, mid := Catenation(l, r), base + NumPos(l);
    var ls, rs := EndSet(false, l, base), EndSet(true, r, mid);
    var x := Cross(ls, rs);
    EndSetDescribes(false, l, base);
    EndSetDescribes(true, r, mid);
    forall i | 0 <= i < |x|
      ensures CodesOf(t, base, x[i].0) && Follows(t, base, x[i].0.position, x[i].1.position)
    {
      CrossEdges(ls, rs, 0, 0);
      EndCodes(l, base, x[i].0);
      PositionsInRange(l, base, x[i].0.position, 0, 0);
      CodesLeft(t, base, x[i].0);
    }
    forall p, q | IsLast(l, base, p) && IsFirst(r, mid, q) ensures HasEdge(x, p, q) {
      CrossEdges(ls, rs, p, q);
    }
  }

  ghost predicate EdgesIn(t: Ast, base: nat, edges: seq<Edge>) {
    && EdgeCodes(t, base, edges)
    && forall i | 0 <= i < |edges| :: Follows(t, base, edges[i].0.position, edges[i].1.position)
  }

  lemma EdgesInBoth(t: Ast, base: nat, x: seq<Edge>, y: seq<Edge>)
    requires EdgesIn(t, base, x) && EdgesIn(t, base, y)
    ensures EdgesIn(t, base, x + y)
  {
    var edges := x + y;
    forall i | 0 <= i < |edges|
      ensures CodesOf(t, base, edges[i].0) && Follows(t, base, edges[i].0.position, edges[i].1.position)
    {
      if i >= |x| {
        assert edges[i] == y[i - |x|];
      } else {
        assert edges[i] == x[i];
      }
    }
  }

  lemma EdgesOfCat(l: Ast, r: Ast, base: nat)
    ensures Edges(Catenation(l, r), base)
         == Cross(EndSet(false, l, base), EndSet(true, r, base + NumPos(l))) + Edges(l, base) + Edges(r, base + NumPos(l))
  {
  }

  lemma CatEdges(l: Ast, r: Ast, base: nat)
    requires EdgesDescribe(l, base, Edges(l, base)) && EdgesDescribe(r, base + NumPos(l), Edges(r, base + NumPos(l)))
    ensures EdgesDescribe(Catenation(l, r), base, Edges(Catenation(l, r), base))
  {
    hide Edges, Cross, EndSet, NumPos, Follows;
    var mid := base + NumPos(l);
    var t, el, er := Catenation(l, r), Edges(l, base), Edges(r, mid);
    var x := Cross(EndSet(false, l, base), EndSet(true, r, mid));
    CatCross(l, r, base);
    CatPartsIn(l, r, base, el, er);
    EdgesInBoth(t, base, x, el);
    EdgesInBoth(t, base, x + el, er);
    EdgesOfCat(l, r, base);
    CatFollows(l, r, base, x, el, er);
  }

  lemma CatPartsIn(l: Ast, r: Ast, base: nat, el: seq<Edge>, er: seq<Edge>)
    requires el == Edges(l, base) && er == Edges(r, base + NumPos(l))
    requires EdgesDescribe(l, base, el) && EdgesDescribe(r, base + NumPos(l), er)
    ensures EdgesIn(Catenation(l, r), base, el) && EdgesIn(Catenation(l, r), base, er)
  {
    var t, mid := Catenation(l, r), base + NumPos(l);
    PartsInRange(l, r, base);
    EdgeCodesLeft(t, base, el);
    EdgeCodesRight(t, base, er);
    forall i | 0 <= i < |el| ensures Follows(t, base, el[i].0.position, el[i].1.position) {
      FollowsEither(l, r, base, el[i].0.position, el[i].1.position);
    }
    forall i | 0 <= i < |er| ensures Follows(t, base, er[i].0.position, er[i].1.position) {
      FollowsEither(l, r, base, er[i].0.position, er[i].1.position);
    }
  }

  lemma FollowsEither(l: Ast, r: Ast, base: nat, p: nat, q: nat)
    ensures Follows(l, base, p, q) || Follows(r, base + NumPos(l), p, q) ==> Follows(Catenation(l, r), base, p, q)
  {
  }

  lemma CatFollows(l: Ast, r: Ast, base: nat, x: seq<Edge>, el: seq<Edge>, er: seq<Edge>)
    requires EdgesDescribe(l, base, el) && EdgesDescribe(r, base + NumPos(l), er)
    requires forall p, q | IsLast(l, base, p) && IsFirst(r, base + NumPos(l), q) :: HasEdge(x, p, q)
    ensures forall p, q | Follows(Catenation(l, r), base, p, q) :: HasEdge(x + el + er, p, q)
  {
    forall p, q | Follows(Catenation(l, r), base, p, q) ensures HasEdge(x + el + er, p, q) {
      HasEdgeEither(x + el, er, p, q);
      HasEdgeEither(x, el, p, q);
    }
  }

  lemma IterEdges(t: Ast, base: nat)
    requires t.Iteration? && EdgesDescribe(t.arg, base, Edges(t.arg, base))
    ensures EdgesDescribe(t, base, Edges(t, base))
  {
    hide Cross, Npfl;
    var a, ea := t.arg, Edges(t.arg, base);
    var ls, fs := EndSet(false, a, base), EndSet(true, a, base);
    var x := if t.max == -1 then Cross(ls, fs) else [];
    EndSetDescribes(false, a, base);
    EndSetDescribes(true, a, base);
    forall i | 0 <= i < |x|
      ensures CodesOf(a, base, x[i].0) && Follows(t, base, x[i].0.position, x[i].1.position)
    {
      CrossEdges(ls, fs, 0, 0);
      EndCodes(a, base, x[i].0);
    }
    forall i | 0 <= i < |x + ea| ensures CodesOf(t, base, (x + ea)[i].0) {
      var e := (x + ea)[i].0;
      assert CodesOf(a, base, e) by { assert i >= |x| ==> (x + ea)[i] == ea[i - |x|]; }
      forall c: nat ensures Spells(t, base, e.position, c) <==> e.codeMin <= c <= e.codeMax {
        assert Spells(a, base, e.position, c) <==> e.codeMin <= c <= e.codeMax;
      }
    }
    forall p, q | Follows(t, base, p, q) ensures HasEdge(x + ea, p, q) {
      HasEdgeEither(x, ea, p, q);
      CrossEdges(ls, fs, p, q);
    }
  }

  // ----- from edges to the automaton -----

  lemma {:induction false} AddStepsHas(out: seq<seq<Step>>, edges: seq<Edge>, p: nat, s: Step)
    requires p < |out|
    ensures s in AddSteps(out, edges)[p]
       <==> s in out[p] || exists i :: 0 <= i < |edges| && edges[i].0.position == p && EdgeStep(edges[i]) == s
    decreases |edges|
  {
    if edges != [] {
      AddStepsHas(AddStep(out, edges[0]), edges[1..], p, s);
      assert forall i | 0 <= i < |edges| - 1 :: edges[1..][i] == edges[i + 1];
      if i :| 0 <= i < |edges| && edges[i].0.position == p && EdgeStep(edges[i]) == s {
        assert i > 0 ==> edges[1..][i - 1] == edges[i];
      }
    }
  }

  lemma StepsAreFollows(t: Ast, p: nat, c: nat, q: nat)
    ensures var a, tree := AutomatonOf(t), WithFinal(t);
      HasStep(a, p, c, q) <==> Follows(tree, 0, p, q) && Spells(tree, 0, p, c)
  {
    hide Npfl, NumPos, Spells, Follows, Cross, Edges;
    var a, tree := AutomatonOf(t), WithFinal(t);
    var edges := Edges(tree, 0);
    EdgesAreFollows(tree, 0);
    if HasStep(a, p, c, q) {
      var s :| s in a.out[p] && Reads(s, c) && s.target == q;
      AddStepsHas(NoSteps(NumPos(tree)), edges, p, s);
      var i :| 0 <= i < |edges| && edges[i].0.position == p && EdgeStep(edges[i]) == s;
      assert CodesOf(tree, 0, edges[i].0);
      assert Follows(tree, 0, edges[i].0.position, edges[i].1.position);
    }
    if Follows(tree, 0, p, q) && Spells(tree, 0, p, c) {
      PositionsInRange(tree, 0, p, q, c);
      assert HasEdge(edges, p, q);
      var i :| 0 <= i < |edges| && edges[i].0.position == p && edges[i].1.position == q;
      assert CodesOf(tree, 0, edges[i].0);
      AddStepsHas(NoSteps(NumPos(tree)), edges, p, EdgeStep(edges[i]));
    }
  }

  lemma StartsAreFirst(t: Ast, q: nat)
    ensures IsInitial(AutomatonOf(t), q) <==> IsFirst(WithFinal(t), 0, q)
  {
    var first := Npfl(WithFinal(t), 0).firstpos;
    EndPositions(true, WithFinal(t), 0, q);
    if IsFirst(WithFinal(t), 0, q) {
      var i :| 0 <= i < |first| && first[i].position == q;
      assert Starts(first)[i].target == q;
    }
    if IsInitial(AutomatonOf(t), q) {
      var s :| s in Starts(first) && s.target == q;
    }
  }

  lemma AutomatonIsClosed(t: Ast)
    ensures Closed(AutomatonOf(t))
  {
    var a, tree := AutomatonOf(t), WithFinal(t);
    assert NumPos(tree) == NumPos(t) + 1;
    forall s | s in a.initial ensures s.target < |a.out| {
      StartsAreFirst(t, s.target);
      PositionsInRange(tree, 0, s.target, 0, 0);
    }
    EdgesAreFollows(tree, 0);
    forall q: nat, s | q < |a.out| && s in a.out[q] ensures s.target < |a.out| {
      AddStepsHas(NoSteps(NumPos(tree)), Edges(tree, 0), q, s);
      PositionsInRange(tree, 0, q, s.target, 0);
    }
  }

  // ----- acceptance -----

  /** A path of the automaton as the sequence of its states. */
  ghost predicate PathOf(t: Ast, ps: seq<nat>, w: Word) {
    var tree := WithFinal(t);
    && |ps| == |w| + 1
    && IsFirst(tree, 0, ps[0])
    && (forall i | 0 <= i < |w| :: Spells(tree, 0, ps[i], w[i]))
    && (forall i | 0 <= i < |w| :: Follows(tree, 0, ps[i], ps[i + 1]))
  }

  lemma PathSnoc(t: Ast, front: seq<nat>, w: Word, q: nat)
    requires w != [] && PathOf(t, front, Front(w))
    requires Follows(WithFinal(t), 0, front[|w| - 1], q) && Spells(WithFinal(t), 0, front[|w| - 1], Last(w))
    ensures PathOf(t, front + [q], w)
  {
    assert forall i | 0 <= i < |w| - 1 :: Front(w)[i] == w[i];
  }

  lemma {:induction false} ReachedHasPath(t: Ast, w: Word, q: nat) returns (ps: seq<nat>)
    requires Reached(AutomatonOf(t), w, q)
    ensures PathOf(t, ps, w) && ps[|w|] == q
    decreases |w|
  {
    if w == [] {
      StartsAreFirst(t, q);
      ps := [q];
    } else {
      var p := LastStep(AutomatonOf(t), w, q);
      var front := ReachedHasPath(t, Front(w), p);
      StepsAreFollows(t, p, Last(w), q);
      PathSnoc(t, front, w, q);
      ps := front + [q];
    }
  }

  lemma LastStep(a: Automaton, w: Word, q: nat) returns (p: nat)
    requires w != [] && Reached(a, w, q)
    ensures Reached(a, Front(w), p) && HasStep(a, p, Last(w), q)
  {
    p :| Reached(a, Front(w), p) && HasStep(a, p, Last(w), q);
  }

  lemma {:induction false} PathReaches(t: Ast, ps: seq<nat>, w: Word)
    requires PathOf(t, ps, w)
    ensures Reached(AutomatonOf(t), w, ps[|w|])
    decreases |w|
  {
    if w == [] {
      StartsAreFirst(t, ps[0]);
    } else {
      var k := |w| - 1;
      assert forall i | 0 <= i < k :: Front(w)[i] == w[i];
      PathReaches(t, ps[..|w|], Front(w));
      assert Follows(WithFinal(t), 0, ps[k], ps[k + 1]);
      StepsAreFollows(t, ps[k], Last(w), ps[|w|]);
    }
  }

  /** The compiled automaton accepts exactly the words of the tree. */
  lemma AcceptsIsLang(t: Ast, w: Word)
    requires Simple(t)
    ensures Accepts(AutomatonOf(t), w) <==> w in Lang(t)
  {
    EmptyWordIffNullable(t);
    if Accepts(AutomatonOf(t), w) {
      var ps := ReachedHasPath(t, w, NumPos(t));
      PathSpells(t, ps, w);
    }
    if w in Lang(t) {
      var ps := [];
      if w != [] {
        ps := LangHasWalk(t, 0, w);
      }
      WalkToFinal(t, ps, w);
      PathReaches(t, ps + [NumPos(t)], w);
    }
  }

  lemma PathSpells(t: Ast, ps: seq<nat>, w: Word)
    requires Simple(t) && PathOf(t, ps, w) && ps[|w|] == NumPos(t)
    ensures w in Lang(t)
  {
    var d, final := NumPos(t), Literal(0, 0);
    EmptyWordIffNullable(t);
    CatParts(t, final, 0, ps[0], ps[0], 0);
    if w != [] {
      forall i | 0 <= i < |w| ensures ps[i] < d && Spells(t, 0, ps[i], w[i]) {
        assert Follows(WithFinal(t), 0, ps[i], ps[i + 1]);
        CatParts(t, final, 0, ps[i], ps[i + 1], w[i]);
      }
      forall i | 0 <= i < |w| - 1 ensures Follows(t, 0, ps[i], ps[i + 1]) {
        CatParts(t, final, 0, ps[i], ps[i + 1], 0);
      }
      var k := |w| - 1;
      assert Follows(WithFinal(t), 0, ps[k], ps[k + 1]);
      CatParts(t, final, 0, ps[k], d, 0);
      WalkInLang(t, 0, ps[..|w|], w);
    }
  }

  lemma WalkToFinal(t: Ast, ps: seq<nat>, w: Word)
    requires if w == [] then ps == [] && Nullable(t) else Walk(t, 0, ps, w)
    ensures PathOf(t, ps + [NumPos(t)], w)
  {
    var tree, qs := WithFinal(t), ps + [NumPos(t)];
    forall i | 0 <= i < |w| ensures Follows(tree, 0, qs[i], qs[i + 1]) {
      if i < |w| - 1 {
        assert Follows(t, 0, ps[i], ps[i + 1]);
      }
    }
  }
}
