/** The regular-expression syntax tree of TRE (tre-ast.h) and the language it denotes.

    A C node pointer is modelled by the path from the root to that node: nodes are never
    shared, so a path names one node, and `node->obj = ...` is `Put` at its path. */
module TreAst {

  datatype Ast =
    | Literal(codeMin: nat, codeMax: nat)          // one byte in codeMin..codeMax
    | Empty                                         // code_min == EMPTY
    | Tag(id: nat)                                  // code_min == TAG
    | Catenation(left: Ast, right: Ast)
    | Iteration(arg: Ast, min: nat, max: int)       // max == -1: no upper limit
    | Union(left: Ast, right: Ast)

  type Word = seq<nat>
  type Language = iset<Word>

  datatype Direction = Minimize | Maximize
  type Directions = map<nat, Direction>

  // ----- languages -----

  ghost predicate IsSplit(a: Language, b: Language, w: Word, k: int) {
    0 <= k <= |w| && w[..k] in a && w[k..] in b
  }

  ghost predicate InConcat(a: Language, b: Language, w: Word) {
    exists k :: IsSplit(a, b, w, k)
  }

  ghost function Concat(a: Language, b: Language): Language {
    iset w: Word | InConcat(a, b, w)
  }

  /** Concatenations of exactly `n` words of `a`. */
  ghost function Power(a: Language, n: nat): Language {
    if n == 0 then iset{[]} else Concat(a, Power(a, n - 1))
  }

  ghost predicate InPowers(a: Language, min: nat, max: int, w: Word) {
    exists n: nat :: InBounds(n, min, max) && w in Power(a, n)
  }

  /** Concatenations of at least `min` and (unless max is -1) at most `max` words of `a`. */
  ghost function Powers(a: Language, min: nat, max: int): Language {
    iset w: Word | InPowers(a, min, max, w)
  }

  predicate InBounds(n: nat, min: nat, max: int) { min <= n && (max == -1 || n <= max) }

  /** The language of a tree. */
  ghost function Lang(t: Ast): Language {
    match t
    case Literal(lo, hi) => iset w: Word | |w| == 1 && lo <= w[0] <= hi
    case Empty => iset{[]}
    case Tag(_) => iset{[]}
    case Catenation(l, r) => Concat(Lang(l), Lang(r))
    case Iteration(a, min, max) => Powers(Lang(a), min, max)
    case Union(l, r) => Lang(l) + Lang(r)
  }

  lemma Join(a: Language, b: Language, u: Word, v: Word)
    requires u in a && v in b
    ensures u + v in Concat(a, b)
  {
    var w := u + v;
    assert w[..|u|] == u && w[|u|..] == v;
    assert IsSplit(a, b, w, |u|);
  }

  lemma Split(a: Language, b: Language, w: Word) returns (u: Word, v: Word)
    requires w in Concat(a, b)
    ensures u in a && v in b && w == u + v
  {
    var k :| IsSplit(a, b, w, k);
    u, v := w[..k], w[k..];
  }

  lemma ConcatAssoc(a: Language, b: Language, c: Language)
    ensures Concat(Concat(a, b), c) == Concat(a, Concat(b, c))
  {
    forall w | w in Concat(Concat(a, b), c)
      ensures w in Concat(a, Concat(b, c))
    {
      var uv, z := Split(Concat(a, b), c, w);
      var u, v := Split(a, b, uv);
      Join(b, c, v, z);
      Join(a, Concat(b, c), u, v + z);
      assert w == u + (v + z);
    }
    forall w | w in Concat(a, Concat(b, c))
      ensures w in Concat(Concat(a, b), c)
    {
      var u, vz := Split(a, Concat(b, c), w);
      var v, z := Split(b, c, vz);
      Join(a, b, u, v);
      Join(Concat(a, b), c, u + v, z);
      assert w == (u + v) + z;
    }
  }

  lemma ConcatUnitLeft(a: Language)
    ensures Concat(iset{[]}, a) == a
  {
    forall w | w in a ensures w in Concat(iset{[]}, a) {
      Join(iset{[]}, a, [], w);
      assert [] + w == w;
    }
    forall w | w in Concat(iset{[]}, a) ensures w in a {
      var u, v := Split(iset{[]}, a, w);
      assert w == v;
    }
  }

  lemma ConcatUnitRight(a: Language)
    ensures Concat(a, iset{[]}) == a
  {
    forall w | w in a ensures w in Concat(a, iset{[]}) {
      Join(a, iset{[]}, w, []);
      assert w + [] == w;
    }
    forall w | w in Concat(a, iset{[]}) ensures w in a {
      var u, v := Split(a, iset{[]}, w);
      assert w == u;
    }
  }

  lemma {:induction false} PowerAdd(a: Language, m: nat, n: nat)
    ensures Concat(Power(a, m), Power(a, n)) == Power(a, m + n)
    decreases m
  {
    if m == 0 {
      ConcatUnitLeft(Power(a, n));
    } else {
      PowerAdd(a, m - 1, n);
      ConcatAssoc(a, Power(a, m - 1), Power(a, n));
    }
  }

  /** The trees the parser builds: tre_parse_bound rejects min > max and turns {0,0} into EMPTY. */
  predicate WellFormed(t: Ast) {
    match t
    case Catenation(l, r) => WellFormed(l) && WellFormed(r)
    case Union(l, r) => WellFormed(l) && WellFormed(r)
    case Iteration(a, min, max) => WellFormed(a) && (max == -1 || (1 <= max && min <= max))
    case _ => true
  }

  /** No tag below this node. */
  predicate TagFree(t: Ast) {
    match t
    case Tag(_) => false
    case Catenation(l, r) => TagFree(l) && TagFree(r)
    case Union(l, r) => TagFree(l) && TagFree(r)
    case Iteration(a, _, _) => TagFree(a)
    case _ => true
  }

  // ----- node pointers as paths -----

  datatype Dir = L | R                               // L also names the argument of an iteration
  type Path = seq<Dir>

  predicate HasChild(t: Ast, d: Dir) {
    t.Catenation? || t.Union? || (t.Iteration? && d == L)
  }

  function Child(t: Ast, d: Dir): Ast
    requires HasChild(t, d)
  {
    if t.Iteration? then t.arg else if d == L then t.left else t.right
  }

  function WithChild(t: Ast, d: Dir, s: Ast): Ast
    requires HasChild(t, d)
  {
    if t.Iteration? then t.(arg := s) else if d == L then t.(left := s) else t.(right := s)
  }

  /** `p` names a node of `t`. */
  predicate IsNode(t: Ast, p: Path) {
    p == [] || (HasChild(t, p[0]) && IsNode(Child(t, p[0]), p[1..]))
  }

  /** The node named by `p`. */
  function Sub(t: Ast, p: Path): Ast
    requires IsNode(t, p)
  {
    if p == [] then t else Sub(Child(t, p[0]), p[1..])
  }

  /** `t` after the node named by `p` has been overwritten with `s`. */
  function Put(t: Ast, p: Path, s: Ast): Ast
    requires IsNode(t, p)
  {
    if p == [] then s else WithChild(t, p[0], Put(Child(t, p[0]), p[1..], s))
  }

  lemma {:induction false} PutGet(t: Ast, p: Path, s: Ast)
    requires IsNode(t, p)
    ensures IsNode(Put(t, p, s), p) && Sub(Put(t, p, s), p) == s
  {
    if p != [] {
      PutGet(Child(t, p[0]), p[1..], s);
    }
  }

  lemma {:induction false} PutTwice(t: Ast, p: Path, s: Ast, s': Ast)
    requires IsNode(t, p)
    ensures IsNode(Put(t, p, s), p) && Put(Put(t, p, s), p, s') == Put(t, p, s')
  {
    if p != [] {
      PutTwice(Child(t, p[0]), p[1..], s, s');
    }
  }

  lemma {:induction false} PutSame(t: Ast, p: Path)
    requires IsNode(t, p)
    ensures Put(t, p, Sub(t, p)) == t
  {
    if p != [] {
      PutSame(Child(t, p[0]), p[1..]);
    }
  }

  /** Following one more edge. */
  lemma {:induction false} Extend(t: Ast, p: Path, d: Dir, s: Ast)
    requires IsNode(t, p) && HasChild(Sub(t, p), d)
    ensures IsNode(t, p + [d])
    ensures Sub(t, p + [d]) == Child(Sub(t, p), d)
    ensures Put(t, p + [d], s) == Put(t, p, WithChild(Sub(t, p), d, s))
  {
    if p == [] {
      assert p + [d] == [d];
    } else {
      assert (p + [d])[1..] == p[1..] + [d];
      Extend(Child(t, p[0]), p[1..], d, s);
    }
  }
}
