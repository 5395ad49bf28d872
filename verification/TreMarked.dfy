/** Syntax trees with submatch ids (the field submatch_id of tre-ast.h): what the parser builds and
    tre_add_tags reads. */
module TreMarked {
  import opened TreAst

  /** The number of the group a node stands for, or -1. */
  type SubmatchId = x: int | -1 <= x

  datatype Marked = Marked(node: Node, id: SubmatchId)

  datatype Node =
    | Lit(codeMin: nat, codeMax: nat)
    | Nothing
    | Cat(left: Marked, right: Marked)
    | Iter(arg: Marked, min: nat, max: int)
    | Alt(left: Marked, right: Marked)

  /** A node as it is made: it stands for no group. */
  function Fresh(node: Node): Marked { Marked(node, -1) }

  /** The tree without its submatch ids. */
  function Unmarked(m: Marked): Ast {
    match m.node
    case Lit(lo, hi) => Literal(lo, hi)
    case Nothing => Empty
    case Cat(l, r) => Catenation(Unmarked(l), Unmarked(r))
    case Iter(a, min, max) => Iteration(Unmarked(a), min, max)
    case Alt(l, r) => Union(Unmarked(l), Unmarked(r))
  }

  /** num_submatches. */
  function Submatches(m: Marked): nat {
    (if m.id >= 0 then 1 else 0) +
    match m.node
    case Lit(_, _) => 0
    case Nothing => 0
    case Cat(l, r) => Submatches(l) + Submatches(r)
    case Iter(a, _, _) => Submatches(a)
    case Alt(l, r) => Submatches(l) + Submatches(r)
  }

  /** How many nodes stand for group `id`. */
  function Occurrences(m: Marked, id: nat): nat {
    (if m.id == id then 1 else 0) +
    match m.node
    case Cat(l, r) => Occurrences(l, id) + Occurrences(r, id)
    case Alt(l, r) => Occurrences(l, id) + Occurrences(r, id)
    case Iter(a, _, _) => Occurrences(a, id)
    case _ => 0
  }

  /** No two nodes have the same id. */
  ghost predicate Once(m: Marked) { forall id: nat :: Occurrences(m, id) <= 1 }

  lemma {:induction false} UnmarkedTagFree(m: Marked)
    ensures TagFree(Unmarked(m))
  {
    match m.node
    case Cat(l, r) => UnmarkedTagFree(l); UnmarkedTagFree(r);
    case Iter(a, _, _) => UnmarkedTagFree(a);
    case Alt(l, r) => UnmarkedTagFree(l); UnmarkedTagFree(r);
    case _ =>
  }
}
