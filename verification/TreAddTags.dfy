/** tre_add_tags (tre-compile.c): both passes of the loop over the symbol stack, without minimal repetition.

    The first pass leaves in every node the number of tags it takes; the second one reads these numbers, places the
    tags and fills in submatch_data. A node that has been dealt with waits on a second stack for its parent. */
module TreAddTags {
  import opened TreAst
  import opened TreMarked
  import opened TreTags
  import opened TreSubmatches
  import opened TreRegset
  import TreTagPlaces

  /** The field num_tags of the nodes, in a tree of the shape of the pattern. */
  datatype Nums = Nums(num: nat, kids: seq<Nums>)

  function NumsOf(m: Marked, pending0: bool): Nums {
    var pending := pending0 || m.id >= 0;
    Nums(Count(m, pending0).num,
      match m.node
      case Cat(l, r) => [NumsOf(l, pending), NumsOf(r, Count(l, pending).pending)]
      case Iter(a, _, _) => [NumsOf(a, false)]
      case Alt(l, r) => [NumsOf(l, false), NumsOf(r, false)]
      case _ => [])
  }

  /** Bounds the turns that a node takes. */
  function Weight(m: Marked): nat {
    match m.node
    case Cat(l, r) => Weight(l) + Weight(r) + 6
    case Alt(l, r) => Weight(l) + Weight(r) + 6
    case Iter(a, _, _) => Weight(a) + 6
    case _ => 6
  }

  // ----- the first pass -----

  datatype CountFrame =
    | CountRecurse(node: Marked)
    | CountSetEnd(id: nat)
    | CountAfterIteration(added: nat)
    | CountAfterCatRight
    | CountAfterUnionLeft
    | CountAfterUnionRight(some: bool, added: nat, base: nat)

  /** The variables of the loop: what lies in regset below `base` is invisible. */
  datatype CountState = CountState(regset: seq<nat>, base: nat, total: nat, done: seq<Nums>)

  predicate CountReady(f: CountFrame, st: CountState) {
    && st.base <= |st.regset|
    && match f
      case CountAfterIteration(_) => |st.done| >= 1
      case CountAfterCatRight => |st.done| >= 2
      case CountAfterUnionRight(_, _, base) => |st.done| >= 2 && base <= st.base
      case _ => true
  }

  /** Between the two ends of a node. */
  function CountBody(m: Marked, st: CountState): CountState
    requires st.base <= |st.regset|
  {
    var waiting := st.regset[st.base..];
    CountState(st.regset[..st.base] + LeftoverOf(m, waiting), st.base, st.total + Count(m, waiting != []).num,
               st.done + [NumsOf(m, waiting != [])])
  }

  function CountOpen(m: Marked, st: CountState): CountState { st.(regset := Open(m, st.regset)) }

  function CountClose(m: Marked, st: CountState): CountState { st.(regset := Close(m, st.regset)) }

  /** What a stack entry does, by the time everything that it pushes is done as well. */
  function CountApply(f: CountFrame, st: CountState): CountState
    requires CountReady(f, st)
  {
    var n := |st.done|;
    match f
    case CountRecurse(m) => CountClose(m, CountBody(m, CountOpen(m, st)))
    case CountSetEnd(id) => st.(regset := st.regset + [EndOf(id)])
    case CountAfterIteration(added) => st.(done := st.done[..n - 1] + [Nums(st.done[n - 1].num + added, [st.done[n - 1]])])
    case CountAfterCatRight =>
      st.(done := st.done[..n - 2] + [Nums(st.done[n - 2].num + st.done[n - 1].num, [st.done[n - 2], st.done[n - 1]])])
    case CountAfterUnionLeft => st.(base := |st.regset|)
    case CountAfterUnionRight(some, added, base) =>
      var num := st.done[n - 2].num + st.done[n - 1].num + added + if some then 2 else 0;
      st.(base := base, total := st.total + if some then 2 else 0, done := st.done[..n - 2] + [Nums(num, [st.done[n - 2], st.done[n - 1]])])
  }

  predicate CountOk(stack: seq<CountFrame>, st: CountState)
    decreases |stack|
  {
    stack == [] || (CountReady(stack[0], st) && CountOk(stack[1..], CountApply(stack[0], st)))
  }

  function CountRun(stack: seq<CountFrame>, st: CountState): CountState
    requires CountOk(stack, st)
    decreases |stack|
  {
    if stack == [] then st else CountRun(stack[1..], CountApply(stack[0], st))
  }

  function CountSteps(stack: seq<CountFrame>): nat {
    if stack == [] then 0 else (if stack[0].CountRecurse? then Weight(stack[0].node) else 1) + CountSteps(stack[1..])
  }

  lemma CountPush(f: CountFrame, rest: seq<CountFrame>, st: CountState)
    requires CountReady(f, st) && CountOk(rest, CountApply(f, st))
    ensures CountOk([f] + rest, st) && CountRun([f] + rest, st) == CountRun(rest, CountApply(f, st))
    ensures CountSteps([f] + rest) == (if f.CountRecurse? then Weight(f.node) else 1) + CountSteps(rest)
  {
    assert ([f] + rest)[1..] == rest;
  }

  /** The entry for the end of a submatch. */
  function CountEnd(m: Marked, rest: seq<CountFrame>): seq<CountFrame> { if m.id >= 0 then [CountSetEnd(m.id)] + rest else rest }

  lemma CountEnds(m: Marked, rest: seq<CountFrame>, st: CountState)
    requires st.base <= |st.regset| && CountOk(rest, CountClose(m, st))
    ensures CountOk(CountEnd(m, rest), st) && CountRun(CountEnd(m, rest), st) == CountRun(rest, CountClose(m, st))
    ensures CountSteps(CountEnd(m, rest)) <= 1 + CountSteps(rest)
  {
    if m.id >= 0 {
      CountPush(CountSetEnd(m.id), rest, st);
    }
  }

  lemma CountOpened(m: Marked, st: CountState)
    requires st.base <= |st.regset|
    ensures Open(m, st.regset)[st.base..] == Open(m, st.regset[st.base..]) && Open(m, st.regset)[..st.base] == st.regset[..st.base]
    ensures Count(m, st.regset[st.base..] != []).num == Count(m, Open(m, st.regset[st.base..]) != []).num
  {
  }

  lemma CountBodyMeans(m: Marked, st: CountState)
    requires st.base <= |st.regset|
    ensures var u := CountBody(m, st);
      && u.base == st.base <= |u.regset| && u.regset[..st.base] == st.regset[..st.base]
      && u.regset[st.base..] == LeftoverOf(m, st.regset[st.base..])
  {
  }

  /** A node as a whole: what is waiting, its tags, its number. */
  lemma CountNode(m: Marked, st: CountState)
    requires st.base <= |st.regset|
    ensures var u := CountApply(CountRecurse(m), st); var waiting := st.regset[st.base..]; var c := Count(m, waiting != []);
      && u == CountState(st.regset[..st.base] + Leftover(m, waiting), st.base, st.total + c.num, st.done + [NumsOf(m, waiting != [])])
      && u.base <= |u.regset| && u.regset[u.base..] == Leftover(m, waiting) && u.regset[..u.base] == st.regset[..st.base]
      && (u.regset[u.base..] != [] <==> c.pending)
  {
    hide Count, LeftoverOf;
    var waiting := st.regset[st.base..];
    CountOpened(m, st);
    WaitingIsPending(m, waiting);
    SameNums(m, waiting);
    var o := CountOpen(m, st);
    CountBodyMeans(m, o);
    var u := CountApply(CountRecurse(m), st);
    assert u.regset == st.regset[..st.base] + Leftover(m, waiting);
  }

  lemma SameNums(m: Marked, waiting: seq<nat>)
    ensures NumsOf(m, Open(m, waiting) != []) == NumsOf(m, waiting != [])
  {
  }

  lemma CountCat(m: Marked, l: Marked, r: Marked, rest: seq<CountFrame>, st: CountState)
    requires m.node == Cat(l, r) && st.base <= |st.regset| && (m.id >= 0 ==> st.regset[st.base..] != [])
    requires CountOk(rest, CountBody(m, st))
    ensures var stack := [CountRecurse(l)] + ([CountRecurse(r)] + ([CountAfterCatRight] + rest));
      && CountOk(stack, st) && CountRun(stack, st) == CountRun(rest, CountBody(m, st))
      && CountSteps(stack) == Weight(l) + Weight(r) + 1 + CountSteps(rest)
  {
    hide CountApply, CountRun, CountOk, CountSteps, Leftover, NumsOf, CountBody, Count;
    CountNode(l, st);
    var st1 := CountApply(CountRecurse(l), st);
    CountNode(r, st1);
    var st2 := CountApply(CountRecurse(r), st1);
    CountCatBody(m, l, r, st, st2);
    CountPush(CountAfterCatRight, rest, st2);
    CountPush(CountRecurse(r), [CountAfterCatRight] + rest, st1);
    CountPush(CountRecurse(l), [CountRecurse(r)] + ([CountAfterCatRight] + rest), st);
  }

  lemma CountCatBody(m: Marked, l: Marked, r: Marked, st: CountState, st2: CountState)
    requires m.node == Cat(l, r) && st.base <= |st.regset| && (m.id >= 0 ==> st.regset[st.base..] != [])
    requires var waiting := st.regset[st.base..]; var c := Count(l, waiting != []); var d := Count(r, c.pending);
      st2 == CountState(st.regset[..st.base] + Leftover(r, Leftover(l, waiting)), st.base, st.total + c.num + d.num,
                        st.done + [NumsOf(l, waiting != [])] + [NumsOf(r, c.pending)])
    ensures CountReady(CountAfterCatRight, st2) && CountApply(CountAfterCatRight, st2) == CountBody(m, st)
  {
    hide Count, NumsOf, Leftover;
    var waiting := st.regset[st.base..];
    NumsOfCat(m, l, r, waiting != []);
    CountNumCat(m, l, r, waiting != []);
    TopTwo(st.done, NumsOf(l, waiting != []), NumsOf(r, Count(l, waiting != []).pending));
  }

  lemma TopTwo<T>(s: seq<T>, x: T, y: T)
    ensures var t := s + [x] + [y]; t[..|t| - 2] == s && t[|t| - 2] == x && t[|t| - 1] == y
  {
  }

  lemma NumsOfCat(m: Marked, l: Marked, r: Marked, pending: bool)
    requires m.node == Cat(l, r) && (m.id >= 0 ==> pending)
    ensures NumsOf(m, pending) == Nums(Count(m, pending).num, [NumsOf(l, pending), NumsOf(r, Count(l, pending).pending)])
    ensures NumsOf(l, pending).num == Count(l, pending).num
    ensures NumsOf(r, Count(l, pending).pending).num == Count(r, Count(l, pending).pending).num
  {
    hide Count;
  }

  lemma CountNumCat(m: Marked, l: Marked, r: Marked, pending: bool)
    requires m.node == Cat(l, r) && (m.id >= 0 ==> pending)
    ensures Count(m, pending).num == Count(l, pending).num + Count(r, Count(l, pending).pending).num
  {
  }

  /** A tag has been given to what was waiting. */
  function CountTagged(st: CountState): CountState
    requires st.base <= |st.regset|
  {
    CountState(st.regset[..st.base], st.base, st.total + if |st.regset| > st.base then 1 else 0, st.done)
  }

  lemma CountTaggedMeans(st: CountState)
    requires st.base <= |st.regset|
    ensures var u := CountTagged(st); u.base <= |u.regset| && u.regset[u.base..] == [] && u.regset[..u.base] == st.regset[..st.base]
    ensures |st.regset| > st.base <==> st.regset[st.base..] != []
  {
  }

  lemma CountIter(m: Marked, a: Marked, rest: seq<CountFrame>, st: CountState)
    requires m.node.Iter? && m.node.arg == a && st.base <= |st.regset| && (m.id >= 0 ==> st.regset[st.base..] != [])
    requires CountOk(rest, CountBody(m, st))
    ensures var added := if |st.regset| > st.base then 1 else 0; var stack := [CountRecurse(a)] + ([CountAfterIteration(added)] + rest);
      && CountOk(stack, CountTagged(st)) && CountRun(stack, CountTagged(st)) == CountRun(rest, CountBody(m, st))
      && CountSteps(stack) == Weight(a) + 1 + CountSteps(rest)
  {
    hide CountApply, CountRun, CountOk, CountSteps, Leftover, NumsOf, CountBody, Count, CountTagged;
    var added, st0 := if |st.regset| > st.base then 1 else 0, CountTagged(st);
    CountTaggedMeans(st);
    CountNode(a, st0);
    var st1 := CountApply(CountRecurse(a), st0);
    CountIterBody(m, a, st, st1);
    CountPush(CountAfterIteration(added), rest, st1);
    CountPush(CountRecurse(a), [CountAfterIteration(added)] + rest, st0);
  }

  lemma CountIterBody(m: Marked, a: Marked, st: CountState, st1: CountState)
    requires m.node.Iter? && m.node.arg == a && st.base <= |st.regset| && (m.id >= 0 ==> st.regset[st.base..] != [])
    requires var st0 := CountTagged(st);
      st1 == CountState(st.regset[..st.base] + Leftover(a, []), st0.base, st0.total + Count(a, false).num, st0.done + [NumsOf(a, false)])
    ensures var f := CountAfterIteration(if |st.regset| > st.base then 1 else 0);
      CountReady(f, st1) && CountApply(f, st1) == CountBody(m, st)
  {
    hide Leftover;
    var pending := st.regset[st.base..] != [];
    CountTaggedMeans(st);
    NumsOfIter(m, a, pending);
    assert (st.done + [NumsOf(a, false)])[..|st.done|] == st.done;
  }

  lemma NumsOfIter(m: Marked, a: Marked, pending: bool)
    requires m.node.Iter? && m.node.arg == a && (m.id >= 0 ==> pending)
    ensures NumsOf(m, pending) == Nums(Count(m, pending).num, [NumsOf(a, false)]) && NumsOf(a, false).num == Count(a, false).num
    ensures Count(m, pending).num == Count(a, false).num + if pending then 1 else 0
  {
  }

  lemma CountAlt(m: Marked, l: Marked, r: Marked, rest: seq<CountFrame>, st: CountState)
    requires m.node == Alt(l, r) && st.base <= |st.regset| && (m.id >= 0 ==> st.regset[st.base..] != [])
    requires CountOk(rest, CountBody(m, st))
    ensures var after := CountAfterUnionRight(Submatches(m) > 0, if |st.regset| > st.base then 1 else 0, st.base);
      var stack := [CountRecurse(l)] + ([CountAfterUnionLeft] + ([CountRecurse(r)] + ([after] + rest)));
      && CountOk(stack, CountTagged(st)) && CountRun(stack, CountTagged(st)) == CountRun(rest, CountBody(m, st))
      && CountSteps(stack) == Weight(l) + Weight(r) + 2 + CountSteps(rest)
  {
    hide CountRun, CountOk, CountSteps, Leftover, NumsOf, CountBody, Count, CountTagged, Submatches, CountOpen, CountClose;
    var after := CountAfterUnionRight(Submatches(m) > 0, if |st.regset| > st.base then 1 else 0, st.base);
    var st0 := CountTagged(st);
    CountTaggedMeans(st);
    CountNode(l, st0);
    var st1 := CountApply(CountRecurse(l), st0);
    var st2 := CountApply(CountAfterUnionLeft, st1);
    assert st2.regset[st2.base..] == [] && st2.regset[..st2.base] == st1.regset;
    CountNode(r, st2);
    var st3 := CountApply(CountRecurse(r), st2);
    CountAltBody(m, l, r, st, st3);
    CountPush(after, rest, st3);
    CountPush(CountRecurse(r), [after] + rest, st2);
    CountPush(CountAfterUnionLeft, [CountRecurse(r)] + ([after] + rest), st1);
    CountPush(CountRecurse(l), [CountAfterUnionLeft] + ([CountRecurse(r)] + ([after] + rest)), st0);
  }

  lemma CountAltBody(m: Marked, l: Marked, r: Marked, st: CountState, st3: CountState)
    requires m.node == Alt(l, r) && st.base <= |st.regset| && (m.id >= 0 ==> st.regset[st.base..] != [])
    requires var st0 := CountTagged(st); var left := st.regset[..st.base] + Leftover(l, []);
      st3 == CountState(left + Leftover(r, []), |left|, st0.total + Count(l, false).num + Count(r, false).num,
                        st0.done + [NumsOf(l, false)] + [NumsOf(r, false)])
    ensures var f := CountAfterUnionRight(Submatches(m) > 0, if |st.regset| > st.base then 1 else 0, st.base);
      CountReady(f, st3) && CountApply(f, st3) == CountBody(m, st)
  {
    hide Leftover, Count, NumsOf, Submatches, CountOpen, CountClose, CountRun, CountOk, CountSteps;
    var pending := st.regset[st.base..] != [];
    CountTaggedMeans(st);
    NumsOfAlt(m, l, r, pending);
    TopTwo(st.done, NumsOf(l, false), NumsOf(r, false));
    var before := st.regset[..st.base];
    Regroup(before, Leftover(l, []), Leftover(r, []));
  }

  lemma Regroup(a: seq<nat>, b: seq<nat>, c: seq<nat>)
    ensures (a + b) + c == a + (b + c)
  {
  }

  lemma NumsOfAlt(m: Marked, l: Marked, r: Marked, pending: bool)
    requires m.node == Alt(l, r) && (m.id >= 0 ==> pending)
    ensures NumsOf(m, pending) == Nums(Count(m, pending).num, [NumsOf(l, false), NumsOf(r, false)])
    ensures NumsOf(l, false).num == Count(l, false).num && NumsOf(r, false).num == Count(r, false).num
    ensures Count(m, pending).num == Count(l, false).num + Count(r, false).num + (if pending then 1 else 0)
      + if Submatches(m) > 0 then 2 else 0
  {
  }

  /** A node without children. */
  lemma CountLeaf(m: Marked, st: CountState)
    requires (m.node.Lit? || m.node.Nothing?) && st.base <= |st.regset| && (m.id >= 0 ==> st.regset[st.base..] != [])
    ensures var num := if m.node.Lit? && |st.regset| > st.base then 1 else 0; var u := if m.node.Lit? then CountTagged(st) else st;
      CountBody(m, st) == u.(done := st.done + [Nums(num, [])])
  {
  }

  /** A tag is due if some offset waits. */
  method GiveTag(regset0: seq<nat>, base: nat, numTags0: nat, ghost done: seq<Nums>) returns (regset: seq<nat>, numTags: nat)
    requires base <= |regset0|
    ensures CountState(regset, base, numTags, done) == CountTagged(CountState(regset0, base, numTags0, done))
  {
    regset, numTags := regset0, numTags0;
    if |regset| > base {
      regset := regset[..base];
      numTags := numTags + 1;
    } else {
      assert regset[..base] == regset;
    }
  }

  /** ADDTAGS_RECURSE. */
  method CountEnter(m: Marked, rest: seq<CountFrame>, regset0: seq<nat>, base: nat, numTags0: nat, done0: seq<Nums>)
      returns (stack: seq<CountFrame>, regset: seq<nat>, numTags: nat, done: seq<Nums>)
    requires var st := CountState(regset0, base, numTags0, done0);
      CountReady(CountRecurse(m), st) && CountOk(rest, CountApply(CountRecurse(m), st))
    ensures var st, u := CountState(regset0, base, numTags0, done0), CountState(regset, base, numTags, done);
      && CountOk(stack, u) && CountRun(stack, u) == CountRun(rest, CountApply(CountRecurse(m), st))
    ensures CountSteps(stack) < Weight(m) + CountSteps(rest)
  {
    hide CountRun, CountOk, CountSteps, Leftover, LeftoverOf, NumsOf, CountBody, CountTagged, Count, Submatches;
    ghost var st := CountState(regset0, base, numTags0, done0);
    ghost var o := CountOpen(m, st);
    CountOpened(m, st);
    stack, regset, numTags, done := rest, regset0, numTags0, done0;
    if m.id >= 0 {
      regset := regset + [2 * m.id];
      stack := [CountSetEnd(m.id)] + stack;
    }
    CountEnds(m, rest, CountBody(m, o)) by { CountBodyMeans(m, o); }
    ghost var tail := stack;
    var added := if |regset| > base then 1 else 0;
    match m.node
    case Lit(_, _) =>
      CountLeaf(m, o);
      regset, numTags := GiveTag(regset, base, numTags, done);
      done := done + [Nums(added, [])];
    case Nothing =>
      CountLeaf(m, o);
      done := done + [Nums(0, [])];
    case Cat(l, r) =>
      CountCat(m, l, r, tail, o);
      stack := [CountRecurse(l)] + ([CountRecurse(r)] + ([CountAfterCatRight] + stack));
    case Iter(a, _, _) =>
      CountIter(m, a, tail, o);
      stack := [CountRecurse(a)] + ([CountAfterIteration(added)] + stack);
      regset, numTags := GiveTag(regset, base, numTags, done);
    case Alt(l, r) =>
      CountAlt(m, l, r, tail, o);
      stack := [CountRecurse(l)] + ([CountAfterUnionLeft] + ([CountRecurse(r)] +
        ([CountAfterUnionRight(Submatches(m) > 0, added, base)] + stack)));
      regset, numTags := GiveTag(regset, base, numTags, done);
  }

  /** The other symbols. */
  method CountLeave(symbol: CountFrame, regset0: seq<nat>, base0: nat, numTags0: nat, done0: seq<Nums>)
      returns (regset: seq<nat>, base: nat, numTags: nat, done: seq<Nums>)
    requires !symbol.CountRecurse? && CountReady(symbol, CountState(regset0, base0, numTags0, done0))
    ensures CountState(regset, base, numTags, done) == CountApply(symbol, CountState(regset0, base0, numTags0, done0))
  {
    regset, base, numTags, done := regset0, base0, numTags0, done0;
    var n := |done|;
    match symbol
    case CountSetEnd(id) =>
      regset := regset + [2 * id + 1];
    case CountAfterIteration(added) =>
      done := done[..n - 1] + [Nums(done[n - 1].num + added, [done[n - 1]])];
    case CountAfterCatRight =>
      done := done[..n - 2] + [Nums(done[n - 2].num + done[n - 1].num, [done[n - 2], done[n - 1]])];
    case CountAfterUnionLeft =>
      while base < |regset|
        invariant base <= |regset|
      {
        base := base + 1;
      }
    case CountAfterUnionRight(some, added, saved) =>
      var num := done[n - 2].num + done[n - 1].num + added + if some then 2 else 0;
      done := done[..n - 2] + [Nums(num, [done[n - 2], done[n - 1]])];
      base := saved;
      if some {
        numTags := numTags + 2;
      }
  }

  lemma CountTop(stack: seq<CountFrame>, st: CountState)
    requires CountOk(stack, st) && stack != []
    ensures CountReady(stack[0], st) && CountOk(stack[1..], CountApply(stack[0], st))
    ensures CountRun(stack, st) == CountRun(stack[1..], CountApply(stack[0], st))
    ensures CountSteps(stack) == (if stack[0].CountRecurse? then Weight(stack[0].node) else 1) + CountSteps(stack[1..])
  {
  }

  lemma CountStarts(tree: Marked)
    ensures var st := CountState([], 0, 0, []); var stack := [CountRecurse(tree)];
      && CountOk(stack, st)
      && CountRun(stack, st) == CountState(Leftover(tree, []), 0, Count(tree, false).num, [NumsOf(tree, false)])
  {
    hide Leftover, Count, NumsOf, CountApply;
    var st := CountState([], 0, 0, []);
    CountNode(tree, st);
    CountPush(CountRecurse(tree), [], st);
    assert [CountRecurse(tree)] + [] == [CountRecurse(tree)];
    assert CountApply(CountRecurse(tree), st).done == [NumsOf(tree, false)];
    assert CountApply(CountRecurse(tree), st).regset == Leftover(tree, []);
  }

  lemma CountBottom(st: CountState)
    ensures CountOk([], st) && CountRun([], st) == st
  {
  }

  /** The first pass. */
  method CountTags(tree: Marked) returns (nums: Nums, numTags: nat)
    ensures nums == NumsOf(tree, false) && nums.num == numTags == Count(tree, false).num
  {
    hide *;
    var regset, base, done := [], 0, [];
    numTags := 0;
    var stack := [CountRecurse(tree)];
    CountStarts(tree);
    ghost var goal := CountState(Leftover(tree, []), 0, Count(tree, false).num, [NumsOf(tree, false)]);
    while stack != []
      invariant CountOk(stack, CountState(regset, base, numTags, done))
      invariant CountRun(stack, CountState(regset, base, numTags, done)) == goal
      decreases CountSteps(stack)
    {
      CountTop(stack, CountState(regset, base, numTags, done));
      var symbol := stack[0];
      if symbol.CountRecurse? {
        stack, regset, numTags, done := CountEnter(symbol.node, stack[1..], regset, base, numTags, done);
      } else {
        regset, base, numTags, done := CountLeave(symbol, regset, base, numTags, done);
        stack := stack[1..];
      }
    }
    CountBottom(CountState(regset, base, numTags, done));
    nums := done[0];
    NumsOfRoot(tree);
  }

  lemma NumsOfRoot(m: Marked)
    ensures NumsOf(m, false).num == Count(m, false).num
  {
  }

  // ----- the second pass -----

  datatype TagFrame =
    | TagRecurse(node: Marked, nums: Nums)
    | TagSetEnd(id: nat)
    | TagAfterIteration(min: nat, max: int, front: int)
    | TagAfterCatLeft(reserved: int, nextTag: nat)
    | TagAfterCatRight
    | TagAfterUnionLeft
    | TagAfterUnionRight(some: bool, front: int, base: nat, leftTag: nat, rightTag: nat)

  datatype TagState = TagState(regset: seq<nat>, base: nat, tag: nat, nextTag: nat, direction: Direction, dirs: Directions,
                               total: nat, data: SubmatchData, done: seq<Ast>)

  function PassOf(st: TagState): Pass { Pass(|st.regset| > st.base, st.tag, st.nextTag, st.direction, st.dirs) }

  /** tre_add_tag_left, unless `front` is -1. */
  function InFront(t: Ast, front: int): Ast { if front >= 0 then Catenation(Tag(front), t) else t }

  predicate TagReady(f: TagFrame, st: TagState) {
    && st.base <= |st.regset|
    && match f
      case TagRecurse(m, nums) => nums == NumsOf(m, |st.regset| > st.base)
      case TagAfterIteration(_, _, _) => |st.done| >= 1
      case TagAfterCatRight => |st.done| >= 2
      case TagAfterUnionRight(_, _, base, _, _) => |st.done| >= 2 && base <= st.base
      case _ => true
  }

  /** A node has been dealt with, given what it leaves waiting, its submatch data, and where the second pass is then. */
  function TagDone(st: TagState, left: seq<nat>, data: SubmatchData, num: nat, r: Placed): TagState
    requires st.base <= |st.regset|
  {
    TagState(st.regset[..st.base] + left, st.base, r.pass.tag, r.pass.nextTag, r.pass.direction, r.pass.dirs, st.total + num,
             data, st.done + [r.tree])
  }

  function TagBody(m: Marked, st: TagState): TagState
    requires st.base <= |st.regset|
  {
    var p, waiting := PassOf(st), st.regset[st.base..];
    TagDone(st, LeftoverOf(m, waiting), PurgedOf(m, p, waiting, st.data), Count(m, p.pending).num, Place(m, p))
  }

  function TagOpen(m: Marked, st: TagState): TagState { st.(regset := Open(m, st.regset)) }

  function TagClose(m: Marked, st: TagState): TagState { st.(regset := Close(m, st.regset)) }

  function TagApply(f: TagFrame, st: TagState): TagState
    requires TagReady(f, st)
  {
    var n := |st.done|;
    match f
    case TagRecurse(m, _) => TagClose(m, TagBody(m, TagOpen(m, st)))
    case TagSetEnd(id) => st.(regset := st.regset + [EndOf(id)])
    case TagAfterIteration(min, max, front) =>
      st.(direction := Maximize, done := st.done[..n - 1] + [InFront(Iteration(st.done[n - 1], min, max), front)])
    case TagAfterCatLeft(reserved, nextTag) => st.(tag := if reserved >= 0 then reserved else st.tag, nextTag := nextTag)
    case TagAfterCatRight => st.(done := st.done[..n - 2] + [Catenation(st.done[n - 2], st.done[n - 1])])
    case TagAfterUnionLeft => st.(base := |st.regset|)
    case TagAfterUnionRight(some, front, base, leftTag, rightTag) =>
      var l, r := st.done[n - 2], st.done[n - 1];
      var t := if some then Union(Catenation(l, Tag(leftTag)), Catenation(r, Tag(rightTag))) else Union(l, r);
      st.(base := base, direction := Maximize, total := st.total + if some then 2 else 0,
          dirs := if some then st.dirs[leftTag := Maximize][rightTag := Maximize] else st.dirs,
          done := st.done[..n - 2] + [InFront(t, front)])
  }

  predicate TagOk(stack: seq<TagFrame>, st: TagState)
    decreases |stack|
  {
    stack == [] || (TagReady(stack[0], st) && TagOk(stack[1..], TagApply(stack[0], st)))
  }

  function TagRun(stack: seq<TagFrame>, st: TagState): TagState
    requires TagOk(stack, st)
    decreases |stack|
  {
    if stack == [] then st else TagRun(stack[1..], TagApply(stack[0], st))
  }

  function TagSteps(stack: seq<TagFrame>): nat {
    if stack == [] then 0 else (if stack[0].TagRecurse? then Weight(stack[0].node) else 1) + TagSteps(stack[1..])
  }

  lemma TagPush(f: TagFrame, rest: seq<TagFrame>, st: TagState)
    requires TagReady(f, st) && TagOk(rest, TagApply(f, st))
    ensures TagOk([f] + rest, st) && TagRun([f] + rest, st) == TagRun(rest, TagApply(f, st))
    ensures TagSteps([f] + rest) == (if f.TagRecurse? then Weight(f.node) else 1) + TagSteps(rest)
  {
    assert ([f] + rest)[1..] == rest;
  }

  function TagEnd(m: Marked, rest: seq<TagFrame>): seq<TagFrame> { if m.id >= 0 then [TagSetEnd(m.id)] + rest else rest }

  lemma TagEnds(m: Marked, rest: seq<TagFrame>, st: TagState)
    requires st.base <= |st.regset| && TagOk(rest, TagClose(m, st))
    ensures TagOk(TagEnd(m, rest), st) && TagRun(TagEnd(m, rest), st) == TagRun(rest, TagClose(m, st))
    ensures TagSteps(TagEnd(m, rest)) <= 1 + TagSteps(rest)
  {
    if m.id >= 0 {
      TagPush(TagSetEnd(m.id), rest, st);
    }
  }

  lemma TagOpened(m: Marked, st: TagState)
    requires st.base <= |st.regset|
    ensures var o := TagOpen(m, st);
      && o.regset[st.base..] == Open(m, st.regset[st.base..]) && o.regset[..st.base] == st.regset[..st.base] && st.base <= |o.regset|
      && PassOf(o) == PassOf(st).(pending := PassOf(st).pending || m.id >= 0)
      && Count(m, PassOf(o).pending).num == Count(m, PassOf(st).pending).num && Place(m, PassOf(o)) == Place(m, PassOf(st))
      && NumsOf(m, PassOf(o).pending) == NumsOf(m, PassOf(st).pending)
    ensures PassOf(st).pending <==> st.regset[st.base..] != []
  {
    PlaceOpened(m, PassOf(st));
  }

  lemma PlaceOpened(m: Marked, p: Pass)
    ensures Place(m, p.(pending := p.pending || m.id >= 0)) == Place(m, p)
  {
    var q := p.(pending := p.pending || m.id >= 0);
    assert q.(pending := q.pending || m.id >= 0) == q;
  }

  /** A node as a whole. */
  lemma TagNode(m: Marked, nums: Nums, st: TagState)
    requires TagReady(TagRecurse(m, nums), st)
    ensures var p, waiting := PassOf(st), st.regset[st.base..]; var u := TagApply(TagRecurse(m, nums), st);
      && u == TagDone(st, Leftover(m, waiting), Purged(m, p, waiting, st.data), Count(m, p.pending).num, Place(m, p))
      && u.base <= |u.regset| && u.regset[u.base..] == Leftover(m, waiting) && u.regset[..u.base] == st.regset[..st.base]
      && PassOf(u) == Place(m, p).pass && PassOf(u).pending == Count(m, p.pending).pending
  {
    hide Count, LeftoverOf, Place, NumsOf, PurgedOf;
    var p, waiting := PassOf(st), st.regset[st.base..];
    TagOpened(m, st);
    WaitingIsPending(m, waiting);
    PlacedPending(m, p);
    var u := TagApply(TagRecurse(m, nums), st);
    assert u.regset == st.regset[..st.base] + Leftover(m, waiting);
  }

  // ----- the second pass, by kinds of nodes -----

  /** The next tag has been given to what was waiting. */
  function TagTagged(st: TagState): TagState
    requires st.base <= |st.regset|
  {
    if |st.regset| > st.base then
      TagState(st.regset[..st.base], st.base, st.nextTag, st.nextTag + 1, st.direction, st.dirs[st.tag := st.direction],
               st.total + 1, Purge(st.regset[st.base..], st.tag, st.data), st.done)
    else st
  }

  lemma TagTaggedMeans(st: TagState)
    requires st.base <= |st.regset|
    ensures var u := TagTagged(st);
      && u.base == st.base <= |u.regset| && u.regset[u.base..] == [] && u.regset == st.regset[..st.base] && u.done == st.done
      && PassOf(u) == AfterTag(PassOf(st)) && u.data == Purge(st.regset[st.base..], st.tag, st.data)
      && u.total == st.total + if PassOf(st).pending then 1 else 0
  {
  }

  /** What the kind of node leaves to do after its operands. */
  lemma TagLeaf(m: Marked, st: TagState)
    requires (m.node.Lit? || m.node.Nothing?) && st.base <= |st.regset| && (m.id >= 0 ==> st.regset[st.base..] != [])
    ensures m.node.Nothing? ==> TagBody(m, st) == st.(done := st.done + [Empty])
    ensures m.node.Lit? ==> var u := TagTagged(st);
      TagBody(m, st) == u.(done := st.done + [TagLeft(Literal(m.node.codeMin, m.node.codeMax), PassOf(st))])
  {
    TagTaggedMeans(st);
    assert st.regset == st.regset[..st.base] + st.regset[st.base..];
  }

  lemma TagCat(m: Marked, l: Marked, r: Marked, nums: Nums, rest: seq<TagFrame>, st: TagState)
    requires m.node == Cat(l, r) && st.base <= |st.regset| && (m.id >= 0 ==> st.regset[st.base..] != [])
    requires nums == NumsOf(m, PassOf(st).pending) && TagOk(rest, TagBody(m, st))
    ensures |nums.kids| == 2
    ensures var reserve := nums.kids[0].num > 0 && nums.kids[1].num > 0;
      var after := TagAfterCatLeft(if reserve then st.nextTag else -1, st.nextTag + nums.kids[0].num);
      var stack := [TagRecurse(l, nums.kids[0])] + ([after] + ([TagRecurse(r, nums.kids[1])] + ([TagAfterCatRight] + rest)));
      var st0 := if reserve then st.(nextTag := st.nextTag + 1) else st;
      && TagOk(stack, st0) && TagRun(stack, st0) == TagRun(rest, TagBody(m, st))
      && TagSteps(stack) == Weight(l) + Weight(r) + 2 + TagSteps(rest)
  {
    hide TagRun, TagOk, TagSteps, Leftover, Purged, NumsOf, TagBody, Count, Place, TagOpen, TagClose;
    var p, waiting := PassOf(st), st.regset[st.base..];
    NumsOfCat(m, l, r, p.pending);
    var first := Count(l, p.pending);
    var reserve := first.num > 0 && Count(r, first.pending).num > 0;
    var st0 := if reserve then st.(nextTag := st.nextTag + 1) else st;
    TagNode(l, nums.kids[0], st0);
    var st1 := TagApply(TagRecurse(l, nums.kids[0]), st0);
    var after := TagAfterCatLeft(if reserve then st.nextTag else -1, st.nextTag + first.num);
    var st2 := TagApply(after, st1);
    assert PassOf(st2) == AfterLeft(Place(l, PassOf(st0)).pass, p, first.num, reserve);
    TagNode(r, nums.kids[1], st2);
    var st3 := TagApply(TagRecurse(r, nums.kids[1]), st2);
    TagCatBody(m, l, r, st, st2, st3);
    TagPush(TagAfterCatRight, rest, st3);
    TagPush(TagRecurse(r, nums.kids[1]), [TagAfterCatRight] + rest, st2);
    TagPush(after, [TagRecurse(r, nums.kids[1])] + ([TagAfterCatRight] + rest), st1);
    TagPush(TagRecurse(l, nums.kids[0]), [after] + ([TagRecurse(r, nums.kids[1])] + ([TagAfterCatRight] + rest)), st0);
  }

  lemma TagCatBody(m: Marked, l: Marked, r: Marked, st: TagState, st2: TagState, st3: TagState)
    requires m.node == Cat(l, r) && st.base <= |st.regset| && (m.id >= 0 ==> st.regset[st.base..] != [])
    requires var p, waiting := PassOf(st), st.regset[st.base..];
      var first := Count(l, p.pending);
      var reserve := first.num > 0 && Count(r, first.pending).num > 0;
      var p1 := if reserve then p.(nextTag := p.nextTag + 1) else p;
      var p2 := AfterLeft(Place(l, p1).pass, p, first.num, reserve);
      && st2.base == st.base <= |st2.regset| && st2.regset[..st.base] == st.regset[..st.base] && p2.pending == first.pending
      && st2.total == st.total + first.num && st2.done == st.done + [Place(l, p1).tree]
      && st3 == TagDone(st2, Leftover(r, Leftover(l, waiting)),
                        Purged(r, p2, Leftover(l, waiting), Purged(l, p1, waiting, st.data)), Count(r, p2.pending).num, Place(r, p2))
    ensures TagReady(TagAfterCatRight, st3) && TagApply(TagAfterCatRight, st3) == TagBody(m, st)
  {
    hide Count, Place, Leftover, Purged;
    var p := PassOf(st);
    CountNumCat(m, l, r, p.pending);
    PlaceCatTree(m, l, r, p);
    TopTwo(st.done, PlaceCat(m, l, r, p).tree.left, PlaceCat(m, l, r, p).tree.right);
  }

  lemma PlaceCatTree(m: Marked, l: Marked, r: Marked, p: Pass)
    requires m.node == Cat(l, r) && (m.id >= 0 ==> p.pending)
    ensures Place(m, p).tree == PlaceCat(m, l, r, p).tree && Place(m, p).pass.(pending := false) == PlaceCat(m, l, r, p).pass.(pending := false)
  {
    assert p.(pending := p.pending || m.id >= 0) == p;
    hide PlaceCat;
  }

  lemma TagIter(m: Marked, a: Marked, nums: Nums, rest: seq<TagFrame>, st: TagState)
    requires m.node.Iter? && m.node.arg == a && st.base <= |st.regset| && (m.id >= 0 ==> st.regset[st.base..] != [])
    requires nums == NumsOf(m, PassOf(st).pending) && TagOk(rest, TagBody(m, st))
    ensures |nums.kids| == 1
    ensures var after := TagAfterIteration(m.node.min, m.node.max, if |st.regset| > st.base then st.tag else -1);
      var st0 := TagTagged(st).(direction := Minimize);
      var stack := [TagRecurse(a, nums.kids[0])] + ([after] + rest);
      && TagOk(stack, st0) && TagRun(stack, st0) == TagRun(rest, TagBody(m, st))
      && TagSteps(stack) == Weight(a) + 1 + TagSteps(rest)
  {
    hide TagRun, TagOk, TagSteps, Leftover, Purged, NumsOf, TagBody, Count, Place, TagOpen, TagClose, TagTagged;
    NumsOfIter(m, a, PassOf(st).pending);
    TagTaggedMeans(st);
    var st0 := TagTagged(st).(direction := Minimize);
    TagNode(a, nums.kids[0], st0);
    var st1 := TagApply(TagRecurse(a, nums.kids[0]), st0);
    var after := TagAfterIteration(m.node.min, m.node.max, if |st.regset| > st.base then st.tag else -1);
    TagIterBody(m, a, st, st1);
    TagPush(after, rest, st1);
    TagPush(TagRecurse(a, nums.kids[0]), [after] + rest, st0);
  }

  lemma TagIterBody(m: Marked, a: Marked, st: TagState, st1: TagState)
    requires m.node.Iter? && m.node.arg == a && st.base <= |st.regset| && (m.id >= 0 ==> st.regset[st.base..] != [])
    requires var st0 := TagTagged(st).(direction := Minimize);
      st1 == TagDone(st0, Leftover(a, []), Purged(a, PassOf(st0), [], st0.data), Count(a, false).num, Place(a, PassOf(st0)))
    ensures var f := TagAfterIteration(m.node.min, m.node.max, if |st.regset| > st.base then st.tag else -1);
      TagReady(f, st1) && TagApply(f, st1) == TagBody(m, st)
  {
    hide Leftover, Purged, Count, TagTagged;
    var p := PassOf(st);
    TagTaggedMeans(st);
    NumsOfIter(m, a, p.pending);
    assert p.(pending := p.pending || m.id >= 0) == p;
    var inner := Place(a, AfterTag(p).(direction := Minimize));
    assert st1.done == st.done + [inner.tree];
    assert st1.done[..|st1.done| - 1] == st.done;
    PlaceIter(m, a, p);
    hide Place;
    assert TagLeft(Iteration(inner.tree, m.node.min, m.node.max), p)
        == InFront(Iteration(inner.tree, m.node.min, m.node.max), if |st.regset| > st.base then st.tag else -1);
  }

  lemma PlaceIter(m: Marked, a: Marked, p: Pass)
    requires m.node.Iter? && m.node.arg == a && (m.id >= 0 ==> p.pending)
    ensures var inner := Place(a, AfterTag(p).(direction := Minimize));
      && Place(m, p).tree == TagLeft(Iteration(inner.tree, m.node.min, m.node.max), p)
      && Place(m, p).pass.(pending := false) == inner.pass.(pending := false, direction := Maximize)
  {
    assert p.(pending := p.pending || m.id >= 0) == p;
  }

  lemma TagAlt(m: Marked, l: Marked, r: Marked, nums: Nums, rest: seq<TagFrame>, st: TagState)
    requires m.node == Alt(l, r) && st.base <= |st.regset| && (m.id >= 0 ==> st.regset[st.base..] != [])
    requires nums == NumsOf(m, PassOf(st).pending) && TagOk(rest, TagBody(m, st))
    ensures |nums.kids| == 2
    ensures var p, some := PassOf(st), Submatches(m) > 0;
      var after := TagAfterUnionRight(some, if p.pending then st.tag else -1, st.base, LeftTag(p), RightTag(p));
      var st0 := TagReserved(TagTagged(st), some);
      var stack := [TagRecurse(l, nums.kids[0])] + ([TagAfterUnionLeft] + ([TagRecurse(r, nums.kids[1])] + ([after] + rest)));
      && TagOk(stack, st0) && TagRun(stack, st0) == TagRun(rest, TagBody(m, st))
      && TagSteps(stack) == Weight(l) + Weight(r) + 2 + TagSteps(rest)
  {
    hide TagRun, TagOk, TagSteps, TagApply, Leftover, Purged, NumsOf, TagBody, Count, Place, TagOpen, TagClose, TagTagged,
        Submatches, InFront;
    var p, some := PassOf(st), Submatches(m) > 0;
    NumsOfAlt(m, l, r, p.pending);
    TagTaggedMeans(st);
    var st0 := TagReserved(TagTagged(st), some);
    assert PassOf(st0) == Reserved(AfterTag(p), some);
    TagNode(l, nums.kids[0], st0);
    var st1 := TagApply(TagRecurse(l, nums.kids[0]), st0);
    var st2 := TagApply(TagAfterUnionLeft, st1);
    TagUnionLeft(st1);
    TagNode(r, nums.kids[1], st2);
    var st3 := TagApply(TagRecurse(r, nums.kids[1]), st2);
    var after := TagAfterUnionRight(some, if p.pending then st.tag else -1, st.base, LeftTag(p), RightTag(p));
    TagAltBody(m, l, r, st, st1, st3);
    TagPush(after, rest, st3);
    TagPush(TagRecurse(r, nums.kids[1]), [after] + rest, st2);
    TagPush(TagAfterUnionLeft, [TagRecurse(r, nums.kids[1])] + ([after] + rest), st1);
    TagPush(TagRecurse(l, nums.kids[0]), [TagAfterUnionLeft] + ([TagRecurse(r, nums.kids[1])] + ([after] + rest)), st0);
  }

  lemma TagUnionLeft(st: TagState)
    requires st.base <= |st.regset|
    ensures var u := TagApply(TagAfterUnionLeft, st);
      && u == st.(base := |st.regset|) && u.regset[u.base..] == [] && u.regset[..u.base] == st.regset
      && PassOf(u) == PassOf(st).(pending := false)
  {
  }

  /** The next two tags are kept for the ends of the operands. */
  function TagReserved(st: TagState, some: bool): TagState {
    if some then st.(tag := st.nextTag + 1, nextTag := st.nextTag + 2) else st
  }

  lemma TagAltBody(m: Marked, l: Marked, r: Marked, st: TagState, st1: TagState, st3: TagState)
    requires m.node == Alt(l, r) && st.base <= |st.regset| && (m.id >= 0 ==> st.regset[st.base..] != [])
    requires var p, waiting := PassOf(st), st.regset[st.base..];
      var data, p1 := Purge(waiting, p.tag, st.data), Reserved(AfterTag(p), Submatches(m) > 0);
      var p2 := Place(l, p1).pass.(pending := false);
      var st2 := st1.(base := |st1.regset|);
      && st1.regset == st.regset[..st.base] + Leftover(l, [])
      && st1.total == st.total + (if p.pending then 1 else 0) + Count(l, false).num && st1.done == st.done + [Place(l, p1).tree]
      && st3 == TagDone(st2, Leftover(r, []), Purged(r, p2, [], Purged(l, p1, [], data)), Count(r, false).num, Place(r, p2))
    ensures var p := PassOf(st);
      var f := TagAfterUnionRight(Submatches(m) > 0, if p.pending then st.tag else -1, st.base, LeftTag(p), RightTag(p));
      TagReady(f, st3) && TagApply(f, st3) == TagBody(m, st)
  {
    hide Leftover, LeftoverOf, Purged, PurgedOf, Purge, Count, Place, Submatches, AfterTag, Reserved, LeftTag, RightTag;
    var p := PassOf(st);
    NumsOfAlt(m, l, r, p.pending);
    PlaceAltParts(m, l, r, p);
    AltOffsets(m, l, r, p, st.regset[st.base..], st.data);
    var p1 := Reserved(AfterTag(p), Submatches(m) > 0);
    TopTwo(st.done, Place(l, p1).tree, Place(r, Place(l, p1).pass.(pending := false)).tree);
    var before := st.regset[..st.base];
    assert before + Leftover(l, []) + Leftover(r, []) == before + (Leftover(l, []) + Leftover(r, []));
  }

  lemma AltOffsets(m: Marked, l: Marked, r: Marked, p: Pass, waiting: seq<nat>, data: SubmatchData)
    requires m.node == Alt(l, r)
    ensures LeftoverOf(m, waiting) == Leftover(l, []) + Leftover(r, [])
    ensures var p1 := Reserved(AfterTag(p), Submatches(m) > 0); var p2 := Place(l, p1).pass.(pending := false);
      PurgedOf(m, p, waiting, data) == Purged(r, p2, [], Purged(l, p1, [], Purge(waiting, p.tag, data)))
  {
    hide Leftover, Purged, Place, Purge;
  }

  lemma PlaceAltParts(m: Marked, l: Marked, r: Marked, p: Pass)
    requires m.node == Alt(l, r) && (m.id >= 0 ==> p.pending)
    ensures var some := Submatches(m) > 0; var p1 := Reserved(AfterTag(p), some);
      var left := Place(l, p1); var right := Place(r, left.pass.(pending := false));
      var after := right.pass.(pending := false, direction := Maximize);
      var t := if some then Union(Catenation(left.tree, Tag(LeftTag(p))), Catenation(right.tree, Tag(RightTag(p))))
               else Union(left.tree, right.tree);
      && Place(m, p).tree == TagLeft(t, p)
      && Place(m, p).pass.(pending := false)
         == if some then after.(dirs := after.dirs[LeftTag(p) := Maximize][RightTag(p) := Maximize]) else after
  {
    assert p.(pending := p.pending || m.id >= 0) == p;
  }

  // ----- the loop of the second pass -----

  /** tre_purge_regset. */
  method PurgeRegset(waiting: seq<nat>, tag: nat, data0: SubmatchData) returns (data: SubmatchData)
    ensures data == Purge(waiting, tag, data0)
  {
    data := data0;
    for i := 0 to |waiting|
      invariant Purge(waiting[i..], tag, data) == Purge(waiting, tag, data0)
    {
      assert waiting[i..][1..] == waiting[i + 1..];
      var id := waiting[i] / 2;
      if waiting[i] % 2 == 0 {
        data := data.(so := data.so[id := tag]);
      } else {
        data := data.(eo := data.eo[id := tag]);
      }
    }
  }

  /** The variables of the loop. */
  class Tagger {
    var regset: seq<nat>
    var base: nat
    var tag: nat
    var nextTag: nat
    var direction: Direction
    var tagDirections: Directions
    var numTags: nat
    var submatchData: SubmatchData
    var done: seq<Ast>

    ghost function State(): TagState
      reads this
    {
      TagState(regset, base, tag, nextTag, direction, tagDirections, numTags, submatchData, done)
    }

    constructor ()
      ensures State() == TagState([], 0, 0, 1, Minimize, map[], 0, NO_DATA, [])
    {
      regset, base, tag, nextTag, direction := [], 0, 0, 1, Minimize;
      tagDirections, numTags, submatchData, done := map[], 0, NO_DATA, [];
    }

    /** The tag that is due, if one is: `front` is its number, or -1. */
    method GiveTag() returns (front: int)
      requires base <= |regset|
      modifies this
      ensures State() == TagTagged(old(State())) && front == if old(|regset| > base) then old(tag) else -1
    {
      front := -1;
      if |regset| > base {
        front := tag;
        tagDirections := tagDirections[tag := direction];
        submatchData := PurgeRegset(regset[base..], tag, submatchData);
        regset := regset[..base];
        tag := nextTag;
        numTags := numTags + 1;
        nextTag := nextTag + 1;
      }
    }

    /** ADDTAGS_RECURSE. */
    method Enter(m: Marked, nums: Nums, rest: seq<TagFrame>) returns (stack: seq<TagFrame>)
      requires TagReady(TagRecurse(m, nums), State()) && TagOk(rest, TagApply(TagRecurse(m, nums), State()))
      modifies this
      ensures TagOk(stack, State()) && TagRun(stack, State()) == old(TagRun(rest, TagApply(TagRecurse(m, nums), State())))
      ensures TagSteps(stack) < Weight(m) + TagSteps(rest)
    {
      hide TagRun, TagOk, TagSteps, NumsOf, TagBody, TagTagged, Count, Submatches, Leftover, LeftoverOf, Place;
      ghost var st := State();
      ghost var o := TagOpen(m, st);
      TagOpened(m, st);
      stack := rest;
      if m.id >= 0 {
        regset := regset + [2 * m.id];
        stack := [TagSetEnd(m.id)] + stack;
      }
      assert State() == o;
      TagEnds(m, rest, TagBody(m, o)) by { TagBodyMeans(m, o); }
      match m.node
      case Lit(lo, hi) =>
        TagLeaf(m, o);
        var front := GiveTag();
        TagTaggedMeans(o);
        done := done + [InFront(Literal(lo, hi), front)];
      case Nothing =>
        TagLeaf(m, o);
        done := done + [Empty];
      case Cat(l, r) =>
        TagCat(m, l, r, nums, stack, o);
        var reserved: int, after: nat := -1, nextTag + nums.kids[0].num;
        if nums.kids[0].num > 0 && nums.kids[1].num > 0 {
          reserved := nextTag;
          nextTag := nextTag + 1;
        }
        stack := [TagRecurse(l, nums.kids[0])] + ([TagAfterCatLeft(reserved, after)] +
          ([TagRecurse(r, nums.kids[1])] + ([TagAfterCatRight] + stack)));
      case Iter(a, min, max) =>
        TagIter(m, a, nums, stack, o);
        var front := GiveTag();
        stack := [TagRecurse(a, nums.kids[0])] + ([TagAfterIteration(min, max, front)] + stack);
        direction := Minimize;
      case Alt(l, r) =>
        stack := EnterUnion(m, l, r, nums, stack);
    }

    method EnterUnion(m: Marked, l: Marked, r: Marked, nums: Nums, rest: seq<TagFrame>) returns (stack: seq<TagFrame>)
      requires m.node == Alt(l, r) && base <= |regset| && (m.id >= 0 ==> regset[base..] != [])
      requires nums == NumsOf(m, PassOf(State()).pending) && TagOk(rest, TagBody(m, State()))
      modifies this
      ensures TagOk(stack, State()) && TagRun(stack, State()) == old(TagRun(rest, TagBody(m, State())))
      ensures TagSteps(stack) == Weight(l) + Weight(r) + 2 + TagSteps(rest)
    {
      hide TagRun, TagOk, TagSteps, NumsOf, TagBody, TagTagged, Count, Submatches, Leftover, LeftoverOf, Place;
      TagAlt(m, l, r, nums, rest, State());
      var leftTag, rightTag := tag, nextTag;
      if |regset| > base {
        leftTag, rightTag := nextTag, nextTag + 1;
      }
      var saved, some := base, Submatches(m) > 0;
      var front := GiveTag();
      if some {
        nextTag := nextTag + 1;
        tag := nextTag;
        nextTag := nextTag + 1;
      }
      stack := [TagRecurse(l, nums.kids[0])] + ([TagAfterUnionLeft] +
        ([TagRecurse(r, nums.kids[1])] + ([TagAfterUnionRight(some, front, saved, leftTag, rightTag)] + rest)));
    }

    /** The other symbols. */
    method Leave(symbol: TagFrame)
      requires !symbol.TagRecurse? && TagReady(symbol, State())
      modifies this
      ensures State() == old(TagApply(symbol, State()))
    {
      var n := |done|;
      match symbol
      case TagSetEnd(id) =>
        regset := regset + [2 * id + 1];
      case TagAfterIteration(min, max, front) =>
        done := done[..n - 1] + [InFront(Iteration(done[n - 1], min, max), front)];
        direction := Maximize;
      case TagAfterCatLeft(reserved, next) =>
        nextTag := next;
        if reserved >= 0 {
          tag := reserved;
        }
      case TagAfterCatRight =>
        done := done[..n - 2] + [Catenation(done[n - 2], done[n - 1])];
      case TagAfterUnionLeft =>
        while base < |regset|
          invariant base <= |regset|
          invariant State() == old(State()).(base := base)
        {
          base := base + 1;
        }
      case TagAfterUnionRight(some, front, saved, leftTag, rightTag) =>
        base := saved;
        var l, r := done[n - 2], done[n - 1];
        if some {
          l, r := Catenation(l, Tag(leftTag)), Catenation(r, Tag(rightTag));
          tagDirections := tagDirections[leftTag := Maximize][rightTag := Maximize];
          numTags := numTags + 2;
        }
        direction := Maximize;
        done := done[..n - 2] + [InFront(Union(l, r), front)];
    }
  }

  lemma TagBodyMeans(m: Marked, st: TagState)
    requires st.base <= |st.regset|
    ensures TagBody(m, st).base == st.base <= |TagBody(m, st).regset|
  {
  }

  lemma TagTop(stack: seq<TagFrame>, st: TagState)
    requires TagOk(stack, st) && stack != []
    ensures TagReady(stack[0], st) && TagOk(stack[1..], TagApply(stack[0], st))
    ensures TagRun(stack, st) == TagRun(stack[1..], TagApply(stack[0], st))
    ensures TagSteps(stack) == (if stack[0].TagRecurse? then Weight(stack[0].node) else 1) + TagSteps(stack[1..])
  {
  }

  /** Where the second pass ends. */
  function TagGoal(tree: Marked): TagState {
    var r := Place(tree, BEGIN);
    TagState(Leftover(tree, []), 0, r.pass.tag, r.pass.nextTag, r.pass.direction, r.pass.dirs, Count(tree, false).num,
             Purged(tree, BEGIN, [], NO_DATA), [r.tree])
  }

  lemma TagStarts(tree: Marked, st: TagState)
    requires st == TagState([], 0, 0, 1, Minimize, map[], 0, NO_DATA, [])
    ensures var stack := [TagRecurse(tree, NumsOf(tree, false))]; TagOk(stack, st) && TagRun(stack, st) == TagGoal(tree)
  {
    hide Leftover, Count, NumsOf, TagApply, Place, Purged;
    var f := TagRecurse(tree, NumsOf(tree, false));
    TagNode(tree, f.nums, st);
    TagPush(f, [], st);
    assert [f] + [] == [f];
    var u := TagApply(f, st);
    assert [] + Leftover(tree, []) == Leftover(tree, []);
    assert u.regset == Leftover(tree, []) && u.done == [Place(tree, BEGIN).tree];
    assert PassOf(st) == BEGIN;
  }

  lemma TagBottom(st: TagState)
    ensures TagOk([], st) && TagRun([], st) == st
  {
  }

  /** tre_add_tags, both passes; the end tag is num_tags. */
  method AddTags(tree: Marked) returns (tagged: Tagged, data: SubmatchData)
    ensures tagged == PlaceTags(tree) && data == DataOf(tree)
    ensures Once(tree) ==> TreTagPlaces.TagsRight(tree, tagged, data)
  {
    hide TreTagPlaces.TagsRight, Once, TagOk, TagRun, TagSteps, TagReady, TagApply, TagGoal, NumsOf, Count, Place, Purge, PlaceTags, DataOf;
    var nums, counted := CountTags(tree);
    var t := new Tagger();
    var stack := [TagRecurse(tree, nums)];
    TagStarts(tree, t.State());
    while stack != []
      invariant fresh(t) && TagOk(stack, t.State()) && TagRun(stack, t.State()) == TagGoal(tree)
      decreases TagSteps(stack)
    {
      TagTop(stack, t.State());
      var symbol := stack[0];
      if symbol.TagRecurse? {
        stack := t.Enter(symbol.node, symbol.nums, stack[1..]);
      } else {
        t.Leave(symbol);
        stack := stack[1..];
      }
    }
    TagBottom(t.State());
    TagEnded(tree, t.State());
    assert nums.num == t.numTags;
    data := PurgeRegset(t.regset, t.tag, t.submatchData);
    tagged := Tagged(t.done[0], t.numTags, t.tagDirections);
    if Once(tree) {
      TreTagPlaces.GroupTags(tree);
    }
  }

  lemma TagEnded(tree: Marked, st: TagState)
    requires st == TagGoal(tree)
    ensures st.done != [] && PlaceTags(tree) == Tagged(st.done[0], st.total, st.dirs) && st.total == Count(tree, false).num
    ensures DataOf(tree) == Purge(st.regset, st.tag, st.data)
  {
  }
}
