/** The position automaton sets the right tags: its paths to the final state, with the tags on their transitions, are the
    runs of the tree. */
module TreTaggedWalks {
  import opened TreAst
  import opened TreExpand
  import opened TrePositions
  import opened TreAutomaton
  import opened TreTaggedRuns

  // ----- walks over positions -----

  /** `ps` visits the positions that read the word of r, and the tags on the way are those of its gaps. */
  ghost predicate TaggedWalk(t: Ast, base: nat, ps: seq<nat>, r: Run) {
    && Ok(r) && |ps| == |r.word| > 0
    && Enters(t, base, ps[0], r.gaps[0]) && Leaves(t, base, ps[|ps| - 1], r.gaps[|ps|])
    && Between(t, base, ps, r)
  }

  ghost predicate Between(t: Ast, base: nat, ps: seq<nat>, r: Run)
    requires Ok(r) && |ps| == |r.word|
  {
    && (forall i | 0 <= i < |ps| :: Spells(t, base, ps[i], r.word[i]))
    && (forall i | 0 <= i < |ps| - 1 :: GoesOn(t, base, ps[i], ps[i + 1], r.gaps[i + 1]))
  }

  /** Two walks, one after the other. */
  lemma JoinWalks(t: Ast, base: nat, ps: seq<nat>, u: Run, qs: seq<nat>, v: Run)
    requires Ok(u) && Ok(v) && |ps| == |u.word| > 0 && |qs| == |v.word| > 0
    requires Enters(t, base, ps[0], u.gaps[0]) && Leaves(t, base, qs[|qs| - 1], v.gaps[|qs|])
    requires Between(t, base, ps, u) && Between(t, base, qs, v)
    requires GoesOn(t, base, ps[|ps| - 1], qs[0], u.gaps[|ps|] + v.gaps[0])
    ensures TaggedWalk(t, base, ps + qs, Then(u, v))
  {
    hide Enters, Leaves, GoesOn, Spells;
    var rs, r := ps + qs, Then(u, v);
    forall i | 0 <= i < |rs| ensures Spells(t, base, rs[i], r.word[i]) {
      if i >= |ps| {
        assert rs[i] == qs[i - |ps|] && r.word[i] == v.word[i - |ps|];
      }
    }
    forall i | 0 <= i < |rs| - 1 ensures GoesOn(t, base, rs[i], rs[i + 1], r.gaps[i + 1]) {
      if i >= |ps| {
        var k := i - |ps|;
        assert rs[i] == qs[k] && rs[i + 1] == qs[k + 1] && r.gaps[i + 1] == v.gaps[k + 1];
      } else if i == |ps| - 1 {
        assert rs[i + 1] == qs[0] && r.gaps[i + 1] == u.gaps[|ps|] + v.gaps[0];
      }
    }
  }

  // ----- a run has a walk -----

  lemma BetweenIn(t: Ast, a: Ast, base: nat, b: nat, ps: seq<nat>, r: Run)
    requires Ok(r) && |ps| == |r.word| && Between(a, b, ps, r)
    requires forall p, c | Spells(a, b, p, c) :: Spells(t, base, p, c)
    requires forall p, q, g | GoesOn(a, b, p, q, g) :: GoesOn(t, base, p, q, g)
    ensures Between(t, base, ps, r)
  {
    hide GoesOn, Spells;
  }

  lemma UnionHasWalk(a: Ast, b: Ast, base: nat, ps: seq<nat>, r: Run)
    requires TaggedWalk(a, base, ps, r) || TaggedWalk(b, base + NumPos(a), ps, r)
    ensures TaggedWalk(Union(a, b), base, ps, r)
  {
    hide GoesOn, Enters, Leaves, Between;
    var t, mid := Union(a, b), base + NumPos(a);
    forall p, q, g ensures GoesOn(a, base, p, q, g) || GoesOn(b, mid, p, q, g) ==> GoesOn(t, base, p, q, g) {
      UnionParts(a, b, base, p, q, g);
    }
    UnionParts(a, b, base, ps[0], 0, r.gaps[0]);
    UnionParts(a, b, base, ps[|ps| - 1], 0, r.gaps[|ps|]);
    if TaggedWalk(a, base, ps, r) {
      BetweenIn(t, a, base, base, ps, r);
    } else {
      BetweenIn(t, b, base, mid, ps, r);
    }
  }

  lemma CatBetween(a: Ast, b: Ast, base: nat, ps: seq<nat>, r: Run)
    requires Ok(r) && |ps| == |r.word|
    ensures Between(a, base, ps, r) || Between(b, base + NumPos(a), ps, r) ==> Between(Catenation(a, b), base, ps, r)
  {
    hide GoesOn, Between;
    var t, mid := Catenation(a, b), base + NumPos(a);
    forall p, q, g ensures GoesOn(a, base, p, q, g) || GoesOn(b, mid, p, q, g) ==> GoesOn(t, base, p, q, g) {
      CatGoesOn(a, b, base, p, q, g);
    }
    if Between(a, base, ps, r) {
      BetweenIn(t, a, base, base, ps, r);
    } else if Between(b, mid, ps, r) {
      BetweenIn(t, b, base, mid, ps, r);
    }
  }

  lemma TagsInFront(g: Tags, v: Run)
    requires Ok(v)
    ensures var r := Then(Run([], [g]), v);
      r.word == v.word && r.gaps[0] == v.gaps[0] + g && |r.gaps| == |v.gaps| && forall i | 0 < i < |v.gaps| :: r.gaps[i] == v.gaps[i]
  {
  }

  lemma SameBetween(t: Ast, base: nat, ps: seq<nat>, r: Run, v: Run)
    requires Ok(r) && Ok(v) && |ps| == |v.word| && r.word == v.word && forall i | 0 < i < |ps| :: r.gaps[i] == v.gaps[i]
    ensures Between(t, base, ps, v) ==> Between(t, base, ps, r)
  {
    hide GoesOn, Spells;
  }

  /** The left operand reads nothing. */
  lemma CatHasRight(a: Ast, b: Ast, base: nat, u: Run, qs: seq<nat>, v: Run)
    requires Nullable(a) && u == Run([], [EmptySet(a)]) && TaggedWalk(b, base + NumPos(a), qs, v)
    ensures TaggedWalk(Catenation(a, b), base, qs, Then(u, v))
  {
    hide GoesOn, Enters, Leaves, EmptySet, Between, Then;
    var r := Then(u, v);
    TagsInFront(EmptySet(a), v);
    CatBetween(a, b, base, qs, v);
    SameBetween(Catenation(a, b), base, qs, r, v);
    CatEnters(a, b, base, qs[0], r.gaps[0]);
    CatLeaves(a, b, base, qs[|qs| - 1], r.gaps[|qs|]);
  }

  lemma CatHasLeft(a: Ast, b: Ast, base: nat, ps: seq<nat>, u: Run, v: Run)
    requires Nullable(b) && v == Run([], [EmptySet(b)]) && TaggedWalk(a, base, ps, u)
    ensures TaggedWalk(Catenation(a, b), base, ps, Then(u, v))
  {
    hide GoesOn, Enters, Leaves, EmptySet;
    var r := Then(u, v);
    assert r.word == u.word;
    CatBetween(a, b, base, ps, u);
    assert forall i | 0 <= i < |ps| :: r.gaps[i] == u.gaps[i];
    CatEnters(a, b, base, ps[0], r.gaps[0]);
    CatLeaves(a, b, base, ps[|ps| - 1], r.gaps[|ps|]);
  }

  lemma CatHasBoth(a: Ast, b: Ast, base: nat, ps: seq<nat>, u: Run, qs: seq<nat>, v: Run)
    requires TaggedWalk(a, base, ps, u) && TaggedWalk(b, base + NumPos(a), qs, v)
    ensures TaggedWalk(Catenation(a, b), base, ps + qs, Then(u, v))
  {
    hide GoesOn, Enters, Leaves, Between;
    CatBetween(a, b, base, ps, u);
    CatBetween(a, b, base, qs, v);
    CatEnters(a, b, base, ps[0], u.gaps[0]);
    CatLeaves(a, b, base, qs[|qs| - 1], v.gaps[|qs|]);
    CatGoesOn(a, b, base, ps[|ps| - 1], qs[0], u.gaps[|ps|] + v.gaps[0]);
    JoinWalks(Catenation(a, b), base, ps, u, qs, v);
  }

  lemma IterBetween(a: Ast, min: nat, max: int, base: nat, ps: seq<nat>, r: Run)
    requires TaggedWalk(a, base, ps, r)
    ensures TaggedWalk(Iteration(a, min, max), base, ps, r)
  {
    hide GoesOn, Enters, Leaves, Between;
    var t := Iteration(a, min, max);
    forall p, q, g ensures GoesOn(a, base, p, q, g) ==> GoesOn(t, base, p, q, g) {
      IterParts(a, min, max, base, p, q, g);
    }
    IterParts(a, min, max, base, ps[0], 0, r.gaps[0]);
    IterParts(a, min, max, base, ps[|ps| - 1], 0, r.gaps[|ps|]);
    BetweenIn(t, a, base, base, ps, r);
  }

  /** One more round in front. */
  lemma OneMoreRound(a: Ast, min: nat, base: nat, ps: seq<nat>, u: Run, qs: seq<nat>, v: Run)
    requires TaggedWalk(a, base, ps, u) && TaggedWalk(Iteration(a, min, -1), base, qs, v)
    ensures TaggedWalk(Iteration(a, min, -1), base, ps + qs, Then(u, v))
  {
    hide GoesOn, Enters, Leaves, Between;
    var t := Iteration(a, min, -1);
    IterBetween(a, min, -1, base, ps, u);
    IterParts(a, min, -1, base, qs[0], 0, v.gaps[0]);
    IterParts(a, min, -1, base, ps[|ps| - 1], qs[0], u.gaps[|ps|] + v.gaps[0]);
    JoinWalks(t, base, ps, u, qs, v);
  }

  lemma ThenNothing(u: Run)
    requires Ok(u)
    ensures Then(u, NO_RUN) == u
  {
    var r := Then(u, NO_RUN);
    assert r.word == u.word && u.gaps[|u.word|] + {} == u.gaps[|u.word|];
    assert |r.gaps| == |u.gaps| && forall i | 0 <= i < |u.gaps| :: r.gaps[i] == u.gaps[i];
  }

  lemma {:induction false} RunHasWalk(t: Ast, base: nat, r: Run) returns (ps: seq<nat>)
    requires Simple(t) && IsRun(t, r) && r.word != []
    ensures TaggedWalk(t, base, ps, r)
    decreases t, 0
  {
    hide Then, Ok, TaggedWalk, EmptySet;
    match t
    case Literal(_, _) =>
      ps := [base];
      LiteralWalk(t, base, r);
    case Union(a, b) =>
      if IsRun(a, r) {
        ps := RunHasWalk(a, base, r);
      } else {
        ps := RunHasWalk(b, base + NumPos(a), r);
      }
      UnionHasWalk(a, b, base, ps, r);
    case Catenation(a, b) =>
      var u, v := PartsOfRun(a, b, r);
      ThenEmpty(u, v);
      if u.word == [] {
        OnlyEmptyRun(a, u);
        ps := RunHasWalk(b, base + NumPos(a), v);
        CatHasRight(a, b, base, u, ps, v);
      } else if v.word == [] {
        OnlyEmptyRun(b, v);
        ps := RunHasWalk(a, base, u);
        CatHasLeft(a, b, base, ps, u, v);
      } else {
        var ps1 := RunHasWalk(a, base, u);
        var ps2 := RunHasWalk(b, base + NumPos(a), v);
        CatHasBoth(a, b, base, ps1, u, ps2, v);
        ps := ps1 + ps2;
      }
    case Iteration(a, min, max) =>
      var n: nat :| n > 0 && (max == -1 || n <= max) && Rounds(a, r, n);
      ps := RoundsHaveWalk(a, min, max, base, r, n);
  }

  lemma LiteralWalk(t: Ast, base: nat, r: Run)
    requires t.Literal? && IsRun(t, r)
    ensures TaggedWalk(t, base, [base], r)
  {
    var e := PosTags(base, t.codeMin, t.codeMax, []);
    assert Npfl(t, base) == Attr(false, [e], [e]) && e in [e] && TagSet(e.tags) == {};
    assert Enters(t, base, base, {}) && Leaves(t, base, base, {});
    assert Spells(t, base, base, r.word[0]);
    assert [base][0] == base;
  }

  lemma FirstRound(a: Ast, r: Run, n: nat) returns (u: Run, v: Run)
    requires n > 0 && Rounds(a, r, n)
    ensures Ok(u) && Ok(v) && u.word != [] && IsRun(a, u) && Rounds(a, v, n - 1) && r == Then(u, v)
    ensures n == 1 ==> r == u
    ensures n > 1 ==> v.word != []
  {
    hide Then, Ok, IsRun;
    u, v :| Ok(u) && Ok(v) && u.word != [] && IsRun(a, u) && Rounds(a, v, n - 1) && r == Then(u, v);
    if n == 1 {
      ThenNothing(u);
    } else {
      RoundsRead(a, v, n - 1);
    }
  }

  lemma RoundsRead(a: Ast, r: Run, n: nat)
    requires n > 0 && Rounds(a, r, n)
    ensures r.word != []
  {
  }

  lemma {:induction false} RoundsHaveWalk(a: Ast, min: nat, max: int, base: nat, r: Run, n: nat) returns (ps: seq<nat>)
    requires Simple(a) && n > 0 && (max == -1 || n <= max == 1) && Rounds(a, r, n)
    ensures TaggedWalk(Iteration(a, min, max), base, ps, r)
    decreases a, n
  {
    hide *;
    var u, v := FirstRound(a, r, n);
    ps := RunHasWalk(a, base, u);
    if n == 1 {
      IterBetween(a, min, max, base, ps, u);
    } else {
      var qs := RoundsHaveWalk(a, min, max, base, v, n - 1);
      OneMoreRound(a, min, base, ps, u, qs, v);
      ps := ps + qs;
    }
  }

  // ----- a walk is a run -----

  /** A walk whose positions are all in the left operand of a catenation, or all in the right one. */
  lemma CatPart(a: Ast, b: Ast, base: nat, p: nat, q: nat, c: nat, g: Tags)
    ensures var t, mid := Catenation(a, b), base + NumPos(a);
      && (p < mid && Spells(t, base, p, c) ==> Spells(a, base, p, c))
      && (p >= mid && Spells(t, base, p, c) ==> Spells(b, mid, p, c))
      && (p < mid && q < mid && GoesOn(t, base, p, q, g) ==> GoesOn(a, base, p, q, g))
      && (p >= mid && GoesOn(t, base, p, q, g) ==> q >= mid && GoesOn(b, mid, p, q, g))
      && (p < mid <= q && GoesOn(t, base, p, q, g) ==>
           exists h1, h2 :: Leaves(a, base, p, h1) && Enters(b, mid, q, h2) && g == h1 + h2)
  {
    hide GoesOn, Enters, Leaves;
    var mid := base + NumPos(a);
    CatGoesOn(a, b, base, p, q, g);
    TaggedInRange(a, base, p, q, g);
    TaggedInRange(b, mid, p, q, g);
    PositionsInRange(a, base, p, q, c);
    PositionsInRange(b, mid, p, q, c);
    forall h ensures Leaves(a, base, p, h) ==> p < mid {
      TaggedInRange(a, base, p, q, h);
    }
    forall h ensures Enters(b, mid, q, h) ==> q >= mid {
      TaggedInRange(b, mid, q, q, h);
    }
    forall h ensures Enters(b, mid, p, h) ==> p >= mid {
      TaggedInRange(b, mid, p, q, h);
    }
  }

  lemma CatEnds(a: Ast, b: Ast, base: nat, p: nat, g: Tags)
    ensures var t, mid := Catenation(a, b), base + NumPos(a);
      && (Enters(t, base, p, g) ==>
           if p < mid then Enters(a, base, p, g) else Nullable(a) && exists h :: Enters(b, mid, p, h) && g == h + EmptySet(a))
      && (Leaves(t, base, p, g) ==>
           if p >= mid then Leaves(b, mid, p, g) else Nullable(b) && exists h :: Leaves(a, base, p, h) && g == h + EmptySet(b))
  {
    hide GoesOn, Enters, Leaves, EmptySet;
    var mid := base + NumPos(a);
    CatEnters(a, b, base, p, g);
    CatLeaves(a, b, base, p, g);
    TaggedInRange(a, base, p, p, g);
    TaggedInRange(b, mid, p, p, g);
    forall h ensures (Leaves(a, base, p, h) ==> p < mid) && (Enters(b, mid, p, h) ==> p >= mid) {
      TaggedInRange(a, base, p, p, h);
      TaggedInRange(b, mid, p, p, h);
    }
  }

  /** Once in the right operand, always there. */
  lemma {:induction false} StaysThere(a: Ast, b: Ast, base: nat, ps: seq<nat>, r: Run, k: nat, i: nat)
    requires Ok(r) && |ps| == |r.word| && Between(Catenation(a, b), base, ps, r)
    requires k <= i < |ps| && ps[k] >= base + NumPos(a)
    ensures ps[i] >= base + NumPos(a)
    decreases i
  {
    hide GoesOn;
    if i > k {
      var h := i - 1;
      StaysThere(a, b, base, ps, r, k, h);
      assert GoesOn(Catenation(a, b), base, ps[h], ps[h + 1], r.gaps[h + 1]);
      CatPart(a, b, base, ps[h], ps[h + 1], 0, r.gaps[h + 1]);
    }
  }

  /** The part of a run that reads bytes k..m, with the tags g1 and g2 at its ends. */
  function Cut(r: Run, k: nat, m: nat, g1: Tags, g2: Tags): (u: Run)
    requires Ok(r) && k < m <= |r.word|
    ensures Ok(u)
  {
    Run(r.word[k..m], [g1] + r.gaps[k + 1..m] + [g2])
  }

  lemma CutBetween(x: Ast, b: nat, ps: seq<nat>, r: Run, k: nat, m: nat, g1: Tags, g2: Tags)
    requires Ok(r) && |ps| == |r.word| && k < m <= |ps|
    requires forall i | k <= i < m :: Spells(x, b, ps[i], r.word[i])
    requires forall i | k <= i < m - 1 :: GoesOn(x, b, ps[i], ps[i + 1], r.gaps[i + 1])
    ensures Between(x, b, ps[k..m], Cut(r, k, m, g1, g2))
  {
    hide GoesOn, Spells;
    var qs, u := ps[k..m], Cut(r, k, m, g1, g2);
    forall i | 0 <= i < |qs| ensures Spells(x, b, qs[i], u.word[i]) {
      assert qs[i] == ps[k + i] && u.word[i] == r.word[k + i];
    }
    forall i | 0 <= i < |qs| - 1 ensures GoesOn(x, b, qs[i], qs[i + 1], u.gaps[i + 1]) {
      var h := k + i;
      assert qs[i] == ps[h] && qs[i + 1] == ps[h + 1] && u.gaps[i + 1] == r.gaps[h + 1];
    }
  }

  /** Two parts that meet at k are the whole. */
  lemma CutsMeet(r: Run, k: nat, g1: Tags, g2: Tags)
    requires Ok(r) && 0 < k < |r.word| && r.gaps[k] == g1 + g2
    ensures Then(Cut(r, 0, k, r.gaps[0], g1), Cut(r, k, |r.word|, g2, r.gaps[|r.word|])) == r
  {
    var n := |r.word|;
    var u, v := Cut(r, 0, k, r.gaps[0], g1), Cut(r, k, n, g2, r.gaps[n]);
    var w := Then(u, v);
    assert w.word == r.word;
    forall i | 0 <= i <= n ensures w.gaps[i] == r.gaps[i] {
    }
    assert |w.gaps| == |r.gaps|;
  }

  /** The walk stays in the left operand: the right one reads nothing. */
  lemma LeftOnly(a: Ast, b: Ast, base: nat, ps: seq<nat>, r: Run) returns (u: Run, v: Run)
    requires TaggedWalk(Catenation(a, b), base, ps, r) && forall i | 0 <= i < |ps| :: ps[i] < base + NumPos(a)
    ensures TaggedWalk(a, base, ps, u) && Nullable(b) && v == Run([], [EmptySet(b)]) && r == Then(u, v)
  {
    hide GoesOn, Enters, Leaves, Spells, EmptySet;
    var n := |ps|;
    CatEnds(a, b, base, ps[0], r.gaps[0]);
    CatEnds(a, b, base, ps[n - 1], r.gaps[n]);
    var h :| Leaves(a, base, ps[n - 1], h) && r.gaps[n] == h + EmptySet(b);
    u, v := Cut(r, 0, n, r.gaps[0], h), Run([], [EmptySet(b)]);
    forall i | 0 <= i < n ensures Spells(a, base, ps[i], r.word[i]) {
      CatPart(a, b, base, ps[i], 0, r.word[i], {});
    }
    forall i | 0 <= i < n - 1 ensures GoesOn(a, base, ps[i], ps[i + 1], r.gaps[i + 1]) {
      CatPart(a, b, base, ps[i], ps[i + 1], 0, r.gaps[i + 1]);
    }
    CutBetween(a, base, ps, r, 0, n, r.gaps[0], h);
    assert ps[0..n] == ps;
    CutThenEmpty(r, h, EmptySet(b));
  }

  lemma CutThenEmpty(r: Run, h: Tags, g: Tags)
    requires Ok(r) && r.word != [] && r.gaps[|r.word|] == h + g
    ensures Then(Cut(r, 0, |r.word|, r.gaps[0], h), Run([], [g])) == r
  {
    var n := |r.word|;
    var w := Then(Cut(r, 0, n, r.gaps[0], h), Run([], [g]));
    assert w.word == r.word && |w.gaps| == |r.gaps|;
    assert forall i | 0 <= i <= n :: w.gaps[i] == r.gaps[i];
  }

  /** The walk stays in the right operand: the left one reads nothing. */
  lemma RightOnly(a: Ast, b: Ast, base: nat, ps: seq<nat>, r: Run) returns (u: Run, v: Run)
    requires TaggedWalk(Catenation(a, b), base, ps, r) && forall i | 0 <= i < |ps| :: ps[i] >= base + NumPos(a)
    ensures Nullable(a) && u == Run([], [EmptySet(a)]) && TaggedWalk(b, base + NumPos(a), ps, v) && r == Then(u, v)
  {
    hide GoesOn, Enters, Leaves, Spells, EmptySet;
    var n, mid := |ps|, base + NumPos(a);
    CatEnds(a, b, base, ps[0], r.gaps[0]);
    CatEnds(a, b, base, ps[n - 1], r.gaps[n]);
    var h :| Enters(b, mid, ps[0], h) && r.gaps[0] == h + EmptySet(a);
    u, v := Run([], [EmptySet(a)]), Cut(r, 0, n, h, r.gaps[n]);
    forall i | 0 <= i < n ensures Spells(b, mid, ps[i], r.word[i]) {
      CatPart(a, b, base, ps[i], 0, r.word[i], {});
    }
    forall i | 0 <= i < n - 1 ensures GoesOn(b, mid, ps[i], ps[i + 1], r.gaps[i + 1]) {
      CatPart(a, b, base, ps[i], ps[i + 1], 0, r.gaps[i + 1]);
    }
    CutBetween(b, mid, ps, r, 0, n, h, r.gaps[n]);
    assert ps[0..n] == ps;
    EmptyThenCut(r, EmptySet(a), h);
  }

  lemma EmptyThenCut(r: Run, g: Tags, h: Tags)
    requires Ok(r) && r.word != [] && r.gaps[0] == h + g
    ensures Then(Run([], [g]), Cut(r, 0, |r.word|, h, r.gaps[|r.word|])) == r
  {
    var n := |r.word|;
    var w := Then(Run([], [g]), Cut(r, 0, n, h, r.gaps[n]));
    assert w.word == r.word && |w.gaps| == |r.gaps| && w.gaps[0] == g + h == r.gaps[0];
    assert forall i | 0 <= i <= n :: w.gaps[i] == r.gaps[i];
  }

  /** What a walk through a catenation reads and sets within its operands. */
  lemma BothParts(a: Ast, b: Ast, base: nat, ps: seq<nat>, r: Run, k: nat)
    requires TaggedWalk(Catenation(a, b), base, ps, r) && 0 < k < |ps|
    requires forall i | 0 <= i < |ps| :: ps[i] < base + NumPos(a) <==> i < k
    ensures var h, mid := k - 1, base + NumPos(a);
      && (forall i | 0 <= i < k :: Spells(a, base, ps[i], r.word[i]))
      && (forall i | k <= i < |ps| :: Spells(b, mid, ps[i], r.word[i]))
      && (forall i | 0 <= i < h :: GoesOn(a, base, ps[i], ps[i + 1], r.gaps[i + 1]))
      && (forall i | k <= i < |ps| - 1 :: GoesOn(b, mid, ps[i], ps[i + 1], r.gaps[i + 1]))
  {
    hide GoesOn, Enters, Leaves, Spells, EmptySet;
    var mid := base + NumPos(a);
    forall i | 0 <= i < |ps| ensures if i < k then Spells(a, base, ps[i], r.word[i]) else Spells(b, mid, ps[i], r.word[i]) {
      CatPart(a, b, base, ps[i], 0, r.word[i], {});
    }
    forall i | 0 <= i < |ps| - 1
      ensures i < k - 1 ==> GoesOn(a, base, ps[i], ps[i + 1], r.gaps[i + 1])
      ensures i >= k ==> GoesOn(b, mid, ps[i], ps[i + 1], r.gaps[i + 1])
    {
      CatPart(a, b, base, ps[i], ps[i + 1], 0, r.gaps[i + 1]);
    }
  }

  lemma Crossing(a: Ast, b: Ast, base: nat, ps: seq<nat>, r: Run, k: nat) returns (h1: Tags, h2: Tags)
    requires TaggedWalk(Catenation(a, b), base, ps, r) && 0 < k < |ps|
    requires forall i | 0 <= i < |ps| :: ps[i] < base + NumPos(a) <==> i < k
    ensures Leaves(a, base, ps[k - 1], h1) && Enters(b, base + NumPos(a), ps[k], h2) && r.gaps[k] == h1 + h2
    ensures Enters(a, base, ps[0], r.gaps[0]) && Leaves(b, base + NumPos(a), ps[|ps| - 1], r.gaps[|ps|])
  {
    hide GoesOn, Enters, Leaves, Spells, EmptySet;
    var h := k - 1;
    CatEnds(a, b, base, ps[0], r.gaps[0]);
    CatEnds(a, b, base, ps[|ps| - 1], r.gaps[|ps|]);
    assert GoesOn(Catenation(a, b), base, ps[h], ps[h + 1], r.gaps[h + 1]);
    CatPart(a, b, base, ps[h], ps[h + 1], 0, r.gaps[h + 1]);
    h1, h2 :| Leaves(a, base, ps[h], h1) && Enters(b, base + NumPos(a), ps[k], h2) && r.gaps[k] == h1 + h2;
  }

  /** The walk goes over to the right operand at k. */
  lemma GoesOver(a: Ast, b: Ast, base: nat, ps: seq<nat>, r: Run, k: nat) returns (u: Run, v: Run)
    requires TaggedWalk(Catenation(a, b), base, ps, r) && 0 < k < |ps|
    requires forall i | 0 <= i < |ps| :: ps[i] < base + NumPos(a) <==> i < k
    ensures TaggedWalk(a, base, ps[..k], u) && TaggedWalk(b, base + NumPos(a), ps[k..], v) && r == Then(u, v)
  {
    hide GoesOn, Enters, Leaves, Spells, EmptySet, Between, Then;
    var n := |ps|;
    var h1, h2 := Crossing(a, b, base, ps, r, k);
    BothParts(a, b, base, ps, r, k);
    u, v := Cut(r, 0, k, r.gaps[0], h1), Cut(r, k, n, h2, r.gaps[n]);
    CutBetween(a, base, ps, r, 0, k, r.gaps[0], h1);
    CutBetween(b, base + NumPos(a), ps, r, k, n, h2, r.gaps[n]);
    assert ps[0..k] == ps[..k] && ps[k..n] == ps[k..];
    CutsMeet(r, k, h1, h2);
  }

  lemma {:induction false} WalkIsRun(t: Ast, base: nat, ps: seq<nat>, r: Run)
    requires Simple(t) && TaggedWalk(t, base, ps, r)
    ensures IsRun(t, r)
    decreases t, |ps|
  {
    hide GoesOn, Enters, Leaves, EmptySet, Between, Spells, Then, IsRun;
    match t
    case Literal(lo, hi) => LiteralRun(t, base, ps, r);
    case Union(a, b) => UnionIsRun(a, b, base, ps, r);
    case Catenation(a, b) =>
      var k := FirstAtLeast(ps, base + NumPos(a));
      forall i | k <= i < |ps| ensures ps[i] >= base + NumPos(a) {
        StaysThere(a, b, base, ps, r, k, i);
      }
      var u, v;
      if k == |ps| {
        u, v := LeftOnly(a, b, base, ps, r);
        WalkIsRun(a, base, ps, u);
        OnlyEmptyRun(b, v);
        assert Ok(v);
      } else if k == 0 {
        u, v := RightOnly(a, b, base, ps, r);
        OnlyEmptyRun(a, u);
        assert Ok(u);
        WalkIsRun(b, base + NumPos(a), ps, v);
      } else {
        u, v := GoesOver(a, b, base, ps, r, k);
        WalkIsRun(a, base, ps[..k], u);
        WalkIsRun(b, base + NumPos(a), ps[k..], v);
      }
      RunOfParts(a, b, u, v);
    case Iteration(a, min, max) =>
      var n := IterationIsRun(a, min, max, base, ps, r);
    case _ => NothingToWalk(t, base, ps, r);
  }

  lemma NothingToWalk(t: Ast, base: nat, ps: seq<nat>, r: Run)
    requires t.Empty? || t.Tag?
    ensures !TaggedWalk(t, base, ps, r)
  {
  }

  lemma LiteralEnds(t: Ast, base: nat, p: nat, q: nat, g: Tags)
    requires t.Literal?
    ensures !GoesOn(t, base, p, q, g)
  {
  }

  lemma LiteralRun(t: Ast, base: nat, ps: seq<nat>, r: Run)
    requires t.Literal? && TaggedWalk(t, base, ps, r)
    ensures IsRun(t, r)
  {
    assert TagSet([]) == {};
    if |ps| > 1 {
      LiteralEnds(t, base, ps[0], ps[0 + 1], r.gaps[0 + 1]);
    }
    assert Spells(t, base, ps[0], r.word[0]);
    assert r.gaps == [r.gaps[0], r.gaps[1]];
  }

  /** A walk stays in one operand of a union. */
  lemma UnionPart(a: Ast, b: Ast, base: nat, p: nat, q: nat, c: nat, g: Tags)
    ensures var t, mid := Union(a, b), base + NumPos(a);
      && (Spells(t, base, p, c) ==> if p < mid then Spells(a, base, p, c) else Spells(b, mid, p, c))
      && (Enters(t, base, p, g) ==> if p < mid then Enters(a, base, p, g) else Enters(b, mid, p, g))
      && (Leaves(t, base, p, g) ==> if p < mid then Leaves(a, base, p, g) else Leaves(b, mid, p, g))
      && (GoesOn(t, base, p, q, g) ==>
           (p < mid <==> q < mid) && if p < mid then GoesOn(a, base, p, q, g) else GoesOn(b, mid, p, q, g))
  {
    hide GoesOn, Enters, Leaves;
    var mid := base + NumPos(a);
    UnionParts(a, b, base, p, q, g);
    TaggedInRange(a, base, p, q, g);
    TaggedInRange(b, mid, p, q, g);
    PositionsInRange(a, base, p, q, c);
    PositionsInRange(b, mid, p, q, c);
  }

  lemma {:induction false} SameSide(a: Ast, b: Ast, base: nat, ps: seq<nat>, r: Run, i: nat)
    requires Ok(r) && |ps| == |r.word| && Between(Union(a, b), base, ps, r) && i < |ps|
    ensures ps[i] < base + NumPos(a) <==> ps[0] < base + NumPos(a)
  {
    hide GoesOn, Spells;
    if i > 0 {
      var h: nat := i - 1;
      SameSide(a, b, base, ps, r, h);
      assert GoesOn(Union(a, b), base, ps[h], ps[h + 1], r.gaps[h + 1]);
      UnionPart(a, b, base, ps[h], ps[h + 1], 0, r.gaps[h + 1]);
    }
  }

  lemma UnionSide(a: Ast, b: Ast, base: nat, ps: seq<nat>, r: Run)
    requires TaggedWalk(Union(a, b), base, ps, r)
    ensures if ps[0] < base + NumPos(a) then TaggedWalk(a, base, ps, r) else TaggedWalk(b, base + NumPos(a), ps, r)
  {
    hide GoesOn, Spells, Enters, Leaves;
    var t, mid, n := Union(a, b), base + NumPos(a), |ps|;
    forall i | 0 <= i < n
      ensures ps[i] < mid <==> ps[0] < mid
      ensures if ps[0] < mid then Spells(a, base, ps[i], r.word[i]) else Spells(b, mid, ps[i], r.word[i])
    {
      SameSide(a, b, base, ps, r, i);
      UnionPart(a, b, base, ps[i], 0, r.word[i], {});
    }
    forall i | 0 <= i < n - 1
      ensures if ps[0] < mid then GoesOn(a, base, ps[i], ps[i + 1], r.gaps[i + 1]) else GoesOn(b, mid, ps[i], ps[i + 1], r.gaps[i + 1])
    {
      UnionPart(a, b, base, ps[i], ps[i + 1], 0, r.gaps[i + 1]);
    }
    UnionPart(a, b, base, ps[0], 0, 0, r.gaps[0]);
    UnionPart(a, b, base, ps[n - 1], 0, 0, r.gaps[n]);
  }

  lemma {:induction false} UnionIsRun(a: Ast, b: Ast, base: nat, ps: seq<nat>, r: Run)
    requires Simple(Union(a, b)) && TaggedWalk(Union(a, b), base, ps, r)
    ensures IsRun(Union(a, b), r)
    decreases Union(a, b), 0
  {
    hide TaggedWalk;
    UnionSide(a, b, base, ps, r);
    WalkReads(Union(a, b), base, ps, r);
    if ps[0] < base + NumPos(a) {
      WalkIsRun(a, base, ps, r);
    } else {
      WalkIsRun(b, base + NumPos(a), ps, r);
    }
  }

  lemma WalkReads(t: Ast, base: nat, ps: seq<nat>, r: Run)
    requires TaggedWalk(t, base, ps, r)
    ensures Ok(r) && |ps| == |r.word| > 0
  {
  }

  /** Where the first round of a walk through an iteration ends. */
  lemma {:induction false} FirstRoundEnd(a: Ast, base: nat, ps: seq<nat>, r: Run, from: nat) returns (k: nat)
    requires Ok(r) && |ps| == |r.word| && from < |ps|
    requires forall i | 0 <= i < from :: GoesOn(a, base, ps[i], ps[i + 1], r.gaps[i + 1])
    ensures k < |ps| && forall i | 0 <= i < k :: GoesOn(a, base, ps[i], ps[i + 1], r.gaps[i + 1])
    ensures k < |ps| - 1 ==> !GoesOn(a, base, ps[k], ps[k + 1], r.gaps[k + 1])
    decreases |ps| - from
  {
    hide GoesOn;
    if from < |ps| - 1 && GoesOn(a, base, ps[from], ps[from + 1], r.gaps[from + 1]) {
      k := FirstRoundEnd(a, base, ps, r, from + 1);
    } else {
      k := from;
    }
  }

  lemma OnlyRound(a: Ast, min: nat, max: int, base: nat, ps: seq<nat>, r: Run)
    requires TaggedWalk(Iteration(a, min, max), base, ps, r)
    requires forall i | 0 <= i < |ps| - 1 :: GoesOn(a, base, ps[i], ps[i + 1], r.gaps[i + 1])
    ensures TaggedWalk(a, base, ps, r)
  {
    hide GoesOn, Enters, Leaves;
    var t := Iteration(a, min, max);
    IterParts(a, min, max, base, ps[0], 0, r.gaps[0]);
    IterParts(a, min, max, base, ps[|ps| - 1], 0, r.gaps[|ps|]);
    forall i | 0 <= i < |ps| ensures Spells(a, base, ps[i], r.word[i]) {
      assert Spells(t, base, ps[i], r.word[i]);
    }
  }

  lemma RoundAndRest(a: Ast, min: nat, max: int, base: nat, ps: seq<nat>, r: Run, k: nat) returns (u: Run, v: Run)
    requires TaggedWalk(Iteration(a, min, max), base, ps, r) && 0 < k < |ps|
    requires forall i | 0 <= i < k - 1 :: GoesOn(a, base, ps[i], ps[i + 1], r.gaps[i + 1])
    requires var h := k - 1; !GoesOn(a, base, ps[h], ps[h + 1], r.gaps[h + 1])
    ensures max == -1 && TaggedWalk(a, base, ps[..k], u) && TaggedWalk(Iteration(a, min, max), base, ps[k..], v) && r == Then(u, v)
  {
    hide GoesOn, Enters, Leaves;
    var t, n, h := Iteration(a, min, max), |ps|, k - 1;
    assert GoesOn(t, base, ps[h], ps[h + 1], r.gaps[h + 1]);
    IterParts(a, min, max, base, ps[h], ps[h + 1], r.gaps[h + 1]);
    var h1, h2 :| Leaves(a, base, ps[h], h1) && Enters(a, base, ps[k], h2) && r.gaps[k] == h1 + h2;
    u, v := Cut(r, 0, k, r.gaps[0], h1), Cut(r, k, n, h2, r.gaps[n]);
    IterParts(a, min, max, base, ps[0], 0, r.gaps[0]);
    IterParts(a, min, max, base, ps[k], 0, h2);
    forall i | 0 <= i < n ensures Spells(a, base, ps[i], r.word[i]) && Spells(t, base, ps[i], r.word[i]) {
      assert Spells(t, base, ps[i], r.word[i]);
    }
    CutBetween(a, base, ps, r, 0, k, r.gaps[0], h1);
    CutBetween(t, base, ps, r, k, n, h2, r.gaps[n]);
    assert ps[0..k] == ps[..k] && ps[k..n] == ps[k..];
    CutsMeet(r, k, h1, h2);
  }

  lemma OneRoundRun(a: Ast, r: Run)
    requires Ok(r) && r.word != [] && IsRun(a, r)
    ensures Rounds(a, r, 1)
  {
    hide Then, IsRun;
    ThenNothing(r);
    assert Rounds(a, NO_RUN, 0) && r == Then(r, NO_RUN);
  }

  lemma MoreRoundsRun(a: Ast, u: Run, v: Run, n: nat)
    requires Ok(u) && Ok(v) && u.word != [] && IsRun(a, u) && Rounds(a, v, n)
    ensures Rounds(a, Then(u, v), n + 1)
  {
    hide Then, IsRun, Ok;
  }

  lemma RoundsAreRun(a: Ast, min: nat, max: int, r: Run, n: nat)
    requires r.word != [] && n > 0 && (max == -1 || n <= max) && Rounds(a, r, n)
    ensures IsRun(Iteration(a, min, max), r)
  {
    hide Then, Rounds;
  }

  lemma {:induction false} IterationIsRun(a: Ast, min: nat, max: int, base: nat, ps: seq<nat>, r: Run) returns (n: nat)
    requires Simple(Iteration(a, min, max)) && TaggedWalk(Iteration(a, min, max), base, ps, r)
    ensures n > 0 && (max == -1 || n <= max) && Rounds(a, r, n) && IsRun(Iteration(a, min, max), r)
    decreases a, |ps| + 1
  {
    hide TaggedWalk, GoesOn, Spells, Then, Ok, IsRun, Rounds;
    WalkReads(Iteration(a, min, max), base, ps, r);
    var k := FirstRoundEnd(a, base, ps, r, 0);
    if k == |ps| - 1 {
      OnlyRound(a, min, max, base, ps, r);
      WalkIsRun(a, base, ps, r);
      OneRoundRun(a, r);
      n := 1;
    } else {
      var u, v := RoundAndRest(a, min, max, base, ps, r, k + 1);
      WalkIsRun(a, base, ps[..k + 1], u);
      WalkReads(a, base, ps[..k + 1], u);
      WalkReads(Iteration(a, min, max), base, ps[k + 1..], v);
      var m := IterationIsRun(a, min, max, base, ps[k + 1..], v);
      MoreRoundsRun(a, u, v, m);
      n := m + 1;
    }
    RoundsAreRun(a, min, max, r, n);
  }

  // ----- paths of the automaton -----

  /** Some transition from p to q reads c and sets the tags g. */
  ghost predicate TaggedStep(a: Automaton, p: nat, c: nat, q: nat, g: Tags) {
    p < |a.out| && exists s :: s in a.out[p] && Reads(s, c) && s.target == q && TagSet(s.tags) == g
  }

  ghost predicate TaggedStart(a: Automaton, q: nat, g: Tags) {
    exists s :: s in a.initial && s.target == q && TagSet(s.tags) == g
  }

  /** All but the last byte, and all but the last gap. */
  function FrontRun(r: Run): (u: Run)
    requires Ok(r) && r.word != []
    ensures Ok(u)
  {
    Run(Front(r.word), r.gaps[..|r.word|])
  }

  /** Some path from an initial state reads the word of r, sets the tags of its gaps, and ends in q. */
  ghost predicate TaggedPath(a: Automaton, r: Run, q: nat)
    requires Ok(r)
    decreases |r.word|
  {
    if r.word == [] then TaggedStart(a, q, r.gaps[0])
    else exists p: nat :: TaggedPath(a, FrontRun(r), p) && TaggedStep(a, p, Last(r.word), q, r.gaps[|r.word|])
  }

  lemma {:induction false} MergedTags(t1: seq<nat>, t2: seq<nat>)
    ensures TagSet(MergeTags(t1, t2)) == TagSet(t1) + TagSet(t2)
    decreases |t2|
  {
    if t2 != [] {
      var front, last := t2[..|t2| - 1], t2[|t2| - 1];
      MergedTags(t1, front);
      assert t2 == front + [last];
      TagSetBoth(front, [last]);
      TagSetBoth(MergeTags(t1, front), [last]);
    }
  }

  lemma StepsGoOn(t: Ast, p: nat, c: nat, q: nat, g: Tags)
    ensures TaggedStep(AutomatonOf(t), p, c, q, g) <==> GoesOn(WithFinal(t), 0, p, q, g) && Spells(WithFinal(t), 0, p, c)
  {
    hide Npfl, NumPos, Spells, Follows, Cross, Edges, TagSet, MergeTags;
    var a, tree := AutomatonOf(t), WithFinal(t);
    var edges := Edges(tree, 0);
    EdgesAreFollows(tree, 0);
    forall i | 0 <= i < |edges|
      ensures TagSet(EdgeStep(edges[i]).tags) == TagSet(edges[i].0.tags) + TagSet(edges[i].1.tags)
      ensures Spells(tree, 0, edges[i].0.position, c) <==> Reads(EdgeStep(edges[i]), c)
    {
      MergedTags(edges[i].0.tags, edges[i].1.tags);
      assert CodesOf(tree, 0, edges[i].0);
    }
    if TaggedStep(a, p, c, q, g) {
      var s :| s in a.out[p] && Reads(s, c) && s.target == q && TagSet(s.tags) == g;
      AddStepsHas(NoSteps(NumPos(tree)), edges, p, s);
      var i :| 0 <= i < |edges| && edges[i].0.position == p && EdgeStep(edges[i]) == s;
      assert edges[i] in edges;
    }
    if GoesOn(tree, 0, p, q, g) && Spells(tree, 0, p, c) {
      PositionsInRange(tree, 0, p, q, c);
      var e :| e in edges && e.0.position == p && e.1.position == q && TagSet(e.0.tags) + TagSet(e.1.tags) == g;
      var i :| 0 <= i < |edges| && edges[i] == e;
      AddStepsHas(NoSteps(NumPos(tree)), edges, p, EdgeStep(edges[i]));
    }
  }

  lemma StartsEnter(t: Ast, q: nat, g: Tags)
    ensures TaggedStart(AutomatonOf(t), q, g) <==> Enters(WithFinal(t), 0, q, g)
  {
    hide Npfl, TagSet;
    var first := Npfl(WithFinal(t), 0).firstpos;
    if Enters(WithFinal(t), 0, q, g) {
      var e :| e in first && e.position == q && TagSet(e.tags) == g;
      var i :| 0 <= i < |first| && first[i] == e;
      assert Starts(first)[i] in Starts(first);
    }
    if TaggedStart(AutomatonOf(t), q, g) {
      var s :| s in Starts(first) && s.target == q && TagSet(s.tags) == g;
      var i :| 0 <= i < |first| && Starts(first)[i] == s;
      assert first[i] in first;
    }
  }

  /** A path as the sequence of its states. */
  ghost predicate StatesOf(t: Ast, ps: seq<nat>, r: Run) {
    var tree := WithFinal(t);
    && Ok(r) && |ps| == |r.word| + 1 && Enters(tree, 0, ps[0], r.gaps[0])
    && (forall i | 0 <= i < |r.word| :: Spells(tree, 0, ps[i], r.word[i]))
    && (forall i | 0 <= i < |r.word| :: GoesOn(tree, 0, ps[i], ps[i + 1], r.gaps[i + 1]))
  }

  lemma {:induction false} PathHasStates(t: Ast, r: Run, q: nat) returns (ps: seq<nat>)
    requires Ok(r) && TaggedPath(AutomatonOf(t), r, q)
    ensures StatesOf(t, ps, r) && ps[|r.word|] == q
    decreases |r.word|
  {
    hide GoesOn, Enters, Spells, AutomatonOf, WithFinal;
    if r.word == [] {
      StartsEnter(t, q, r.gaps[0]);
      ps := [q];
    } else {
      var n := |r.word|;
      var p: nat :| TaggedPath(AutomatonOf(t), FrontRun(r), p) && TaggedStep(AutomatonOf(t), p, Last(r.word), q, r.gaps[n]);
      var front := PathHasStates(t, FrontRun(r), p);
      StepsGoOn(t, p, Last(r.word), q, r.gaps[n]);
      ps := front + [q];
      forall i | 0 <= i < n
        ensures Spells(WithFinal(t), 0, ps[i], r.word[i]) && GoesOn(WithFinal(t), 0, ps[i], ps[i + 1], r.gaps[i + 1])
      {
        assert i < n - 1 ==> FrontRun(r).word[i] == r.word[i] && FrontRun(r).gaps[i + 1] == r.gaps[i + 1];
        assert i < n - 1 ==> GoesOn(WithFinal(t), 0, front[i], front[i + 1], FrontRun(r).gaps[i + 1]);
      }
    }
  }

  lemma {:induction false} StatesArePath(t: Ast, ps: seq<nat>, r: Run)
    requires StatesOf(t, ps, r)
    ensures TaggedPath(AutomatonOf(t), r, ps[|r.word|])
    decreases |r.word|
  {
    hide GoesOn, Enters, Spells, AutomatonOf, WithFinal;
    if r.word == [] {
      StartsEnter(t, ps[0], r.gaps[0]);
    } else {
      var n, k := |r.word|, |r.word| - 1;
      forall i | 0 <= i < k ensures GoesOn(WithFinal(t), 0, ps[..n][i], ps[..n][i + 1], FrontRun(r).gaps[i + 1]) {
        assert GoesOn(WithFinal(t), 0, ps[i], ps[i + 1], r.gaps[i + 1]);
      }
      StatesArePath(t, ps[..n], FrontRun(r));
      assert GoesOn(WithFinal(t), 0, ps[k], ps[k + 1], r.gaps[k + 1]);
      StepsGoOn(t, ps[k], Last(r.word), ps[n], r.gaps[n]);
    }
  }

  // ----- the final state -----

  lemma FinalEnds(d: nat, p: nat, g: Tags)
    ensures Enters(Literal(0, 0), d, p, g) <==> p == d && g == {}
    ensures Leaves(Literal(0, 0), d, p, g) <==> p == d && g == {}
  {
    assert TagSet([]) == {};
    var e := PosTags(d, 0, 0, []);
    assert Npfl(Literal(0, 0), d) == Attr(false, [e], [e]) && e in [e];
  }

  lemma FinalHasWalk(t: Ast, ps: seq<nat>, r: Run)
    requires TaggedWalk(t, 0, ps, r)
    ensures StatesOf(t, ps + [NumPos(t)], r)
  {
    hide GoesOn, Enters, Leaves, NumPos;
    var tree, d, n, qs := WithFinal(t), NumPos(t), |ps|, ps + [NumPos(t)];
    var k := n - 1;
    CatEnters(t, Literal(0, 0), 0, ps[0], r.gaps[0]);
    FinalEnds(d, d, {});
    CatGoesOn(t, Literal(0, 0), 0, ps[k], d, r.gaps[n]);
    assert r.gaps[n] == r.gaps[n] + {};
    forall i | 0 <= i < n ensures Spells(tree, 0, qs[i], r.word[i]) && GoesOn(tree, 0, qs[i], qs[i + 1], r.gaps[i + 1]) {
      if i < k {
        assert GoesOn(t, 0, ps[i], ps[i + 1], r.gaps[i + 1]);
        CatGoesOn(t, Literal(0, 0), 0, ps[i], ps[i + 1], r.gaps[i + 1]);
      }
    }
  }

  lemma NothingToFinal(t: Ast, r: Run)
    requires Nullable(t) && r == Run([], [EmptySet(t)])
    ensures StatesOf(t, [NumPos(t)], r)
  {
    hide GoesOn, Enters, EmptySet;
    FinalEnds(NumPos(t), NumPos(t), {});
    CatEnters(t, Literal(0, 0), 0, NumPos(t), r.gaps[0]);
    assert r.gaps[0] == {} + EmptySet(t);
  }

  lemma StatesAreRun(t: Ast, ps: seq<nat>, r: Run)
    requires Simple(t) && StatesOf(t, ps, r) && ps[|r.word|] == NumPos(t)
    ensures IsRun(t, r)
  {
    hide GoesOn, Enters, Leaves, Spells, EmptySet, NumPos;
    var tree, d, n, final := WithFinal(t), NumPos(t), |r.word|, Literal(0, 0);
    CatEnds(t, final, 0, ps[0], r.gaps[0]);
    if n == 0 {
      var h :| Enters(final, d, d, h) && r.gaps[0] == h + EmptySet(t);
      FinalEnds(d, d, h);
      assert {} + EmptySet(t) == EmptySet(t);
      assert r.gaps == [r.gaps[0]];
      OnlyEmptyRun(t, r);
    } else {
      var k := n - 1;
      forall i | 0 <= i < n ensures ps[i] < d && Spells(t, 0, ps[i], r.word[i]) {
        assert GoesOn(tree, 0, ps[i], ps[i + 1], r.gaps[i + 1]);
        CatPart(t, final, 0, ps[i], ps[i + 1], r.word[i], r.gaps[i + 1]);
        LiteralEnds(final, d, ps[i], ps[i + 1], r.gaps[i + 1]);
      }
      forall i | 0 <= i < k ensures GoesOn(t, 0, ps[i], ps[i + 1], r.gaps[i + 1]) {
        assert GoesOn(tree, 0, ps[i], ps[i + 1], r.gaps[i + 1]);
        CatPart(t, final, 0, ps[i], ps[i + 1], 0, r.gaps[i + 1]);
      }
      assert GoesOn(tree, 0, ps[k], ps[k + 1], r.gaps[k + 1]);
      CatPart(t, final, 0, ps[k], ps[k + 1], 0, r.gaps[k + 1]);
      var h1, h2 :| Leaves(t, 0, ps[k], h1) && Enters(final, d, d, h2) && r.gaps[n] == h1 + h2;
      FinalEnds(d, d, h2);
      assert h1 + {} == h1;
      assert forall i | 0 <= i < n :: ps[..n][i] == ps[i];
      WalkIsRun(t, 0, ps[..n], r);
    }
  }

  /** The paths of the compiled automaton to its final state are the runs of the tree: what they read and the tags they set. */
  lemma PathsAreRuns(t: Ast, r: Run)
    requires Simple(t) && Ok(r)
    ensures TaggedPath(AutomatonOf(t), r, AutomatonOf(t).final) <==> IsRun(t, r)
  {
    hide TaggedPath, IsRun, StatesOf, EmptySet;
    if TaggedPath(AutomatonOf(t), r, NumPos(t)) {
      var ps := PathHasStates(t, r, NumPos(t));
      StatesAreRun(t, ps, r);
    }
    if IsRun(t, r) {
      var ps := [];
      if r.word == [] {
        OnlyEmptyRun(t, r);
        NothingToFinal(t, r);
        assert ps + [NumPos(t)] == [NumPos(t)];
      } else {
        ps := RunHasWalk(t, 0, r);
        FinalHasWalk(t, ps, r);
      }
      StatesReach(t, ps, r);
    }
  }

  lemma StatesReach(t: Ast, ps: seq<nat>, r: Run)
    requires StatesOf(t, ps + [NumPos(t)], r)
    ensures TaggedPath(AutomatonOf(t), r, NumPos(t))
  {
    hide TaggedPath;
    StatesArePath(t, ps + [NumPos(t)], r);
  }
}
