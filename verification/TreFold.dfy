/** What a pattern means when case is ignored (REG_ICASE): the words of its tree, each letter in either case. */
module TreFold {
  import opened Text
  import opened TreAst
  import opened TreMarked
  import opened TreParse
  import opened TreParsePrinted

  /** Two bytes that differ in case only. */
  predicate SameLetter(a: nat, b: nat) { a < 256 && b < 256 && ToLower(a) == ToLower(b) }

  predicate SameLetters(w: Word, v: Word) { |w| == |v| && forall k | 0 <= k < |w| :: SameLetter(w[k], v[k]) }

  ghost predicate InAnyCase(a: Language, w: Word) { exists v :: v in a && SameLetters(w, v) }

  /** The words of a, in any case. */
  ghost function AnyCase(a: Language): Language { iset w: Word | InAnyCase(a, w) }

  lemma JoinLetters(w: Word, v: Word, w': Word, v': Word)
    requires SameLetters(w, v) && SameLetters(w', v')
    ensures SameLetters(w + w', v + v')
  {
  }

  lemma CutLetters(w: Word, v: Word, k: nat)
    requires SameLetters(w, v) && k <= |w|
    ensures SameLetters(w[..k], v[..k]) && SameLetters(w[k..], v[k..])
  {
  }

  lemma ConcatAnyCase(a: Language, b: Language)
    ensures AnyCase(Concat(a, b)) == Concat(AnyCase(a), AnyCase(b))
  {
    hide SameLetters;
    forall w: Word ensures w in AnyCase(Concat(a, b)) <==> w in Concat(AnyCase(a), AnyCase(b)) {
      if InAnyCase(Concat(a, b), w) {
        var v :| v in Concat(a, b) && SameLetters(w, v);
        var k :| IsSplit(a, b, v, k);
        assert |w| == |v| by { hide *; LengthOf(w, v); }
        CutLetters(w, v, k);
        assert IsSplit(AnyCase(a), AnyCase(b), w, k);
      }
      if w in Concat(AnyCase(a), AnyCase(b)) {
        var k :| IsSplit(AnyCase(a), AnyCase(b), w, k);
        var u :| u in a && SameLetters(w[..k], u);
        var v :| v in b && SameLetters(w[k..], v);
        JoinLetters(w[..k], u, w[k..], v);
        Join(a, b, u, v);
        assert w[..k] + w[k..] == w;
      }
    }
  }

  lemma LengthOf(w: Word, v: Word)
    requires SameLetters(w, v)
    ensures |w| == |v|
  {
  }

  lemma EmptyAnyCase()
    ensures AnyCase(iset{[]}) == iset{[]}
  {
    forall w: Word ensures w in AnyCase(iset{[]}) <==> w == [] {
      assert SameLetters([], []);
    }
  }

  lemma {:induction false} PowerAnyCase(a: Language, n: nat)
    ensures AnyCase(Power(a, n)) == Power(AnyCase(a), n)
  {
    if n == 0 {
      EmptyAnyCase();
    } else {
      PowerAnyCase(a, n - 1);
      ConcatAnyCase(a, Power(a, n - 1));
    }
  }

  lemma PowersAnyCase(a: Language, min: nat, max: int)
    ensures AnyCase(Powers(a, min, max)) == Powers(AnyCase(a), min, max)
  {
    hide Power, SameLetters;
    forall w: Word ensures w in AnyCase(Powers(a, min, max)) <==> w in Powers(AnyCase(a), min, max) {
      if w in AnyCase(Powers(a, min, max)) {
        var v :| v in Powers(a, min, max) && SameLetters(w, v);
        var n: nat :| InBounds(n, min, max) && v in Power(a, n);
        PowerAnyCase(a, n);
        assert InAnyCase(Power(a, n), w);
      }
      if w in Powers(AnyCase(a), min, max) {
        var n: nat :| InBounds(n, min, max) && w in Power(AnyCase(a), n);
        PowerAnyCase(a, n);
        assert InAnyCase(Power(a, n), w);
        var v :| v in Power(a, n) && SameLetters(w, v);
        assert v in Powers(a, min, max);
      }
    }
  }

  lemma UnionAnyCase(a: Language, b: Language)
    ensures AnyCase(a + b) == AnyCase(a) + AnyCase(b)
  {
    hide SameLetters;
    forall w: Word ensures w in AnyCase(a + b) <==> w in AnyCase(a) + AnyCase(b) {
      if InAnyCase(a, w) {
        var v :| v in a && SameLetters(w, v);
        assert v in a + b;
      }
      if InAnyCase(b, w) {
        var v :| v in b && SameLetters(w, v);
        assert v in a + b;
      }
    }
  }

  /** A byte of the pattern: the byte itself, or the letter in both cases. */
  lemma LiteralAnyCase(c: Byte, flags: Flags)
    requires flags.icase
    ensures Lang(Unmarked(Fresh(LiteralAtom(c, flags)))) == AnyCase(Lang(Literal(c, c)))
  {
    var t := Unmarked(Fresh(LiteralAtom(c, flags)));
    forall w: Word ensures w in Lang(t) <==> w in AnyCase(Lang(Literal(c, c))) {
      LiteralWords(c, flags, w);
      if w in AnyCase(Lang(Literal(c, c))) {
        var v :| v in Lang(Literal(c, c)) && SameLetters(w, v);
        assert SameLetter(w[0], v[0]);
      }
      if |w| == 1 && SameLetter(w[0], c) {
        assert [c] in Lang(Literal(c, c)) && SameLetters(w, [c]);
      }
    }
  }

  lemma LiteralWords(c: Byte, flags: Flags, w: Word)
    requires flags.icase
    ensures w in Lang(Unmarked(Fresh(LiteralAtom(c, flags)))) <==> |w| == 1 && SameLetter(w[0], c)
  {
    var upper, lower := Fresh(Lit(ToUpper(c), ToUpper(c))), Fresh(Lit(ToLower(c), ToLower(c)));
    if ToUpper(c) != c || ToLower(c) != c {
      assert Unmarked(Fresh(LiteralAtom(c, flags))) == Union(Unmarked(upper), Unmarked(lower));
    }
  }

  /** A pattern parsed with REG_ICASE means its words in any case. */
  lemma {:induction false} PatternAnyCase(m: Marked, flags: Flags)
    requires Printable(m) && flags.icase
    ensures Lang(Unmarked(Recased(m, flags))) == AnyCase(Lang(Unmarked(m)))
    decreases m
  {
    hide AnyCase, LiteralAtom, Concat, Powers;
    match m.node
    case Lit(c, _) => LiteralAnyCase(c, flags);
      assert Unmarked(Recased(m, flags)) == Unmarked(Fresh(LiteralAtom(c, flags)));
    case Nothing => EmptyAnyCase();
    case Cat(l, r) =>
      PatternAnyCase(l, flags);
      PatternAnyCase(r, flags);
      ConcatAnyCase(Lang(Unmarked(l)), Lang(Unmarked(r)));
    case Alt(l, r) =>
      PatternAnyCase(l, flags);
      PatternAnyCase(r, flags);
      UnionAnyCase(Lang(Unmarked(l)), Lang(Unmarked(r)));
    case Iter(a, min, max) =>
      PatternAnyCase(a, flags);
      PowersAnyCase(Lang(Unmarked(a)), min, max);
  }

  /** The run of the parser on the text of a tree, with REG_ICASE. */
  lemma ParsedAnyCase(m: Marked, result: Marked, flags: Flags)
    requires Printable(m) && m.id == 0 && Numbered(m, 0) && flags.icase
    ensures var pat := PatternText(m); var u := Run(pat, Started(false, 0, result, 0, flags));
      && u.status == Ok && u.re == |pat| && u.depth == 0
      && forall w: Word :: w in Lang(Unmarked(u.result)) <==> InAnyCase(Lang(Unmarked(m)), w)
  {
    hide Run, Lang, PatternText, Unmarked, Recased;
    RoundTrip(m, false, result, 0, flags);
    PatternAnyCase(m, flags);
    var u := Run(PatternText(m), Started(false, 0, result, 0, flags));
    forall w: Word ensures w in Lang(Unmarked(u.result)) <==> InAnyCase(Lang(Unmarked(m)), w) {
    }
  }
}
