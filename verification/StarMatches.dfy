/** A regular expression that matches the empty word: what the search finds for `x*`, and what becomes of it.

    On "xy\nx" the empty match behind the first "x" keeps the print loop from the match on line 2, and on "ab\n" the
    empty match before the newline is the last one, to which the scan of invert_matches comes back for ever. */
module StarMatches {
  import opened Text
  import opened Lines
  import opened TreAst
  import opened TreMatch
  import opened LiteralSearch
  import opened RegexSearch
  import opened MatchLines
  import InvertMatches

  const X: nat := 'x' as nat

  /** The tree of `x*`. */
  function Star(): Ast { Iteration(Literal(X, X), 0, -1) }

  lemma {:induction false} AllX(w: Word, n: nat)
    ensures w in Power(Lang(Literal(X, X)), n) <==> |w| == n && forall i | 0 <= i < |w| :: w[i] == X
    decreases n
  {
    if n > 0 {
      var a := Lang(Literal(X, X));
      if w in Power(a, n) {
        var i :| IsSplit(a, Power(a, n - 1), w, i);
        AllX(w[i..], n - 1);
        assert w == w[..i] + w[i..];
      }
      if |w| == n && forall i | 0 <= i < |w| :: w[i] == X {
        AllX(w[1..], n - 1);
        assert IsSplit(a, Power(a, n - 1), w, 1);
      }
    }
  }

  lemma StarWords(w: Word)
    ensures w in Lang(Star()) <==> forall i | 0 <= i < |w| :: w[i] == X
  {
    if w in Lang(Star()) {
      var n: nat :| InBounds(n, 0, -1) && w in Power(Lang(Literal(X, X)), n);
      AllX(w, n);
    }
    if forall i | 0 <= i < |w| :: w[i] == X {
      AllX(w, |w|);
      assert InBounds(|w|, 0, -1);
    }
  }

  lemma StarOccurs(buf: Word, i: int, j: int)
    ensures Occurs(Star(), buf, i, j) <==> 0 <= i <= j <= |buf| && forall k | i <= k < j :: buf[k] == X
  {
    hide Lang;
    if 0 <= i <= j <= |buf| {
      StarWords(buf[i..j]);
      assert forall k | i <= k < j :: buf[k] == buf[i..j][k - i];
    }
  }

  /** The leftmost-longest occurrence starts at once and reaches up to the next byte that is no "x". */
  lemma StarFirst(buf: Word, from: nat, end: nat)
    requires from <= end <= |buf| && (forall k | from <= k < end :: buf[k] == X) && (end < |buf| ==> buf[end] != X)
    ensures FirstFrom(Star(), buf, from, Match(from, end))
  {
    hide Occurs;
    StarOccurs(buf, from, end);
    forall i, j | from <= i && Occurs(Star(), buf, i, j) ensures from < i || j <= end {
      StarOccurs(buf, i, j);
    }
  }

  // ----- a line that is not printed -----

  /** The bytes of "xy\nx". */
  const TWO_LINES: Bytes := [120, 121, 10, 120]

  const FOUND := [Match(0, 1), Match(1, 1), Match(2, 2), Match(3, 4)]

  lemma StarFound()
    ensures GreedySpans(Star(), TWO_LINES, FOUND) && Exhausted(Star(), TWO_LINES, FOUND)
  {
    hide FirstFrom;
    StarFirst(TWO_LINES, 0, 1);
    StarFirst(TWO_LINES, 1, 1);
    StarFirst(TWO_LINES, 2, 2);
    StarFirst(TWO_LINES, 3, 4);
    forall k | 0 <= k < |FOUND| ensures IsNextSpan(Star(), TWO_LINES, FOUND, k) {
      assert k == 0 || k == 1 || k == 2 || k == 3;
      NextFrom(Star(), TWO_LINES, FOUND, k);
    }
  }

  lemma TwoLines()
    ensures LineNo(TWO_LINES, 0) == LineNo(TWO_LINES, 1) == LineNo(TWO_LINES, 2) == 0
    ensures LineNo(TWO_LINES, 3) == LineNo(TWO_LINES, 4) == 1 && |AllLines(TWO_LINES)| == 2
  {
    var v := Ended(TWO_LINES);
    assert LineOf(v, 0) == 0;
    assert LineOf(v, 1) == LineOf(v, 0) && LineOf(v, 2) == LineOf(v, 1) && LineOf(v, 3) == LineOf(v, 2) + 1;
    assert LineOf(v, 4) == LineOf(v, 3) && LineOf(v, 5) == LineOf(v, 4) + 1;
  }

  lemma OnlyFirstNoticed()
    ensures Noticed(FOUND, 0) && forall k | 0 < k < |FOUND| :: !Noticed(FOUND, k)
  {
    assert Blocks(FOUND, 1);
  }

  lemma FoundInOrder()
    ensures Ordered(FOUND, |TWO_LINES|)
  {
    hide *;
    StarFound();
    GreedyAreSpans(Star(), TWO_LINES, FOUND);
    SpansPrint(Star(), TWO_LINES, FOUND);
  }

  lemma CoveredLines(k: nat, l: nat)
    requires k < |FOUND|
    ensures Ordered(FOUND, |TWO_LINES|) && (MatchLines.Covers(TWO_LINES, FOUND[k], l) <==> l == if k == 3 then 1 else 0)
  {
    hide LineNo;
    TwoLines();
  }

  /** Both lines hold a match, and only line 1 is seen. */
  lemma LineTwoMissed()
    ensures Ordered(FOUND, |TWO_LINES|) && Seen(TWO_LINES, FOUND) == {0} && Hits(TWO_LINES, FOUND) == {0, 1}
  {
    hide LineNo, AllLines, Noticed, Ordered, MatchLines.Covers;
    FoundInOrder();
    OnlyFirstNoticed();
    TwoLines();
    forall l: nat ensures (Spotted(TWO_LINES, FOUND, l) <==> l == 0) && (MatchLines.Hit(TWO_LINES, FOUND, l) <==> l <= 1) {
      CoveredLines(0, l);
      CoveredLines(1, l);
      CoveredLines(2, l);
      CoveredLines(3, l);
    }
  }

  // ----- a scan that does not end -----

  /** The bytes of "ab\n". */
  const ONE_LINE: Bytes := [97, 98, 10]

  const EMPTIES := [Match(0, 0), Match(1, 1), Match(2, 2)]

  lemma StarEmpties()
    ensures GreedySpans(Star(), ONE_LINE, EMPTIES) && Exhausted(Star(), ONE_LINE, EMPTIES)
  {
    hide FirstFrom;
    StarFirst(ONE_LINE, 0, 0);
    StarFirst(ONE_LINE, 1, 1);
    StarFirst(ONE_LINE, 2, 2);
    forall k | 0 <= k < |EMPTIES| ensures IsNextSpan(Star(), ONE_LINE, EMPTIES, k) {
      assert k == 0 || k == 1 || k == 2;
      NextFrom(Star(), ONE_LINE, EMPTIES, k);
    }
  }

  /** However many turns the scan takes, it does not reach the end of the buffer. */
  lemma NeverInverted(a: seq<Match>, k: nat)
    requires |a| > |EMPTIES| && a[..|EMPTIES|] == EMPTIES
    ensures InvertMatches.Turns(ONE_LINE, |EMPTIES|, InvertMatches.First(a), k).i < |ONE_LINE|
  {
    StarEmpties();
    GreedyAreSpans(Star(), ONE_LINE, EMPTIES);
    SpansInvert(Star(), ONE_LINE, EMPTIES);
    InvertMatches.EndsExactly(ONE_LINE, EMPTIES, a);
  }
}
