/** What print_file_matches (print.c) owes its reader in the default output mode: each line that lies
    within `before` lines above or `after` lines below a line with a match. */
module PrintedLines {
  import opened Text
  import opened Lines

  const INT_MAX: nat := 0x7FFF_FFFF

  datatype Options = Options(before: nat, after: nat, context: nat)

  datatype Event = Gap | Shown(number: int, sep: char, text: Bytes)

  predicate Blanks(o: Options) { o.context > 0 || o.after > 0 || o.before > 0 }

  /** A line kept in the ring is a C string: it ends at its first zero byte. */
  function CString(text: Bytes): (r: Bytes)
    ensures r <= text && 0 !in r && (|r| < |text| ==> text[|r|] == 0)
  {
    if text == [] || text[0] == 0 then [] else [text[0]] + CString(text[1..])
  }

  /** Line x is close enough to a line with a match. */
  predicate Wanted(o: Options, hits: set<nat>, x: int) {
    exists m | m in hits :: m - o.before <= x <= m + o.after
  }

  predicate Trailing(o: Options, hits: set<nat>, x: int) {
    exists m | m in hits :: m < x <= m + o.after
  }

  function Line(o: Options, ls: seq<Bytes>, hits: set<nat>, x: nat): Event
    requires x < |ls|
  {
    if x in hits then Shown(x + 1, ':', ls[x])
    else if Trailing(o, hits, x) then Shown(x + 1, '-', ls[x])
    else Shown(x + 1, '-', CString(ls[x]))
  }

  /** A mark before line x when lines have been left out since the last printed one. */
  function Mark(o: Options, hits: set<nat>, x: nat, prior: seq<Event>): seq<Event> {
    if Blanks(o) && prior != [] && !Wanted(o, hits, x - 1) then [Gap] else []
  }

  /** The wanted ones of the first n lines: in order, each once. */
  function Report(o: Options, ls: seq<Bytes>, hits: set<nat>, n: nat): seq<Event>
    requires n <= |ls|
  {
    if n == 0 then [] else
      var prior := Report(o, ls, hits, n - 1);
      if Wanted(o, hits, n - 1) then prior + Mark(o, hits, n - 1, prior) + [Line(o, ls, hits, n - 1)] else prior
  }

  /** Lines a..b-1 as the ring holds them. */
  function Leading(ls: seq<Bytes>, a: nat, b: nat): seq<Event>
    requires a <= b <= |ls|
  {
    if a == b then [] else Leading(ls, a, b - 1) + [Shown(b, '-', CString(ls[b - 1]))]
  }

  // ----- what is known in the middle of line l -----

  /** Once a match has started on line l, the lines before it and the mark are out. */
  function Out(o: Options, ls: seq<Bytes>, hits: set<nat>, l: nat): seq<Event>
    requires l <= |ls|
  {
    var prior := Report(o, ls, hits, l);
    if l in hits then prior + Mark(o, hits, l, prior) else prior
  }

  predicate AtMost(hits: set<nat>, l: nat) { forall m | m in hits :: m <= l }

  predicate IsLast(hits: set<nat>, m: nat) { m in hits && AtMost(hits, m) }

  /** lines_since_last_match at line l. */
  predicate Since(hits: set<nat>, l: nat, s: nat) {
    if hits == {} then s == INT_MAX else
      exists m | m in hits :: IsLast(hits, m) && m <= l && s == if l - m < INT_MAX then l - m else INT_MAX
  }

  lemma {:induction false} NothingYet(o: Options, ls: seq<Bytes>, n: nat)
    requires n <= |ls|
    ensures Report(o, ls, {}, n) == []
  {
    if n > 0 {
      NothingYet(o, ls, n - 1);
    }
  }

  lemma {:induction false} SomethingOut(o: Options, ls: seq<Bytes>, hits: set<nat>, m: nat, n: nat)
    requires m in hits && m < n <= |ls|
    ensures Report(o, ls, hits, n) != []
  {
    if m < n - 1 {
      SomethingOut(o, ls, hits, m, n - 1);
    }
    assert Wanted(o, hits, m);
  }

  /** Lines that are not wanted add nothing. */
  lemma {:induction false} Quiet(o: Options, ls: seq<Bytes>, hits: set<nat>, a: nat, b: nat)
    requires a <= b <= |ls| && forall x | a <= x < b :: !Wanted(o, hits, x)
    ensures Report(o, ls, hits, b) == Report(o, ls, hits, a)
  {
    if a < b {
      Quiet(o, ls, hits, a, b - 1);
    }
  }

  /** A line is finished: on a line with a match the line itself is printed, and within `after` lines
      behind one it is printed as context. */
  lemma FinishLine(o: Options, ls: seq<Bytes>, hits: set<nat>, l: nat, s: nat)
    requires l < |ls| && Since(hits, l, s) && o.after < INT_MAX
    requires AtMost(hits, l)
    ensures Out(o, ls, hits, l + 1) == Out(o, ls, hits, l)
      + if s == 0 then [Shown(l + 1, ':', ls[l])] else if s <= o.after then [Shown(l + 1, '-', ls[l])] else []
    ensures Since(hits, l + 1, if s < INT_MAX then s + 1 else s)
  {
    if hits != {} {
      var m :| m in hits && IsLast(hits, m) && s == if l - m < INT_MAX then l - m else INT_MAX;
      assert IsLast(hits, m);
      if m < l && l <= m + o.after {
        assert Wanted(o, hits, l) && Trailing(o, hits, l);
        assert Wanted(o, hits, l - 1);
      }
    }
  }

  /** What is wanted before line l does not change below the reach of the new match. */
  lemma {:induction false} SamePrefix(o: Options, ls: seq<Bytes>, hits: set<nat>, l: nat, n: nat)
    requires n <= l <= |ls| && forall x | 0 <= x < n :: Wanted(o, hits + {l}, x) ==> Wanted(o, hits, x)
    ensures Report(o, ls, hits + {l}, n) == Report(o, ls, hits, n)
  {
    if n > 0 {
      SamePrefix(o, ls, hits, l, n - 1);
      forall x | 0 <= x < n ensures Wanted(o, hits + {l}, x) <==> Wanted(o, hits, x) {
        if Wanted(o, hits, x) {
          var m :| m in hits && m - o.before <= x <= m + o.after;
          assert m in hits + {l};
        }
      }
      assert Trailing(o, hits + {l}, n - 1) <==> Trailing(o, hits, n - 1) by {
        if Trailing(o, hits, n - 1) {
          var m :| m in hits && m < n - 1 <= m + o.after;
          assert m in hits + {l};
        }
      }
    }
  }

  /** The first line that is printed above a match on line l: the ring reaches `before` lines back, and
      lines up to `after` behind the last match are out already. */
  function FirstLeading(o: Options, hits: set<nat>, l: nat, s: nat): (lo: nat)
    ensures lo <= l
  {
    var n := s - (o.after + 1);
    var n := if n < 0 then 0 else if n > o.before then o.before else n;
    if n < l then l - n else 0
  }

  /** Which lines become wanted by the first match on line l. */
  lemma NewlyWanted(o: Options, hits: set<nat>, l: nat, s: nat, x: int)
    requires Since(hits, l, s) && l !in hits && o.before + o.after + 1 < INT_MAX && 0 <= x < l
    requires AtMost(hits, l)
    ensures Wanted(o, hits + {l}, x) <==> Wanted(o, hits, x) || FirstLeading(o, hits, l, s) <= x
    ensures Wanted(o, hits, x) ==> x < FirstLeading(o, hits, l, s)
    ensures FirstLeading(o, hits, l, s) <= x ==> !Trailing(o, hits + {l}, x) && x !in hits + {l}
  {
    var all := hits + {l};
    assert l in all;
    if Wanted(o, hits, x) {
      var m :| m in hits && m - o.before <= x <= m + o.after;
      assert m in all;
    }
    if Wanted(o, all, x) && !Wanted(o, hits, x) {
      var m :| m in all && m - o.before <= x <= m + o.after;
      assert m == l;
      if hits != {} {
        var k :| k in hits && IsLast(hits, k) && s == if l - k < INT_MAX then l - k else INT_MAX;
        assert !(k - o.before <= x <= k + o.after);
      }
    }
  }

  /** The mark before the lines above a new match. */
  function NewMark(o: Options, hits: set<nat>, s: nat): seq<Event> {
    if hits != {} && Blanks(o) && s > o.before + o.after + 1 then [Gap] else []
  }

  lemma MarkBefore(o: Options, ls: seq<Bytes>, hits: set<nat>, l: nat, s: nat)
    requires l < |ls| && Since(hits, l, s) && l !in hits && o.before + o.after + 1 < INT_MAX
    requires AtMost(hits, l)
    ensures Mark(o, hits + {l}, FirstLeading(o, hits, l, s), Report(o, ls, hits, l)) == NewMark(o, hits, s)
  {
    if hits == {} {
      NothingYet(o, ls, l);
    } else {
      var m :| m in hits && IsLast(hits, m) && s == if l - m < INT_MAX then l - m else INT_MAX;
      SomethingOut(o, ls, hits, m, l);
      assert m in hits + {l} && l in hits + {l};
      var x := FirstLeading(o, hits, l, s) - 1;
      if s > o.before + o.after + 1 {
        assert x == l - o.before - 1;
        if Wanted(o, hits + {l}, x) {
          NewlyWanted(o, hits, l, s, x);
          assert false;
        }
      } else {
        assert m - o.before <= x <= m + o.after;
        assert Wanted(o, hits + {l}, x);
      }
    }
  }

  lemma BelowTheRing(o: Options, ls: seq<Bytes>, hits: set<nat>, l: nat, s: nat)
    requires l < |ls| && Since(hits, l, s) && l !in hits && o.before + o.after + 1 < INT_MAX
    requires AtMost(hits, l)
    ensures Report(o, ls, hits + {l}, FirstLeading(o, hits, l, s)) == Report(o, ls, hits, l)
  {
    hide Since, Wanted, FirstLeading, Report;
    var lo := FirstLeading(o, hits, l, s);
    forall y | 0 <= y < l ensures Wanted(o, hits + {l}, y) <==> Wanted(o, hits, y) || lo <= y {
      NewlyWanted(o, hits, l, s, y);
    }
    forall y | lo <= y < l ensures !Wanted(o, hits, y) {
      NewlyWanted(o, hits, l, s, y);
    }
    Quiet(o, ls, hits, lo, l);
    SamePrefix(o, ls, hits, l, lo);
  }

  lemma OneLeading(o: Options, ls: seq<Bytes>, hits: set<nat>, l: nat, s: nat, x: nat)
    requires l < |ls| && Since(hits, l, s) && l !in hits && o.before + o.after + 1 < INT_MAX
    requires AtMost(hits, l) && FirstLeading(o, hits, l, s) <= x < l
    ensures Report(o, ls, hits + {l}, x + 1) == Report(o, ls, hits + {l}, x)
      + (if x == FirstLeading(o, hits, l, s) then Mark(o, hits + {l}, x, Report(o, ls, hits + {l}, x)) else [])
      + [Shown(x + 1, '-', CString(ls[x]))]
  {
    hide Since, Wanted, FirstLeading, Trailing, CString;
    NewlyWanted(o, hits, l, s, x);
    if x > FirstLeading(o, hits, l, s) {
      NewlyWanted(o, hits, l, s, x - 1);
    }
  }

  /** The lines above a new match, one by one. */
  lemma {:induction false} LeadingLines(o: Options, ls: seq<Bytes>, hits: set<nat>, l: nat, s: nat, x: nat)
    requires l < |ls| && Since(hits, l, s) && l !in hits && o.before + o.after + 1 < INT_MAX
    requires AtMost(hits, l) && FirstLeading(o, hits, l, s) <= x <= l
    ensures Report(o, ls, hits + {l}, x) == Report(o, ls, hits, l)
      + (if FirstLeading(o, hits, l, s) < x then NewMark(o, hits, s) else [])
      + Leading(ls, FirstLeading(o, hits, l, s), x)
    decreases x
  {
    hide Since, Wanted, FirstLeading, Report, Mark, NewMark, CString;
    var lo := FirstLeading(o, hits, l, s);
    BelowTheRing(o, ls, hits, l, s);
    if x > lo {
      LeadingLines(o, ls, hits, l, s, x - 1);
      OneLeading(o, ls, hits, l, s, x - 1);
      MarkBefore(o, ls, hits, l, s);
    }
  }

  /** The first match on a line: the mark and the lines above it. */
  lemma StartLine(o: Options, ls: seq<Bytes>, hits: set<nat>, l: nat, s: nat)
    requires l < |ls| && Since(hits, l, s) && l !in hits && o.before + o.after + 1 < INT_MAX
    requires AtMost(hits, l)
    ensures Out(o, ls, hits + {l}, l) == Out(o, ls, hits, l) + NewMark(o, hits, s) + Leading(ls, FirstLeading(o, hits, l, s), l)
    ensures Since(hits + {l}, l, 0)
  {
    LeadingLines(o, ls, hits, l, s, l);
    assert l in hits + {l} && IsLast(hits + {l}, l);
    if FirstLeading(o, hits, l, s) == l {
      MarkBefore(o, ls, hits, l, s);
    } else {
      NewlyWanted(o, hits, l, s, l - 1);
    }
  }

  /** Printing may stop once all matches are behind and the last one is out of reach. */
  lemma StopEarly(o: Options, ls: seq<Bytes>, hits: set<nat>, l: nat, s: nat)
    requires l <= |ls| && Since(hits, l, s) && s > o.after && AtMost(hits, l)
    ensures Out(o, ls, hits, l) == Report(o, ls, hits, |ls|)
  {
    Quiet(o, ls, hits, l, |ls|);
  }

  // ----- what the output tells -----

  /** Line x is printed as a line with a match. */
  predicate IsHitLine(e: Event, x: nat) { e.Shown? && e.number == x + 1 && e.sep == ':' }

  predicate ShownAsHit(out: seq<Event>, x: nat) { exists e | e in out :: IsHitLine(e, x) }

  lemma {:induction false} ShowsHits(o: Options, ls: seq<Bytes>, hits: set<nat>, n: nat, x: nat)
    requires n <= |ls|
    ensures ShownAsHit(Report(o, ls, hits, n), x) <==> x in hits && x < n
  {
    hide Trailing, CString, Mark, IsHitLine;
    if n > 0 {
      ShowsHits(o, ls, hits, n - 1, x);
      HitIsWanted(o, hits, n - 1);
      var prior := Report(o, ls, hits, n - 1);
      if Wanted(o, hits, n - 1) {
        var mark, line := Mark(o, hits, n - 1, prior), Line(o, ls, hits, n - 1);
        MarksOnly(o, hits, n - 1, prior);
        OneLineMore(prior, mark, line, x);
        HitLine(o, ls, hits, n - 1, x);
      }
    }
  }

  lemma OneLineMore(prior: seq<Event>, mark: seq<Event>, line: Event, x: nat)
    requires forall e | e in mark :: e == Gap
    ensures ShownAsHit(prior + mark + [line], x) <==> ShownAsHit(prior, x) || IsHitLine(line, x)
  {
    if ShownAsHit(prior, x) {
      var e :| e in prior && IsHitLine(e, x);
      assert e in prior + mark + [line];
    }
    assert line in prior + mark + [line];
  }

  lemma HitLine(o: Options, ls: seq<Bytes>, hits: set<nat>, l: nat, x: nat)
    requires l < |ls|
    ensures IsHitLine(Line(o, ls, hits, l), x) <==> x == l && l in hits
  {
  }

  lemma HitIsWanted(o: Options, hits: set<nat>, l: nat)
    ensures l in hits ==> Wanted(o, hits, l)
  {
  }

  lemma MarksOnly(o: Options, hits: set<nat>, x: nat, prior: seq<Event>)
    ensures forall e | e in Mark(o, hits, x, prior) :: e == Gap
  {
  }

  /** Different sets of lines with a match give different output. */
  lemma ReportTells(o: Options, ls: seq<Bytes>, a: set<nat>, b: set<nat>, n: nat)
    requires n <= |ls| && (forall x | x in a || x in b :: x < n)
    ensures Report(o, ls, a, n) == Report(o, ls, b, n) <==> a == b
  {
    hide Report;
    if Report(o, ls, a, n) == Report(o, ls, b, n) {
      forall x: nat ensures x in a <==> x in b {
        ShowsHits(o, ls, a, n, x);
        ShowsHits(o, ls, b, n, x);
      }
    }
  }

  // ----- the output itself -----

  /** A printed line is one that is wanted, under its number; a line with a match has ':', the others '-'; a line above
      a match comes from the ring, cut at its first zero byte. */
  predicate LineRight(o: Options, ls: seq<Bytes>, hits: set<nat>, e: Event) {
    && e.Shown? && 1 <= e.number <= |ls|
    && (exists m | m in hits :: m - o.before <= e.number - 1 <= m + o.after)
    && e.sep == (if e.number - 1 in hits then ':' else '-')
    && e.text == if exists m | m in hits :: m <= e.number - 1 <= m + o.after then ls[e.number - 1] else CString(ls[e.number - 1])
  }

  /** A mark stands between two lines, of which the second does not follow the first. */
  predicate GapRight(o: Options, out: seq<Event>, k: nat) {
    && 0 < k < |out| - 1 && out[k - 1].Shown? && out[k + 1].Shown? && out[k - 1].number + 1 < out[k + 1].number
    && (o.before > 0 || o.after > 0 || o.context > 0)
  }

  /** Two lines without a mark between them follow each other, when marks are asked for. */
  predicate NextRight(o: Options, out: seq<Event>, k: nat)
    requires k + 1 < |out|
  {
    out[k].Shown? && out[k + 1].Shown? ==>
      out[k].number < out[k + 1].number && (o.before > 0 || o.after > 0 || o.context > 0 ==> out[k + 1].number == out[k].number + 1)
  }

  predicate EventRight(o: Options, ls: seq<Bytes>, hits: set<nat>, n: nat, out: seq<Event>, k: nat)
    requires k < |out|
  {
    if out[k].Gap? then GapRight(o, out, k) else LineRight(o, ls, hits, out[k]) && out[k].number <= n
  }

  predicate Prints(out: seq<Event>, x: nat) { exists k :: 0 <= k < |out| && out[k].Shown? && out[k].number == x + 1 }

  /** What a reader sees of the first n lines. */
  predicate Printed(o: Options, ls: seq<Bytes>, hits: set<nat>, n: nat, out: seq<Event>) {
    && (forall k: nat | k < |out| :: EventRight(o, ls, hits, n, out, k))
    && (forall k: nat | k < |out| - 1 :: NextRight(o, out, k))
    && (forall x: nat, m: nat | x < n && m in hits && m - o.before <= x <= m + o.after :: Prints(out, x))
  }

  lemma {:induction false} ReportIsPrinted(o: Options, ls: seq<Bytes>, hits: set<nat>, n: nat)
    requires n <= |ls|
    ensures Printed(o, ls, hits, n, Report(o, ls, hits, n))
  {
    if n > 0 {
      hide Wanted, Line, Mark, LineRight, GapRight, NextRight;
      ReportIsPrinted(o, ls, hits, n - 1);
      var prior := Report(o, ls, hits, n - 1);
      if Wanted(o, hits, n - 1) {
        OneLinePrinted(o, ls, hits, n, prior);
      } else {
        NoLinePrinted(o, ls, hits, n, prior);
      }
    }
  }

  lemma NoLinePrinted(o: Options, ls: seq<Bytes>, hits: set<nat>, n: nat, prior: seq<Event>)
    requires 0 < n <= |ls| && !Wanted(o, hits, n - 1) && Printed(o, ls, hits, n - 1, prior)
    ensures Printed(o, ls, hits, n, prior)
  {
    hide LineRight, GapRight, NextRight;
    forall k: nat | k < |prior| ensures EventRight(o, ls, hits, n, prior, k) {
      assert EventRight(o, ls, hits, n - 1, prior, k);
    }
    forall x: nat, m: nat | x < n && m in hits && m - o.before <= x <= m + o.after ensures Prints(prior, x) {
      assert x != n - 1;
    }
  }

  lemma LineIsRight(o: Options, ls: seq<Bytes>, hits: set<nat>, x: nat)
    requires x < |ls| && Wanted(o, hits, x)
    ensures LineRight(o, ls, hits, Line(o, ls, hits, x)) && Line(o, ls, hits, x).number == x + 1
  {
    if x in hits {
      assert x <= x <= x + o.after;
    }
  }

  /** The numbers go up. */
  lemma {:induction false} NumbersUp(o: Options, ls: seq<Bytes>, hits: set<nat>, n: nat, out: seq<Event>, j: nat, k: nat)
    requires Printed(o, ls, hits, n, out) && j < k < |out| && out[j].Shown? && out[k].Shown?
    ensures out[j].number < out[k].number
    decreases k
  {
    hide LineRight;
    var h := k - 1;
    assert NextRight(o, out, h) && EventRight(o, ls, hits, n, out, h);
    if out[h].Gap? {
      if j < k - 2 {
        NumbersUp(o, ls, hits, n, out, j, k - 2);
      }
    } else if j < h {
      NumbersUp(o, ls, hits, n, out, j, h);
    }
  }

  lemma WantedIsPrinted(o: Options, ls: seq<Bytes>, hits: set<nat>, n: nat, out: seq<Event>, x: nat)
    requires Printed(o, ls, hits, n, out) && x < n && Wanted(o, hits, x)
    ensures Prints(out, x)
  {
    var m :| m in hits && m - o.before <= x <= m + o.after;
  }

  /** The last line printed so far. */
  lemma LastPrinted(o: Options, ls: seq<Bytes>, hits: set<nat>, n: nat, prior: seq<Event>)
    requires Printed(o, ls, hits, n, prior) && prior != []
    ensures prior[|prior| - 1].Shown? && 1 <= prior[|prior| - 1].number <= n
    ensures prior[|prior| - 1].number == n <==> n > 0 && Wanted(o, hits, n - 1)
  {
    hide LineRight, Wanted;
    var h: nat := |prior| - 1;
    assert EventRight(o, ls, hits, n, prior, h);
    LineMeans(o, ls, hits, prior[h]);
    if n > 0 && Wanted(o, hits, n - 1) {
      var x: nat := n - 1;
      WantedIsPrinted(o, ls, hits, n, prior, x);
      var k :| 0 <= k < |prior| && prior[k].Shown? && prior[k].number == x + 1;
      if k < h {
        NumbersUp(o, ls, hits, n, prior, k, h);
      }
    }
  }

  lemma OneLinePrinted(o: Options, ls: seq<Bytes>, hits: set<nat>, n: nat, prior: seq<Event>)
    requires 0 < n <= |ls| && Wanted(o, hits, n - 1) && Printed(o, ls, hits, n - 1, prior)
    ensures Printed(o, ls, hits, n, prior + Mark(o, hits, n - 1, prior) + [Line(o, ls, hits, n - 1)])
  {
    hide Line, LineRight;
    var mark, line := Mark(o, hits, n - 1, prior), Line(o, ls, hits, n - 1);
    LineIsRight(o, ls, hits, n - 1);
    if prior != [] {
      LastPrinted(o, ls, hits, n - 1, prior);
    }
    BehindPrior(o, ls, hits, n, prior, mark, line);
  }

  lemma SamePlace(o: Options, ls: seq<Bytes>, hits: set<nat>, n: nat, prior: seq<Event>, more: seq<Event>, k: nat)
    requires n > 0 && k < |prior| && EventRight(o, ls, hits, n - 1, prior, k)
    ensures EventRight(o, ls, hits, n, prior + more, k)
  {
    hide LineRight;
    var out := prior + more;
    assert out[k] == prior[k] && (k > 0 ==> out[k - 1] == prior[k - 1]) && (k < |prior| - 1 ==> out[k + 1] == prior[k + 1]);
  }

  lemma LineMeans(o: Options, ls: seq<Bytes>, hits: set<nat>, e: Event)
    requires LineRight(o, ls, hits, e)
    ensures e.Shown? && 1 <= e.number && Wanted(o, hits, e.number - 1)
  {
  }

  lemma BehindPrior(o: Options, ls: seq<Bytes>, hits: set<nat>, n: nat, prior: seq<Event>, mark: seq<Event>, line: Event)
    requires 0 < n <= |ls| && Printed(o, ls, hits, n - 1, prior) && LineRight(o, ls, hits, line) && line.number == n
    requires prior != [] ==> prior[|prior| - 1].Shown? && prior[|prior| - 1].number <= n - 1
    requires var blanks := o.before > 0 || o.after > 0 || o.context > 0;
      mark == if blanks && prior != [] && prior[|prior| - 1].number < n - 1 then [Gap] else []
    ensures Printed(o, ls, hits, n, prior + mark + [line])
  {
    hide LineRight, Wanted;
    LineMeans(o, ls, hits, line);
    var out := prior + mark + [line];
    forall k: nat | k < |out| ensures EventRight(o, ls, hits, n, out, k) {
      if k < |prior| {
        assert EventRight(o, ls, hits, n - 1, prior, k);
        SamePlace(o, ls, hits, n, prior, mark + [line], k);
        assert prior + (mark + [line]) == out;
      } else if k == |out| - 1 {
        assert out[k] == line;
      } else {
        assert |mark| == 1 && k == |prior| && prior != [];
        assert out[k] == Gap && out[k - 1] == prior[|prior| - 1] && out[k + 1] == line;
        assert GapRight(o, out, k);
      }
    }
    forall k: nat | k < |out| - 1 ensures NextRight(o, out, k) {
      assert k < |prior| ==> out[k] == prior[k];
      if k < |prior| - 1 {
        assert NextRight(o, prior, k);
      }
    }
    forall x: nat, m: nat | x < n && m in hits && m - o.before <= x <= m + o.after ensures Prints(out, x) {
      if x < n - 1 {
        assert m in hits && Prints(prior, x);
        var k :| 0 <= k < |prior| && prior[k].Shown? && prior[k].number == x + 1;
        assert out[k] == prior[k];
      } else {
        assert out[|out| - 1] == line;
      }
    }
  }
}
