/** print_file_matches (print.c) in the default output mode: which lines are printed, with which numbers.
    One pass over the bytes; the last `before` lines are kept in a ring. */
module PrintContext {
  import opened Text
  import opened Lines
  import opened PrintedLines
  import opened LiteralSearch
  import opened MatchLines

  datatype PrevLine = Null | Text(text: Bytes)

  // ----- what is known at byte i -----

  /** The part of match m before byte i reaches down to here. */
  function Reach(m: Match, i: nat): nat { if m.end < i then m.end else i }

  predicate TouchedBy(buf: Bytes, m: Match, i: nat, l: nat)
    requires m.end <= |buf| && m.start <= |buf| && i <= |buf| + 1
  {
    LineNo(buf, m.start) <= l <= LineNo(buf, Reach(m, i))
  }

  predicate Touched(buf: Bytes, ms: seq<Match>, j: nat, i: nat, l: nat)
    requires Ordered(ms, |buf|) && i <= |buf| + 1
  {
    exists k :: 0 <= k < |ms| && Noticed(ms, k) && ms[k].start < j && TouchedBy(buf, ms[k], i, l)
  }

  /** The lines above byte i of the noticed matches that start before j. */
  function Started(buf: Bytes, ms: seq<Match>, j: nat, i: nat): set<nat>
    requires Ordered(ms, |buf|) && i <= |buf| + 1
  {
    set l: nat | l <= LineNo(buf, i) && Touched(buf, ms, j, i, l)
  }

  lemma StartedAtMost(buf: Bytes, ms: seq<Match>, j: nat, i: nat)
    requires Ordered(ms, |buf|) && i <= |buf| + 1
    ensures AtMost(Started(buf, ms, j, i), LineNo(buf, i))
  {
  }

  /** A match that is noticed starts here. */
  predicate StartsHere(ms: seq<Match>, i: nat) { exists k :: 0 <= k < |ms| && Noticed(ms, k) && ms[k].start == i }

  /** A match that is noticed runs on behind byte i. */
  predicate RunsOver(ms: seq<Match>, i: nat) { exists k :: 0 <= k < |ms| && Noticed(ms, k) && ms[k].start <= i < ms[k].end }

  /** A match that starts here adds this line, and no other match does. */
  lemma OneMore(buf: Bytes, ms: seq<Match>, i: nat)
    requires Ordered(ms, |buf|) && i <= |buf|
    ensures Started(buf, ms, i + 1, i) == Started(buf, ms, i, i) + if StartsHere(ms, i) then {LineNo(buf, i)} else {}
  {
    hide LineNo, Noticed;
    var hits := Started(buf, ms, i, i) + if StartsHere(ms, i) then {LineNo(buf, i)} else {};
    forall l: nat ensures l in Started(buf, ms, i + 1, i) <==> l in hits {
      if k :| 0 <= k < |ms| && Noticed(ms, k) && ms[k].start == i {
        assert TouchedBy(buf, ms[k], i, LineNo(buf, i));
      }
      if Touched(buf, ms, i + 1, i, l) {
        var k :| 0 <= k < |ms| && Noticed(ms, k) && ms[k].start < i + 1 && TouchedBy(buf, ms[k], i, l);
        assert ms[k].start == i || Touched(buf, ms, i, i, l);
      }
      if Touched(buf, ms, i, i, l) {
        var k :| 0 <= k < |ms| && Noticed(ms, k) && ms[k].start < i && TouchedBy(buf, ms[k], i, l);
        assert Touched(buf, ms, i + 1, i, l);
      }
    }
  }

  /** The matches before the current one end before i, and the others do not, unless the current one blocks. The scan
      is in the current match when that has started and its start has been seen. */
  predicate Reading(buf: Bytes, ms: seq<Match>, i: nat, cur: nat, inAMatch: bool)
    requires Ordered(ms, |buf|)
  {
    && cur <= |ms|
    && (forall j | 0 < j < cur :: !Blocks(ms, j))
    && (forall k | 0 <= k < cur :: ms[k].end < i)
    && (Blocks(ms, cur) ==> ms[cur].end < i)
    && (forall k | cur <= k < |ms| && !Blocks(ms, cur) :: i <= ms[k].end)
    && (inAMatch ==> cur < |ms| && ms[cur].start < i)
    && (cur < |ms| && ms[cur].start < i ==> (inAMatch <==> Noticed(ms, cur)))
  }

  // ----- one turn of the loop -----

  /** At byte i, when the matches that start before j have been seen. */
  predicate Printing(o: Options, buf: Bytes, ms: seq<Match>, i: nat, j: nat, s: nat, out: seq<Event>)
    requires Ordered(ms, |buf|)
  {
    && i <= |buf| + 1 && LineNo(buf, i) <= |AllLines(buf)|
    && Since(Started(buf, ms, j, i), LineNo(buf, i), s)
    && out == Out(o, AllLines(buf), Started(buf, ms, j, i), LineNo(buf, i))
  }

  lemma Begin(o: Options, buf: Bytes, ms: seq<Match>)
    requires Ordered(ms, |buf|)
    ensures Printing(o, buf, ms, 0, 0, INT_MAX, []) && Reading(buf, ms, 0, 0, false)
    ensures LineNo(buf, 0) == LineFrom(buf, 0) == 0
  {
    assert Started(buf, ms, 0, 0) == {};
    LinesGrow(Ended(buf), 0, |buf| + 1);
  }

  lemma InLine(buf: Bytes, i: nat)
    requires i <= |buf|
    ensures LineNo(buf, i) < |AllLines(buf)|
    ensures if i == |buf| || buf[i] == NEWLINE
      then LineNo(buf, i + 1) == LineNo(buf, i) + 1 && LineFrom(buf, i + 1) == i + 1
        && LineFrom(buf, i) <= i && AllLines(buf)[LineNo(buf, i)] == buf[LineFrom(buf, i)..i]
      else LineNo(buf, i + 1) == LineNo(buf, i) && LineFrom(buf, i + 1) == LineFrom(buf, i)
  {
    hide LinesBefore;
    var v := Ended(buf);
    LinesGrow(v, i, |buf|);
    assert v[|buf|] == NEWLINE && (i < |buf| ==> v[i] == buf[i]);
    if v[i] == NEWLINE {
      LineText(v, i, |buf| + 1);
      assert v[LineFrom(buf, i)..i] == buf[LineFrom(buf, i)..i];
    }
  }

  /** The match noticed at i is the current one. */
  lemma StartIsCurrent(buf: Bytes, ms: seq<Match>, i: nat, cur: nat, inAMatch: bool)
    requires Ordered(ms, |buf|) && i <= |buf| && Reading(buf, ms, i, cur, inAMatch)
    ensures StartsHere(ms, i) <==> cur < |ms| && ms[cur].start == i
    ensures cur < |ms| && ms[cur].start == i ==> Noticed(ms, cur)
  {
    hide LineNo;
    if k :| 0 <= k < |ms| && Noticed(ms, k) && ms[k].start == i {
      assert k == cur;
    }
    if cur < |ms| && ms[cur].start == i {
      assert Noticed(ms, cur);
    }
  }

  lemma NoStart(o: Options, buf: Bytes, ms: seq<Match>, i: nat, cur: nat, inAMatch: bool, s: nat, out: seq<Event>)
    requires Ordered(ms, |buf|) && i <= |buf| && Reading(buf, ms, i, cur, inAMatch) && Printing(o, buf, ms, i, i, s, out)
    requires cur < |ms| ==> ms[cur].start != i
    ensures Printing(o, buf, ms, i, i + 1, s, out)
  {
    hide LineNo, Since, Out, Reading, AllLines, Noticed, Ordered, Started, StartsHere;
    StartIsCurrent(buf, ms, i, cur, inAMatch);
    OneMore(buf, ms, i);
    assert Started(buf, ms, i + 1, i) == Started(buf, ms, i, i);
  }

  lemma Start(o: Options, buf: Bytes, ms: seq<Match>, i: nat, cur: nat, inAMatch: bool, s: nat, out: seq<Event>)
    requires Ordered(ms, |buf|) && i <= |buf| && Reading(buf, ms, i, cur, inAMatch) && Printing(o, buf, ms, i, i, s, out)
    requires cur < |ms| && ms[cur].start == i
    ensures Started(buf, ms, i + 1, i) == Started(buf, ms, i, i) + {LineNo(buf, i)}
    ensures Started(buf, ms, i, i) != {} <==> cur > 0
    ensures LineNo(buf, i) <= |AllLines(buf)| && Since(Started(buf, ms, i, i), LineNo(buf, i), s)
    ensures out == Out(o, AllLines(buf), Started(buf, ms, i, i), LineNo(buf, i))
    ensures AtMost(Started(buf, ms, i, i), LineNo(buf, i))
  {
    hide LineNo, Since, Out, AllLines;
    StartIsCurrent(buf, ms, i, cur, inAMatch);
    OneMore(buf, ms, i);
    StartedAtMost(buf, ms, i, i);
    if cur > 0 {
      LinesUp(buf, ms[0].start, ms[0].end);
      LinesUp(buf, ms[0].end, i);
      assert Noticed(ms, 0) && TouchedBy(buf, ms[0], i, LineNo(buf, ms[0].start));
      assert LineNo(buf, ms[0].start) in Started(buf, ms, i, i);
    } else {
      assert forall k | 0 <= k < |ms| :: ms[k].start >= i;
    }
  }

  lemma StartedLine(o: Options, buf: Bytes, ms: seq<Match>, i: nat, out: seq<Event>)
    requires Ordered(ms, |buf|) && i <= |buf| && LineNo(buf, i) <= |AllLines(buf)|
    requires Started(buf, ms, i + 1, i) == Started(buf, ms, i, i) + {LineNo(buf, i)}
    requires Since(Started(buf, ms, i, i) + {LineNo(buf, i)}, LineNo(buf, i), 0)
    requires out == Out(o, AllLines(buf), Started(buf, ms, i, i) + {LineNo(buf, i)}, LineNo(buf, i))
    ensures Printing(o, buf, ms, i, i + 1, 0, out)
  {
  }

  lemma StillTouched(buf: Bytes, ms: seq<Match>, i: nat, l: nat)
    requires Ordered(ms, |buf|) && i <= |buf| && Touched(buf, ms, i + 1, i, l)
    ensures Touched(buf, ms, i + 1, i + 1, l)
  {
    hide LineNo, Noticed;
    var k :| 0 <= k < |ms| && Noticed(ms, k) && ms[k].start < i + 1 && TouchedBy(buf, ms[k], i, l);
    LinesUp(buf, Reach(ms[k], i), Reach(ms[k], i + 1));
    assert TouchedBy(buf, ms[k], i + 1, l);
  }

  lemma NewlyTouched(buf: Bytes, ms: seq<Match>, i: nat, l: nat)
    requires Ordered(ms, |buf|) && i <= |buf| && LineNo(buf, i + 1) <= LineNo(buf, i) + 1 && Touched(buf, ms, i + 1, i + 1, l)
    ensures (l <= LineNo(buf, i) && Touched(buf, ms, i + 1, i, l)) || (RunsOver(ms, i) && l == LineNo(buf, i + 1))
  {
    hide LineNo, Noticed;
    var k :| 0 <= k < |ms| && Noticed(ms, k) && ms[k].start < i + 1 && TouchedBy(buf, ms[k], i + 1, l);
    if ms[k].end <= i {
      LinesUp(buf, ms[k].end, i);
      assert TouchedBy(buf, ms[k], i, l);
    } else if l <= LineNo(buf, i) {
      assert TouchedBy(buf, ms[k], i, l);
    }
  }

  lemma OpenTouches(buf: Bytes, ms: seq<Match>, i: nat)
    requires Ordered(ms, |buf|) && i <= |buf| && RunsOver(ms, i)
    ensures Touched(buf, ms, i + 1, i + 1, LineNo(buf, i + 1))
  {
    hide LineNo, Noticed;
    var k :| 0 <= k < |ms| && Noticed(ms, k) && ms[k].start <= i < ms[k].end;
    LinesUp(buf, ms[k].start, i + 1);
    assert TouchedBy(buf, ms[k], i + 1, LineNo(buf, i + 1));
  }

  /** The lines of the matches behind byte i: one more when a match runs on over the end of the line. */
  lemma OneByteOn(buf: Bytes, ms: seq<Match>, i: nat)
    requires Ordered(ms, |buf|) && i <= |buf| && LineNo(buf, i + 1) <= LineNo(buf, i) + 1
    ensures Started(buf, ms, i + 1, i + 1)
         == Started(buf, ms, i + 1, i) + if RunsOver(ms, i) then {LineNo(buf, i + 1)} else {}
  {
    hide LineNo, Touched, RunsOver, Ordered;
    LinesUp(buf, i, i + 1);
    if RunsOver(ms, i) {
      OpenTouches(buf, ms, i);
    }
    var hits := Started(buf, ms, i + 1, i) + if RunsOver(ms, i) then {LineNo(buf, i + 1)} else {};
    forall l: nat ensures l in Started(buf, ms, i + 1, i + 1) <==> l in hits {
      if Touched(buf, ms, i + 1, i, l) {
        StillTouched(buf, ms, i, l);
      }
      if Touched(buf, ms, i + 1, i + 1, l) {
        NewlyTouched(buf, ms, i, l);
      }
    }
  }

  /** Byte i has been looked at for starts and ends: a noticed match runs on behind it exactly if the scan is in one. */
  lemma RunsOn(buf: Bytes, ms: seq<Match>, i: nat, cur: nat, inAMatch: bool)
    requires Ordered(ms, |buf|) && i <= |buf| && Reading(buf, ms, i + 1, cur, inAMatch)
    ensures RunsOver(ms, i) <==> inAMatch
    ensures inAMatch ==> i < |buf|
  {
    hide LineNo;
    if inAMatch {
      assert Noticed(ms, cur) && ms[cur].start <= i < ms[cur].end;
    }
    if k :| 0 <= k < |ms| && Noticed(ms, k) && ms[k].start <= i < ms[k].end {
      assert k == cur;
    }
  }

  lemma SameLine(o: Options, buf: Bytes, ms: seq<Match>, i: nat, s: nat, out: seq<Event>)
    requires Ordered(ms, |buf|) && i < |buf| && buf[i] != NEWLINE && Printing(o, buf, ms, i, i + 1, s, out)
    ensures Printing(o, buf, ms, i + 1, i + 1, s, out)
  {
    hide LineNo, Since, Out, AllLines, LineFrom, Noticed, Started, RunsOver;
    InLine(buf, i);
    OneByteOn(buf, ms, i);
    if RunsOver(ms, i) {
      OpenIsHit(buf, ms, i);
    }
    assert Started(buf, ms, i + 1, i + 1) == Started(buf, ms, i + 1, i);
  }

  /** The next value of lines_since_last_match at the end of a line. */
  function NextSince(s: nat, inAMatch: bool): nat { if !inAMatch && s < INT_MAX then s + 1 else s }

  /** What the end of a line prints. */
  function LineEvents(o: Options, ls: seq<Bytes>, l: nat, s: nat): seq<Event>
    requires l < |ls|
  {
    if s == 0 then [Shown(l + 1, ':', ls[l])] else if s <= o.after then [Shown(l + 1, '-', ls[l])] else []
  }

  lemma NewLine(o: Options, buf: Bytes, ms: seq<Match>, i: nat, cur: nat, inAMatch: bool, s: nat, out: seq<Event>)
    requires Ordered(ms, |buf|) && i <= |buf| && (i == |buf| || buf[i] == NEWLINE) && Printing(o, buf, ms, i, i + 1, s, out)
    requires Reading(buf, ms, i + 1, cur, inAMatch) && o.before + o.after + 1 < INT_MAX
    ensures LineNo(buf, i) < |AllLines(buf)|
    ensures Printing(o, buf, ms, i + 1, i + 1, NextSince(s, inAMatch), out + LineEvents(o, AllLines(buf), LineNo(buf, i), s))
  {
    hide Since, Out, Report, LineNo, LineFrom, AllLines, Started, Reading, Ordered, RunsOver;
    var l, hits := LineNo(buf, i), Started(buf, ms, i + 1, i);
    InLine(buf, i);
    StartedAtMost(buf, ms, i + 1, i);
    FinishLine(o, AllLines(buf), hits, l, s);
    OneByteOn(buf, ms, i);
    RunsOn(buf, ms, i, cur, inAMatch);
    if inAMatch {
      InLine(buf, i + 1);
      OpenIsHit(buf, ms, i);
      HitSince(hits, l, s);
      NextLine(o, AllLines(buf), hits, l);
    } else {
      assert Started(buf, ms, i + 1, i + 1) == hits;
    }
  }

  /** The line of an open match is one with a match. */
  lemma OpenIsHit(buf: Bytes, ms: seq<Match>, i: nat)
    requires Ordered(ms, |buf|) && i <= |buf| && RunsOver(ms, i)
    ensures LineNo(buf, i) in Started(buf, ms, i + 1, i)
  {
    var k :| 0 <= k < |ms| && Noticed(ms, k) && ms[k].start <= i < ms[k].end;
    LinesUp(buf, ms[k].start, i);
    assert TouchedBy(buf, ms[k], i, LineNo(buf, i));
  }

  lemma HitSince(hits: set<nat>, l: nat, s: nat)
    requires l in hits && Since(hits, l, s) && AtMost(hits, l)
    ensures s == 0
  {
  }

  /** The line behind a line with a match is one as well: nothing is printed between them. */
  lemma NextLine(o: Options, ls: seq<Bytes>, hits: set<nat>, l: nat)
    requires l + 1 < |ls| && l in hits && AtMost(hits, l) && Since(hits, l + 1, 1) && o.before + o.after + 1 < INT_MAX
    ensures Out(o, ls, hits + {l + 1}, l + 1) == Out(o, ls, hits, l + 1) && Since(hits + {l + 1}, l + 1, 0)
  {
    hide Since, Report, Wanted, Mark, CString;
    StartLine(o, ls, hits, l + 1, 1);
  }

  lemma Finish(o: Options, buf: Bytes, ms: seq<Match>, i: nat, cur: nat, inAMatch: bool, s: nat, out: seq<Event>)
    requires Ordered(ms, |buf|) && Reading(buf, ms, i, cur, inAMatch) && Printing(o, buf, ms, i, i, s, out)
    requires i == |buf| + 1 || (cur == |ms| && s > o.after)
    ensures out == Report(o, AllLines(buf), Seen(buf, ms), |AllLines(buf)|)
  {
    hide Report, Started, Seen, Since;
    AllStarted(buf, ms, i, cur, inAMatch);
    StartedAtMost(buf, ms, i, i);
    if i <= |buf| {
      StopEarly(o, AllLines(buf), Started(buf, ms, i, i), LineNo(buf, i), s);
    } else {
      NoneBelow(buf, ms);
      assert LineNo(buf, i) == |AllLines(buf)|;
    }
  }

  /** The output tells which lines are taken for lines with a match. */
  lemma SeenTellsAll(o: Options, buf: Bytes, ms: seq<Match>)
    requires Ordered(ms, |buf|)
    ensures Report(o, AllLines(buf), Seen(buf, ms), |AllLines(buf)|) == Report(o, AllLines(buf), Hits(buf, ms), |AllLines(buf)|)
       <==> Seen(buf, ms) == Hits(buf, ms)
  {
    hide Report, AllLines;
    ReportTells(o, AllLines(buf), Seen(buf, ms), Hits(buf, ms), |AllLines(buf)|);
  }

  lemma NoneBelow(buf: Bytes, ms: seq<Match>)
    requires Ordered(ms, |buf|)
    ensures |AllLines(buf)| !in Seen(buf, ms)
  {
  }

  /** The match behind the current one, unless it blocks, and all later ones end later. */
  lemma BehindEnd(buf: Bytes, ms: seq<Match>, cur: nat, k: nat)
    requires Ordered(ms, |buf|) && cur < k < |ms| && !Blocks(ms, cur + 1)
    ensures ms[cur].end < ms[k].end
  {
    var next := cur + 1;
    assert ms[next - 1].end < ms[next].end;
    if next < k {
      assert ms[next].end <= ms[k].start;
    }
  }

  lemma ReadOn(buf: Bytes, ms: seq<Match>, i: nat, cur: nat, inAMatch: bool, cur': nat, inAMatch': bool)
    requires Ordered(ms, |buf|) && i <= |buf| && Reading(buf, ms, i, cur, inAMatch)
    requires if cur < |ms| && i == ms[cur].end then cur' == cur + 1 && !inAMatch' else
      cur' == cur && inAMatch' == (inAMatch || (cur < |ms| && i == ms[cur].start))
    ensures Reading(buf, ms, i + 1, cur', inAMatch')
  {
    hide LineNo, Noticed;
    StartIsCurrent(buf, ms, i, cur, inAMatch);
    if cur < |ms| && i == ms[cur].end {
      assert !Blocks(ms, cur);
      if cur' < |ms| && ms[cur'].start <= i {
        Adjoining(ms, cur);
      }
      forall k | cur' <= k < |ms| && !Blocks(ms, cur') ensures i < ms[k].end {
        BehindEnd(buf, ms, cur, k);
      }
    }
  }

  /** A match that begins where the one before ends is not noticed. */
  lemma Adjoining(ms: seq<Match>, k: nat)
    requires k + 1 < |ms| && ms[k].end >= ms[k + 1].start
    ensures !Noticed(ms, k + 1)
  {
  }

  /** All matches that are noticed have ended. */
  lemma AllStarted(buf: Bytes, ms: seq<Match>, i: nat, cur: nat, inAMatch: bool)
    requires Ordered(ms, |buf|) && i <= |buf| + 1 && Reading(buf, ms, i, cur, inAMatch)
    requires i == |buf| + 1 || cur == |ms|
    ensures Started(buf, ms, i, i) == Seen(buf, ms)
  {
    hide LineNo;
    assert forall k | 0 <= k < |ms| && Noticed(ms, k) :: ms[k].end < i;
    forall l: nat ensures l in Started(buf, ms, i, i) <==> l in Seen(buf, ms) {
      if k :| 0 <= k < |ms| && Noticed(ms, k) && Covers(buf, ms[k], l) {
        LinesUp(buf, ms[k].end, i);
        InLine(buf, ms[k].end);
        assert TouchedBy(buf, ms[k], i, l);
      }
      if Touched(buf, ms, i, i, l) {
        var k :| 0 <= k < |ms| && Noticed(ms, k) && ms[k].start < i && TouchedBy(buf, ms[k], i, l);
        InLine(buf, ms[k].end);
        assert Covers(buf, ms[k], l);
      }
    }
  }

  // ----- the ring -----

  /** The ring holds the last `before` of the first l lines, line y in slot y % before. */
  predicate RingHolds(ring: seq<PrevLine>, o: Options, ls: seq<Bytes>, l: nat) {
    && |ring| == o.before + 1 && l <= |ls|
    && (forall y | 0 <= y < l && l <= y + o.before :: ring[y % o.before] == Text(CString(ls[y])))
    && (forall s | l <= s < o.before :: ring[s] == Null)
  }

  lemma SlotsDiffer(y: nat, l: nat, n: nat)
    requires y < l < y + n
    ensures y % n != l % n
  {
    var d := l - y;
    if y % n == l % n {
      assert l - y == n * (l / n - y / n);
      assert l / n - y / n <= 0 || l / n - y / n >= 1;
      if l / n - y / n <= 0 {
        MulAtMost(n, l / n - y / n, 0);
      } else {
        MulAtMost(n, 1, l / n - y / n);
      }
      assert false;
    }
  }

  lemma MulAtMost(n: nat, a: int, b: int)
    requires a <= b
    ensures n * a <= n * b
  {
  }

  lemma SlotOf(y: nat, j: int, n: nat)
    requires n > 0 && y + j >= 0
    ensures (y % n + j) % n == (y + j) % n
  {
    assert y == n * (y / n) + y % n;
    var a := y % n + j;
    assert y + j == n * (y / n) + a;
    assert y + j == n * (y / n + a / n) + a % n;
    Unique(y + j, n, y / n + a / n, a % n);
  }

  lemma Unique(x: int, n: nat, d: int, r: int)
    requires n > 0 && x == n * d + r && 0 <= r < n
    ensures x % n == r
  {
    var e := x / n;
    assert x == n * e + x % n;
    if d < e {
      MulAtMost(n, d + 1, e);
    } else if e < d {
      MulAtMost(n, e + 1, d);
    }
  }

  lemma AppendRing(ring: seq<PrevLine>, o: Options, ls: seq<Bytes>, l: nat)
    requires o.before > 0 && l < |ls| && RingHolds(ring, o, ls, l)
    ensures RingHolds(ring[l % o.before := Text(CString(ls[l]))], o, ls, l + 1)
    ensures (l % o.before + 1) % o.before == (l + 1) % o.before
  {
    SlotOf(l, 1, o.before);
    forall y | 0 <= y < l && l + 1 <= y + o.before ensures y % o.before != l % o.before {
      SlotsDiffer(y, l, o.before);
    }
    if l < o.before {
      Unique(l, o.before, 0, l);
    }
  }

  lemma NoRing(ring: seq<PrevLine>, o: Options, ls: seq<Bytes>, l: nat)
    requires RingHolds(ring, o, ls, l) && l < |ls|
    ensures o.before == 0 ==> RingHolds(ring, o, ls, l + 1)
  {
  }

  lemma SlotRead(l: nat, j: nat, n: nat)
    requires j < n
    ensures (l % n + j) % n == if l + j < n then l + j else (l + j - n) % n
  {
    SlotOf(l, j, n);
    if l + j < n {
      Unique(l + j, n, 0, l + j);
    } else {
      var x := l + j - n;
      assert x == n * (x / n) + x % n;
      assert l + j == n * (x / n + 1) + x % n;
      Unique(l + j, n, x / n + 1, x % n);
    }
  }

  /** What print_file_matches finds when it goes back from line l. */
  lemma ReadRing(ring: seq<PrevLine>, o: Options, ls: seq<Bytes>, l: nat, j: nat)
    requires j < o.before && RingHolds(ring, o, ls, l)
    ensures (l % o.before + j) % o.before < |ring|
    ensures ring[(l % o.before + j) % o.before]
         == if l + j < o.before then Null else Text(CString(ls[l + j - o.before]))
  {
    SlotRead(l, j, o.before);
    if l + j >= o.before {
      assert ring[(l + j - o.before) % o.before] == Text(CString(ls[l + j - o.before]));
    }
  }

  // ----- print_context_t -----

  class Context {
    const o: Options
    const contextPrevLines: array<PrevLine>
    var line: nat
    var prevLine: nat
    var lastPrevLine: nat
    var prevLineOffset: nat
    var linesSinceLastMatch: nat
    var inAMatch: bool
    var out: seq<Event>                       // what has been written to out_fd

    /** Before line l. */
    ghost predicate At(ls: seq<Bytes>, l: nat)
      reads this, contextPrevLines
    {
      && line == l + 1 && lastPrevLine == (if o.before == 0 then 0 else l % o.before)
      && RingHolds(contextPrevLines[..], o, ls, l)
    }

    /** print_init_context. */
    constructor (o: Options, ghost ls: seq<Bytes>)
      ensures this.o == o && fresh(contextPrevLines) && At(ls, 0)
      ensures prevLineOffset == 0 && linesSinceLastMatch == INT_MAX && !inAMatch && out == []
    {
      this.o := o;
      contextPrevLines := new PrevLine[o.before + 1](_ => Null);
      line, prevLine, lastPrevLine, prevLineOffset := 1, 0, 0, 0;
      linesSinceLastMatch, inAMatch, out := INT_MAX, false, [];
    }

    /** print_context_append. */
    method Append(text: Bytes, ghost ls: seq<Bytes>, ghost l: nat)
      requires l < |ls| && text == ls[l] && At(ls, l)
      modifies this`lastPrevLine, contextPrevLines
      ensures o.before > 0 ==> RingHolds(contextPrevLines[..], o, ls, l + 1)
      ensures lastPrevLine == if o.before == 0 then 0 else (l + 1) % o.before
    {
      if o.before == 0 {
        return;
      }
      AppendRing(contextPrevLines[..], o, ls, l);
      contextPrevLines[lastPrevLine] := Text(CString(text));
      lastPrevLine := (lastPrevLine + 1) % o.before;
    }

    /** The lines above a match, from the ring. */
    method ShowLeading(linesToPrint: nat, ghost ls: seq<Bytes>, ghost l: nat)
      requires linesToPrint <= o.before && l < |ls| && At(ls, l)
      modifies this`prevLine, this`out
      ensures out == old(out) + Leading(ls, if linesToPrint < l then l - linesToPrint else 0, l)
    {
      hide RingHolds, CString, Report;
      ghost var lo := if linesToPrint < l then l - linesToPrint else 0;
      for j := o.before - linesToPrint to o.before
        invariant out == old(out) + Leading(ls, lo, if l + j < o.before + lo then lo else l + j - o.before)
      {
        ReadRing(contextPrevLines[..], o, ls, l, j);
        prevLine := (lastPrevLine + j) % o.before;
        if contextPrevLines[prevLine] != Null {
          out := out + [Shown(line - (o.before - j), '-', contextPrevLines[prevLine].text)];
        }
      }
    }

    /** print_trailing_context. */
    method ShowTrailing(text: Bytes)
      requires linesSinceLastMatch <= INT_MAX
      modifies this`out, this`line, this`linesSinceLastMatch
      ensures out == if old(linesSinceLastMatch) != 0 && old(linesSinceLastMatch) <= o.after
        then old(out) + [Shown(old(line), '-', text)] else old(out)
      ensures line == old(line) + 1
      ensures linesSinceLastMatch == old(linesSinceLastMatch) + if !inAMatch && old(linesSinceLastMatch) < INT_MAX then 1 else 0
    {
      if linesSinceLastMatch != 0 && linesSinceLastMatch <= o.after {
        out := out + [Shown(line, '-', text)];
      }
      line := line + 1;
      if !inAMatch && linesSinceLastMatch < INT_MAX {
        linesSinceLastMatch := linesSinceLastMatch + 1;
      }
    }

    /** The start of match `curMatch`. */
    method StartMatch(curMatch: nat, ghost ls: seq<Bytes>, ghost hits: set<nat>, ghost l: nat)
      requires l < |ls| && At(ls, l) && Since(hits, l, linesSinceLastMatch) && out == Out(o, ls, hits, l)
      requires AtMost(hits, l) && o.before + o.after + 1 < INT_MAX && (hits != {} <==> curMatch > 0)
      modifies this`inAMatch, this`prevLine, this`out, this`linesSinceLastMatch
      ensures inAMatch && linesSinceLastMatch == 0
      ensures out == Out(o, ls, hits + {l}, l) && Since(hits + {l}, l, 0)
    {
      hide RingHolds, Report, Wanted, Mark;
      ghost var s := linesSinceLastMatch;
      inAMatch := true;
      if curMatch > 0 && Blanks(o) && linesSinceLastMatch > o.before + o.after + 1 {
        out := out + [Gap];
      }
      if linesSinceLastMatch > 0 && o.before > 0 {
        var linesToPrint := linesSinceLastMatch - (o.after + 1);
        if linesToPrint < 0 {
          linesToPrint := 0;
        } else if linesToPrint > o.before {
          linesToPrint := o.before;
        }
        ShowLeading(linesToPrint, ls, l);
      }
      linesSinceLastMatch := 0;
      if l in hits {
        assert hits + {l} == hits;
      } else {
        StartLine(o, ls, hits, l, s);
      }
    }

    /** The end of a line. */
    method EndLine(o: Options, buf: Bytes, i: nat, ghost ls: seq<Bytes>, ghost l: nat)
      requires o == this.o && l < |ls| && At(ls, l) && prevLineOffset <= i <= |buf| && ls[l] == buf[prevLineOffset..i]
      requires linesSinceLastMatch <= INT_MAX
      modifies this`out, this`line, this`linesSinceLastMatch, this`prevLineOffset, this`lastPrevLine, contextPrevLines
      ensures At(ls, l + 1) && prevLineOffset == i + 1
      ensures out == old(out) + LineEvents(o, ls, l, old(linesSinceLastMatch))
      ensures linesSinceLastMatch == NextSince(old(linesSinceLastMatch), inAMatch)
    {
      hide RingHolds;
      NoRing(contextPrevLines[..], o, ls, l);
      if o.before > 0 {
        Append(buf[prevLineOffset..i], ls, l);
      }
      if linesSinceLastMatch == 0 {
        out := out + [Shown(line, ':', buf[prevLineOffset..i])];
      }
      ShowTrailing(buf[prevLineOffset..i]);
      prevLineOffset := i + 1;
    }

    /** print_file_matches. */
    method PrintFileMatches(buf: Bytes, matches: seq<Match>)
      requires At(AllLines(buf), 0) && Ordered(matches, |buf|) && o.before + o.after + 1 < INT_MAX
      requires prevLineOffset == 0 && linesSinceLastMatch == INT_MAX && !inAMatch && out == []
      modifies this, contextPrevLines
      ensures out == Report(o, AllLines(buf), Seen(buf, matches), |AllLines(buf)|)
      ensures out == Report(o, AllLines(buf), Hits(buf, matches), |AllLines(buf)|) <==> Seen(buf, matches) == Hits(buf, matches)
      ensures Printed(o, AllLines(buf), Seen(buf, matches), |AllLines(buf)|, out)
    {
      hide Printed, Report, Out, Started, Hits, Seen, Printing, Reading, LineNo, LineFrom, Since, AtMost, RingHolds, Ordered,
          AllLines, LineEvents, NextSince;
      var curMatch, i := 0, 0;
      ghost var ls := AllLines(buf);
      Begin(o, buf, matches);
      while i <= |buf| && (curMatch < |matches| || linesSinceLastMatch <= o.after)
        invariant i <= |buf| + 1 && At(ls, LineNo(buf, i)) && prevLineOffset == LineFrom(buf, i)
        invariant curMatch <= |matches| && linesSinceLastMatch <= INT_MAX
        invariant Reading(buf, matches, i, curMatch, inAMatch)
        invariant Printing(o, buf, matches, i, i, linesSinceLastMatch, out)
      {
        ghost var l, cur, inside := LineNo(buf, i), curMatch, inAMatch;
        InLine(buf, i);
        if curMatch < |matches| && i == matches[curMatch].start {
          Start(o, buf, matches, i, cur, inside, linesSinceLastMatch, out);
          StartMatch(curMatch, ls, Started(buf, matches, i, i), l);
          StartedLine(o, buf, matches, i, out);
        } else {
          NoStart(o, buf, matches, i, cur, inside, linesSinceLastMatch, out);
        }
        if curMatch < |matches| && i == matches[curMatch].end {
          curMatch := curMatch + 1;
          inAMatch := false;
        }
        ReadOn(buf, matches, i, cur, inside, curMatch, inAMatch);
        if i == |buf| || buf[i] == NEWLINE {
          NewLine(o, buf, matches, i, curMatch, inAMatch, linesSinceLastMatch, out);
          SinceBounds(linesSinceLastMatch, inAMatch);
          EndLine(o, buf, i, ls, l);
        } else {
          SameLine(o, buf, matches, i, linesSinceLastMatch, out);
        }
        i := i + 1;
      }
      Finish(o, buf, matches, i, curMatch, inAMatch, linesSinceLastMatch, out);
      SeenTellsAll(o, buf, matches);
      ReportIsPrinted(o, ls, Seen(buf, matches), |ls|);
    }
  }

  lemma SinceBounds(s: nat, inAMatch: bool)
    requires s <= INT_MAX
    ensures NextSince(s, inAMatch) <= INT_MAX
  {
  }
}
