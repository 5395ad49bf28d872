/** invert_matches (util.c): replaces, in place, the list of matches by the stretches of the buffer that
    `ag -v` reports. A reported stretch is written with its last byte, not with the byte behind it. */
module InvertMatches {
  import opened Text
  import opened Lines
  import opened LiteralSearch

  const SIZE_MAX: nat := 0xFFFF_FFFF_FFFF_FFFF

  /** The last match is empty and not at the very end: the scan comes back to it for ever. */
  predicate EmptyLast(ms: seq<Match>, n: nat) {
    |ms| > 0 && ms[|ms| - 1].start == ms[|ms| - 1].end < n
  }

  predicate InOrder(ms: seq<Match>, n: nat) { Ordered(ms, n) && !EmptyLast(ms, n) }

  predicate SameLine(buf: Bytes, p: nat, q: nat)
    requires p < |buf| && q <= |buf|
  {
    LineStart(buf, p) == LineStart(buf, q)
  }

  /** Some byte of the match is on p's line. */
  predicate Touches(buf: Bytes, m: Match, p: nat)
    requires p < |buf|
  {
    exists q | m.start <= q < m.end && q < |buf| :: SameLine(buf, p, q)
  }

  predicate Touched(buf: Bytes, ms: seq<Match>, p: nat)
    requires p < |buf|
  {
    exists k | 0 <= k < |ms| :: Touches(buf, ms[k], p)
  }

  /** Some byte of the match, or the byte behind it, is on p's line. */
  predicate Strikes(buf: Bytes, m: Match, p: nat)
    requires p < |buf| && m.start <= m.end <= |buf|
  {
    m.start < |buf| && LineStart(buf, m.start) <= LineStart(buf, p) <= LineStart(buf, m.end)
  }

  predicate Struck(buf: Bytes, ms: seq<Match>, p: nat)
    requires p < |buf| && InOrder(ms, |buf|)
  {
    exists k | 0 <= k < |ms| :: Strikes(buf, ms[k], p)
  }

  predicate InRuns(out: seq<Match>, p: nat) {
    exists k | 0 <= k < |out| :: out[k].start <= p <= out[k].end
  }

  /** The stretches are not empty, in order, and at least one byte apart. */
  predicate Separated(out: seq<Match>) {
    && (forall k | 0 <= k < |out| :: out[k].start <= out[k].end)
    && (forall j, k | 0 <= j < k < |out| :: out[j].end + 1 < out[k].start)
  }

  /** The stretches before `lim` hold exactly the bytes before `lim` that are on no struck line. */
  predicate Covers(buf: Bytes, ms: seq<Match>, out: seq<Match>, lim: nat)
    requires lim <= |buf| && InOrder(ms, |buf|)
  {
    && Separated(out)
    && (forall k | 0 <= k < |out| :: out[k].end < lim)
    && (forall p: nat | p < lim :: InRuns(out, p) <==> !Struck(buf, ms, p))
  }

  /** The maximal stretches of lines that no match strikes. */
  predicate IsInversion(buf: Bytes, ms: seq<Match>, out: seq<Match>)
    requires InOrder(ms, |buf|)
  {
    Covers(buf, ms, out, |buf|)
  }

  // ----- what an inversion is -----

  lemma StrikesMeans(buf: Bytes, m: Match, p: nat)
    requires p < |buf| && m.start <= m.end <= |buf| && m.start < |buf|
    ensures Strikes(buf, m, p) <==> Touches(buf, m, p) || SameLine(buf, p, m.end)
  {
    hide LineStart;
    if Touches(buf, m, p) {
      var q :| m.start <= q < m.end && q < |buf| && SameLine(buf, p, q);
      StartsGrow(buf, m.start, q);
      StartsGrow(buf, q, m.end);
    }
    if SameLine(buf, p, m.end) {
      StartsGrow(buf, m.start, m.end);
    }
    if Strikes(buf, m, p) && !SameLine(buf, p, m.end) {
      var s := LineStart(buf, p);
      if p < m.start {
        StartsGrow(buf, p, m.start);
        assert SameLine(buf, p, m.start);
      } else if m.start < s {
        StartsGrow(buf, s, p);
        assert SameLine(buf, p, s);
        assert s < LineStart(buf, m.end) <= m.end;
      } else {
        StartsGrow(buf, s, m.start);
        StartsGrow(buf, s, p);
        assert SameLine(buf, p, m.start);
      }
    }
  }

  /** The byte behind a match lies on a line of the match, unless the match ends with its line. */
  lemma EndLine(buf: Bytes, m: Match)
    requires m.start < m.end <= |buf| && buf[m.end - 1] != NEWLINE
    ensures forall p: nat | p < |buf| :: Strikes(buf, m, p) <==> Touches(buf, m, p)
  {
    forall p: nat | p < |buf| ensures Strikes(buf, m, p) <==> Touches(buf, m, p) {
      StrikesMeans(buf, m, p);
      assert LineStart(buf, m.end) == LineStart(buf, m.end - 1);
      assert SameLine(buf, p, m.end) ==> SameLine(buf, p, m.end - 1);
    }
  }

  /** A match that is empty or ends with its line, and has a byte behind it. */
  predicate Overreaches(buf: Bytes, m: Match) {
    m.start <= m.end < |buf| && (m.start == m.end || buf[m.end - 1] == NEWLINE)
  }

  /** The stretches are the match-free lines exactly when no match strikes a line only by the byte
      behind it. */
  lemma StruckIsTouched(buf: Bytes, ms: seq<Match>)
    requires InOrder(ms, |buf|)
    ensures (forall p: nat | p < |buf| :: Struck(buf, ms, p) <==> Touched(buf, ms, p))
       <==> (forall k | 0 <= k < |ms| && Overreaches(buf, ms[k]) :: Touched(buf, ms, ms[k].end))
  {
    if forall p: nat | p < |buf| :: Struck(buf, ms, p) <==> Touched(buf, ms, p) {
      forall k | 0 <= k < |ms| && Overreaches(buf, ms[k]) ensures Touched(buf, ms, ms[k].end) {
        StrikesMeans(buf, ms[k], ms[k].end);
        assert SameLine(buf, ms[k].end, ms[k].end);
        assert Strikes(buf, ms[k], ms[k].end);
      }
    }
    if forall k | 0 <= k < |ms| && Overreaches(buf, ms[k]) :: Touched(buf, ms, ms[k].end) {
      forall p: nat | p < |buf| ensures Struck(buf, ms, p) <==> Touched(buf, ms, p) {
        AllAccounted(buf, ms, p);
      }
    }
  }

  lemma TouchedLine(buf: Bytes, ms: seq<Match>, p: nat, q: nat)
    requires p < |buf| && q < |buf| && SameLine(buf, p, q) && Touched(buf, ms, p)
    ensures Touched(buf, ms, q)
  {
    var j :| 0 <= j < |ms| && Touches(buf, ms[j], p);
    var x :| ms[j].start <= x < ms[j].end && x < |buf| && SameLine(buf, p, x);
    assert SameLine(buf, q, x);
    assert Touches(buf, ms[j], q);
  }

  lemma AllAccounted(buf: Bytes, ms: seq<Match>, p: nat)
    requires InOrder(ms, |buf|) && p < |buf|
    requires forall k | 0 <= k < |ms| && Overreaches(buf, ms[k]) :: Touched(buf, ms, ms[k].end)
    ensures Struck(buf, ms, p) <==> Touched(buf, ms, p)
  {
    hide IsInversion;
    if Touched(buf, ms, p) {
      var k :| 0 <= k < |ms| && Touches(buf, ms[k], p);
      StrikesMeans(buf, ms[k], p);
    }
    if Struck(buf, ms, p) {
      var k :| 0 <= k < |ms| && Strikes(buf, ms[k], p);
      StrikesMeans(buf, ms[k], p);
      if Overreaches(buf, ms[k]) {
        if SameLine(buf, p, ms[k].end) {
          TouchedLine(buf, ms, ms[k].end, p);
        }
      } else if ms[k].start < ms[k].end && buf[ms[k].end - 1] != NEWLINE {
        EndLine(buf, ms[k]);
      }
    }
  }

  /** There is only one inversion. */
  lemma {:induction false} InversionIsUnique(buf: Bytes, ms: seq<Match>, a: seq<Match>, b: seq<Match>, k: nat)
    requires InOrder(ms, |buf|) && IsInversion(buf, ms, a) && IsInversion(buf, ms, b)
    requires k <= |a| && k <= |b| && a[..k] == b[..k]
    ensures a == b
    decreases |a| - k
  {
    assert forall j | 0 <= j < k :: a[j] == a[..k][j] == b[..k][j] == b[j];
    if k == |a| || k == |b| {
      if k < |a| { SameBytes(buf, ms, a, b, a[k].start); }
      if k < |b| { SameBytes(buf, ms, b, a, b[k].start); }
    } else {
      RunStartsTogether(buf, ms, a, b, k);
      RunStartsTogether(buf, ms, b, a, k);
      RunEndsTogether(buf, ms, a, b, k);
      RunEndsTogether(buf, ms, b, a, k);
      assert a[..k + 1] == a[..k] + [a[k]] == b[..k] + [b[k]] == b[..k + 1];
      InversionIsUnique(buf, ms, a, b, k + 1);
    }
  }

  lemma SameBytes(buf: Bytes, ms: seq<Match>, a: seq<Match>, b: seq<Match>, p: nat)
    requires InOrder(ms, |buf|) && IsInversion(buf, ms, a) && IsInversion(buf, ms, b)
    requires InRuns(a, p)
    ensures InRuns(b, p)
  {
  }

  lemma RunStartsTogether(buf: Bytes, ms: seq<Match>, a: seq<Match>, b: seq<Match>, k: nat)
    requires InOrder(ms, |buf|) && IsInversion(buf, ms, a) && IsInversion(buf, ms, b)
    requires k < |a| && k < |b| && forall j | 0 <= j < k :: a[j] == b[j]
    ensures b[k].start <= a[k].start
  {
    SameBytes(buf, ms, a, b, a[k].start);
    var j :| 0 <= j < |b| && b[j].start <= a[k].start <= b[j].end;
    assert j >= k;
  }

  lemma RunEndsTogether(buf: Bytes, ms: seq<Match>, a: seq<Match>, b: seq<Match>, k: nat)
    requires InOrder(ms, |buf|) && IsInversion(buf, ms, a) && IsInversion(buf, ms, b)
    requires k < |a| && k < |b| && a[k].start == b[k].start
    ensures a[k].end <= b[k].end
  {
    if b[k].end < a[k].end {
      var p := b[k].end + 1;
      SameBytes(buf, ms, a, b, p);
      assert false;
    }
  }

  // ----- the scan -----

  /** Between two turns: the scan is at i, has read k matches and written `out`. */
  predicate Scan(buf: Bytes, ms: seq<Match>, out: seq<Match>, i: nat, k: nat, start: nat, lineEnd: nat, inside: bool)
    requires i <= |buf| && InOrder(ms, |buf|)
  {
    && |out| <= k <= |ms|
    && (forall j | 0 <= j < k :: ms[j].start < |buf| && ms[j].end <= i)
    && (forall j | k <= j < |ms| :: i <= ms[j].start)
    && (if inside then
          && lineEnd == LineStart(buf, i) && start <= lineEnd && LineStart(buf, start) == start
          && (forall j | 0 <= j < k :: LineStart(buf, ms[j].end) < start)
          && (forall j | 0 <= j < |out| :: out[j].end + 1 < start)
          && Covers(buf, ms, out, start)
        else
          && (exists j | 0 <= j < k :: LineStart(buf, ms[j].end) == LineStart(buf, i))
          && Covers(buf, ms, out, LineStart(buf, i)))
  }

  lemma LineIsFree(buf: Bytes, ms: seq<Match>, out: seq<Match>, i: nat, k: nat, start: nat, lineEnd: nat, p: nat)
    requires i <= |buf| && InOrder(ms, |buf|) && Scan(buf, ms, out, i, k, start, lineEnd, true)
    requires start <= p < lineEnd || (start <= p < |buf| == i + 1 && (k < |ms| ==> ms[k].start == |buf|))
    ensures !Struck(buf, ms, p)
  {
    StartsGrow(buf, start, p);
    forall j | 0 <= j < |ms| ensures !Strikes(buf, ms[j], p) {
      if k <= j {
        if p < lineEnd {
          StartsGrow(buf, i, ms[j].start);
        }
      }
    }
  }

  /** Closing a stretch that ends before `lim`. */
  lemma CloseRun(buf: Bytes, ms: seq<Match>, out: seq<Match>, start: nat, lim: nat)
    requires start < lim <= |buf| && InOrder(ms, |buf|)
    requires Covers(buf, ms, out, start) && forall j | 0 <= j < |out| :: out[j].end + 1 < start
    requires forall p: nat | start <= p < lim :: !Struck(buf, ms, p)
    ensures Covers(buf, ms, out + [Match(start, lim - 1)], lim)
  {
    var all := out + [Match(start, lim - 1)];
    forall p: nat | p < lim ensures InRuns(all, p) <==> !Struck(buf, ms, p) {
      if p < start {
        if InRuns(out, p) {
          var j :| 0 <= j < |out| && out[j].start <= p <= out[j].end;
          assert all[j] == out[j];
        }
        if InRuns(all, p) {
          var j :| 0 <= j < |all| && all[j].start <= p <= all[j].end;
          assert j < |out| && all[j] == out[j];
        }
      } else {
        assert all[|out|].start <= p <= all[|out|].end;
      }
    }
  }

  /** Struck lines add nothing. */
  lemma SkipLines(buf: Bytes, ms: seq<Match>, out: seq<Match>, lo: nat, hi: nat)
    requires lo <= hi <= |buf| && InOrder(ms, |buf|) && Covers(buf, ms, out, lo)
    requires forall p: nat | lo <= p < hi :: Struck(buf, ms, p)
    ensures Covers(buf, ms, out, hi)
  {
    forall p: nat | lo <= p < hi ensures !InRuns(out, p) {
    }
  }

  lemma CloseAtMatch(buf: Bytes, ms: seq<Match>, out: seq<Match>, i: nat, k: nat, start: nat, lineEnd: nat, inside: bool)
    requires i < |buf| && InOrder(ms, |buf|) && Scan(buf, ms, out, i, k, start, lineEnd, inside)
    ensures Covers(buf, ms, if inside && lineEnd > start then out + [Match(start, lineEnd - 1)] else out, LineStart(buf, i))
  {
    if inside && lineEnd > start {
      forall p: nat | start <= p < lineEnd ensures !Struck(buf, ms, p) {
        LineIsFree(buf, ms, out, i, k, start, lineEnd, p);
      }
      CloseRun(buf, ms, out, start, lineEnd);
    }
  }

  lemma StrikeLines(buf: Bytes, ms: seq<Match>, out: seq<Match>, i: nat, k: nat)
    requires i < |buf| && InOrder(ms, |buf|) && k < |ms| && ms[k].start == i && Covers(buf, ms, out, LineStart(buf, i))
    ensures Covers(buf, ms, out, LineStart(buf, ms[k].end))
  {
    var lo, hi := LineStart(buf, i), LineStart(buf, ms[k].end);
    StartsGrow(buf, i, ms[k].end);
    forall p: nat | lo <= p < hi ensures Struck(buf, ms, p) {
      StartsGrow(buf, lo, p);
      StartsGrow(buf, p, ms[k].end);
      assert Strikes(buf, ms[k], p);
    }
    SkipLines(buf, ms, out, lo, hi);
  }

  /** The scan meets match k. */
  lemma MeetMatch(buf: Bytes, ms: seq<Match>, out: seq<Match>, i: nat, k: nat, start: nat, lineEnd: nat, inside: bool)
      returns (next: seq<Match>)
    requires i < |buf| && InOrder(ms, |buf|) && Progress(buf, ms, out, i, k, start, lineEnd, inside)
    requires k < |ms| && ms[k].start == i
    ensures next == if inside && lineEnd > start then out + [Match(start, lineEnd - 1)] else out
    ensures Progress(buf, ms, next, ms[k].end, k + 1, start, lineEnd, false)
  {
    hide LineStart, Strikes;
    next := if inside && lineEnd > start then out + [Match(start, lineEnd - 1)] else out;
    CloseAtMatch(buf, ms, out, i, k, start, lineEnd, inside);
    StrikeLines(buf, ms, next, i, k);
    hide Covers, InOrder;
    assert LineStart(buf, ms[k].end) == LineStart(buf, ms[k].end);
    if ms[k].end == |buf| {
      StruckLine(buf, ms, next, ms[k].end, k + 1, start, lineEnd, |buf|);
    }
  }

  /** From the middle of a struck line to its end. */
  lemma StruckLine(buf: Bytes, ms: seq<Match>, out: seq<Match>, i: nat, k: nat, start: nat, lineEnd: nat, to: nat)
    requires i <= |buf| && InOrder(ms, |buf|) && Scan(buf, ms, out, i, k, start, lineEnd, false)
    requires i <= to <= |buf| && forall q | i <= q < to - 1 :: buf[q] != NEWLINE
    ensures Covers(buf, ms, out, to)
  {
    var j :| 0 <= j < k && LineStart(buf, ms[j].end) == LineStart(buf, i);
    var from := LineStart(buf, i);
    forall p: nat | from <= p < to ensures Struck(buf, ms, p) {
      assert forall q | from <= q < p :: buf[q] != NEWLINE;
      StartsGrow(buf, from, p);
      StartsGrow(buf, ms[j].start, ms[j].end);
      assert LineStart(buf, p) == from;
      assert Strikes(buf, ms[j], p);
    }
    SkipLines(buf, ms, out, from, to);
  }

  /** The scan passes a byte at which no match starts. */
  lemma PassByte(buf: Bytes, ms: seq<Match>, out: seq<Match>, i: nat, k: nat, start: nat, lineEnd: nat, inside: bool)
    requires i < |buf| && InOrder(ms, |buf|) && Progress(buf, ms, out, i, k, start, lineEnd, inside)
    requires k < |ms| ==> ms[k].start != i
    requires i + 1 < |buf| || !inside
    ensures if buf[i] != NEWLINE then Progress(buf, ms, out, i + 1, k, start, lineEnd, inside)
      else Progress(buf, ms, out, i + 1, k, if inside then start else i + 1, i + 1, true)
  {
    assert LineStart(buf, i + 1) == if buf[i] == NEWLINE then i + 1 else LineStart(buf, i);
    if !inside {
      StruckLine(buf, ms, out, i, k, start, lineEnd, i + 1);
      forall j | 0 <= j < |out| ensures out[j].end + 1 < i + 1 {
        assert out[j].end < LineStart(buf, i);
      }
      forall j | 0 <= j < k ensures LineStart(buf, ms[j].end) < i + 1 {
      }
    }
  }

  /** The last byte, on a line that no match has struck. */
  lemma LastByte(buf: Bytes, ms: seq<Match>, out: seq<Match>, i: nat, k: nat, start: nat, lineEnd: nat)
    requires i + 1 == |buf| && InOrder(ms, |buf|) && Progress(buf, ms, out, i, k, start, lineEnd, true)
    requires k < |ms| ==> ms[k].start != i
    ensures Progress(buf, ms, out + [Match(start, i)], i + 1, k, start, lineEnd, true)
  {
    hide LineStart, Strikes;
    forall p: nat | start <= p < |buf| ensures !Struck(buf, ms, p) {
      LineIsFree(buf, ms, out, i, k, start, lineEnd, p);
    }
    CloseRun(buf, ms, out, start, |buf|);
  }

  /** What the loop keeps. */
  predicate Progress(buf: Bytes, ms: seq<Match>, out: seq<Match>, i: nat, k: nat, start: nat, lineEnd: nat, inside: bool)
    requires i <= |buf| && InOrder(ms, |buf|)
  {
    if i < |buf| then Scan(buf, ms, out, i, k, start, lineEnd, inside) else IsInversion(buf, ms, out) && |out| <= |ms| + 1
  }

  lemma Begins(buf: Bytes, ms: seq<Match>)
    requires InOrder(ms, |buf|)
    ensures Progress(buf, ms, [], 0, 0, 0, 0, true)
  {
  }

  lemma Where(buf: Bytes, ms: seq<Match>, out: seq<Match>, i: nat, k: nat, start: nat, lineEnd: nat, inside: bool)
    requires i < |buf| && InOrder(ms, |buf|) && Progress(buf, ms, out, i, k, start, lineEnd, inside) && |ms| > 0
    ensures |out| <= k <= |ms|
    ensures k < |ms| ==> i <= ms[k].start <= ms[k].end <= |buf|
    ensures k == |ms| ==> ms[k - 1].start != i
  {
  }

  lemma Ended(buf: Bytes, ms: seq<Match>, out: seq<Match>, i: nat, k: nat, start: nat, lineEnd: nat, inside: bool)
    requires i == |buf| && InOrder(ms, |buf|) && Progress(buf, ms, out, i, k, start, lineEnd, inside)
    ensures IsInversion(buf, ms, out) && |out| <= |ms| + 1
  {
  }

  lemma WholeBuffer(buf: Bytes)
    requires |buf| > 0
    ensures IsInversion(buf, [], [Match(0, |buf| - 1)])
  {
    CloseRun(buf, [], [], 0, |buf|);
    assert [] + [Match(0, |buf| - 1)] == [Match(0, |buf| - 1)];
  }

  // ----- one turn of the loop -----

  /** The variables of the scan, `next` being next_match. */
  datatype ScanState = ScanState(i: nat, read: nat, next: Match, start: nat, lineEnd: nat, inside: bool, ms: seq<Match>, count: nat)

  /** The scan goes on, and has room to write. */
  predicate Goes(buf: Bytes, n: nat, t: ScanState) { t.i < |buf| && n < |t.ms| && t.count < |t.ms| }

  /** One turn of the loop of invert_matches for n matches. */
  function Turn(buf: Bytes, n: nat, t: ScanState): ScanState
    requires Goes(buf, n, t)
  {
    if t.i == t.next.start then
      var read, write := t.read + 1, t.inside && t.lineEnd > t.start;
      ScanState(t.next.end, read, if read < n then t.ms[read] else t.next, t.start, t.lineEnd, false,
           if write then t.ms[t.count := Match(t.start, t.lineEnd - 1)] else t.ms, if write then t.count + 1 else t.count)
    else if t.i == |buf| - 1 && t.inside then
      t.(i := t.i + 1, ms := t.ms[t.count := Match(t.start, t.i)], count := t.count + 1)
    else if buf[t.i] == NEWLINE then
      t.(i := t.i + 1, lineEnd := t.i + 1, start := if t.inside then t.start else t.i + 1, inside := true)
    else t.(i := t.i + 1)
  }

  /** The body of the loop. */
  method ScanTurn(buf: Bytes, matches: array<Match>, matchesLen: nat, i0: nat, read: nat, next: Match,
      start: nat, lineEnd: nat, inside: bool, count0: nat)
      returns (i: nat, matchReadIndex: nat, nextMatch: Match, invertedMatchStart: nat, lastLineEnd: nat, inInvertedMatch: bool, count: nat)
    requires Goes(buf, matchesLen, ScanState(i0, read, next, start, lineEnd, inside, matches[..], count0))
    modifies matches
    ensures ScanState(i, matchReadIndex, nextMatch, invertedMatchStart, lastLineEnd, inInvertedMatch, matches[..], count)
         == Turn(buf, matchesLen, old(ScanState(i0, read, next, start, lineEnd, inside, matches[..], count0)))
  {
    i, matchReadIndex, nextMatch, count := i0, read, next, count0;
    invertedMatchStart, lastLineEnd, inInvertedMatch := start, lineEnd, inside;
    if i == nextMatch.start {
      i := nextMatch.end;
      matchReadIndex := matchReadIndex + 1;
      if matchReadIndex < matchesLen {
        nextMatch := matches[matchReadIndex];
      }
      if inInvertedMatch && lastLineEnd > invertedMatchStart {
        matches[count] := Match(invertedMatchStart, lastLineEnd - 1);
        count := count + 1;
      }
      inInvertedMatch := false;
    } else if i == |buf| - 1 && inInvertedMatch {
      matches[count] := Match(invertedMatchStart, i);
      count := count + 1;
      i := i + 1;
    } else {
      if buf[i] == NEWLINE {
        lastLineEnd := i + 1;
        if !inInvertedMatch {
          invertedMatchStart := lastLineEnd;
        }
        inInvertedMatch := true;
      }
      i := i + 1;
    }
  }

  /** The variables of the scan and what they stand for. */
  predicate Stands(buf: Bytes, ms: seq<Match>, out: seq<Match>, t: ScanState)
    requires InOrder(ms, |buf|) && t.i <= |buf|
  {
    && |ms| > 0 && |ms| < |t.ms| && |out| == t.count <= |t.ms| && t.read <= |ms|
    && Progress(buf, ms, out, t.i, t.read, t.start, t.lineEnd, t.inside)
    && (forall j | 0 <= j < t.count :: t.ms[j] == out[j])
    && (t.i < |buf| ==> forall j | t.read <= j < |ms| :: t.ms[j] == ms[j])
    && t.next == ms[if t.read < |ms| then t.read else |ms| - 1]
  }

  /** One turn more. */
  lemma TurnStands(buf: Bytes, ms: seq<Match>, out: seq<Match>, t: ScanState) returns (next: seq<Match>)
    requires InOrder(ms, |buf|) && t.i < |buf| && Stands(buf, ms, out, t)
    ensures Goes(buf, |ms|, t)
    ensures var u := Turn(buf, |ms|, t);
      && u.i <= |buf| && Stands(buf, ms, next, u)
      && (u.i > t.i || (u.i == t.i && u.read > t.read))
      && |u.ms| == |t.ms| && forall j | |ms| < j < |t.ms| :: u.ms[j] == t.ms[j]
  {
    hide LineStart, Covers, InOrder, Progress;
    Where(buf, ms, out, t.i, t.read, t.start, t.lineEnd, t.inside);
    if t.i == t.next.start {
      next := MeetMatch(buf, ms, out, t.i, t.read, t.start, t.lineEnd, t.inside);
    } else if t.i == |buf| - 1 && t.inside {
      LastByte(buf, ms, out, t.i, t.read, t.start, t.lineEnd);
      next := out + [Match(t.start, t.i)];
    } else {
      PassByte(buf, ms, out, t.i, t.read, t.start, t.lineEnd, t.inside);
      next := out;
    }
  }

  lemma StandsMeans(buf: Bytes, ms: seq<Match>, out: seq<Match>, t: ScanState)
    requires InOrder(ms, |buf|) && t.i <= |buf| && Stands(buf, ms, out, t)
    ensures t.read <= |ms| < |t.ms|
    ensures t.i == |buf| ==> t.count <= |ms| + 1 && t.count <= |t.ms| && IsInversion(buf, ms, t.ms[..t.count])
  {
    if t.i == |buf| {
      Ended(buf, ms, out, t.i, t.read, t.start, t.lineEnd, t.inside);
      assert t.ms[..t.count] == out;
    }
  }

  method Invert(buf: Bytes, matches: array<Match>, matchesLen: nat) returns (count: nat)
    requires matchesLen < matches.Length && InOrder(matches[..matchesLen], |buf|)
    modifies matches
    ensures count <= matchesLen + 1
    ensures forall j | matchesLen < j < matches.Length :: matches[j] == old(matches[j])
    ensures |buf| + matchesLen > 0 ==> IsInversion(buf, old(matches[..matchesLen]), matches[..count])
    ensures |buf| + matchesLen == 0 ==> count == 1 && matches[0] == Match(0, SIZE_MAX)
  {
    hide *;
    ghost var ms := matches[..matchesLen];
    if matchesLen == 0 {
      matches[0] := Match(0, if |buf| == 0 then SIZE_MAX else |buf| - 1);
      if |buf| > 0 {
        WholeBuffer(buf);
        assert matches[..1] == [Match(0, |buf| - 1)];
        assert ms == [];
      }
      return 1;
    }
    var nextMatch := matches[0];
    var i: nat, matchReadIndex: nat, invertedMatchStart: nat, lastLineEnd: nat, inInvertedMatch := 0, 0, 0, 0, true;
    count := 0;
    ghost var out, t := [], First(matches[..]);
    FirstStands(buf, ms, matches[..]);
    while i < |buf|
      invariant t == ScanState(i, matchReadIndex, nextMatch, invertedMatchStart, lastLineEnd, inInvertedMatch, matches[..], count)
      invariant i <= |buf| && Stands(buf, ms, out, t) && matchReadIndex <= matchesLen
      invariant forall j | matchesLen < j < matches.Length :: matches[j] == old(matches[j])
      decreases |buf| - i, matchesLen - matchReadIndex
    {
      out := TurnStands(buf, ms, out, t);
      i, matchReadIndex, nextMatch, invertedMatchStart, lastLineEnd, inInvertedMatch, count :=
        ScanTurn(buf, matches, matchesLen, i, matchReadIndex, nextMatch, invertedMatchStart, lastLineEnd, inInvertedMatch, count);
      assert forall j | matchesLen < j < matches.Length :: matches[j] == Turn(buf, matchesLen, t).ms[j] == t.ms[j];
      t := Turn(buf, matchesLen, t);
      StandsMeans(buf, ms, out, t);
    }
    StandsMeans(buf, ms, out, t);
  }

  /** Before the first turn. */
  function First(a: seq<Match>): ScanState
    requires |a| > 0
  {
    ScanState(0, 0, a[0], 0, 0, true, a, 0)
  }

  lemma FirstStands(buf: Bytes, ms: seq<Match>, a: seq<Match>)
    requires InOrder(ms, |buf|) && 0 < |ms| < |a| && ms == a[..|ms|]
    ensures Stands(buf, ms, [], First(a)) && First(a) == ScanState(0, 0, a[0], 0, 0, true, a, 0)
  {
    Begins(buf, ms);
  }

  // ----- when the scan ends -----

  /** k turns, or fewer when the scan ends. */
  function Turns(buf: Bytes, n: nat, t: ScanState, k: nat): ScanState
    decreases k
  {
    if k == 0 || !Goes(buf, n, t) then t else Turns(buf, n, Turn(buf, n, t), k - 1)
  }

  /** On the way to the last match, or behind its start; back at it when it is empty. */
  predicate Scanning(buf: Bytes, ms: seq<Match>, t: ScanState) {
    && 0 < |ms| < |t.ms| && t.i <= |buf| && (EmptyLast(ms, |buf|) ==> t.i < |buf|)
    && (t.i < |buf| ==>
      && t.count <= t.read && t.count <= |ms|
      && t.next == ms[if t.read < |ms| then t.read else |ms| - 1]
      && (forall j | t.read <= j < |ms| :: t.ms[j] == ms[j])
      && (if t.read < |ms| then t.i <= t.next.start
          else if EmptyLast(ms, |buf|) then t.i == t.next.start && !t.inside
          else t.next.start < t.i))
  }

  lemma TurnScans(buf: Bytes, ms: seq<Match>, t: ScanState)
    requires Ordered(ms, |buf|) && Scanning(buf, ms, t) && t.i < |buf|
    ensures Goes(buf, |ms|, t)
    ensures var u := Turn(buf, |ms|, t);
      Scanning(buf, ms, u) && (!EmptyLast(ms, |buf|) ==> u.i > t.i || (u.i == t.i && t.read < u.read <= |ms|))
  {
    var u := Turn(buf, |ms|, t);
    assert t.read < |ms| ==> ms[t.read].end <= |buf|;
    assert t.read + 1 < |ms| ==> ms[t.read].end <= ms[t.read + 1].start;
    assert t.read < |ms| - 1 ==> ms[t.read].end <= ms[|ms| - 1].start;
  }

  lemma {:induction false} ScansOn(buf: Bytes, ms: seq<Match>, t: ScanState, k: nat)
    requires Ordered(ms, |buf|) && Scanning(buf, ms, t)
    ensures Scanning(buf, ms, Turns(buf, |ms|, t, k))
    decreases k
  {
    hide Scanning, Turn;
    if k > 0 && Goes(buf, |ms|, t) {
      TurnScans(buf, ms, t);
      ScansOn(buf, ms, Turn(buf, |ms|, t), k - 1);
    }
  }

  lemma {:induction false} ScanEnds(buf: Bytes, ms: seq<Match>, t: ScanState) returns (k: nat)
    requires InOrder(ms, |buf|) && Scanning(buf, ms, t)
    ensures Turns(buf, |ms|, t, k).i >= |buf|
    decreases |buf| - t.i, |ms| - t.read
  {
    hide Turn, Scanning;
    k := 0;
    if t.i < |buf| {
      TurnScans(buf, ms, t);
      InBounds(buf, ms, Turn(buf, |ms|, t));
      k := ScanEnds(buf, ms, Turn(buf, |ms|, t));
      k := k + 1;
    }
  }

  lemma InBounds(buf: Bytes, ms: seq<Match>, t: ScanState)
    requires Scanning(buf, ms, t)
    ensures t.i <= |buf| && (EmptyLast(ms, |buf|) ==> t.i < |buf|)
  {
  }

  /** The scan of sorted and disjoint matches ends, unless the last one is empty and not at the very end. */
  lemma EndsExactly(buf: Bytes, ms: seq<Match>, a: seq<Match>)
    requires Ordered(ms, |buf|) && 0 < |ms| < |a| && ms == a[..|ms|]
    ensures (exists k :: Turns(buf, |ms|, First(a), k).i >= |buf|) <==> !EmptyLast(ms, |buf|)
  {
    assert Scanning(buf, ms, First(a));
    if EmptyLast(ms, |buf|) {
      forall k ensures Turns(buf, |ms|, First(a), k).i < |buf| {
        ScansOn(buf, ms, First(a), k);
        InBounds(buf, ms, Turns(buf, |ms|, First(a), k));
      }
    } else {
      var k := ScanEnds(buf, ms, First(a));
    }
  }

  // ----- with the literal search -----

  /** The matches of a literal can always be inverted. One without a newline is never found across a line end, so what
      remains are the lines without a match. */
  lemma LiteralsInvert(buf: Bytes, q: Query, ms: seq<Match>)
    requires ValidQuery(q) && Greedy(buf, q, ms)
    ensures InOrder(ms, |buf|)
    ensures NEWLINE !in q.text ==> forall p: nat | p < |buf| :: Struck(buf, ms, p) <==> Touched(buf, ms, p)
  {
    forall k | 0 <= k < |ms|
      ensures ms[k].start < ms[k].end <= |buf| && (NEWLINE !in q.text ==> buf[ms[k].end - 1] != NEWLINE)
    {
      assert IsNext(buf, q, ms, k);
      assert Folded(buf[ms[k].start + (|q.text| - 1)], q.fold) == q.text[|q.text| - 1];
    }
    forall j, k | 0 <= j < k < |ms| ensures ms[j].end <= ms[k].start {
      GreedyIsSorted(buf, q, ms, j, k);
    }
    StruckIsTouched(buf, ms);
  }

  /** No accepted occurrence starts on p's line. */
  predicate OnFreeLine(buf: Bytes, q: Query, p: nat)
    requires p < |buf|
  {
    forall o: nat | o < |buf| && SameLine(buf, p, o) :: !Accepted(buf, q, o)
  }

  /** An occurrence, reported or not, lies within a reported one or overlaps it. */
  lemma {:induction false} Located(buf: Bytes, q: Query, ms: seq<Match>, o: nat, n: nat) returns (k: nat)
    requires ValidQuery(q) && Greedy(buf, q, ms) && Accepted(buf, q, o)
    requires n <= |ms| && o < EndBefore(ms, n)
    ensures k < |ms| && ms[k].start <= o < ms[k].end
    decreases n
  {
    if o < EndBefore(ms, n - 1) {
      k := Located(buf, q, ms, o, n - 1);
    } else {
      k := n - 1;
      assert IsNext(buf, q, ms, k);
    }
  }

  /** Bytes of one occurrence of a newline-free query are on one line. */
  lemma OneLine(buf: Bytes, q: Query, s: nat, t: nat)
    requires ValidQuery(q) && OccursAt(buf, q.text, q.fold, s) && NEWLINE !in q.text && s <= t < s + |q.text|
    ensures LineStart(buf, s) == LineStart(buf, t)
  {
    forall x | s <= x < t ensures buf[x] != NEWLINE {
      assert Folded(buf[s + (x - s)], q.fold) == q.text[x - s];
    }
    StartsGrow(buf, s, t);
  }

  lemma FreeLines(buf: Bytes, q: Query, ms: seq<Match>, p: nat)
    requires ValidQuery(q) && Greedy(buf, q, ms) && Complete(buf, q, ms) && NEWLINE !in q.text && q.maxMatches == 0
    requires p < |buf|
    ensures Touched(buf, ms, p) <==> !OnFreeLine(buf, q, p)
  {
    if Touched(buf, ms, p) {
      var k :| 0 <= k < |ms| && Touches(buf, ms[k], p);
      var t :| ms[k].start <= t < ms[k].end && t < |buf| && SameLine(buf, p, t);
      assert IsNext(buf, q, ms, k);
      OneLine(buf, q, ms[k].start, t);
      assert SameLine(buf, p, ms[k].start);
    }
    if !OnFreeLine(buf, q, p) {
      var o: nat :| o < |buf| && SameLine(buf, p, o) && Accepted(buf, q, o);
      var k := Located(buf, q, ms, o, |ms|);
      assert IsNext(buf, q, ms, k);
      assert Touches(buf, ms[k], p);
    }
  }

  /** search_buf with -v: the matches `found` are found with one slot to spare and then inverted. For a literal without
      a newline, and without a limit on matches, exactly the lines without an occurrence are left. */
  method SearchInverted(buf: Bytes, q: Query, unaligned: bool,
                        alphaSkip: array<nat>, findSkip: array<nat>, hTable: array<Byte>)
      returns (matches: array<Match>, matchesLen: nat, ghost found: seq<Match>)
    requires ValidQuery(q) && Tables(q, alphaSkip, findSkip, hTable)
    ensures matchesLen <= matches.Length && Greedy(buf, q, found) && Complete(buf, q, found) && InOrder(found, |buf|)
    ensures |buf| > 0 ==> IsInversion(buf, found, matches[..matchesLen])
    ensures |buf| > 0 && NEWLINE !in q.text && q.maxMatches == 0 ==>
      forall p: nat | p < |buf| :: InRuns(matches[..matchesLen], p) <==> OnFreeLine(buf, q, p)
  {
    var initial := new Match[100];
    var n;
    matches, n := SearchLiteral(buf, q, unaligned, 1, initial, alphaSkip, findSkip, hTable);
    found := matches[..n];
    LiteralsInvert(buf, q, found);
    matchesLen := Invert(buf, matches, n);
    if NEWLINE !in q.text && q.maxMatches == 0 {
      forall p: nat | p < |buf| ensures Touched(buf, found, p) <==> !OnFreeLine(buf, q, p) {
        FreeLines(buf, q, found, p);
      }
    }
  }
}
