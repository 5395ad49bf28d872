/** The lines of a list of matches: those print_file_matches (print.c) owes its reader, and those its loop comes to
    see.

    The loop looks for the start of one match at a time, and at each byte for a start before an end. So it misses
    the start of a match that begins where the one before ends, and never gets past such a match when it is empty. */
module MatchLines {
  import opened Text
  import opened Lines
  import opened LiteralSearch

  /** The buffer as the loop reads it: its end counts as a newline. */
  function Ended(buf: Bytes): Bytes { buf + [NEWLINE] }

  function LineNo(buf: Bytes, i: nat): nat
    requires i <= |buf| + 1
  {
    LineOf(Ended(buf), i)
  }

  function LineFrom(buf: Bytes, i: nat): nat
    requires i <= |buf| + 1
  {
    LineStart(Ended(buf), i)
  }

  lemma LinesUp(buf: Bytes, i: nat, j: nat)
    requires i <= j <= |buf| + 1
    ensures LineNo(buf, i) <= LineNo(buf, j)
  {
    LinesGrow(Ended(buf), i, j);
  }

  // ----- the lines a reader expects -----

  /** Match m covers line l: l is not above the line where m starts, nor below the one m.end is on. */
  predicate Covers(buf: Bytes, m: Match, l: nat)
    requires m.start <= m.end <= |buf|
  {
    LineNo(buf, m.start) <= l <= LineNo(buf, m.end)
  }

  predicate Hit(buf: Bytes, ms: seq<Match>, l: nat)
    requires Ordered(ms, |buf|)
  {
    exists k :: 0 <= k < |ms| && Covers(buf, ms[k], l)
  }

  /** The lines with a match. */
  function Hits(buf: Bytes, ms: seq<Match>): set<nat>
    requires Ordered(ms, |buf|)
  {
    set l: nat | l < |AllLines(buf)| && Hit(buf, ms, l)
  }

  // ----- the lines the loop sees -----

  /** The loop does not get past match k. */
  predicate Blocks(ms: seq<Match>, k: int) { 0 < k < |ms| && ms[k - 1].end == ms[k].start == ms[k].end }

  /** The loop comes to match k, and finds its start. */
  predicate Noticed(ms: seq<Match>, k: int) {
    && 0 <= k < |ms|
    && (forall j | 0 < j <= k :: !Blocks(ms, j))
    && (k == 0 || ms[k - 1].end < ms[k].start)
  }

  predicate Spotted(buf: Bytes, ms: seq<Match>, l: nat)
    requires Ordered(ms, |buf|)
  {
    exists k :: 0 <= k < |ms| && Noticed(ms, k) && Covers(buf, ms[k], l)
  }

  /** The lines of the matches that are noticed. */
  function Seen(buf: Bytes, ms: seq<Match>): set<nat>
    requires Ordered(ms, |buf|)
  {
    set l: nat | l < |AllLines(buf)| && Spotted(buf, ms, l)
  }

  lemma InLines(buf: Bytes, i: nat)
    requires i <= |buf|
    ensures LineNo(buf, i) < |AllLines(buf)|
  {
    LinesGrow(Ended(buf), i, |buf|);
    assert Ended(buf)[|buf|] == NEWLINE;
  }

  // ----- when both are the same -----

  /** A match that is not noticed: the lines it covers are seen all the same. */
  predicate Excused(buf: Bytes, ms: seq<Match>, k: nat)
    requires Ordered(ms, |buf|) && k < |ms|
  {
    LineNo(buf, ms[k].end) in Seen(buf, ms) && LineNo(buf, ms[k].end) <= LineNo(buf, ms[k].start) + 1
  }

  /** All lines are seen exactly when each match that is not noticed ends on a seen line, at most one line below its
      start. */
  lemma SeenExactly(buf: Bytes, ms: seq<Match>)
    requires Ordered(ms, |buf|)
    ensures Seen(buf, ms) == Hits(buf, ms) <==> forall k | 0 <= k < |ms| && !Noticed(ms, k) :: Excused(buf, ms, k)
  {
    hide LineNo, AllLines, Noticed;
    if Seen(buf, ms) == Hits(buf, ms) {
      forall k | 0 <= k < |ms| && !Noticed(ms, k) ensures Excused(buf, ms, k) {
        HitIsSeen(buf, ms, k);
      }
    }
    if forall k | 0 <= k < |ms| && !Noticed(ms, k) :: Excused(buf, ms, k) {
      forall l: nat | l in Hits(buf, ms) ensures l in Seen(buf, ms) {
        var k :| 0 <= k < |ms| && Covers(buf, ms[k], l);
        if Noticed(ms, k) {
          assert Spotted(buf, ms, l);
        } else {
          StartSeen(buf, ms, k);
        }
      }
      SeenAreHits(buf, ms);
    }
  }

  lemma SeenAreHits(buf: Bytes, ms: seq<Match>)
    requires Ordered(ms, |buf|)
    ensures Seen(buf, ms) <= Hits(buf, ms)
  {
    forall l: nat | l in Seen(buf, ms) ensures l in Hits(buf, ms) {
      var k :| 0 <= k < |ms| && Noticed(ms, k) && Covers(buf, ms[k], l);
      assert Hit(buf, ms, l);
    }
  }

  /** No line strictly within a match is covered by another one. */
  lemma HitIsSeen(buf: Bytes, ms: seq<Match>, k: nat)
    requires Ordered(ms, |buf|) && k < |ms| && !Noticed(ms, k) && Seen(buf, ms) == Hits(buf, ms)
    ensures Excused(buf, ms, k)
  {
    hide LineNo, AllLines, Noticed;
    var a, b := LineNo(buf, ms[k].start), LineNo(buf, ms[k].end);
    LinesUp(buf, ms[k].start, ms[k].end);
    InLines(buf, ms[k].end);
    assert Covers(buf, ms[k], b);
    assert Hit(buf, ms, b);
    if a + 1 < b {
      assert Covers(buf, ms[k], a + 1);
      assert Hit(buf, ms, a + 1);
      assert a + 1 in Seen(buf, ms);
      var j :| 0 <= j < |ms| && Noticed(ms, j) && Covers(buf, ms[j], a + 1);
      if j < k {
        LinesUp(buf, ms[j].end, ms[k].start);
      } else {
        LinesUp(buf, ms[k].end, ms[j].start);
      }
      assert false;
    }
  }

  /** The first match that blocks. */
  lemma {:induction false} FirstBlock(ms: seq<Match>, k: nat) returns (c: nat)
    requires exists j :: 0 < j <= k && Blocks(ms, j)
    ensures 0 < c <= k && Blocks(ms, c) && forall j | 0 < j < c :: !Blocks(ms, j)
  {
    if j :| 0 < j < k && Blocks(ms, j) {
      c := FirstBlock(ms, k - 1);
    } else {
      c := k;
    }
  }

  /** Seen lines lie above a match that blocks, or on its line. */
  lemma SeenAbove(buf: Bytes, ms: seq<Match>, c: nat, l: nat)
    requires Ordered(ms, |buf|) && Blocks(ms, c) && l in Seen(buf, ms)
    ensures l <= LineNo(buf, ms[c].start)
  {
    var j :| 0 <= j < |ms| && Noticed(ms, j) && Covers(buf, ms[j], l);
    assert j < c;
    LinesUp(buf, ms[j].end, ms[c].start);
  }

  lemma {:induction false} StartSeen(buf: Bytes, ms: seq<Match>, k: nat)
    requires Ordered(ms, |buf|) && k < |ms| && !Noticed(ms, k)
    requires forall j | 0 <= j < |ms| && !Noticed(ms, j) :: Excused(buf, ms, j)
    ensures LineNo(buf, ms[k].start) in Seen(buf, ms)
  {
    hide LineNo, AllLines, Noticed, Blocks, Ordered, Seen;
    NotNoticed(ms, |buf|, k);
    if exists j :: 0 < j <= k && Blocks(ms, j) {
      var c := FirstBlock(ms, k);
      Bounds(ms, |buf|, c, k);
      LinesUp(buf, ms[c].start, ms[k].start);
      LinesUp(buf, ms[k].start, ms[k].end);
      SeenAbove(buf, ms, c, LineNo(buf, ms[k].end));
    } else {
      EndSeen(buf, ms, k - 1);
    }
  }

  lemma NotNoticed(ms: seq<Match>, n: nat, k: nat)
    requires Ordered(ms, n) && k < |ms| && !Noticed(ms, k)
    ensures k > 0 && ((exists j :: 0 < j <= k && Blocks(ms, j)) || ms[k - 1].end == ms[k].start)
  {
  }

  lemma Bounds(ms: seq<Match>, n: nat, j: nat, k: nat)
    requires Ordered(ms, n) && j <= k < |ms|
    ensures ms[j].start <= ms[k].start <= ms[k].end <= n
  {
  }

  lemma EndSeen(buf: Bytes, ms: seq<Match>, k: nat)
    requires Ordered(ms, |buf|) && k < |ms|
    requires !Noticed(ms, k) ==> Excused(buf, ms, k)
    ensures LineNo(buf, ms[k].end) in Seen(buf, ms)
  {
    hide LineNo, AllLines, Noticed;
    if Noticed(ms, k) {
      LinesUp(buf, ms[k].start, ms[k].end);
      InLines(buf, ms[k].end);
      assert Covers(buf, ms[k], LineNo(buf, ms[k].end));
      assert Spotted(buf, ms, LineNo(buf, ms[k].end));
    }
  }

  // ----- matches that each lie on one line -----

  predicate OnOneLine(buf: Bytes, m: Match)
    requires m.start <= m.end <= |buf|
  {
    LineNo(buf, m.start) == LineNo(buf, m.end)
  }

  predicate EachOnOneLine(buf: Bytes, ms: seq<Match>)
    requires Ordered(ms, |buf|)
  {
    forall k | 0 <= k < |ms| :: OnOneLine(buf, ms[k])
  }

  /** The loop is kept only from matches on the line of the one that blocks. */
  predicate BlocksOneLine(buf: Bytes, ms: seq<Match>)
    requires Ordered(ms, |buf|)
  {
    forall c | 0 < c < |ms| && Blocks(ms, c) :: LineNo(buf, ms[c].start) == LineNo(buf, ms[|ms| - 1].start)
  }

  /** A line reached before any block is seen. */
  lemma {:induction false} SeenUpTo(buf: Bytes, ms: seq<Match>, k: nat)
    requires Ordered(ms, |buf|) && k < |ms| && EachOnOneLine(buf, ms)
    requires forall j | 0 < j < k :: !Blocks(ms, j)
    ensures LineNo(buf, ms[k].start) in Seen(buf, ms)
  {
    hide LineNo, AllLines;
    if k > 0 && ms[k - 1].end == ms[k].start {
      SeenUpTo(buf, ms, k - 1);
      assert OnOneLine(buf, ms[k - 1]);
    } else {
      assert OnOneLine(buf, ms[k]) && Noticed(ms, k);
      EndSeen(buf, ms, k);
    }
  }

  /** When every match lies on one line, all lines are seen exactly if the matches from one that blocks on are on
      its line. */
  lemma OneLineExactly(buf: Bytes, ms: seq<Match>)
    requires Ordered(ms, |buf|) && EachOnOneLine(buf, ms)
    ensures Seen(buf, ms) == Hits(buf, ms) <==> BlocksOneLine(buf, ms)
  {
    hide LineNo, AllLines, Noticed, Blocks;
    if Seen(buf, ms) == Hits(buf, ms) {
      forall c | 0 < c < |ms| && Blocks(ms, c) ensures LineNo(buf, ms[c].start) == LineNo(buf, ms[|ms| - 1].start) {
        LastIsHit(buf, ms);
        SeenAbove(buf, ms, c, LineNo(buf, ms[|ms| - 1].start));
        StartsUp(buf, ms, c, |ms| - 1);
      }
    }
    if BlocksOneLine(buf, ms) {
      forall l: nat | l in Hits(buf, ms) ensures l in Seen(buf, ms) {
        var k :| 0 <= k < |ms| && Covers(buf, ms[k], l);
        assert OnOneLine(buf, ms[k]);
        if exists j :: 0 < j <= k && Blocks(ms, j) {
          var c := FirstBlock(ms, k);
          StartsUp(buf, ms, c, k);
          StartsUp(buf, ms, k, |ms| - 1);
          SeenUpTo(buf, ms, c);
        } else {
          SeenUpTo(buf, ms, k);
        }
      }
      SeenAreHits(buf, ms);
    }
  }

  lemma StartsUp(buf: Bytes, ms: seq<Match>, j: nat, k: nat)
    requires Ordered(ms, |buf|) && j <= k < |ms|
    ensures LineNo(buf, ms[j].start) <= LineNo(buf, ms[k].start)
  {
    if j < k {
      LinesUp(buf, ms[j].start, ms[k].start);
    }
  }

  lemma LastIsHit(buf: Bytes, ms: seq<Match>)
    requires Ordered(ms, |buf|) && ms != []
    ensures LineNo(buf, ms[|ms| - 1].start) in Hits(buf, ms)
  {
    var m := ms[|ms| - 1];
    InLines(buf, m.start);
    LinesUp(buf, m.start, m.end);
    assert Covers(buf, ms[|ms| - 1], LineNo(buf, m.start));
    assert Hit(buf, ms, LineNo(buf, m.start));
  }

  lemma OneLine(buf: Bytes, i: nat, j: nat)
    requires i <= j <= |buf| && forall x | i <= x < j :: Ended(buf)[x] != NEWLINE
    ensures LineNo(buf, i) == LineNo(buf, j)
  {
    StartsGrow(Ended(buf), i, j);
    LinesGrow(Ended(buf), i, j);
  }

  /** The matches of a literal without a newline lie on one line each, and all lines are seen. */
  lemma LiteralsSeen(buf: Bytes, q: Query, ms: seq<Match>)
    requires ValidQuery(q) && Greedy(buf, q, ms) && NEWLINE !in q.text
    ensures Ordered(ms, |buf|) && EachOnOneLine(buf, ms) && Seen(buf, ms) == Hits(buf, ms)
  {
    forall j, k | 0 <= j < k < |ms| ensures ms[j].end <= ms[k].start {
      GreedyIsSorted(buf, q, ms, j, k);
    }
    forall k | 0 <= k < |ms| ensures ms[k].start < ms[k].end <= |buf| && OnOneLine(buf, ms[k]) {
      assert IsNext(buf, q, ms, k);
      forall x | ms[k].start <= x < ms[k].end ensures Ended(buf)[x] != NEWLINE {
        assert Folded(buf[ms[k].start + (x - ms[k].start)], q.fold) == q.text[x - ms[k].start];
      }
      OneLine(buf, ms[k].start, ms[k].end);
    }
    OneLineExactly(buf, ms);
  }

  // ----- the bytes of a match -----

  /** A byte of match m is on line l. */
  predicate Holds(buf: Bytes, m: Match, l: nat)
    requires m.start <= m.end <= |buf|
  {
    exists q: nat | m.start <= q < m.end :: LineNo(buf, q) == l
  }

  predicate Held(buf: Bytes, ms: seq<Match>, l: nat)
    requires Ordered(ms, |buf|)
  {
    exists k :: 0 <= k < |ms| && Holds(buf, ms[k], l)
  }

  /** A match without a byte on the line it ends on. */
  predicate Overhangs(buf: Bytes, m: Match)
    requires m.start <= m.end <= |buf|
  {
    m.start == m.end || buf[m.end - 1] == NEWLINE
  }

  /** Between two positions no line is left out. */
  lemma {:induction false} LineBetween(buf: Bytes, i: nat, j: nat, l: nat) returns (q: nat)
    requires i <= j <= |buf| && LineNo(buf, i) <= l <= LineNo(buf, j)
    ensures i <= q <= j && LineNo(buf, q) == l
    decreases j
  {
    q := j;
    if LineNo(buf, j) != l {
      q := LineBetween(buf, i, j - 1, l);
    }
  }

  lemma CoversMeans(buf: Bytes, m: Match, l: nat)
    requires m.start <= m.end <= |buf|
    ensures Covers(buf, m, l) <==> Holds(buf, m, l) || (Overhangs(buf, m) && l == LineNo(buf, m.end))
  {
    hide LineNo;
    LinesUp(buf, m.start, m.end);
    if Holds(buf, m, l) {
      var q: nat :| m.start <= q < m.end && LineNo(buf, q) == l;
      LinesUp(buf, m.start, q);
      LinesUp(buf, q, m.end);
    }
    if Covers(buf, m, l) && m.start < m.end {
      LastByte(buf, m.end);
      if l <= LineNo(buf, m.end - 1) {
        var q := LineBetween(buf, m.start, m.end - 1, l);
        assert Holds(buf, m, l);
      }
    }
  }

  lemma LastByte(buf: Bytes, i: nat)
    requires 0 < i <= |buf|
    ensures LineNo(buf, i) == LineNo(buf, i - 1) + if buf[i - 1] == NEWLINE then 1 else 0
  {
  }

  /** The lines with a match are those that hold a byte of one exactly when each match that is empty or ends with a
      newline ends on such a line. */
  lemma HitIsHeld(buf: Bytes, ms: seq<Match>)
    requires Ordered(ms, |buf|)
    ensures (forall l: nat | l < |AllLines(buf)| :: Hit(buf, ms, l) <==> Held(buf, ms, l))
       <==> (forall k | 0 <= k < |ms| && Overhangs(buf, ms[k]) :: Held(buf, ms, LineNo(buf, ms[k].end)))
  {
    hide LineNo, AllLines, Holds, Covers;
    if forall l: nat | l < |AllLines(buf)| :: Hit(buf, ms, l) <==> Held(buf, ms, l) {
      forall k | 0 <= k < |ms| && Overhangs(buf, ms[k]) ensures Held(buf, ms, LineNo(buf, ms[k].end)) {
        InLines(buf, ms[k].end);
        CoversMeans(buf, ms[k], LineNo(buf, ms[k].end));
        assert Hit(buf, ms, LineNo(buf, ms[k].end));
      }
    }
    if forall k | 0 <= k < |ms| && Overhangs(buf, ms[k]) :: Held(buf, ms, LineNo(buf, ms[k].end)) {
      forall l: nat | l < |AllLines(buf)| ensures Hit(buf, ms, l) <==> Held(buf, ms, l) {
        if k :| 0 <= k < |ms| && Covers(buf, ms[k], l) {
          CoversMeans(buf, ms[k], l);
        }
        if k :| 0 <= k < |ms| && Holds(buf, ms[k], l) {
          CoversMeans(buf, ms[k], l);
        }
      }
    }
  }
}
