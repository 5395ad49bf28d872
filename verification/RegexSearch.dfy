/** The loop of search_buf (search.c) for a regular expression that may match across lines: the matcher is called
    again behind each match, and one byte further behind an empty one. */
module RegexSearch {
  import opened TreAst
  import opened TreParallel
  import opened TreMarked
  import opened TreSubmatches
  import opened TreMatch
  import opened TreGroups
  import opened Text
  import opened LiteralSearch
  import InvertMatches
  import MatchLines

  // ----- the list of matches -----

  /** Position i lies behind the first k matches: not before the end of the last of them, and behind its start. */
  predicate Behind(ms: seq<LiteralSearch.Match>, k: nat, i: int)
    requires k <= |ms|
  {
    k == 0 || (ms[k - 1].end <= i && ms[k - 1].start < i)
  }

  /** A byte of the buffer lies behind the first k matches. */
  predicate GoesOn(buf: Word, ms: seq<LiteralSearch.Match>, k: nat)
    requires k <= |ms|
  {
    |buf| > 0 && Behind(ms, k, |buf| - 1)
  }

  /** Every match is an occurrence behind the one before. */
  ghost predicate IsSpan(t: Ast, buf: Word, ms: seq<LiteralSearch.Match>, k: nat)
    requires k < |ms|
  {
    GoesOn(buf, ms, k) && Behind(ms, k, ms[k].start) && Occurs(t, buf, ms[k].start, ms[k].end)
  }

  ghost predicate Spans(t: Ast, buf: Word, ms: seq<LiteralSearch.Match>) {
    forall k | 0 <= k < |ms| :: IsSpan(t, buf, ms, k)
  }

  /** No occurrence behind the matches before match k starts further left, nor is one that starts there longer. */
  ghost predicate IsFirst(t: Ast, buf: Word, ms: seq<LiteralSearch.Match>, k: nat)
    requires k < |ms|
  {
    forall i, j | Behind(ms, k, i) && Occurs(t, buf, i, j) :: ms[k].start < i || (ms[k].start == i && j <= ms[k].end)
  }

  ghost predicate IsNextSpan(t: Ast, buf: Word, ms: seq<LiteralSearch.Match>, k: nat)
    requires k < |ms|
  {
    IsSpan(t, buf, ms, k) && IsFirst(t, buf, ms, k)
  }

  /** Every match is the leftmost-longest one behind the one before. */
  ghost predicate GreedySpans(t: Ast, buf: Word, ms: seq<LiteralSearch.Match>) {
    forall k | 0 <= k < |ms| :: IsNextSpan(t, buf, ms, k)
  }

  /** Behind the last match nothing occurs, unless no byte of the buffer is left. */
  ghost predicate Exhausted(t: Ast, buf: Word, ms: seq<LiteralSearch.Match>) {
    GoesOn(buf, ms, |ms|) ==> forall i, j | Behind(ms, |ms|, i) :: !Occurs(t, buf, i, j)
  }

  // ----- where the search goes on -----

  function Resume(m: LiteralSearch.Match): nat { if m.start == m.end then m.end + 1 else m.end }

  function ResumeAt(ms: seq<LiteralSearch.Match>, k: nat): nat
    requires k <= |ms|
  {
    if k == 0 then 0 else Resume(ms[k - 1])
  }

  /** The first position behind k matches. */
  predicate IsPlace(ms: seq<LiteralSearch.Match>, k: nat, from: nat)
    requires k <= |ms|
  {
    Behind(ms, k, from) && (from == 0 || !Behind(ms, k, from - 1))
  }

  lemma ResumeMeans(ms: seq<LiteralSearch.Match>, k: nat)
    requires k <= |ms| && (k > 0 ==> ms[k - 1].start <= ms[k - 1].end)
    ensures forall i | 0 <= i :: Behind(ms, k, i) <==> ResumeAt(ms, k) <= i
    ensures forall from: nat :: IsPlace(ms, k, from) <==> from == ResumeAt(ms, k)
  {
  }

  /** The leftmost occurrence that starts at `from` or later, and the longest of those. */
  ghost predicate FirstFrom(t: Ast, buf: Word, from: nat, m: LiteralSearch.Match) {
    && from <= m.start && Occurs(t, buf, m.start, m.end)
    && forall i, j | from <= i && Occurs(t, buf, i, j) :: m.start < i || (m.start == i && j <= m.end)
  }

  lemma FirstIsFirst(t: Ast, buf: Word, ms: seq<LiteralSearch.Match>, k: nat)
    requires k < |ms| && (k > 0 ==> ms[k - 1].start <= ms[k - 1].end)
    requires ResumeAt(ms, k) <= ms[k].start && Occurs(t, buf, ms[k].start, ms[k].end)
    ensures FirstFrom(t, buf, ResumeAt(ms, k), ms[k]) <==> IsFirst(t, buf, ms, k)
  {
    hide Resume;
    ResumeMeans(ms, k);
    if FirstFrom(t, buf, ResumeAt(ms, k), ms[k]) {
      forall i, j | Behind(ms, k, i) && Occurs(t, buf, i, j)
        ensures ms[k].start < i || (ms[k].start == i && j <= ms[k].end)
      {
        assert 0 <= i;
      }
    }
    if IsFirst(t, buf, ms, k) {
      forall i, j | ResumeAt(ms, k) <= i && Occurs(t, buf, i, j)
        ensures ms[k].start < i || (ms[k].start == i && j <= ms[k].end)
      {
        assert Behind(ms, k, i);
      }
    }
  }

  lemma NextFrom(t: Ast, buf: Word, ms: seq<LiteralSearch.Match>, k: nat)
    requires k < |ms| && (k > 0 ==> ms[k - 1].start <= ms[k - 1].end)
    requires ResumeAt(ms, k) < |buf| && FirstFrom(t, buf, ResumeAt(ms, k), ms[k])
    ensures IsNextSpan(t, buf, ms, k)
  {
    hide Occurs;
    ResumeMeans(ms, k);
    FirstIsFirst(t, buf, ms, k);
  }

  // ----- the loop -----

  /** Occurrences in the rest of the buffer. */
  lemma OccursBehind(t: Ast, buf: Word, from: nat, i: int, j: int)
    requires from <= |buf|
    ensures Occurs(t, buf[from..], i, j) <==> 0 <= i && Occurs(t, buf, from + i, from + j)
  {
    if 0 <= i <= j <= |buf| - from {
      assert buf[from..][i..j] == buf[from + i..from + j];
    }
  }

  lemma SpanBehind(t: Ast, buf: Word, from: nat, r: Span)
    requires from <= |buf|
    requires r.NoSpan? <==> forall i, j :: !Occurs(t, buf[from..], i, j)
    requires r.Span? ==> Occurs(t, buf[from..], r.so, r.eo)
    ensures r.NoSpan? ==> forall i, j | from <= i :: !Occurs(t, buf, i, j)
    ensures r.Span? ==> 0 <= r.so <= r.eo && Occurs(t, buf, from + r.so, from + r.eo)
    ensures r.Span? ==> (FirstFrom(t, buf, from, LiteralSearch.Match(from + r.so, from + r.eo)) <==> LeftmostLongestSpan(t, buf[from..], r))
  {
    hide Lang;
    forall i, j | from <= i ensures Occurs(t, buf, i, j) <==> Occurs(t, buf[from..], i - from, j - from) {
      OccursBehind(t, buf, from, i - from, j - from);
    }
    if r.Span? {
      OccursBehind(t, buf, from, r.so, r.eo);
      var m := LiteralSearch.Match(from + r.so, from + r.eo);
      if FirstFrom(t, buf, from, m) {
        forall i, j | Occurs(t, buf[from..], i, j) ensures r.so < i || (r.so == i && j <= r.eo) {
          OccursBehind(t, buf, from, i, j);
        }
      }
    }
  }

  /** Match k is an occurrence, and the leftmost-longest one behind the matches before exactly when no later arrival of
      the matcher overtakes it on the rest of the buffer. */
  ghost predicate PromisedAt(m: Marked, firstChar: int, buf: Word, ms: seq<LiteralSearch.Match>, k: nat)
    requires WellFormed(PlaceTags(m).tree) && k < |ms|
  {
    && IsSpan(Unmarked(m), buf, ms, k)
    && forall from: nat | from <= |buf| && IsPlace(ms, k, from) ::
      IsFirst(Unmarked(m), buf, ms, k) <==> StaysLeftmost(m, firstChar, buf[from..])
  }

  ghost predicate Promised(m: Marked, firstChar: int, buf: Word, ms: seq<LiteralSearch.Match>)
    requires WellFormed(PlaceTags(m).tree)
  {
    forall k | 0 <= k < |ms| :: PromisedAt(m, firstChar, buf, ms, k)
  }

  lemma PromisedAreSpans(m: Marked, firstChar: int, buf: Word, ms: seq<LiteralSearch.Match>)
    requires WellFormed(PlaceTags(m).tree) && Promised(m, firstChar, buf, ms)
    ensures Spans(Unmarked(m), buf, ms)
  {
    hide FirstFrom, StaysLeftmost, IsSpan, WellFormed, PlaceTags, Unmarked;
    forall k | 0 <= k < |ms| ensures IsSpan(Unmarked(m), buf, ms, k) {
      assert PromisedAt(m, firstChar, buf, ms, k);
    }
  }

  lemma LastIsMatch(t: Ast, buf: Word, ms: seq<LiteralSearch.Match>)
    requires Spans(t, buf, ms)
    ensures ms != [] ==> ms[|ms| - 1].start <= ms[|ms| - 1].end
  {
    hide Lang;
    assert ms != [] ==> IsSpan(t, buf, ms, |ms| - 1);
  }

  lemma SpanAtResume(t: Ast, buf: Word, ms: seq<LiteralSearch.Match>, x: LiteralSearch.Match)
    requires ms != [] ==> ms[|ms| - 1].start <= ms[|ms| - 1].end
    requires ResumeAt(ms, |ms|) < |buf| && ResumeAt(ms, |ms|) <= x.start && Occurs(t, buf, x.start, x.end)
    ensures IsSpan(t, buf, ms + [x], |ms|)
    ensures IsFirst(t, buf, ms + [x], |ms|) <==> FirstFrom(t, buf, ResumeAt(ms, |ms|), x)
    ensures forall from: nat :: IsPlace(ms + [x], |ms|, from) <==> from == ResumeAt(ms, |ms|)
  {
    hide Occurs, Resume, FirstFrom, IsFirst;
    var all := ms + [x];
    assert ResumeAt(all, |ms|) == ResumeAt(ms, |ms|);
    ResumeMeans(all, |ms|);
    FirstIsFirst(t, buf, all, |ms|);
  }

  lemma OneSpanMore(m: Marked, firstChar: int, buf: Word, ms: seq<LiteralSearch.Match>, x: LiteralSearch.Match)
    requires WellFormed(PlaceTags(m).tree) && Promised(m, firstChar, buf, ms)
    requires ResumeAt(ms, |ms|) < |buf| && ResumeAt(ms, |ms|) <= x.start && Occurs(Unmarked(m), buf, x.start, x.end)
    requires FirstFrom(Unmarked(m), buf, ResumeAt(ms, |ms|), x) <==> StaysLeftmost(m, firstChar, buf[ResumeAt(ms, |ms|)..])
    ensures Promised(m, firstChar, buf, ms + [x])
  {
    hide FirstFrom, StaysLeftmost, Occurs, WellFormed, PlaceTags, Unmarked, IsFirst, IsPlace, Resume;
    var all := ms + [x];
    PromisedAreSpans(m, firstChar, buf, ms);
    LastIsMatch(Unmarked(m), buf, ms);
    SpanAtResume(Unmarked(m), buf, ms, x);
    forall k | 0 <= k < |all| ensures PromisedAt(m, firstChar, buf, all, k) {
      if k < |ms| {
        PromisedBefore(m, firstChar, buf, ms, x, k);
      }
    }
  }

  lemma PromisedBefore(m: Marked, firstChar: int, buf: Word, ms: seq<LiteralSearch.Match>, x: LiteralSearch.Match, k: nat)
    requires WellFormed(PlaceTags(m).tree) && Promised(m, firstChar, buf, ms) && k < |ms|
    ensures PromisedAt(m, firstChar, buf, ms + [x], k)
  {
    hide StaysLeftmost, Occurs, WellFormed, PlaceTags, Unmarked;
    var all := ms + [x];
    assert PromisedAt(m, firstChar, buf, ms, k);
    assert forall i :: Behind(all, k, i) <==> Behind(ms, k, i);
    assert IsFirst(Unmarked(m), buf, all, k) <==> IsFirst(Unmarked(m), buf, ms, k);
    assert forall from: nat :: IsPlace(all, k, from) <==> IsPlace(ms, k, from);
  }

  /** The loop of search_buf for a regular expression with the multiline option. */
  method SearchMultiline(preg: Preg, buf: Word, limit: nat, spare: nat, initial: array<LiteralSearch.Match>,
      ghost m: Marked, ghost offs: seq<nat>)
      returns (matches: array<LiteralSearch.Match>, matchesLen: nat)
    requires Compiled(m, preg, offs) && IsBytes(buf) && spare <= initial.Length
    modifies initial
    ensures matches.Length >= matchesLen + spare && (matches == initial || fresh(matches))
    ensures WellFormed(PlaceTags(m).tree) && Promised(m, preg.tnfa.firstChar, buf, matches[..matchesLen])
    ensures Spans(Unmarked(m), buf, matches[..matchesLen])
    ensures Submatches(m) == 1 ==> GreedySpans(Unmarked(m), buf, matches[..matchesLen])
    ensures limit > 0 ==> matchesLen <= limit
    ensures limit == 0 || matchesLen < limit ==> Exhausted(Unmarked(m), buf, matches[..matchesLen])
  {
    hide Compiled, GreedySpans, FirstFrom, Occurs, LeftmostLongestSpan, Promised, PlaceTags, WellFormed, Submatches, StaysLeftmost,
        Unmarked;
    matches, matchesLen := initial, 0;
    var bufOffset := 0;
    ghost var t, ms: seq<LiteralSearch.Match> := Unmarked(m), [];
    NoSpans(m, preg, buf, offs);
    while bufOffset < |buf|
      invariant matches == initial || fresh(matches)
      invariant matchesLen + spare <= matches.Length && ms == matches[..matchesLen]
      invariant Promised(m, preg.tnfa.firstChar, buf, ms) && bufOffset == ResumeAt(ms, |ms|)
      invariant limit > 0 ==> matchesLen < limit
      decreases |buf| - bufOffset
    {
      var pmatch := RegNExec(preg, buf[bufOffset..], m, offs);
      SpanBehind(t, buf, bufOffset, pmatch);
      if pmatch.NoSpan? {
        break;
      }
      var x := LiteralSearch.Match(bufOffset + pmatch.so, bufOffset + pmatch.eo);
      OneSpanMore(m, preg.tnfa.firstChar, buf, ms, x);
      BehindSpan(t, buf, bufOffset, x);
      bufOffset := x.end;
      if x.start == x.end {
        bufOffset := bufOffset + 1;
      }
      matches := AddMatch(matches, matchesLen, spare, x);
      ms := ms + [x];
      matchesLen := matchesLen + 1;
      if limit > 0 && matchesLen >= limit {
        break;
      }
    }
    PromisedAreSpans(m, preg.tnfa.firstChar, buf, ms);
    if Submatches(m) == 1 {
      PromisedIsGreedy(m, preg, offs, buf, ms);
    }
  }

  lemma NoSpans(m: Marked, preg: Preg, buf: Word, offs: seq<nat>)
    requires Compiled(m, preg, offs)
    ensures WellFormed(PlaceTags(m).tree) && Promised(m, preg.tnfa.firstChar, buf, [])
  {
  }

  /** The search goes forward. */
  lemma BehindSpan(t: Ast, buf: Word, from: nat, m: LiteralSearch.Match)
    requires from <= m.start && Occurs(t, buf, m.start, m.end)
    ensures from <= m.start <= m.end <= |buf| && from < Resume(m)
  {
  }

  /** Without groups every match is the leftmost-longest one. */
  lemma PromisedIsGreedy(m: Marked, preg: Preg, offs: seq<nat>, buf: Word, ms: seq<LiteralSearch.Match>)
    requires Compiled(m, preg, offs) && IsBytes(buf) && Submatches(m) == 1
    requires WellFormed(PlaceTags(m).tree) && Promised(m, preg.tnfa.firstChar, buf, ms)
    ensures GreedySpans(Unmarked(m), buf, ms)
  {
    hide Compiled, FirstFrom, Occurs, WellFormed, PlaceTags, Unmarked, StaysLeftmost, Submatches;
    CompiledMeans(m, preg, offs);
    forall k | 0 <= k < |ms| ensures IsNextSpan(Unmarked(m), buf, ms, k) {
      assert PromisedAt(m, preg.tnfa.firstChar, buf, ms, k);
      PromisedAreSpans(m, preg.tnfa.firstChar, buf, ms);
      PlaceInBuffer(Unmarked(m), buf, ms, k);
      OnlyWholeStays(m, preg.tnfa, buf[ResumeAt(ms, k)..]);
    }
  }

  lemma PlaceInBuffer(t: Ast, buf: Word, ms: seq<LiteralSearch.Match>, k: nat)
    requires Spans(t, buf, ms) && k < |ms|
    ensures ResumeAt(ms, k) < |buf| && ResumeAt(ms, k) <= ms[k].start && IsPlace(ms, k, ResumeAt(ms, k))
  {
    hide Lang;
    assert IsSpan(t, buf, ms, k) && (k > 0 ==> IsSpan(t, buf, ms, k - 1));
    ResumeMeans(ms, k);
  }

  lemma GreedyAreSpans(t: Ast, buf: Word, ms: seq<LiteralSearch.Match>)
    requires GreedySpans(t, buf, ms)
    ensures Spans(t, buf, ms)
  {
    forall k | 0 <= k < |ms| ensures IsSpan(t, buf, ms, k) {
      assert IsNextSpan(t, buf, ms, k);
    }
  }

  // ----- what the list is -----

  /** There is one such list of each length. */
  lemma {:induction false} SpansAreUnique(t: Ast, buf: Word, ms: seq<LiteralSearch.Match>, ns: seq<LiteralSearch.Match>, k: nat)
    requires GreedySpans(t, buf, ms) && GreedySpans(t, buf, ns) && k <= |ms| && k <= |ns|
    ensures ms[..k] == ns[..k]
    decreases k
  {
    hide Occurs;
    if k > 0 {
      SpansAreUnique(t, buf, ms, ns, k - 1);
      if k > 1 {
        assert ms[..k - 1][k - 2] == ms[k - 2] && ns[..k - 1][k - 2] == ns[k - 2];
      }
      var h := k - 1;
      assert IsNextSpan(t, buf, ms, h) && IsNextSpan(t, buf, ns, h);
      assert forall i :: Behind(ms, h, i) <==> Behind(ns, h, i);
      assert ms[h] == ns[h];
    }
  }

  /** The matches are sorted and disjoint, and no two start at one place. */
  lemma {:induction false} SpansInOrder(t: Ast, buf: Word, ms: seq<LiteralSearch.Match>, j: nat, k: nat)
    requires Spans(t, buf, ms) && j < k < |ms|
    ensures ms[j].end <= ms[k].start && ms[j].start < ms[k].start
    decreases k
  {
    hide Occurs;
    assert IsSpan(t, buf, ms, k) && IsSpan(t, buf, ms, k - 1);
    BehindSpan(t, buf, ResumeAt(ms, k - 1), ms[k - 1]);
    if j < k - 1 {
      SpansInOrder(t, buf, ms, j, k - 1);
    }
  }

  lemma SpansSorted(t: Ast, buf: Word, ms: seq<LiteralSearch.Match>)
    requires Spans(t, buf, ms)
    ensures forall k | 0 <= k < |ms| :: ms[k].start <= ms[k].end <= |buf|
    ensures forall j, k | 0 <= j < k < |ms| :: ms[j].end <= ms[k].start && ms[j].start < ms[k].start
  {
    hide Occurs;
    forall k | 0 <= k < |ms| ensures ms[k].start <= ms[k].end <= |buf| {
      assert IsSpan(t, buf, ms, k);
      BehindSpan(t, buf, ResumeAt(ms, k), ms[k]);
    }
    forall j, k | 0 <= j < k < |ms| ensures ms[j].end <= ms[k].start && ms[j].start < ms[k].start {
      SpansInOrder(t, buf, ms, j, k);
    }
  }

  /** invert_matches can be applied to them exactly when the last one is not empty, unless it lies at the very end. */
  lemma SpansInvert(t: Ast, buf: Word, ms: seq<LiteralSearch.Match>)
    requires Spans(t, buf, ms)
    ensures InvertMatches.InOrder(ms, |buf|)
       <==> ms == [] || ms[|ms| - 1].start < ms[|ms| - 1].end || ms[|ms| - 1].start == |buf|
  {
    hide Spans;
    SpansSorted(t, buf, ms);
  }

  /** print_file_matches can be applied to them. When no match reaches over the end of a line its output is right
      exactly if the matches from one that it does not get past on lie on one line, and always when the pattern does
      not match the empty word. */
  lemma SpansPrint(t: Ast, buf: Bytes, ms: seq<LiteralSearch.Match>)
    requires Spans(t, buf, ms)
    ensures LiteralSearch.Ordered(ms, |buf|)
    ensures MatchLines.EachOnOneLine(buf, ms) ==>
      (MatchLines.Seen(buf, ms) == MatchLines.Hits(buf, ms) <==> MatchLines.BlocksOneLine(buf, ms))
    ensures MatchLines.EachOnOneLine(buf, ms) && [] !in Lang(t) ==> MatchLines.Seen(buf, ms) == MatchLines.Hits(buf, ms)
  {
    hide Spans, Lang, MatchLines.Seen, MatchLines.Hits, MatchLines.LineNo;
    SpansSorted(t, buf, ms);
    if MatchLines.EachOnOneLine(buf, ms) {
      MatchLines.OneLineExactly(buf, ms);
      if [] !in Lang(t) {
        forall c | 0 < c < |ms| ensures !MatchLines.Blocks(ms, c) {
          NotEmpty(t, buf, ms, c);
        }
      }
    }
  }

  lemma NotEmpty(t: Ast, buf: Word, ms: seq<LiteralSearch.Match>, k: nat)
    requires Spans(t, buf, ms) && k < |ms| && [] !in Lang(t)
    ensures ms[k].start < ms[k].end
  {
    hide Lang;
    assert IsSpan(t, buf, ms, k);
    var w := buf[ms[k].start..ms[k].end];
    assert |w| == 0 ==> w == [];
  }
}
