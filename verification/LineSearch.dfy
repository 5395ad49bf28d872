/** The loop of search_buf (search.c) for a regular expression that is matched line by line, with buf_getline
    (util.c): what it finds is right, but where it says it found it is right only for the first match of a line, as
    it counts the offset within the line twice. */
module LineSearch {
  import opened Text
  import opened Lines
  import opened TreAst
  import opened TreParallel
  import opened TreMarked
  import opened TreSubmatches
  import opened TreMatch
  import opened TreGroups
  import opened LiteralSearch

  /** Where the line that begins at i ends: at its newline, or at the end of the buffer. */
  function LineEnd(buf: Bytes, i: nat): (r: nat)
    requires i <= |buf|
    ensures i <= r <= |buf| && (r < |buf| ==> buf[r] == NEWLINE) && forall j | i <= j < r :: buf[j] != NEWLINE
    decreases |buf| - i
  {
    if i == |buf| || buf[i] == NEWLINE then i else LineEnd(buf, i + 1)
  }

  /** buf_getline. */
  method GetLine(buf: Bytes, offset: nat) returns (len: nat)
    requires offset <= |buf|
    ensures offset + len == LineEnd(buf, offset)
  {
    len := 0;
    while offset + len < |buf| && buf[offset + len] != NEWLINE
      invariant offset + len <= |buf| && LineEnd(buf, offset + len) == LineEnd(buf, offset)
    {
      len := len + 1;
    }
  }

  // ----- what is found -----

  /** A match at [start, end), found when the line at `line` was searched from its offset `from` on. */
  datatype Found = Found(line: nat, from: nat, start: nat, end: nat)

  function Rest(buf: Bytes, line: nat, from: nat): Bytes
    requires line <= |buf| && line + from <= LineEnd(buf, line)
  {
    buf[line + from..LineEnd(buf, line)]
  }

  /** There is more of this line to search. */
  predicate InLine(buf: Bytes, line: nat, from: nat) { line < |buf| && line + from < LineEnd(buf, line) }

  /** Nothing is found in the rest of the line. */
  ghost predicate NoneHere(m: Marked, firstChar: int, buf: Bytes, line: nat, from: nat)
    requires WellFormed(PlaceTags(m).tree)
  {
    InLine(buf, line, from) ==> SpanOfGroups(m, firstChar, Rest(buf, line, from), NoSpan)
  }

  ghost predicate FoundHere(m: Marked, firstChar: int, buf: Bytes, f: Found)
    requires WellFormed(PlaceTags(m).tree)
  {
    && InLine(buf, f.line, f.from) && f.line + f.from <= f.start <= f.end
    && SpanOfGroups(m, firstChar, Rest(buf, f.line, f.from), Span(f.start - f.line - f.from, f.end - f.line - f.from))
  }

  /** f is what is found next, in this line or in a later one. */
  ghost predicate IsNextFound(m: Marked, firstChar: int, buf: Bytes, line: nat, from: nat, f: Found)
    requires WellFormed(PlaceTags(m).tree)
    decreases |buf| - line
  {
    && line < |buf|
    && if f.line == line then f.from == from && FoundHere(m, firstChar, buf, f)
       else NoneHere(m, firstChar, buf, line, from) && IsNextFound(m, firstChar, buf, LineEnd(buf, line) + 1, 0, f)
  }

  ghost predicate NoneFound(m: Marked, firstChar: int, buf: Bytes, line: nat, from: nat)
    requires WellFormed(PlaceTags(m).tree)
    decreases |buf| - line
  {
    line < |buf| ==> NoneHere(m, firstChar, buf, line, from) && NoneFound(m, firstChar, buf, LineEnd(buf, line) + 1, 0)
  }

  /** Where the line is searched behind match k - 1. */
  function LineAt(found: seq<Found>, k: nat): nat
    requires k <= |found|
  {
    if k == 0 then 0 else found[k - 1].line
  }

  function FromAt(found: seq<Found>, k: nat): int
    requires k <= |found|
  {
    if k == 0 then 0 else Behind(found[k - 1])
  }

  function Behind(f: Found): int { f.end - f.line + if f.start == f.end then 1 else 0 }

  ghost predicate IsFound(m: Marked, firstChar: int, buf: Bytes, found: seq<Found>, k: nat)
    requires WellFormed(PlaceTags(m).tree) && k < |found|
  {
    FromAt(found, k) >= 0 && IsNextFound(m, firstChar, buf, LineAt(found, k), FromAt(found, k), found[k])
  }

  ghost predicate AllFound(m: Marked, firstChar: int, buf: Bytes, found: seq<Found>)
    requires WellFormed(PlaceTags(m).tree)
  {
    forall k | 0 <= k < |found| :: IsFound(m, firstChar, buf, found, k)
  }

  /** What search_buf writes down: the offset within the line is in `start` already, and is added again. */
  function Reported(f: Found): LiteralSearch.Match { LiteralSearch.Match(f.start + f.from, f.end + f.from) }

  predicate AreReported(ms: seq<LiteralSearch.Match>, found: seq<Found>) {
    |ms| == |found| && forall k | 0 <= k < |ms| :: ms[k] == Reported(found[k])
  }

  lemma OneReportedMore(ms: seq<LiteralSearch.Match>, found: seq<Found>, f: Found, x: LiteralSearch.Match, all: seq<LiteralSearch.Match>)
    requires AreReported(ms, found) && x == Reported(f) && all == ms + [x]
    ensures AreReported(all, found + [f])
  {
  }

  // ----- the loop -----

  /** The state (line, from) is reached from the last match without finding anything. */
  ghost predicate Reaches(m: Marked, firstChar: int, buf: Bytes, found: seq<Found>, line: nat, from: nat)
    requires WellFormed(PlaceTags(m).tree)
  {
    && FromAt(found, |found|) >= 0
    && (forall f :: IsNextFound(m, firstChar, buf, line, from, f) ==> IsNextFound(m, firstChar, buf, LineAt(found, |found|), FromAt(found, |found|), f))
    && (NoneFound(m, firstChar, buf, line, from) ==> NoneFound(m, firstChar, buf, LineAt(found, |found|), FromAt(found, |found|)))
  }

  lemma AtStart(m: Marked, firstChar: int, buf: Bytes)
    requires WellFormed(PlaceTags(m).tree)
    ensures AllFound(m, firstChar, buf, []) && Reaches(m, firstChar, buf, [], 0, 0)
  {
  }

  /** Nothing more in this line. */
  lemma NextLine(m: Marked, firstChar: int, buf: Bytes, found: seq<Found>, line: nat, from: nat)
    requires WellFormed(PlaceTags(m).tree) && Reaches(m, firstChar, buf, found, line, from)
    requires line < |buf| && NoneHere(m, firstChar, buf, line, from)
    ensures Reaches(m, firstChar, buf, found, LineEnd(buf, line) + 1, 0)
  {
    hide NoneHere, FoundHere;
    var next := LineEnd(buf, line) + 1;
    forall f | IsNextFound(m, firstChar, buf, next, 0, f)
      ensures IsNextFound(m, firstChar, buf, LineAt(found, |found|), FromAt(found, |found|), f)
    {
      LaterLine(m, firstChar, buf, next, 0, f);
      assert IsNextFound(m, firstChar, buf, line, from, f);
    }
  }

  lemma {:induction false} LaterLine(m: Marked, firstChar: int, buf: Bytes, line: nat, from: nat, f: Found)
    requires WellFormed(PlaceTags(m).tree) && IsNextFound(m, firstChar, buf, line, from, f)
    ensures f.line >= line && FoundHere(m, firstChar, buf, f) && (f.line > line ==> f.from == 0) && (f.line == line ==> f.from == from)
    decreases |buf| - line
  {
    hide FoundHere, NoneHere;
    if f.line != line {
      LaterLine(m, firstChar, buf, LineEnd(buf, line) + 1, 0, f);
    }
  }

  /** One more match. */
  lemma OneFoundMore(m: Marked, firstChar: int, buf: Bytes, found: seq<Found>, f: Found)
    requires WellFormed(PlaceTags(m).tree) && AllFound(m, firstChar, buf, found) && Reaches(m, firstChar, buf, found, f.line, f.from)
    requires FoundHere(m, firstChar, buf, f)
    ensures AllFound(m, firstChar, buf, found + [f]) && Behind(f) >= 0 && Reaches(m, firstChar, buf, found + [f], f.line, Behind(f))
  {
    hide FoundHere, NoneHere;
    var all := found + [f];
    InThisLine(m, firstChar, buf, f);
    assert IsNextFound(m, firstChar, buf, f.line, f.from, f);
    forall k | 0 <= k < |all| ensures IsFound(m, firstChar, buf, all, k) {
      assert LineAt(all, k) == LineAt(found, k) && FromAt(all, k) == FromAt(found, k);
      if k < |found| {
        assert IsFound(m, firstChar, buf, found, k);
      }
    }
  }

  lemma InThisLine(m: Marked, firstChar: int, buf: Bytes, f: Found)
    requires WellFormed(PlaceTags(m).tree) && FoundHere(m, firstChar, buf, f)
    ensures f.line < |buf| && f.from < Behind(f) && f.line + f.from <= f.start <= f.end <= LineEnd(buf, f.line)
    ensures Occurs(Unmarked(m), buf, f.start, f.end)
  {
    hide LineEnd, Occurs, SpanOfGroups, WellFormed, PlaceTags, Unmarked;
    var rest, at := Rest(buf, f.line, f.from), f.line + f.from;
    SpanIsInside(m, firstChar, rest, Span(f.start - at, f.end - at));
    OccursInRest(Unmarked(m), buf, at, LineEnd(buf, f.line), f.start - at, f.end - at);
  }

  lemma OccursInRest(t: Ast, buf: Word, lo: nat, hi: nat, i: nat, j: nat)
    requires lo <= hi <= |buf| && Occurs(t, buf[lo..hi], i, j)
    ensures lo + j <= hi && Occurs(t, buf, lo + i, lo + j)
  {
    hide Lang;
    var rest := buf[lo..hi];
    assert |rest[i..j]| == |buf[lo + i..lo + j]| && forall k | 0 <= k < j - i :: rest[i..j][k] == rest[i + k] == buf[lo + i + k];
    assert rest[i..j] == buf[lo + i..lo + j];
  }

  /** The matcher on the rest of a line. */
  method MatchRest(preg: Preg, buf: Bytes, line: nat, from: nat, lineLen: nat, ghost m: Marked, ghost offs: seq<nat>, ghost found: seq<Found>)
      returns (pmatch: Span, ghost f: Found)
    requires Compiled(m, preg, offs) && line < |buf| && line + lineLen == LineEnd(buf, line) && from < lineLen
    requires WellFormed(PlaceTags(m).tree) && AllFound(m, preg.tnfa.firstChar, buf, found)
    requires Reaches(m, preg.tnfa.firstChar, buf, found, line, from)
    ensures pmatch.NoSpan? ==> NoneHere(m, preg.tnfa.firstChar, buf, line, from)
    ensures pmatch.Span? ==> 0 <= pmatch.so <= pmatch.eo && f == Found(line, from, line + from + pmatch.so, line + from + pmatch.eo)
    ensures pmatch.Span? ==> f.end <= line + lineLen && 0 <= from < Behind(f)
    ensures pmatch.Span? ==> AllFound(m, preg.tnfa.firstChar, buf, found + [f])
    ensures pmatch.Span? ==> Reaches(m, preg.tnfa.firstChar, buf, found + [f], line, Behind(f))
  {
    hide Compiled, AllFound, Reaches, NoneHere, FoundHere, SpanOfGroups, PlaceTags, WellFormed, Unmarked, Occurs, Rest, LineEnd;
    ghost var firstChar := preg.tnfa.firstChar;
    RestMeans(buf, line, from);
    pmatch := RegNExec(preg, buf[line + from..line + lineLen], m, offs);
    f := Found(line, from, 0, 0);
    if pmatch.NoSpan? {
      NoneIsHere(m, firstChar, buf, line, from);
    } else {
      SpanIsInside(m, firstChar, Rest(buf, line, from), pmatch);
      f := Found(line, from, line + from + pmatch.so, line + from + pmatch.eo);
      IsHere(m, firstChar, buf, f);
      InThisLine(m, firstChar, buf, f);
      OneFoundMore(m, firstChar, buf, found, f);
    }
  }

  /** The loop of search_buf without the multiline option. */
  method SearchLines(preg: Preg, buf: Bytes, limit: nat, spare: nat, initial: array<LiteralSearch.Match>, ghost m: Marked, ghost offs: seq<nat>)
      returns (matches: array<LiteralSearch.Match>, matchesLen: nat, ghost found: seq<Found>)
    requires Compiled(m, preg, offs) && spare <= initial.Length
    modifies initial
    ensures matches.Length >= matchesLen + spare && (matches == initial || fresh(matches))
    ensures WellFormed(PlaceTags(m).tree) && AllFound(m, preg.tnfa.firstChar, buf, found)
    ensures |found| == matchesLen && AreReported(matches[..matchesLen], found)
    ensures limit > 0 ==> matchesLen <= limit
    ensures FromAt(found, matchesLen) >= 0
    ensures limit == 0 || matchesLen < limit ==>
      NoneFound(m, preg.tnfa.firstChar, buf, LineAt(found, matchesLen), FromAt(found, matchesLen))
  {
    hide LineEnd, Compiled, AllFound, Reaches, NoneFound, NoneHere, FoundHere, SpanOfGroups, PlaceTags, WellFormed, Unmarked, FromAt, Occurs,
        AreReported, Rest;
    ghost var firstChar := preg.tnfa.firstChar;
    matches, matchesLen, found := initial, 0, [];
    var bufOffset := 0;
    CompiledMeans(m, preg, offs);
    AtStart(m, firstChar, buf);
    NothingReported();
    while bufOffset < |buf|
      invariant matches == initial || fresh(matches)
      invariant matchesLen + spare <= matches.Length && |found| == matchesLen
      invariant AreReported(matches[..matchesLen], found)
      invariant AllFound(m, firstChar, buf, found) && Reaches(m, firstChar, buf, found, bufOffset, 0)
      invariant limit > 0 ==> matchesLen < limit
      decreases |buf| - bufOffset
    {
      var lineLen := GetLine(buf, bufOffset);
      var lineOffset := 0;
      while lineOffset < lineLen
        invariant matches == initial || fresh(matches)
        invariant matchesLen + spare <= matches.Length && |found| == matchesLen
        invariant AreReported(matches[..matchesLen], found)
        invariant AllFound(m, firstChar, buf, found) && Reaches(m, firstChar, buf, found, bufOffset, lineOffset)
        invariant limit > 0 ==> matchesLen < limit
        decreases lineLen - lineOffset
      {
        var pmatch;
        ghost var f;
        pmatch, f := MatchRest(preg, buf, bufOffset, lineOffset, lineLen, m, offs, found);
        if pmatch.NoSpan? {
          break;
        }
        var start, end := lineOffset + pmatch.so, lineOffset + pmatch.eo;
        var lineToBuf := bufOffset + lineOffset;
        lineOffset := end;
        if start == end {
          lineOffset := lineOffset + 1;
        }
        ghost var ms := matches[..matchesLen];
        var x := LiteralSearch.Match(start + lineToBuf, end + lineToBuf);
        matches := AddMatch(matches, matchesLen, spare, x);
        OneReportedMore(ms, found, f, x, matches[..matchesLen + 1]);
        found := found + [f];
        matchesLen := matchesLen + 1;
        if limit > 0 && matchesLen >= limit {
          FromReached(m, firstChar, buf, found, bufOffset, lineOffset);
          return;
        }
      }
      if lineOffset >= lineLen {
        LineIsDone(m, firstChar, buf, bufOffset, lineOffset);
      }
      NextLine(m, firstChar, buf, found, bufOffset, lineOffset);
      bufOffset := bufOffset + lineLen + 1;
    }
    NoLineLeft(m, firstChar, buf, found, bufOffset);
  }

  lemma RestMeans(buf: Bytes, line: nat, from: nat)
    requires line <= |buf| && line + from <= LineEnd(buf, line)
    ensures Rest(buf, line, from) == buf[line + from..LineEnd(buf, line)] && IsBytes(Rest(buf, line, from))
  {
  }

  lemma NothingReported()
    ensures AreReported([], [])
  {
  }

  lemma NoneIsHere(m: Marked, firstChar: int, buf: Bytes, line: nat, from: nat)
    requires WellFormed(PlaceTags(m).tree) && InLine(buf, line, from) && SpanOfGroups(m, firstChar, Rest(buf, line, from), NoSpan)
    ensures NoneHere(m, firstChar, buf, line, from)
  {
  }

  lemma LineIsDone(m: Marked, firstChar: int, buf: Bytes, line: nat, from: nat)
    requires WellFormed(PlaceTags(m).tree) && line < |buf| && !InLine(buf, line, from)
    ensures NoneHere(m, firstChar, buf, line, from)
  {
  }

  lemma IsHere(m: Marked, firstChar: int, buf: Bytes, f: Found)
    requires WellFormed(PlaceTags(m).tree) && InLine(buf, f.line, f.from) && f.line + f.from <= f.start <= f.end
    requires SpanOfGroups(m, firstChar, Rest(buf, f.line, f.from), Span(f.start - f.line - f.from, f.end - f.line - f.from))
    ensures FoundHere(m, firstChar, buf, f)
  {
  }

  lemma FromReached(m: Marked, firstChar: int, buf: Bytes, found: seq<Found>, line: nat, from: nat)
    requires WellFormed(PlaceTags(m).tree) && Reaches(m, firstChar, buf, found, line, from)
    ensures FromAt(found, |found|) >= 0
  {
  }

  lemma NoLineLeft(m: Marked, firstChar: int, buf: Bytes, found: seq<Found>, line: nat)
    requires WellFormed(PlaceTags(m).tree) && Reaches(m, firstChar, buf, found, line, 0) && line >= |buf|
    ensures FromAt(found, |found|) >= 0 && NoneFound(m, firstChar, buf, LineAt(found, |found|), FromAt(found, |found|))
  {
  }

  /** The first position that is not before the end of a match, and is behind its start. */
  predicate IsPlaceBehind(f: Found, p: int) {
    f.end <= p && f.start < p && !(f.end <= p - 1 && f.start < p - 1)
  }

  lemma BehindMeans(f: Found, p: int)
    requires f.line <= f.start <= f.end
    ensures IsPlaceBehind(f, p) <==> p == f.line + Behind(f)
  {
  }

  /** A line is searched from its start on, and again from behind each match in it; the last line from behind the last
      match on. */
  lemma SearchedFrom(m: Marked, firstChar: int, buf: Bytes, found: seq<Found>, k: nat)
    requires WellFormed(PlaceTags(m).tree) && AllFound(m, firstChar, buf, found) && k <= |found|
    ensures k < |found| && (k == 0 || found[k - 1].line < found[k].line) ==> found[k].from == 0
    ensures k < |found| && k > 0 && found[k - 1].line == found[k].line ==> IsPlaceBehind(found[k - 1], found[k].line + found[k].from)
    ensures k > 0 ==> LineAt(found, k) == found[k - 1].line && IsPlaceBehind(found[k - 1], LineAt(found, k) + FromAt(found, k))
  {
    hide FoundHere, NoneHere, IsNextFound, Occurs;
    if k > 0 {
      assert IsFound(m, firstChar, buf, found, k - 1);
      LaterLine(m, firstChar, buf, LineAt(found, k - 1), FromAt(found, k - 1), found[k - 1]);
      InThisLine(m, firstChar, buf, found[k - 1]);
      BehindMeans(found[k - 1], found[k - 1].line + Behind(found[k - 1]));
    }
    if k < |found| {
      assert IsFound(m, firstChar, buf, found, k);
      LaterLine(m, firstChar, buf, LineAt(found, k), FromAt(found, k), found[k]);
    }
  }

  // ----- what is reported -----

  /** A match is reported where it is exactly when it is the first one of its line. */
  lemma FirstOfLine(m: Marked, firstChar: int, buf: Bytes, found: seq<Found>, k: nat)
    requires WellFormed(PlaceTags(m).tree) && AllFound(m, firstChar, buf, found) && k < |found|
    ensures Occurs(Unmarked(m), buf, found[k].start, found[k].end)
    ensures Reported(found[k]) == LiteralSearch.Match(found[k].start, found[k].end) <==> k == 0 || found[k - 1].line < found[k].line
    ensures k > 0 ==> found[k - 1].line <= found[k].line
  {
    hide FoundHere, NoneHere, IsNextFound, Occurs;
    assert IsFound(m, firstChar, buf, found, k);
    LaterLine(m, firstChar, buf, LineAt(found, k), FromAt(found, k), found[k]);
    InThisLine(m, firstChar, buf, found[k]);
    if k > 0 {
      assert IsFound(m, firstChar, buf, found, k - 1);
      LaterLine(m, firstChar, buf, LineAt(found, k - 1), FromAt(found, k - 1), found[k - 1]);
      InThisLine(m, firstChar, buf, found[k - 1]);
    }
  }

  /** So the list is right exactly when no line has two matches. */
  lemma RightExactly(m: Marked, firstChar: int, buf: Bytes, found: seq<Found>)
    requires WellFormed(PlaceTags(m).tree) && AllFound(m, firstChar, buf, found)
    ensures (forall k | 0 <= k < |found| :: Reported(found[k]) == LiteralSearch.Match(found[k].start, found[k].end))
       <==> (forall j, k | 0 <= j < k < |found| :: found[j].line != found[k].line)
  {
    hide AllFound, Occurs;
    forall k | 0 <= k < |found|
      ensures Reported(found[k]) == LiteralSearch.Match(found[k].start, found[k].end) <==> k == 0 || found[k - 1].line < found[k].line
    {
      FirstOfLine(m, firstChar, buf, found, k);
    }
    if forall k | 0 <= k < |found| :: Reported(found[k]) == LiteralSearch.Match(found[k].start, found[k].end) {
      forall j, k | 0 <= j < k < |found| ensures found[j].line != found[k].line {
        assert Reported(found[k]) == LiteralSearch.Match(found[k].start, found[k].end);
        LinesGoUp(m, firstChar, buf, found, j, k - 1);
      }
    }
    if forall j, k | 0 <= j < k < |found| :: found[j].line != found[k].line {
      forall k | 0 <= k < |found| ensures Reported(found[k]) == LiteralSearch.Match(found[k].start, found[k].end) {
        if k > 0 {
          LinesGoUp(m, firstChar, buf, found, k - 1, k);
          assert found[k - 1].line != found[k].line;
        }
        FirstOfLine(m, firstChar, buf, found, k);
      }
    }
  }

  lemma {:induction false} LinesGoUp(m: Marked, firstChar: int, buf: Bytes, found: seq<Found>, j: nat, k: nat)
    requires WellFormed(PlaceTags(m).tree) && AllFound(m, firstChar, buf, found) && j <= k < |found|
    ensures found[j].line <= found[k].line
    decreases k
  {
    hide AllFound, Occurs, Reported;
    if j < k {
      FirstOfLine(m, firstChar, buf, found, k);
      LinesGoUp(m, firstChar, buf, found, j, k - 1);
    }
  }

  // ----- a match reported where there is none -----

  /** The pattern `x`. */
  function OneByte(): Marked { Marked(Lit(120, 120), 0) }

  /** The bytes of "xx". */
  const TWICE: Bytes := [120, 120]

  const BOTH := [Found(0, 0, 0, 1), Found(0, 1, 1, 2)]

  lemma OneByteOccurs(s: Word, i: int, j: int)
    ensures Occurs(Unmarked(OneByte()), s, i, j) <==> 0 <= i && j == i + 1 <= |s| && s[i] == 120
  {
  }

  lemma OneByteLongest(s: Word)
    requires |s| > 0 && s[0] == 120
    ensures LeftmostLongestSpan(Unmarked(OneByte()), s, Span(0, 1)) && Submatches(OneByte()) == 1 && OneByte().id == 0
  {
    hide Occurs;
    forall i, j ensures Occurs(Unmarked(OneByte()), s, i, j) <==> 0 <= i && j == i + 1 <= |s| && s[i] == 120 {
      OneByteOccurs(s, i, j);
    }
  }

  lemma OneByteFound(preg: Preg, offs: seq<nat>, s: Bytes)
    requires Compiled(OneByte(), preg, offs) && WellFormed(PlaceTags(OneByte()).tree) && |s| > 0 && s[0] == 120
    ensures SpanOfGroups(OneByte(), preg.tnfa.firstChar, s, Span(0, 1))
  {
    hide *;
    CompiledMeans(OneByte(), preg, offs);
    OneByteLongest(s);
    AreBytes(s);
    OnlyWholeStays(OneByte(), preg.tnfa, s);
    IsSpanOfGroups(OneByte(), preg.tnfa.firstChar, s, Span(0, 1));
  }

  lemma AreBytes(s: Bytes)
    ensures IsBytes(s)
  {
  }

  lemma IsSpanOfGroups(m: Marked, firstChar: int, s: Word, span: Span)
    requires WellFormed(PlaceTags(m).tree) && LeftmostLongestSpan(Unmarked(m), s, span) && StaysLeftmost(m, firstChar, s)
    ensures SpanOfGroups(m, firstChar, s, span)
  {
    hide StaysLeftmost, WellFormed, PlaceTags, Occurs;
  }

  lemma TwiceIsOneLine()
    ensures LineEnd(TWICE, 0) == 2 && Rest(TWICE, 0, 0) == TWICE && Rest(TWICE, 0, 1) == [120]
  {
    assert LineEnd(TWICE, 2) == 2 && LineEnd(TWICE, 1) == 2;
  }

  /** Both matches are found, and the second one is reported behind the end of the buffer. */
  lemma SecondIsElsewhere(preg: Preg, offs: seq<nat>)
    requires Compiled(OneByte(), preg, offs) && WellFormed(PlaceTags(OneByte()).tree)
    ensures AllFound(OneByte(), preg.tnfa.firstChar, TWICE, BOTH) && NoneFound(OneByte(), preg.tnfa.firstChar, TWICE, 0, 2)
    ensures AreReported([LiteralSearch.Match(0, 1), LiteralSearch.Match(2, 3)], BOTH)
  {
    hide Compiled, SpanOfGroups, PlaceTags, WellFormed, LineEnd, Rest;
    TwiceIsOneLine();
    OneByteFound(preg, offs, TWICE);
    OneByteFound(preg, offs, [120]);
    assert NoneHere(OneByte(), preg.tnfa.firstChar, TWICE, 0, 2);
    forall k | 0 <= k < |BOTH| ensures IsFound(OneByte(), preg.tnfa.firstChar, TWICE, BOTH, k) {
      assert k == 0 || k == 1;
    }
  }
}
