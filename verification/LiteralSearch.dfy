/** The literal half of search_buf (search.c) with realloc_matches (util.c): which stretches of the
    buffer are reported for a literal query. */
module LiteralSearch {
  import opened Text
  import BoyerMoore
  import HashSearch

  datatype Match = Match(start: nat, end: nat)

  /** Within n bytes, sorted and disjoint: the lists of matches that a search leaves. */
  predicate Ordered(ms: seq<Match>, n: nat) {
    && (forall k | 0 <= k < |ms| :: ms[k].start <= ms[k].end <= n)
    && (forall j, k | 0 <= j < k < |ms| :: ms[j].end <= ms[k].start)
  }

  const UCHAR_MAX: nat := 255

  predicate IsWordchar(c: Byte) {
    || 'a' as int <= c <= 'z' as int
    || 'A' as int <= c <= 'Z' as int
    || '0' as int <= c <= '9' as int
    || c == '_' as int
  }

  /** What the user asked for. */
  datatype Query = Query(text: Bytes, fold: bool, wordRegexp: bool, maxMatches: nat)

  predicate ValidQuery(q: Query) { |q.text| > 0 && Lowered(q.text, q.fold) }

  /** An occurrence; with word_regexp, one with a word boundary at both ends. */
  predicate Accepted(buf: Bytes, q: Query, p: int) {
    && OccursAt(buf, q.text, q.fold, p)
    && (q.wordRegexp && |q.text| > 0 ==>
          && (p == 0 || IsWordchar(buf[p - 1]) != IsWordchar(q.text[0]))
          && (p + |q.text| == |buf| || IsWordchar(buf[p + |q.text|]) != IsWordchar(q.text[|q.text| - 1])))
  }

  /** The bytes of words: letters, digits and the underscore. */
  lemma WordBytes(c: Byte)
    ensures IsWordchar(c) <==> c as char in UPPER || c as char in LOWER || c as char in "0123456789_"
  {
    forall k | 0 <= k < 26 ensures UPPER[k] as int == 'A' as int + k && LOWER[k] as int == 'a' as int + k {
      LetterAt(k);
    }
    if 'A' as int <= c <= 'Z' as int {
      LetterAt(c - 65);
    }
    if 'a' as int <= c <= 'z' as int {
      LetterAt(c - 97);
    }
    var s := "0123456789_";
    assert s[0] == '0' && s[1] == '1' && s[2] == '2' && s[3] == '3' && s[4] == '4' && s[5] == '5';
    assert s[6] == '6' && s[7] == '7' && s[8] == '8' && s[9] == '9' && s[10] == '_';
  }

  /** At one side of position i there is a byte of a word and at the other there is not, or the buffer ends there. */
  predicate AtWordEdge(buf: Bytes, i: nat)
    requires i <= |buf|
  {
    i == 0 || i == |buf| || IsWordchar(buf[i - 1]) != IsWordchar(buf[i])
  }

  /** With word_regexp an occurrence counts when both its ends are edges of words in the buffer, whatever the case. */
  lemma AcceptedAtEdges(buf: Bytes, q: Query, p: nat)
    requires ValidQuery(q)
    ensures Accepted(buf, q, p) <==>
      (OccursAt(buf, q.text, q.fold, p) && (q.wordRegexp ==> AtWordEdge(buf, p) && AtWordEdge(buf, p + |q.text|)))
  {
    if OccursAt(buf, q.text, q.fold, p) {
      assert Folded(buf[p + 0], q.fold) == q.text[0];
      assert Folded(buf[p + (|q.text| - 1)], q.fold) == q.text[|q.text| - 1];
    }
  }

  function EndBefore(ms: seq<Match>, k: nat): nat
    requires k <= |ms|
  {
    if k == 0 then 0 else ms[k - 1].end
  }

  /** The k-th match is the first accepted stretch that starts at or after the end of the one before. */
  predicate IsNext(buf: Bytes, q: Query, ms: seq<Match>, k: nat)
    requires k < |ms|
  {
    && EndBefore(ms, k) <= ms[k].start && Accepted(buf, q, ms[k].start) && ms[k].end == ms[k].start + |q.text|
    && forall p | EndBefore(ms, k) <= p < ms[k].start :: !Accepted(buf, q, p)
  }

  /** Greedy, leftmost, without overlap. */
  predicate Greedy(buf: Bytes, q: Query, ms: seq<Match>) {
    forall k | 0 <= k < |ms| :: IsNext(buf, q, ms, k)
  }

  predicate NoneBetween(buf: Bytes, q: Query, lo: nat, hi: nat) {
    forall p | lo <= p < hi :: !Accepted(buf, q, p)
  }

  /** Nothing accepted is left behind the last match, unless the limit was reached. */
  predicate Complete(buf: Bytes, q: Query, ms: seq<Match>) {
    NoneBetween(buf, q, EndBefore(ms, |ms|), |buf| + 1) || |ms| == q.maxMatches > 0
  }

  /** The answer is determined: two greedy lists that are complete are equal. */
  lemma {:induction false} GreedyIsUnique(buf: Bytes, q: Query, a: seq<Match>, b: seq<Match>, k: nat)
    requires ValidQuery(q) && Greedy(buf, q, a) && Greedy(buf, q, b)
    requires NoneBetween(buf, q, EndBefore(a, |a|), |buf| + 1) && NoneBetween(buf, q, EndBefore(b, |b|), |buf| + 1)
    requires k <= |a| && k <= |b| && a[..k] == b[..k]
    ensures a == b
    decreases |a| - k
  {
    assert EndBefore(a, k) == EndBefore(b, k) by {
      if k > 0 {
        assert a[k - 1] == a[..k][k - 1] == b[..k][k - 1] == b[k - 1];
      }
    }
    assert k < |a| ==> IsNext(buf, q, a, k);
    assert k < |b| ==> IsNext(buf, q, b, k);
    assert k < |a| <==> k < |b|;
    if k < |a| {
      assert a[k] == b[k];
      assert a[..k + 1] == a[..k] + [a[k]] == b[..k + 1];
      GreedyIsUnique(buf, q, a, b, k + 1);
    }
  }

  /** Matches never overlap, and all lie in the buffer. */
  lemma {:induction false} GreedyIsSorted(buf: Bytes, q: Query, ms: seq<Match>, i: nat, j: nat)
    requires Greedy(buf, q, ms) && i < j < |ms|
    ensures ms[i].end <= ms[j].start && ms[j].end <= |buf|
    decreases j
  {
    assert IsNext(buf, q, ms, j) && IsNext(buf, q, ms, i);
    if i < j - 1 {
      GreedyIsSorted(buf, q, ms, i, j - 1);
      assert IsNext(buf, q, ms, j - 1);
    }
  }

  // ----- the skip after a hit that is not a whole word -----

  /** Two overlapping occurrences are a period of the query apart. */
  lemma OverlapIsPeriod(buf: Bytes, q: Query, p: nat, x: nat)
    requires OccursAt(buf, q.text, q.fold, p) && OccursAt(buf, q.text, q.fold, p + x)
    ensures BoyerMoore.Period(q.text, x)
  {
    forall k: nat | x + k < |q.text| ensures q.text[k] == q.text[x + k] {
      assert Folded(buf[(p + x) + k], q.fold) == q.text[k];
      assert Folded(buf[p + (x + k)], q.fold) == q.text[x + k];
    }
  }

  /** find_skip_lookup[0] - query_len + 1 is the shortest period of the query. */
  lemma FirstSkipIsPeriod(text: Bytes, entry: int)
    requires |text| > 0 && BoyerMoore.LeastShift(text, 0, BoyerMoore.ShiftOf(text, 0, entry))
    ensures var d := entry - |text| + 1;
      1 <= d <= |text| && BoyerMoore.Period(text, d) && forall e: nat | 1 <= e < d :: !BoyerMoore.Period(text, e)
  {
    var d := entry - |text| + 1;
    BoyerMoore.FarShift(text, 0, d);
    forall e: nat | 1 <= e < d ensures !BoyerMoore.Period(text, e) {
      BoyerMoore.FarShift(text, 0, e);
    }
  }

  /** The skip passes over no occurrence. */
  lemma SkipIsSafe(buf: Bytes, q: Query, p: nat, entry: int)
    requires |q.text| > 0 && OccursAt(buf, q.text, q.fold, p)
    requires BoyerMoore.LeastShift(q.text, 0, BoyerMoore.ShiftOf(q.text, 0, entry))
    ensures var d := entry - |q.text| + 1;
      1 <= d <= |q.text| && forall r | p < r < p + d :: !OccursAt(buf, q.text, q.fold, r)
  {
    var d := entry - |q.text| + 1;
    FirstSkipIsPeriod(q.text, entry);
    forall r | p < r < p + d ensures !OccursAt(buf, q.text, q.fold, r) {
      if OccursAt(buf, q.text, q.fold, r) {
        OverlapIsPeriod(buf, q, p, r - p);
      }
    }
  }

  // ----- the search engines on the rest of the buffer -----

  lemma OccursInRest(buf: Bytes, find: Bytes, fold: bool, from: nat, p: nat)
    requires from <= |buf|
    ensures OccursAt(buf[from..], find, fold, p) <==> OccursAt(buf, find, fold, from + p)
  {
    if OccursAt(buf[from..], find, fold, p) {
      forall k | 0 <= k < |find| ensures Folded(buf[from + p + k], fold) == find[k] {
        assert buf[from..][p + k] == buf[from + p + k];
      }
    }
  }

  lemma FirstInRest(buf: Bytes, find: Bytes, fold: bool, from: nat, r: Hit)
    requires from <= |buf| && FirstOccurrence(buf[from..], find, fold, 0, r)
    ensures FirstOccurrence(buf, find, fold, from, match r case NoHit => NoHit case Hit(p) => Hit(from + p))
  {
    forall p | from <= p && (r.Hit? ==> p < from + r.pos) ensures !OccursAt(buf, find, fold, p) {
      OccursInRest(buf, find, fold, from, p - from);
    }
    if r.Hit? {
      OccursInRest(buf, find, fold, from, r.pos);
    }
  }

  /** The tables main.c has set up for the query. */
  ghost predicate Tables(q: Query, alphaSkip: array<nat>, findSkip: array<nat>, hTable: array<Byte>)
    reads alphaSkip, findSkip, hTable
  {
    && |q.text| > 0 && alphaSkip.Length == 256
    && (forall c: Byte :: BoyerMoore.AlphaEntry(q.text, |q.text| - 1, q.fold, c, alphaSkip[c]))
    && findSkip.Length == |q.text|
    && (forall j: nat | j < |q.text| :: BoyerMoore.LeastShift(q.text, j, BoyerMoore.ShiftOf(q.text, j, findSkip[j])))
    && hTable.Length == HashSearch.H_SIZE
    && (|q.text| <= 256 ==> HashSearch.Filled(q.text, hTable[..], !q.fold))
  }

  /** The set-up in main for a literal query, after lower-casing it. */
  method SetUp(q: Query, alphaSkip: array<nat>, hTable: array<Byte>) returns (findSkip: array<nat>)
    requires ValidQuery(q) && alphaSkip.Length == 256 && hTable.Length == HashSearch.H_SIZE
    requires forall h: nat | h < HashSearch.H_SIZE :: hTable[h] == 0
    requires HashSearch.TableOf(q.text, !q.fold).Some?
    modifies alphaSkip, hTable
    ensures fresh(findSkip) && Tables(q, alphaSkip, findSkip, hTable)
  {
    BoyerMoore.GenerateAlphaSkip(q.text, alphaSkip, !q.fold);
    findSkip := BoyerMoore.GenerateFindSkip(q.text, !q.fold);
    HashSearch.GenerateHash(q.text, hTable, !q.fold);
  }

  /** The next occurrence; `unaligned` says whether the platform allows the 16-bit engine. */
  method NextHit(buf: Bytes, q: Query, from: nat, unaligned: bool, alphaSkip: array<nat>, findSkip: array<nat>,
                 hTable: array<Byte>)
      returns (r: Hit)
    requires ValidQuery(q) && from <= |buf| && Tables(q, alphaSkip, findSkip, hTable)
    ensures FirstOccurrence(buf, q.text, q.fold, from, r)
  {
    var rest := buf[from..];
    if !unaligned || |q.text| < 2 * 2 - 1 || |q.text| >= UCHAR_MAX {
      r := BoyerMoore.Strnstr(rest, q.text, alphaSkip, findSkip, q.fold);
    } else {
      r := HashSearch.Strnstr(rest, q.text, hTable, !q.fold);
    }
    FirstInRest(buf, q.text, q.fold, from, r);
    if r.Hit? {
      r := Hit(from + r.pos);
    }
  }

  // ----- the growing array of matches -----

  /** realloc_matches: double when full; an array of length 0 stands for NULL. */
  method ReallocMatches(matches: array<Match>, matchesLen: nat) returns (grown: array<Match>)
    requires matchesLen <= matches.Length
    ensures grown.Length > matchesLen && grown.Length >= matches.Length && grown[..matches.Length] == matches[..]
    ensures grown == matches || fresh(grown)
  {
    if matchesLen < matches.Length {
      return matches;
    }
    var size := if matches.Length > 0 then matches.Length * 2 else 100;
    grown := new Match[size](i requires 0 <= i < size reads matches => if i < matches.Length then matches[i] else Match(0, 0));
  }

  /** One more match in the first free slot, with `spare` slots behind it. */
  method AddMatch(matches: array<Match>, matchesLen: nat, spare: nat, m: Match) returns (grown: array<Match>)
    requires matchesLen + spare <= matches.Length
    modifies matches
    ensures grown.Length >= matchesLen + 1 + spare && grown[..matchesLen + 1] == old(matches[..matchesLen]) + [m]
    ensures grown == matches || fresh(grown)
  {
    grown := ReallocMatches(matches, matchesLen + spare);
    assert grown[..matchesLen] == grown[..matches.Length][..matchesLen] == matches[..matchesLen];
    grown[matchesLen] := m;
  }

  // ----- the loop -----

  lemma GreedyMore(buf: Bytes, q: Query, ms: seq<Match>, from: nat, p: nat)
    requires ValidQuery(q) && Greedy(buf, q, ms) && EndBefore(ms, |ms|) <= from <= p
    requires NoneBetween(buf, q, EndBefore(ms, |ms|), from) && Accepted(buf, q, p)
    requires forall r | from <= r < p :: !OccursAt(buf, q.text, q.fold, r)
    ensures Greedy(buf, q, ms + [Match(p, p + |q.text|)])
  {
    var all := ms + [Match(p, p + |q.text|)];
    forall k | 0 <= k < |all| ensures IsNext(buf, q, all, k) {
      assert EndBefore(all, k) == EndBefore(ms, k);
      if k < |ms| {
        assert IsNext(buf, q, ms, k);
        assert all[k] == ms[k];
      }
    }
  }

  /** Whether a hit lies on word boundaries. */
  method OnBoundaries(buf: Bytes, q: Query, p: nat) returns (yes: bool)
    requires ValidQuery(q) && OccursAt(buf, q.text, q.fold, p) && q.wordRegexp
    ensures yes <==> Accepted(buf, q, p)
  {
    var startsWordchar, endsWordchar := IsWordchar(q.text[0]), IsWordchar(q.text[|q.text| - 1]);
    var end := p + |q.text|;
    yes := (p == 0 || IsWordchar(buf[p - 1]) != startsWordchar) && (end == |buf| || IsWordchar(buf[end]) != endsWordchar);
  }

  /** The matches found so far, when the search stands at `from`. */
  predicate Searching(buf: Bytes, q: Query, ms: seq<Match>, from: nat) {
    Greedy(buf, q, ms) && EndBefore(ms, |ms|) <= from <= |buf| && NoneBetween(buf, q, EndBefore(ms, |ms|), from)
  }

  lemma SearchBegins(buf: Bytes, q: Query)
    ensures Searching(buf, q, [], 0)
  {
  }

  /** Nothing more is found. */
  lemma SearchEnds(buf: Bytes, q: Query, ms: seq<Match>, from: nat)
    requires ValidQuery(q) && Searching(buf, q, ms, from)
    requires from == |buf| || FirstOccurrence(buf, q.text, q.fold, from, NoHit)
    ensures Greedy(buf, q, ms) && Complete(buf, q, ms)
  {
  }

  /** A hit that is not on word boundaries. */
  lemma HitRejected(buf: Bytes, q: Query, ms: seq<Match>, from: nat, p: nat, entry: int)
    requires ValidQuery(q) && Searching(buf, q, ms, from) && FirstOccurrence(buf, q.text, q.fold, from, Hit(p)) && !Accepted(buf, q, p)
    requires BoyerMoore.LeastShift(q.text, 0, BoyerMoore.ShiftOf(q.text, 0, entry))
    ensures var next := p + (entry - |q.text| + 1); from < next && Searching(buf, q, ms, next)
  {
    hide BoyerMoore.LeastShift, BoyerMoore.ShiftOf;
    SkipIsSafe(buf, q, p, entry);
  }

  /** A match. */
  lemma HitAccepted(buf: Bytes, q: Query, ms: seq<Match>, from: nat, p: nat)
    requires ValidQuery(q) && Searching(buf, q, ms, from) && FirstOccurrence(buf, q.text, q.fold, from, Hit(p)) && Accepted(buf, q, p)
    ensures var m := Match(p, p + |q.text|); from < m.end && Searching(buf, q, ms + [m], m.end)
  {
    GreedyMore(buf, q, ms, from, p);
  }

  /** The first entry of the skip table. */
  lemma FirstEntry(q: Query, alphaSkip: array<nat>, findSkip: array<nat>, hTable: array<Byte>)
    requires Tables(q, alphaSkip, findSkip, hTable)
    ensures findSkip.Length > 0 && BoyerMoore.LeastShift(q.text, 0, BoyerMoore.ShiftOf(q.text, 0, findSkip[0]))
  {
  }

  /** The loop of search_buf for a literal query. */
  method SearchLiteral(buf: Bytes, q: Query, unaligned: bool, spare: nat, initial: array<Match>,
                       alphaSkip: array<nat>, findSkip: array<nat>, hTable: array<Byte>)
      returns (matches: array<Match>, matchesLen: nat)
    requires ValidQuery(q) && Tables(q, alphaSkip, findSkip, hTable)
    requires spare <= initial.Length
    modifies initial
    ensures matches.Length >= matchesLen + spare && (matches == initial || fresh(matches))
    ensures Greedy(buf, q, matches[..matchesLen]) && Complete(buf, q, matches[..matchesLen])
    ensures q.maxMatches > 0 ==> matchesLen <= q.maxMatches
  {
    hide Searching, Greedy, Complete, Accepted, Tables, FirstOccurrence, OccursAt, BoyerMoore.LeastShift, BoyerMoore.ShiftOf;
    matches, matchesLen := initial, 0;
    var bufOffset := 0;
    ghost var ms: seq<Match> := [];
    SearchBegins(buf, q);
    while bufOffset < |buf|
      invariant matches == initial || fresh(matches)
      invariant matchesLen + spare <= matches.Length && ms == matches[..matchesLen]
      invariant Tables(q, alphaSkip, findSkip, hTable)
      invariant bufOffset <= |buf| && Searching(buf, q, ms, bufOffset)
      invariant q.maxMatches > 0 ==> matchesLen < q.maxMatches
      decreases |buf| - bufOffset
    {
      var r := NextHit(buf, q, bufOffset, unaligned, alphaSkip, findSkip, hTable);
      if r.NoHit? {
        SearchEnds(buf, q, ms, bufOffset);
        return;
      }
      FirstHit(buf, q, bufOffset, r.pos);
      if q.wordRegexp {
        var yes := OnBoundaries(buf, q, r.pos);
        if !yes {
          FirstEntry(q, alphaSkip, findSkip, hTable);
          HitRejected(buf, q, ms, bufOffset, r.pos, findSkip[0]);
          bufOffset := r.pos + (findSkip[0] - |q.text| + 1);
          InSearch(buf, q, ms, bufOffset);
          continue;
        }
      }
      HitAccepted(buf, q, ms, bufOffset, r.pos);
      var m := Match(r.pos, r.pos + |q.text|);
      matches := AddMatch(matches, matchesLen, spare, m);
      ms := ms + [m];
      matchesLen := matchesLen + 1;
      bufOffset := m.end;
      InSearch(buf, q, ms, bufOffset);
      if q.maxMatches > 0 && matchesLen >= q.maxMatches {
        LimitReached(buf, q, ms);
        return;
      }
    }
    SearchEnds(buf, q, ms, bufOffset);
  }

  lemma FirstHit(buf: Bytes, q: Query, from: nat, p: nat)
    requires FirstOccurrence(buf, q.text, q.fold, from, Hit(p))
    ensures OccursAt(buf, q.text, q.fold, p) && (!q.wordRegexp ==> Accepted(buf, q, p))
  {
  }

  lemma InSearch(buf: Bytes, q: Query, ms: seq<Match>, from: nat)
    requires Searching(buf, q, ms, from)
    ensures from <= |buf| && Greedy(buf, q, ms)
  {
  }

  lemma LimitReached(buf: Bytes, q: Query, ms: seq<Match>)
    requires |ms| == q.maxMatches > 0
    ensures Complete(buf, q, ms)
  {
  }
}
