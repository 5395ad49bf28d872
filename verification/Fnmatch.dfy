/** Glob matching of path names (ag_fnmatch, infnmatch.c, with FNM_PATHNAME alone).

    `Matches` is the short definition (section 2.13 of the Shell Command Language, IEEE Std
    1003.1-2008): a star stands for any run of characters other than slash, a slash for a slash,
    every other element for one character other than slash.  The C code never backtracks over more
    than one star; the contract of `AgFnmatch` says that it loses no match by this. */
module Fnmatch {
  import opened FnmatchChar

  predicate NoSlash(s: string, j: nat, k: nat) { forall h | j <= h < k && h < |s| :: s[h] != '/' }

  function AfterSlash(p: string, i: nat): nat { if At(p, i) == '/' then i + 1 else i + 2 }

  /** The pattern from index i matches the string from index j. */
  ghost predicate Matches(p: string, i: nat, s: string, j: nat)
    requires i <= |p|
    decreases |p| - i
  {
    if i == |p| then j == |s|
    else if p[i] == '*' then exists k: nat :: j <= k <= |s| && NoSlash(s, j, k) && Matches(p, i + 1, s, k)
    else if SlashAt(p, i) then j < |s| && s[j] == '/' && Matches(p, AfterSlash(p, i), s, j + 1)
    else j < |s| && s[j] != '/' && Fits(p, i, s[j]) && Matches(p, Skip(p, i), s, j + 1)
  }

  /** A star in front of the pattern from index i. */
  ghost predicate StarMatches(p: string, i: nat, s: string, j: nat)
    requires i <= |p|
  {
    exists k: nat :: j <= k <= |s| && NoSlash(s, j, k) && Matches(p, i, s, k)
  }

  /** `end` is where the segment of index j ends. */
  predicate SegmentEnd(s: string, j: nat, end: nat) {
    j <= end <= |s| && NoSlash(s, j, end) && (end < |s| ==> s[end] == '/')
  }

  // ----- stars -----

  lemma StarStays(p: string, i: nat, s: string, j: nat, k: nat)
    requires i <= |p| && j <= k <= |s| && NoSlash(s, j, k) && StarMatches(p, i, s, k)
    ensures StarMatches(p, i, s, j)
  {
    var h: nat :| k <= h <= |s| && NoSlash(s, k, h) && Matches(p, i, s, h);
    assert NoSlash(s, j, h);
  }

  lemma StarSelf(p: string, i: nat, s: string, j: nat)
    requires i <= |p| && Matches(p, i, s, j) && j <= |s|
    ensures StarMatches(p, i, s, j)
  {
    assert NoSlash(s, j, j);
  }

  lemma StarOfMatch(p: string, i: nat, s: string, j: nat, k: nat)
    requires i <= |p| && j <= k <= |s| && NoSlash(s, j, k) && Matches(p, i, s, k)
    ensures StarMatches(p, i, s, j)
  {
  }

  /** Two stars are one. */
  lemma TwoStars(p: string, i: nat, s: string, j: nat)
    requires i < |p| && p[i] == '*'
    ensures StarMatches(p, i, s, j) <==> StarMatches(p, i + 1, s, j)
  {
    if StarMatches(p, i, s, j) {
      var k: nat :| j <= k <= |s| && NoSlash(s, j, k) && Matches(p, i, s, k);
      StarStays(p, i + 1, s, j, k);
    }
    if StarMatches(p, i + 1, s, j) {
      assert Matches(p, i, s, j);
      var k: nat :| j <= k <= |s| && NoSlash(s, j, k) && Matches(p, i + 1, s, k);
      StarSelf(p, i, s, j);
    }
  }

  /** A question mark behind a star may be taken first. */
  lemma StarQuestion(p: string, i: nat, s: string, j: nat)
    requires i < |p| && p[i] == '?' && j <= |s|
    ensures StarMatches(p, i, s, j) <==> j < |s| && s[j] != '/' && StarMatches(p, i + 1, s, j + 1)
  {
    if StarMatches(p, i, s, j) {
      var k: nat :| j <= k <= |s| && NoSlash(s, j, k) && Matches(p, i, s, k);
      assert NoSlash(s, j + 1, k + 1);
      StarOfMatch(p, i + 1, s, j + 1, k + 1);
    }
    if j < |s| && s[j] != '/' && StarMatches(p, i + 1, s, j + 1) {
      var k: nat :| j + 1 <= k <= |s| && NoSlash(s, j + 1, k) && Matches(p, i + 1, s, k);
      assert Matches(p, i, s, k - 1);
      assert NoSlash(s, j, k - 1);
    }
  }

  // ----- runs of single elements -----

  /** The index behind n elements from index m on. */
  function Advance(p: string, m: nat, n: nat): (r: nat)
    requires m <= |p|
    ensures m <= r <= |p|
    decreases n
  {
    if n == 0 then m
    else
      var i := Advance(p, m, n - 1);
      if i < |p| then Skip(p, i) else i
  }

  /** The n elements from index m on stand for one character each. */
  predicate Run(p: string, m: nat, n: nat)
    requires m <= |p|
  {
    forall t: nat | t < n :: Single(p, Advance(p, m, t))
  }

  /** Element t of the run stands for character k + t. */
  predicate FitsAt(p: string, m: nat, s: string, k: nat, t: nat)
    requires m <= |p|
  {
    k + t < |s| && Advance(p, m, t) < |p| && s[k + t] != '/' && Fits(p, Advance(p, m, t), s[k + t])
  }

  /** They match the string from index k on. */
  predicate RunFits(p: string, m: nat, n: nat, s: string, k: nat)
    requires m <= |p|
  {
    k + n <= |s| && forall t: nat | t < n :: FitsAt(p, m, s, k, t)
  }

  lemma MatchStep(p: string, i: nat, s: string, j: nat)
    requires Single(p, i)
    ensures Matches(p, i, s, j) <==> j < |s| && s[j] != '/' && Fits(p, i, s[j]) && Matches(p, Skip(p, i), s, j + 1)
  {
  }

  lemma RunStep(p: string, m: nat, n: nat, s: string, k: nat)
    requires m <= |p| && n > 0 && Run(p, m, n)
    ensures Run(p, m, n - 1) && Single(p, Advance(p, m, n - 1)) && Advance(p, m, n) == Skip(p, Advance(p, m, n - 1))
    ensures RunFits(p, m, n, s, k) <==> RunFits(p, m, n - 1, s, k) && FitsAt(p, m, s, k, n - 1)
  {
    hide Fits, FitsAt;
    if RunFits(p, m, n, s, k) {
      assert FitsAt(p, m, s, k, n - 1);
    }
    if RunFits(p, m, n - 1, s, k) && FitsAt(p, m, s, k, n - 1) {
      LastFits(p, m, n, s, k);
    }
  }

  lemma LastFits(p: string, m: nat, n: nat, s: string, k: nat)
    requires m <= |p| && n > 0 && RunFits(p, m, n - 1, s, k) && FitsAt(p, m, s, k, n - 1)
    ensures RunFits(p, m, n, s, k)
  {
    hide Fits, Advance;
    forall t: nat | t < n ensures FitsAt(p, m, s, k, t) {
      if t < n - 1 {
        assert FitsAt(p, m, s, k, t);
      }
    }
  }

  /** A run, then the rest. */
  lemma {:induction false} RunMatches(p: string, m: nat, n: nat, s: string, k: nat)
    requires m <= |p| && Run(p, m, n)
    ensures Matches(p, m, s, k) <==> RunFits(p, m, n, s, k) && Matches(p, Advance(p, m, n), s, k + n)
    decreases n
  {
    if n == 0 {
      if Matches(p, m, s, k) {
        MatchInString(p, m, s, k);
      }
    } else {
      RunStep(p, m, n, s, k);
      RunMatches(p, m, n - 1, s, k);
      MatchStep(p, Advance(p, m, n - 1), s, k + n - 1);
    }
  }

  lemma {:induction false} MatchInString(p: string, i: nat, s: string, j: nat)
    requires i <= |p| && Matches(p, i, s, j)
    ensures j <= |s|
    decreases |p| - i
  {
  }

  /** A match from index j on: with a run up to the end of the pattern segment, only at one place. */
  lemma LastRunIsAnchored(p: string, m: nat, n: nat, s: string, j: nat, end: nat)
    requires m <= |p| && Run(p, m, n) && SegmentEnd(s, j, end)
    requires Advance(p, m, n) == |p| || SlashAt(p, Advance(p, m, n))
    ensures StarMatches(p, m, s, j) <==> j + n <= end && Matches(p, m, s, end - n)
  {
    if StarMatches(p, m, s, j) {
      var k: nat :| j <= k <= |s| && NoSlash(s, j, k) && Matches(p, m, s, k);
      RunMatches(p, m, n, s, k);
      MatchInString(p, Advance(p, m, n), s, k + n);
      RunEndsSegment(p, m, n, s, j, k, end);
    }
    if j + n <= end && Matches(p, m, s, end - n) {
      assert NoSlash(s, j, end - n);
      StarOfMatch(p, m, s, j, end - n);
    }
  }

  lemma RunEndsSegment(p: string, m: nat, n: nat, s: string, j: nat, k: nat, end: nat)
    requires m <= |p| && SegmentEnd(s, j, end) && j <= k <= |s| && NoSlash(s, j, k)
    requires RunFits(p, m, n, s, k) && (k + n == |s| || s[k + n] == '/')
    ensures k + n == end
  {
    forall h | j <= h < k + n ensures s[h] != '/' {
      if h >= k {
        var t: nat := h - k;
        assert FitsAt(p, m, s, k, t);
      }
    }
  }

  /** Behind a run comes a star: the first place where the run fits loses nothing. */
  lemma FirstFitSuffices(p: string, m: nat, n: nat, s: string, j: nat, end: nat)
    requires m <= |p| && Run(p, m, n) && SegmentEnd(s, j, end) && j + n <= end
    requires Advance(p, m, n) < |p| && p[Advance(p, m, n)] == '*'
    requires RunFits(p, m, n, s, j)
    ensures StarMatches(p, m, s, j) <==> Matches(p, Advance(p, m, n), s, j + n)
  {
    var q := Advance(p, m, n);
    if StarMatches(p, m, s, j) {
      var k: nat :| j <= k <= |s| && NoSlash(s, j, k) && Matches(p, m, s, k);
      RunMatches(p, m, n, s, k);
      var h: nat :| k + n <= h <= |s| && NoSlash(s, k + n, h) && Matches(p, q + 1, s, h);
      RunFree(p, m, n, s, j, k, h);
      assert Matches(p, q, s, j + n);
    }
    if Matches(p, q, s, j + n) {
      RunMatches(p, m, n, s, j);
      StarSelf(p, m, s, j);
    }
  }

  lemma RunFree(p: string, m: nat, n: nat, s: string, j: nat, k: nat, h: nat)
    requires m <= |p| && RunFits(p, m, n, s, k) && j <= k && NoSlash(s, j, k) && NoSlash(s, k + n, h)
    ensures NoSlash(s, j + n, h)
  {
    forall x | j + n <= x < h && x < |s| ensures s[x] != '/' {
      if k <= x < k + n {
        var t: nat := x - k;
        assert FitsAt(p, m, s, k, t);
      }
    }
  }

  /** Where the run does not fit, the star takes one more character. */
  lemma NoFitHere(p: string, m: nat, n: nat, s: string, j: nat, end: nat)
    requires m <= |p| && Run(p, m, n) && SegmentEnd(s, j, end) && j < end && !RunFits(p, m, n, s, j)
    ensures StarMatches(p, m, s, j) <==> StarMatches(p, m, s, j + 1)
  {
    RunMatches(p, m, n, s, j);
    if StarMatches(p, m, s, j) {
      var k: nat :| j <= k <= |s| && NoSlash(s, j, k) && Matches(p, m, s, k);
      assert NoSlash(s, j + 1, k);
    }
    if StarMatches(p, m, s, j + 1) {
      StarStays(p, m, s, j, j + 1);
    }
  }

  /** A run does not fit where too few characters are left in the segment. */
  lemma ShortRun(p: string, m: nat, n: nat, s: string, k: nat, end: nat)
    requires m <= |p| && k <= end <= |s| && k + n > end && (end < |s| ==> s[end] == '/')
    ensures !RunFits(p, m, n, s, k)
  {
    assert !FitsAt(p, m, s, k, end - k);
  }

  lemma TooShort(p: string, m: nat, n: nat, s: string, j: nat, end: nat)
    requires m <= |p| && Run(p, m, n) && SegmentEnd(s, j, end) && j + n > end
    ensures !StarMatches(p, m, s, j)
  {
    forall k: nat | j <= k <= |s| && NoSlash(s, j, k) ensures !Matches(p, m, s, k) {
      RunMatches(p, m, n, s, k);
      ShortRun(p, m, n, s, k, end);
    }
  }

  lemma RunIsOver(p: string, m: nat, n: nat, d: nat)
    requires m <= |p| && Run(p, m, n) && !Single(p, Advance(p, m, d))
    ensures d >= n
  {
  }

  // ----- the code -----

  /** strchr(string, '/'), or the end. */
  method SegmentEndOf(s: string, j: nat) returns (end: nat)
    requires j <= |s|
    ensures SegmentEnd(s, j, end)
  {
    end := j;
    while end < |s| && s[end] != '/'
      invariant j <= end <= |s| && NoSlash(s, j, end)
    {
      end := end + 1;
    }
  }

  /** What is left to match: the pattern from index i, with a star in front when `wild`. */
  ghost predicate Rest(wild: bool, p: string, i: nat, s: string, j: nat)
    requires i <= |p|
  {
    if wild then StarMatches(p, i, s, j) else Matches(p, i, s, j)
  }

  /** Groups of '*' and '?': so many characters, then one star. */
  method WildGroup(p: string, i0: nat, s: string, j0: nat, end: nat) returns (fail: bool, wild: bool, i: nat, j: nat)
    requires i0 <= |p| && SegmentEnd(s, j0, end)
    ensures i0 <= i <= |p| && j0 <= j <= end
    ensures Matches(p, i0, s, j0) <==> !fail && Rest(wild, p, i, s, j)
    ensures !fail ==> At(p, i) != '*' && At(p, i) != '?'
    ensures (wild ==> i > i0) && (i == i0 ==> j == j0)
  {
    fail, wild, i, j := false, false, i0, j0;
    while At(p, i) == '*' || At(p, i) == '?'
      invariant i0 <= i <= |p| && j0 <= j <= end
      invariant Matches(p, i0, s, j0) <==> Rest(wild, p, i, s, j)
      invariant (wild ==> i > i0) && (i == i0 ==> j == j0)
      decreases |p| - i
    {
      if At(p, i) == '*' {
        if wild {
          TwoStars(p, i, s, j);
        }
        wild := true;
      } else {
        if wild {
          StarQuestion(p, i, s, j);
        }
        if j < end {
          j := j + 1;
        } else {
          fail := true;
          return;
        }
      }
      i := i + 1;
    }
  }

  /** The counting loop: the length of the run from index m, and whether a star follows. */
  method FixedRun(p: string, m: nat) returns (n: nat, q: nat, star: bool)
    requires m <= |p| && CString(p)
    ensures Run(p, m, n) && q == Advance(p, m, n)
    ensures if star then q < |p| && p[q] == '*' else q == |p| || SlashAt(p, q)
  {
    hide Bracket, Fits;
    var dummystring := " ";
    n, q, star := 0, m, false;
    while true
      invariant m <= q <= |p| && Run(p, m, n) && q == Advance(p, m, n)
      decreases |p| - q
    {
      if q == |p| || p[q] == '/' || (p[q] == '\\' && At(p, q + 1) == '/') {
        return;
      }
      if p[q] == '*' {
        star := true;
        return;
      }
      assert Single(p, q);
      if p[q] == '\\' && q + 1 < |p| {
        q := q + 2;
      } else if p[q] == '[' {
        var ok, q1, d := FnmatchCh(p, q, dummystring, 0);
        q := q1;
      } else {
        q := q + 1;
      }
      n := n + 1;
    }
  }

  /** The state of the comparison loop. */
  ghost predicate Comparing(wild: bool, p: string, m: nat, n: nat, i: nat, s: string, start: nat, j: nat, end: nat) {
    && i <= |p| && m <= |p| && SegmentEnd(s, start, end) && start <= j <= end
    && (wild ==>
          && Run(p, m, n) && Advance(p, m, n) < |p| && p[Advance(p, m, n)] == '*' && start + n <= end
          && j - start <= n && i == Advance(p, m, j - start) && RunFits(p, m, j - start, s, start))
  }

  /** What the comparison loop has still to decide. */
  ghost predicate Goal(wild: bool, p: string, m: nat, i: nat, s: string, start: nat, j: nat)
    requires m <= |p| && i <= |p|
  {
    if wild then StarMatches(p, m, s, start) else Matches(p, i, s, j)
  }

  /** One element that fits. */
  lemma OneFits(wild: bool, p: string, m: nat, n: nat, i: nat, s: string, start: nat, j: nat, end: nat)
    requires Comparing(wild, p, m, n, i, s, start, j, end) && j < end && Single(p, i) && Fits(p, i, s[j])
    ensures Comparing(wild, p, m, n, Skip(p, i), s, start, j + 1, end)
    ensures Goal(wild, p, m, i, s, start, j) <==> Goal(wild, p, m, Skip(p, i), s, start, j + 1)
  {
    hide Bracket;
    if wild {
      var d := j - start;
      assert d != n;
      assert FitsAt(p, m, s, start, d);
      LastFits(p, m, d + 1, s, start);
      assert Advance(p, m, d + 1) == Skip(p, i);
    }
  }

  /** One element that does not fit, behind a star. */
  lemma OneFails(p: string, m: nat, n: nat, i: nat, s: string, start: nat, j: nat, end: nat)
    requires Comparing(true, p, m, n, i, s, start, j, end) && j < end && Single(p, i) && !Fits(p, i, s[j])
    ensures StarMatches(p, m, s, start) <==> StarMatches(p, m, s, start + 1)
    ensures start + 1 + n > end ==> !StarMatches(p, m, s, start)
    ensures start + 1 + n <= end ==> Comparing(true, p, m, n, m, s, start + 1, start + 1, end)
  {
    var d := j - start;
    assert d != n && Advance(p, m, d) == i && start + d == j;
    assert !FitsAt(p, m, s, start, d);
    NoFitHere(p, m, n, s, start, end);
    assert SegmentEnd(s, start + 1, end);
    if start + 1 + n > end {
      TooShort(p, m, n, s, start + 1, end);
    }
  }

  /** The loop that compares elements one by one, moving on behind a star until the run fits. */
  method Compare(p: string, m: nat, s: string, j0: nat, end: nat, wild: bool, n: nat) returns (fail: bool, i: nat, j: nat)
    requires CString(p) && CString(s) && Comparing(wild, p, m, n, m, s, j0, j0, end) && (At(p, m) != '*' || wild)
    ensures i <= |p| && j0 <= j <= end
    ensures Rest(wild, p, m, s, j0) <==> !fail && Matches(p, i, s, j)
    ensures !fail ==> j == end || i == |p| || p[i] == '*' || SlashAt(p, i)
    ensures !fail ==> m <= i && (i > m || wild || j0 == end || !Single(p, m))
  {
    hide Bracket;
    var strstartseg := j0;
    i, j, fail := m, j0, false;
    while i < |p| && j < end
      invariant Comparing(wild, p, m, n, i, s, strstartseg, j, end) && j0 <= strstartseg
      invariant Rest(wild, p, m, s, j0) <==> Goal(wild, p, m, i, s, strstartseg, j)
      invariant m <= i && (i > m || wild || j == j0)
      decreases |s| - strstartseg, |p| - i
    {
      if p[i] == '*' {
        break;
      }
      if s[j] == '/' || p[i] == '/' || (p[i] == '\\' && At(p, i + 1) == '/') {
        break;
      }
      ghost var i0 := i;
      var ok, i1, j1 := FnmatchCh(p, i, s, j);
      if ok {
        OneFits(wild, p, m, n, i, s, strstartseg, j, end);
        i, j := i1, j1;
        continue;
      }
      if wild {
        OneFails(p, m, n, i, s, strstartseg, j, end);
        strstartseg := strstartseg + 1;
        j := strstartseg;
        if j + n > end {
          fail := true;
          return;
        }
        i := m;
      } else {
        fail := true;
        return;
      }
    }
    if wild {
      FoundPlace(p, m, n, i, s, strstartseg, j, end);
    }
  }

  /** The loop stops behind a star only when the whole run has been compared. */
  lemma FoundPlace(p: string, m: nat, n: nat, i: nat, s: string, start: nat, j: nat, end: nat)
    requires Comparing(true, p, m, n, i, s, start, j, end)
    requires i == |p| || j == end || p[i] == '*' || SlashAt(p, i)
    ensures StarMatches(p, m, s, start) <==> Matches(p, i, s, j)
    ensures i < |p| && p[i] == '*'
  {
    hide Fits, Advance;
    var d := j - start;
    if j < end {
      RunIsOver(p, m, n, d);
    }
    assert d == n;
    FirstFitSuffices(p, m, n, s, start, end);
  }

  /** Matching one segment of the pattern against one segment of the string. */
  method MatchSegment(p: string, i0: nat, s: string, j0: nat, end: nat) returns (fail: bool, i: nat, j: nat)
    requires CString(p) && CString(s) && i0 <= |p| && SegmentEnd(s, j0, end)
    ensures i <= |p| && j0 <= j <= end
    ensures Matches(p, i0, s, j0) <==> !fail && Matches(p, i, s, j)
    ensures !fail ==> i == |p| || SlashAt(p, i) || (j == end && p[i] != '*')
    ensures !fail ==> i0 <= i && (i > i0 || i0 == |p| || SlashAt(p, i0) || (j0 == end && p[i0] != '*'))
  {
    fail, i, j := false, i0, j0;
    while i < |p|
      invariant i0 <= i <= |p| && j0 <= j <= end && (i > i0 || j == j0)
      invariant Matches(p, i0, s, j0) <==> Matches(p, i, s, j)
      decreases |p| - i, |s| - j
    {
      if j > end || (j == end && p[i] != '*') {
        break;
      }
      if p[i] == '/' || (p[i] == '\\' && At(p, i + 1) == '/') {
        break;
      }
      fail, i, j := SegmentPart(p, i, s, j, end);
      if fail {
        return;
      }
    }
  }

  /** One turn: a group of wildcards and the run behind it. */
  method SegmentPart(p: string, i0: nat, s: string, j0: nat, end: nat) returns (fail: bool, i: nat, j: nat)
    requires CString(p) && CString(s) && i0 < |p| && SegmentEnd(s, j0, end)
    requires (j0 < end || p[i0] == '*') && !SlashAt(p, i0)
    ensures i <= |p| && j0 <= j <= end
    ensures Matches(p, i0, s, j0) <==> !fail && Matches(p, i, s, j)
    ensures !fail ==> i > i0
  {
    var wild;
    fail, wild, i, j := WildGroup(p, i0, s, j0, end);
    if fail {
      return;
    }
    assert SegmentEnd(s, j, end);
    var n, m := 0, i;
    if wild {
      var q, star;
      n, q, star := FixedRun(p, m);
      if !star {
        LastRunIsAnchored(p, m, n, s, j, end);
        if j + n > end {
          fail := true;
          return;
        }
        j := end - n;
        wild := false;
      } else {
        if j + n > end {
          TooShort(p, m, n, s, j, end);
          fail := true;
          return;
        }
      }
    }
    var j1 := j;
    fail, i, j := Compare(p, m, s, j1, end, wild, n);
  }

  /** Returns true where the C function returns 0. */
  method AgFnmatch(pattern: string, s: string) returns (matched: bool)
    requires CString(pattern) && CString(s)
    ensures matched <==> Matches(pattern, 0, s, 0)
  {
    hide Fits, Skip;
    var i: nat, j: nat := 0, 0;
    var firstsegment := At(pattern, 0) == '*';
    while firstsegment || (i < |pattern| && j < |s|)
      invariant i <= |pattern| && j <= |s|
      invariant Matches(pattern, 0, s, 0) <==> Matches(pattern, i, s, j)
      invariant firstsegment <==> At(pattern, i) == '*'
      decreases |s| - j, |pattern| - i
    {
      if !firstsegment {
        if pattern[i] == '\\' && At(pattern, i + 1) == '/' {
          i := i + 1;
        }
        if pattern[i] == '/' && s[j] == '/' {
          i, j := i + 1, j + 1;
        }
      }
      firstsegment := false;
      var strendseg := SegmentEndOf(s, j);
      var fail;
      fail, i, j := MatchSegment(pattern, i, s, j, strendseg);
      if fail {
        return false;
      }
      if j < |s| && s[j] != '/' {
        return false;
      }
      if i < |pattern| && !(pattern[i] == '/' || (pattern[i] == '\\' && At(pattern, i + 1) == '/')) {
        return false;
      }
    }
    return j == |s| && i == |pattern|;
  }
}
