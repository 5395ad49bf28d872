/** Boyer-Moore search (generate_alpha_skip, is_prefix, suffix_len, generate_find_skip and
    boyer_moore_strnstr, util.c). */
module BoyerMoore {
  import opened Text

  // ----- the strong good-suffix rule -----

  /** After a mismatch at index j with find[j+1..] matched, a shift by d is not ruled out: the matched
      suffix meets equal bytes, and the byte that failed does not come back to its place. */
  ghost predicate Allowed(find: Bytes, j: nat, d: nat)
    requires j < |find|
  {
    && (forall k: nat | j < k < |find| && d <= k :: find[k - d] == find[k])
    && (d <= j ==> find[j - d] != find[j])
  }

  /** d is the least shift that is not ruled out. */
  ghost predicate LeastShift(find: Bytes, j: nat, d: int)
    requires j < |find|
  {
    1 <= d <= |find| && Allowed(find, j, d) && forall e: nat | 1 <= e < d :: !Allowed(find, j, e)
  }

  /** find[pos..] is a prefix of find. */
  ghost predicate Period(find: Bytes, pos: nat) {
    forall k: nat | pos + k < |find| :: find[k] == find[pos + k]
  }

  /** A shift that moves the failed byte out on the left is allowed exactly when it is a period. */
  lemma FarShift(find: Bytes, j: nat, d: nat)
    requires j < d && j < |find|
    ensures Allowed(find, j, d) <==> Period(find, d)
  {
    if Allowed(find, j, d) {
      forall k: nat | d + k < |find| ensures find[k] == find[d + k] {
        assert find[(d + k) - d] == find[d + k];
      }
    }
    if Period(find, d) {
      forall k: nat | j < k < |find| && d <= k ensures find[k - d] == find[k] {
        assert find[k - d] == find[d + (k - d)];
      }
    }
  }

  /** n bytes agree backwards from the end and from d before the end; n is the most, or reaches index 0. */
  ghost predicate SuffixLength(find: Bytes, d: nat, n: nat) {
    && d + n < |find|
    && (forall k: nat | |find| - 1 - n < k < |find| :: find[k - d] == find[k])
    && (n < |find| - 1 - d ==> find[|find| - 1 - d - n] != find[|find| - 1 - n])
  }

  /** A shift that keeps the failed byte inside is allowed exactly when the agreeing suffix is as long
      as the matched part and stops at a different byte. */
  lemma NearShift(find: Bytes, j: nat, d: nat, n: nat)
    requires 1 <= d <= j < |find| && SuffixLength(find, d, n)
    ensures Allowed(find, j, d)
       <==> n == |find| - 1 - j && find[|find| - 1 - d - n] != find[|find| - 1 - n]
  {
    var stop := |find| - 1 - n;
    if stop > j {
      assert find[stop - d] == find[stop] ==> !(n < |find| - 1 - d);
    }
  }

  // ----- the two tables -----

  method IsPrefix(s: Bytes, pos: nat, caseSensitive: bool) returns (yes: bool)
    requires Lowered(s, !caseSensitive)
    ensures yes <==> Period(s, pos)
  {
    var i := 0;
    while pos + i < |s|
      invariant forall k: nat | k < i && pos + k < |s| :: s[k] == s[pos + k]
      decreases |s| - i
    {
      if caseSensitive {
        if s[i] != s[i + pos] {
          return false;
        }
      } else {
        assert ToLower(s[i]) == s[i] && ToLower(s[i + pos]) == s[i + pos];
        if ToLower(s[i]) != ToLower(s[i + pos]) {
          return false;
        }
      }
      i := i + 1;
    }
    return true;
  }

  method SuffixLen(s: Bytes, pos: nat, caseSensitive: bool) returns (i: nat)
    requires pos < |s| && Lowered(s, !caseSensitive)
    ensures SuffixLength(s, |s| - 1 - pos, i)
  {
    ghost var d := |s| - 1 - pos;
    i := 0;
    while i < pos
      invariant i <= pos
      invariant forall k: nat | |s| - 1 - i < k < |s| :: s[k - d] == s[k]
    {
      if caseSensitive {
        if s[pos - i] != s[|s| - i - 1] {
          break;
        }
      } else {
        assert ToLower(s[pos - i]) == s[pos - i] && ToLower(s[|s| - 1 - i]) == s[|s| - 1 - i];
        if ToLower(s[pos - i]) != ToLower(s[|s| - i - 1]) {
          break;
        }
      }
      i := i + 1;
    }
  }

  /** The least period that is at least `from`; |find| is one. */
  ghost predicate LeastPeriod(find: Bytes, from: nat, p: nat) {
    from <= p <= |find| && Period(find, p) && forall q: nat | from <= q < p :: !Period(find, q)
  }

  /** The shift that an entry stands for: the entry counts from index j, not from the end. */
  function ShiftOf(find: Bytes, j: nat, entry: int): int { entry - (|find| - 1 - j) }

  /** Among the shifts that are longer than j or at least |find| - i, d is the least that is allowed. */
  ghost predicate LeastUpTo(find: Bytes, j: nat, i: nat, d: int)
    requires j < |find|
  {
    && 1 <= d <= |find| && (d <= j ==> |find| - i <= d)
    && Allowed(find, j, d)
    && forall e: nat | 1 <= e < d && (e > j || |find| - i <= e) :: !Allowed(find, j, e)
  }

  /** After the first loop every entry is the least shift that moves the failed byte out. */
  lemma FarIsUpToZero(find: Bytes, j: nat, p: nat)
    requires j < |find| && LeastPeriod(find, j + 1, p)
    ensures LeastUpTo(find, j, 0, p)
  {
    FarShift(find, j, p);
    forall e: nat | 1 <= e < p && (e > j || |find| <= e) ensures !Allowed(find, j, e) {
      FarShift(find, j, e);
    }
  }

  /** One turn of the second loop, for the entry of index j. */
  lemma OneMoreShift(find: Bytes, j: nat, i: nat, n: nat, before: int, after: int)
    requires j < |find| && i < |find| && SuffixLength(find, |find| - 1 - i, n) && LeastUpTo(find, j, i, before)
    requires after == if j == |find| - 1 - n && find[i - n] != find[|find| - 1 - n] then |find| - 1 - i else before
    ensures LeastUpTo(find, j, i + 1, after)
  {
    var e := |find| - 1 - i;
    if 1 <= e <= j {
      NearShift(find, j, e, n);
    }
  }

  ghost predicate TableUpTo(find: Bytes, i: nat, table: seq<nat>) {
    |table| == |find| && forall j: nat | j < |find| :: LeastUpTo(find, j, i, ShiftOf(find, j, table[j]))
  }

  /** The first loop of generate_find_skip. */
  method PrefixSkips(find: Bytes, sl: array<nat>, caseSensitive: bool)
    requires sl.Length == |find| && Lowered(find, !caseSensitive)
    modifies sl
    ensures TableUpTo(find, 0, sl[..])
  {
    var lastPrefix: nat := |find|;
    var i := lastPrefix;
    while i > 0
      invariant 0 <= i <= |find|
      invariant if i == |find| then lastPrefix == |find| else LeastPeriod(find, i + 1, lastPrefix)
      invariant forall j: nat | i <= j < |find| :: LeastUpTo(find, j, 0, ShiftOf(find, j, sl[j]))
    {
      var prefix := IsPrefix(find, i, caseSensitive);
      if prefix {
        lastPrefix := i;
      }
      FarIsUpToZero(find, i - 1, lastPrefix);
      sl[i - 1] := lastPrefix + (|find| - i);
      i := i - 1;
    }
  }

  /** One turn of the second loop, for the whole table. */
  lemma TableStep(find: Bytes, i: nat, n: nat, before: seq<nat>, after: seq<nat>)
    requires TableUpTo(find, i, before) && i < |find| && SuffixLength(find, |find| - 1 - i, n)
    requires after == if find[i - n] != find[|find| - 1 - n] then before[|find| - 1 - n := |find| - 1 - i + n] else before
    ensures TableUpTo(find, i + 1, after)
  {
    forall j: nat | j < |find| ensures LeastUpTo(find, j, i + 1, ShiftOf(find, j, after[j])) {
      OneMoreShift(find, j, i, n, ShiftOf(find, j, before[j]), ShiftOf(find, j, after[j]));
    }
  }

  /** The second loop of generate_find_skip. */
  method SuffixSkips(find: Bytes, sl: array<nat>, caseSensitive: bool)
    requires TableUpTo(find, 0, sl[..]) && Lowered(find, !caseSensitive)
    modifies sl
    ensures TableUpTo(find, |find|, sl[..])
  {
    for i := 0 to |find|
      invariant TableUpTo(find, i, sl[..])
    {
      var sLen := SuffixLen(find, i, caseSensitive);
      ghost var before := sl[..];
      if find[i - sLen] != find[|find| - 1 - sLen] {
        sl[|find| - 1 - sLen] := |find| - 1 - i + sLen;
      }
      TableStep(find, i, sLen, before, sl[..]);
    }
  }

  method GenerateFindSkip(find: Bytes, caseSensitive: bool) returns (sl: array<nat>)
    requires |find| > 0 && Lowered(find, !caseSensitive)
    ensures fresh(sl) && sl.Length == |find|
    ensures forall j: nat | j < |find| :: LeastShift(find, j, ShiftOf(find, j, sl[j]))
  {
    sl := new nat[|find|];
    PrefixSkips(find, sl, caseSensitive);
    SuffixSkips(find, sl, caseSensitive);
    forall j: nat | j < |find| ensures LeastShift(find, j, ShiftOf(find, j, sl[j])) {
      assert LeastUpTo(find, j, |find|, ShiftOf(find, j, sl[..][j]));
    }
  }

  /** Bytes for which generate_alpha_skip stores the distance of index k. */
  ghost predicate Stores(find: Bytes, k: int, fold: bool, c: Byte) {
    0 <= k < |find| && if fold then c == ToLower(find[k]) || c == ToUpper(find[k]) else c == find[k]
  }

  /** The entry of c: the distance from the end of its last place among the first `upto` bytes. */
  ghost predicate AlphaEntry(find: Bytes, upto: nat, fold: bool, c: Byte, entry: nat) {
    && entry <= |find|
    && (entry < |find| ==> Stores(find, |find| - 1 - entry, fold, c))
    && forall k | 0 <= k < upto && Stores(find, k, fold, c) :: entry <= |find| - 1 - k
  }

  method GenerateAlphaSkip(find: Bytes, skipLookup: array<nat>, caseSensitive: bool)
    requires |find| > 0 && skipLookup.Length == 256
    modifies skipLookup
    ensures forall c: Byte :: AlphaEntry(find, |find| - 1, !caseSensitive, c, skipLookup[c])
  {
    for i := 0 to 256
      invariant forall c | 0 <= c < i :: skipLookup[c] == |find|
    {
      skipLookup[i] := |find|;
    }
    var fLen := |find| - 1;
    for i := 0 to fLen
      invariant forall c: Byte :: AlphaEntry(find, i, !caseSensitive, c, skipLookup[c])
    {
      if caseSensitive {
        skipLookup[find[i]] := fLen - i;
      } else {
        skipLookup[ToLower(find[i])] := fLen - i;
        skipLookup[ToUpper(find[i])] := fLen - i;
      }
    }
  }

  // ----- the search -----

  /** A later occurrence, seen from a mismatch at index j of the alignment that ends at `end`. */
  lemma OccurrenceIsAllowed(s: Bytes, find: Bytes, fold: bool, start: nat, j: nat, x: nat)
    requires j < |find| && start + |find| <= |s| && x >= 1
    requires forall k | j < k < |find| :: Folded(s[start + k], fold) == find[k]
    requires Folded(s[start + j], fold) != find[j]
    requires OccursAt(s, find, fold, start + x)
    ensures Allowed(find, j, x)
  {
    forall k: nat | j < k < |find| && x <= k ensures find[k - x] == find[k] {
      assert Folded(s[(start + x) + (k - x)], fold) == find[k - x];
    }
    if 0 <= j - x {
      assert Folded(s[(start + x) + (j - x)], fold) == find[j - x];
    }
  }

  /** The byte under the mismatch bounds the shift as well. */
  lemma OccurrenceMeetsByte(s: Bytes, find: Bytes, fold: bool, start: nat, j: nat, x: nat, alpha: nat)
    requires j < |find| && start + |find| <= |s| && x >= 1 && Lowered(find, fold)
    requires AlphaEntry(find, |find| - 1, fold, s[start + j], alpha)
    requires OccursAt(s, find, fold, start + x)
    ensures alpha <= |find| - 1 - j + x
  {
    if x <= j {
      var k := j - x;
      assert Folded(s[(start + x) + k], fold) == find[k];
      if fold {
        FoldsTo(s[start + j], find[k]);
      }
      assert Stores(find, k, fold, s[start + j]);
    }
  }

  function Max(a: nat, b: nat): nat { if b > a then b else a }

  /** No alignment between the failed one and the next one is an occurrence. */
  lemma SkippedNone(s: Bytes, find: Bytes, fold: bool, start: nat, j: nat, good: nat, alpha: nat)
    requires j < |find| && start + |find| <= |s| && Lowered(find, fold)
    requires forall k | j < k < |find| :: Folded(s[start + k], fold) == find[k]
    requires Folded(s[start + j], fold) != find[j]
    requires LeastShift(find, j, ShiftOf(find, j, good))
    requires AlphaEntry(find, |find| - 1, fold, s[start + j], alpha)
    ensures forall p | start <= p < start + j + Max(alpha, good) - (|find| - 1) :: !OccursAt(s, find, fold, p)
  {
    forall p | start <= p < start + j + Max(alpha, good) - (|find| - 1) ensures !OccursAt(s, find, fold, p) {
      if OccursAt(s, find, fold, p) {
        assert p != start;
        OccurrenceIsAllowed(s, find, fold, start, j, p - start);
        OccurrenceMeetsByte(s, find, fold, start, j, p - start, alpha);
      }
    }
  }

  /** The first occurrence of the query, or nothing. */
  method Strnstr(s: Bytes, find: Bytes, alphaSkip: array<nat>, findSkip: array<nat>, caseInsensitive: bool) returns (r: Hit)
    requires |find| > 0 && Lowered(find, caseInsensitive)
    requires alphaSkip.Length == 256 && forall c: Byte :: AlphaEntry(find, |find| - 1, caseInsensitive, c, alphaSkip[c])
    requires findSkip.Length == |find| && forall j: nat | j < |find| :: LeastShift(find, j, ShiftOf(find, j, findSkip[j]))
    ensures FirstOccurrence(s, find, caseInsensitive, 0, r)
  {
    var pos: int := |find| - 1;
    while pos < |s|
      invariant pos >= |find| - 1
      invariant forall p | 0 <= p < pos - (|find| - 1) :: !OccursAt(s, find, caseInsensitive, p)
      decreases |s| - pos
    {
      ghost var start := pos - (|find| - 1);
      var i := |find| - 1;
      while i >= 0 && Folded(s[pos], caseInsensitive) == find[i]
        invariant -1 <= i < |find| && pos == start + i
        invariant forall k | i < k < |find| :: Folded(s[start + k], caseInsensitive) == find[k]
      {
        pos, i := pos - 1, i - 1;
      }
      if i < 0 {
        return Hit(pos + 1);
      }
      var alpha := alphaSkip[s[pos]];
      pos := pos + Max(alpha, findSkip[i]);
      SkippedNone(s, find, caseInsensitive, start, i, findSkip[i], alpha);
    }
    return NoHit;
  }
}
