/** Bytes, ASCII case folding (the program never leaves the C locale) and occurrences of a query. */
module Text {
  type Byte = x: nat | x < 256
  type Bytes = seq<Byte>

  function ToLower(c: Byte): Byte { if 'A' as int <= c <= 'Z' as int then c + 32 else c }

  function ToUpper(c: Byte): Byte { if 'a' as int <= c <= 'z' as int then c - 32 else c }

  const UPPER: string := "ABCDEFGHIJKLMNOPQRSTUVWXYZ"
  const LOWER: string := "abcdefghijklmnopqrstuvwxyz"

  lemma LetterAt(k: nat)
    requires k < 26
    ensures UPPER[k] as int == 'A' as int + k && LOWER[k] as int == 'a' as int + k
  {
  }

  /** Case changes the 26 letters into each other, and nothing else. */
  lemma LetterPairs(c: Byte)
    ensures forall k | 0 <= k < 26 :: ToLower(UPPER[k] as int) == LOWER[k] as int && ToUpper(LOWER[k] as int) == UPPER[k] as int
    ensures c as char !in UPPER ==> ToLower(c) == c
    ensures c as char !in LOWER ==> ToUpper(c) == c
  {
    forall k | 0 <= k < 26 ensures UPPER[k] as int == 'A' as int + k && LOWER[k] as int == 'a' as int + k {
      LetterAt(k);
    }
    if 'A' as int <= c <= 'Z' as int {
      LetterAt(c - 65);
    }
    if 'a' as int <= c <= 'z' as int {
      LetterAt(c - 97);
    }
  }

  function Folded(c: Byte, fold: bool): Byte { if fold then ToLower(c) else c }

  /** What main.c does to the query when case is ignored. */
  predicate Lowered(find: Bytes, fold: bool) {
    fold ==> forall k | 0 <= k < |find| :: ToLower(find[k]) == find[k]
  }

  predicate OccursAt(s: Bytes, find: Bytes, fold: bool, p: int) {
    0 <= p && p + |find| <= |s| && forall k | 0 <= k < |find| :: Folded(s[p + k], fold) == find[k]
  }

  /** The pointer strnstr returns, as an offset. */
  datatype Hit = NoHit | Hit(pos: nat)

  /** r is the first occurrence at or after `from`. */
  ghost predicate FirstOccurrence(s: Bytes, find: Bytes, fold: bool, from: int, r: Hit) {
    match r
    case NoHit => forall p | from <= p :: !OccursAt(s, find, fold, p)
    case Hit(q) => from <= q && OccursAt(s, find, fold, q) && forall p | from <= p < q :: !OccursAt(s, find, fold, p)
  }

  lemma FirstIsUnique(s: Bytes, find: Bytes, fold: bool, from: int, r1: Hit, r2: Hit)
    requires FirstOccurrence(s, find, fold, from, r1) && FirstOccurrence(s, find, fold, from, r2)
    ensures r1 == r2
  {
  }

  /** The only bytes that fold to a lower-case byte are that byte and its upper-case form. */
  lemma FoldsTo(c: Byte, f: Byte)
    requires ToLower(c) == f
    ensures c == f || c == ToUpper(f)
  {
  }
}
