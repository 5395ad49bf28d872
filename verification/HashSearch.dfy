/** The second literal search engine: an open-addressed table from 16-bit words of the query to their
    offsets (generate_hash and hash_strnstr, util.c). */
module HashSearch {
  import opened Common
  import opened Text

  const H_SIZE: nat := 64 * 1024

  /** The value of two bytes read as a little-endian uint16_t. */
  function Word(c0: Byte, c1: Byte): (w: nat)
    ensures w < H_SIZE
  {
    c0 + 256 * c1
  }

  /** as_chars[k] -= 'a' - 'A', in eight bits. */
  function Capital(c: Byte): Byte { (c + 256 - 32) % 256 }

  /** The word at offset i of the query with the letters of caps_set capitalized. */
  function CapsWord(find: Bytes, i: nat, caps: nat): (w: nat)
    requires i + 1 < |find|
    ensures w < H_SIZE
  {
    Word(if caps % 2 == 1 then Capital(find[i]) else find[i], if caps / 2 == 1 then Capital(find[i + 1]) else find[i + 1])
  }

  /** How many of the capitalizations are entered. */
  function CapsCount(caseSensitive: bool): nat { if caseSensitive then 1 else 4 }

  /** The cell n places behind the home cell of word w. */
  function Cell(w: nat, n: nat): nat { (w + n) % H_SIZE }

  lemma HomeCell(w: nat)
    requires w < H_SIZE
    ensures w % H_SIZE == Cell(w, 0) == w
  {
  }

  lemma NextCell(w: nat, n: nat)
    ensures (Cell(w, n) + 1) % H_SIZE == Cell(w, n + 1)
  {
  }

  // ----- the table -----

  /** Probing for w, the n-th cell holds offset i, and no cell before it is free or holds a smaller offset. */
  ghost predicate ReachedAfter(table: seq<Byte>, w: nat, i: nat, n: nat) {
    && |table| == H_SIZE && n < H_SIZE
    && table[Cell(w, n)] == i + 1
    && forall m: nat | m < n :: table[Cell(w, m)] >= i + 1
  }

  ghost predicate Entered(table: seq<Byte>, w: nat, i: nat) { exists n: nat :: ReachedAfter(table, w, i, n) }

  /** Offsets from `from` on have been entered, and for the offset before it the first `caps` capitalizations. */
  predicate Due(from: nat, caps: nat, caseSensitive: bool, i: nat, c: nat) {
    if from <= i then c < CapsCount(caseSensitive) else i + 1 == from && c < caps
  }

  ghost predicate EnteredFrom(find: Bytes, table: seq<Byte>, from: nat, caps: nat, caseSensitive: bool) {
    forall i: nat, c: nat | i + 1 < |find| && Due(from, caps, caseSensitive, i, c) :: Entered(table, CapsWord(find, i, c), i)
  }

  /** The table hash_strnstr works with. */
  ghost predicate Filled(find: Bytes, table: seq<Byte>, caseSensitive: bool) {
    && |table| == H_SIZE
    && (exists h: nat :: h < H_SIZE && table[h] == 0)
    && (forall h: nat | h < H_SIZE :: table[h] < |find|)
    && EnteredFrom(find, table, 0, 0, caseSensitive)
  }

  // ----- how full it gets -----

  function Occupied(table: seq<Byte>): set<nat>
    requires |table| == H_SIZE
  {
    set h: nat | h < H_SIZE && table[h] != 0
  }

  predicate Full(table: seq<Byte>)
    requires |table| == H_SIZE
  {
    forall h: nat | h < H_SIZE :: table[h] != 0
  }

  lemma OccupiedAtMost(table: seq<Byte>)
    requires |table| == H_SIZE
    ensures |Occupied(table)| <= H_SIZE && (|Occupied(table)| == H_SIZE <==> Full(table))
  {
    BelowIff(H_SIZE);
    hide Below;
    SubsetSize(Occupied(table), Below(H_SIZE));
    if Full(table) {
      assert Occupied(table) == Below(H_SIZE);
    } else {
      var h: nat :| h < H_SIZE && table[h] == 0;
      SubsetSize(Occupied(table), Below(H_SIZE) - {h});
    }
  }

  /** How far a cell is behind the home cell of w. */
  function Distance(w: nat, h: nat): (n: nat)
    requires w < H_SIZE && h < H_SIZE
    ensures n < H_SIZE && Cell(w, n) == h
  {
    if h >= w then h - w else h + H_SIZE - w
  }

  /** Writing a free cell keeps what is entered. */
  lemma StillEntered(table: seq<Byte>, h: nat, v: Byte, w: nat, i: nat)
    requires Entered(table, w, i) && h < |table| && table[h] == 0
    ensures Entered(table[h := v], w, i)
  {
    var n: nat :| ReachedAfter(table, w, i, n);
    assert ReachedAfter(table[h := v], w, i, n);
  }

  lemma EnteredNow(table: seq<Byte>, w: nat, n: nat, i: nat)
    requires |table| == H_SIZE && n < H_SIZE && i < 255 && table[Cell(w, n)] == 0
    requires forall m: nat | m < n :: table[Cell(w, m)] != 0
    requires forall h: nat | h < H_SIZE :: table[h] == 0 || table[h] >= i + 1
    ensures Entered(table[Cell(w, n) := i + 1], w, i)
  {
    assert ReachedAfter(table[Cell(w, n) := i + 1], w, i, n);
  }

  /** One entry is added. */
  lemma OneEntered(find: Bytes, table: seq<Byte>, n: nat, from: nat, caps: nat, caseSensitive: bool)
    requires 1 <= from < |find| <= 256 && caps < CapsCount(caseSensitive)
    requires EnteredFrom(find, table, from, caps, caseSensitive)
    requires var w := CapsWord(find, from - 1, caps);
      |table| == H_SIZE && n < H_SIZE && table[Cell(w, n)] == 0 && forall m: nat | m < n :: table[Cell(w, m)] != 0
    requires forall h: nat | h < H_SIZE :: table[h] == 0 || table[h] >= from
    ensures EnteredFrom(find, table[Cell(CapsWord(find, from - 1, caps), n) := from], from, caps + 1, caseSensitive)
  {
    var w := CapsWord(find, from - 1, caps);
    var table' := table[Cell(w, n) := from];
    forall i: nat, c: nat | i + 1 < |find| && Due(from, caps + 1, caseSensitive, i, c)
      ensures Entered(table', CapsWord(find, i, c), i)
    {
      if Due(from, caps, caseSensitive, i, c) {
        StillEntered(table, Cell(w, n), from, CapsWord(find, i, c), i);
      } else {
        EnteredNow(table, w, n, from - 1);
      }
    }
  }

  lemma AllCapsEntered(find: Bytes, table: seq<Byte>, from: nat, caseSensitive: bool)
    requires 1 <= from < |find| && EnteredFrom(find, table, from, CapsCount(caseSensitive), caseSensitive)
    ensures EnteredFrom(find, table, from - 1, 0, caseSensitive)
  {
  }

  /** The capitalizations of one word, from the bits of caps_set. */
  method CapsWordOf(find: Bytes, i: nat, capsSet: nat) returns (word: nat)
    requires i + 1 < |find| && capsSet < 4
    ensures word == CapsWord(find, i, capsSet)
  {
    var chars := [find[i], find[i + 1]];
    var bits, capIndex := capsSet, 0;
    while bits != 0
      invariant 0 <= capIndex <= 2 && |chars| == 2 && bits == (if capIndex == 0 then capsSet else if capIndex == 1 then capsSet / 2 else 0)
      invariant chars[0] == if capIndex >= 1 && capsSet % 2 == 1 then Capital(find[i]) else find[i]
      invariant chars[1] == if capIndex >= 2 && capsSet / 2 == 1 then Capital(find[i + 1]) else find[i + 1]
      decreases bits
    {
      if bits % 2 == 1 {
        chars := chars[capIndex := Capital(chars[capIndex])];
      }
      bits, capIndex := bits / 2, capIndex + 1;
    }
    word := Word(chars[0], chars[1]);
  }

  /** The first n cells probed for a word are occupied. */
  ghost predicate OccupiedPath(table: seq<Byte>, w: nat, n: nat) {
    |table| == H_SIZE && forall m: nat | m < n :: table[Cell(w, m)] != 0
  }

  lemma PathGrows(table: seq<Byte>, w: nat, n: nat, last: nat)
    requires OccupiedPath(table, w, n) && table[Cell(w, n)] != 0
    requires n <= last && table[Cell(w, last)] == 0
    ensures OccupiedPath(table, w, n + 1) && n + 1 <= last && (Cell(w, n) + 1) % H_SIZE == Cell(w, n + 1)
  {
    NextCell(w, n);
    assert n != last;
  }

  /** Linear probing for the first free cell. */
  method FreeCell(hTable: array<Byte>, word: nat, ghost free: nat) returns (h: nat, ghost n: nat)
    requires hTable.Length == H_SIZE && word < H_SIZE && free < H_SIZE && hTable[free] == 0
    ensures n < H_SIZE && h == Cell(word, n) && hTable[h] == 0 && OccupiedPath(hTable[..], word, n)
  {
    ghost var table, last := hTable[..], Distance(word, free);
    HomeCell(word);
    h, n := word % H_SIZE, 0;
    while hTable[h] != 0
      invariant n <= last && h == Cell(word, n) && OccupiedPath(table, word, n)
      decreases last - n
    {
      PathGrows(table, word, n, last);
      h, n := (h + 1) % H_SIZE, n + 1;
    }
  }

  /** Stored in eight bits. */
  function Stored(i: nat): Byte { (i + 1) % 256 }

  /** How many places behind the home cell of w, from n on, the first free cell is. */
  function FreeFrom(table: seq<Byte>, w: nat, n: nat): nat
    requires |table| == H_SIZE && n <= H_SIZE
    decreases H_SIZE - n
  {
    if n == H_SIZE || table[Cell(w, n)] == 0 then n else FreeFrom(table, w, n + 1)
  }

  /** v is entered for the word w. */
  function EnterWord(table: seq<Byte>, w: nat, v: Byte): (r: seq<Byte>)
    requires |table| == H_SIZE
    ensures |r| == H_SIZE
  {
    table[Cell(w, FreeFrom(table, w, 0)) := v]
  }

  /** The table after the rest of generate_hash, from a capitalization of offset i on; none when a word meets a table
      without a free cell. */
  function FillFrom(find: Bytes, caseSensitive: bool, i: int, caps: nat, table: seq<Byte>): (r: Option<seq<Byte>>)
    requires -1 <= i && i + 1 < |find| && caps <= CapsCount(caseSensitive) && |table| == H_SIZE
    ensures r.Some? ==> |r.value| == H_SIZE
    decreases i + 1, 4 - caps
  {
    if i < 0 then Some(table)
    else if caps == CapsCount(caseSensitive) then FillFrom(find, caseSensitive, i - 1, 0, table)
    else if Full(table) then None
    else FillFrom(find, caseSensitive, i, caps + 1, EnterWord(table, CapsWord(find, i, caps), Stored(i)))
  }

  function Zeros(): (r: seq<Byte>)
    ensures |r| == H_SIZE && forall h | 0 <= h < H_SIZE :: r[h] == 0
  {
    seq(H_SIZE, _ => 0)
  }

  /** The table of a query. */
  function TableOf(find: Bytes, caseSensitive: bool): Option<seq<Byte>>
    requires |find| > 0
  {
    FillFrom(find, caseSensitive, |find| - 2, 0, Zeros())
  }

  /** How many cells the words at the first k offsets occupy: an offset that is stored as 0 leaves its cell free. */
  function Needed(k: nat, caseSensitive: bool): nat {
    if k == 0 then 0 else Needed(k - 1, caseSensitive) + if Stored(k - 1) == 0 then 0 else CapsCount(caseSensitive)
  }

  lemma {:induction false} NeededCells(k: nat, caseSensitive: bool)
    ensures Needed(k, caseSensitive) == CapsCount(caseSensitive) * (k - k / 256)
  {
    if k > 0 {
      NeededCells(k - 1, caseSensitive);
      assert if k % 256 == 0 then k / 256 == (k - 1) / 256 + 1 else k / 256 == (k - 1) / 256;
    }
  }

  /** What is still to be occupied. */
  function Remaining(i: int, caps: nat, caseSensitive: bool): int
    requires -1 <= i && caps <= CapsCount(caseSensitive)
  {
    if i < 0 then 0 else Needed(i, caseSensitive) + if Stored(i) == 0 then 0 else CapsCount(caseSensitive) - caps
  }

  lemma {:induction false} SomeNeeded(k: nat, caseSensitive: bool)
    requires k > 0
    ensures Needed(k, caseSensitive) > 0
  {
    if k > 1 {
      SomeNeeded(k - 1, caseSensitive);
    }
  }

  lemma {:induction false} FirstFree(table: seq<Byte>, w: nat, n: nat, free: nat)
    requires |table| == H_SIZE && n <= free < H_SIZE && table[Cell(w, free)] == 0
    ensures var f := FreeFrom(table, w, n); n <= f < H_SIZE && table[Cell(w, f)] == 0 && forall m: nat | n <= m < f :: table[Cell(w, m)] != 0
    decreases H_SIZE - n
  {
    if table[Cell(w, n)] != 0 {
      FirstFree(table, w, n + 1, free);
    }
  }

  lemma OneMoreOccupied(table: seq<Byte>, w: nat, v: Byte)
    requires |table| == H_SIZE && !Full(table) && w < H_SIZE
    ensures |Occupied(EnterWord(table, w, v))| == |Occupied(table)| + if v == 0 then 0 else 1
  {
    var free: nat :| free < H_SIZE && table[free] == 0;
    FirstFree(table, w, 0, Distance(w, free));
    var h := Cell(w, FreeFrom(table, w, 0));
    assert Occupied(EnterWord(table, w, v)) == if v == 0 then Occupied(table) else Occupied(table) + {h};
  }

  /** The rest of the words finds free cells exactly when the table has room for what they occupy. */
  lemma {:induction false} FillsExactly(find: Bytes, caseSensitive: bool, i: int, caps: nat, table: seq<Byte>)
    requires -1 <= i && i + 1 < |find| && caps <= CapsCount(caseSensitive) && |table| == H_SIZE
    ensures var r := FillFrom(find, caseSensitive, i, caps, table); var n := |Occupied(table)| + Remaining(i, caps, caseSensitive);
      (r.Some? <==> n <= H_SIZE) && (r.Some? ==> |Occupied(r.value)| == n)
    decreases i + 1, 4 - caps
  {
    hide Occupied, EnterWord, CapsWord, Stored;
    OccupiedAtMost(table);
    if i >= 0 {
      if caps == CapsCount(caseSensitive) {
        FillsExactly(find, caseSensitive, i - 1, 0, table);
      } else if !Full(table) {
        var w := CapsWord(find, i, caps);
        OneMoreOccupied(table, w, Stored(i));
        FillsExactly(find, caseSensitive, i, caps + 1, EnterWord(table, w, Stored(i)));
      } else if i > 0 {
        SomeNeeded(i, caseSensitive);
      } else {
        StoredFirst();
      }
    }
  }

  lemma StoredFirst()
    ensures Stored(0) == 1
  {
  }

  lemma EmptyTable()
    ensures Occupied(Zeros()) == {}
  {
  }

  /** Every word of the query finds a free cell exactly when the cells that they occupy are no more than there are. */
  lemma HashesExactly(find: Bytes, caseSensitive: bool)
    requires |find| > 0
    ensures TableOf(find, caseSensitive).Some? <==> CapsCount(caseSensitive) * (|find| - 1 - (|find| - 1) / 256) <= H_SIZE
    ensures TableOf(find, caseSensitive).Some? && |find| <= 256 ==> !Full(TableOf(find, caseSensitive).value)
  {
    hide Occupied, Stored, Zeros, Full;
    var k := |find| - 1;
    FillsExactly(find, caseSensitive, k - 1, 0, Zeros());
    NeededCells(k, caseSensitive);
    EmptyTable();
    if TableOf(find, caseSensitive).Some? {
      OccupiedAtMost(TableOf(find, caseSensitive).value);
    }
  }

  /** Probing for a word ends exactly when some cell is free. */
  lemma ProbingEnds(table: seq<Byte>, w: nat)
    requires |table| == H_SIZE && w < H_SIZE
    ensures (exists n: nat :: table[Cell(w, n)] == 0) <==> !Full(table)
  {
    if !Full(table) {
      var h: nat :| h < H_SIZE && table[h] == 0;
      assert table[Cell(w, Distance(w, h))] == 0;
    }
  }

  /** The state of the table between two offsets; offsets of longer queries do not fit the cells. */
  ghost predicate HashedFrom(find: Bytes, table: seq<Byte>, from: nat, caps: nat, least: nat, caseSensitive: bool) {
    |find| <= 256 ==>
      && EnteredFrom(find, table, from, caps, caseSensitive)
      && |table| == H_SIZE && forall h: nat | h < H_SIZE :: table[h] == 0 || least <= table[h] < |find|
  }

  method GenerateHash(find: Bytes, hTable: array<Byte>, caseSensitive: bool)
    requires |find| > 0 && hTable.Length == H_SIZE && forall h: nat | h < H_SIZE :: hTable[h] == 0
    requires TableOf(find, caseSensitive).Some?
    modifies hTable
    ensures TableOf(find, caseSensitive) == Some(hTable[..])
    ensures |find| <= 256 ==> Filled(find, hTable[..], caseSensitive)
  {
    var i: int := |find| - 2;
    ghost var goal := TableOf(find, caseSensitive);
    assert hTable[..] == Zeros();
    while i >= 0
      invariant -1 <= i <= |find| - 2
      invariant FillFrom(find, caseSensitive, i, 0, hTable[..]) == goal
      invariant HashedFrom(find, hTable[..], i + 1, 0, i + 2, caseSensitive)
    {
      EnterAll(find, hTable, i, caseSensitive);
      i := i - 1;
    }
    HashesExactly(find, caseSensitive);
  }

  /** One more entry: the cell is written, and nothing entered before is lost. */
  lemma EntryMade(find: Bytes, before: seq<Byte>, i: nat, caps: nat, n: nat, h: nat, caseSensitive: bool)
    requires i + 1 < |find| && caps < CapsCount(caseSensitive)
    requires HashedFrom(find, before, i + 1, caps, i + 1, caseSensitive)
    requires n < H_SIZE && OccupiedPath(before, CapsWord(find, i, caps), n)
    requires h == Cell(CapsWord(find, i, caps), n) && before[h] == 0
    ensures HashedFrom(find, before[h := Stored(i)], i + 1, caps + 1, i + 1, caseSensitive)
  {
    hide CapsWord, EnteredFrom;
    if |find| <= 256 {
      OneEntered(find, before, n, i + 1, caps, caseSensitive);
    }
  }

  /** The inner loop of generate_hash. */
  method EnterAll(find: Bytes, hTable: array<Byte>, i: nat, caseSensitive: bool)
    requires hTable.Length == H_SIZE && i + 1 < |find|
    requires FillFrom(find, caseSensitive, i, 0, hTable[..]).Some?
    requires HashedFrom(find, hTable[..], i + 1, 0, i + 2, caseSensitive)
    modifies hTable
    ensures FillFrom(find, caseSensitive, i - 1, 0, hTable[..]) == old(FillFrom(find, caseSensitive, i, 0, hTable[..]))
    ensures HashedFrom(find, hTable[..], i, 0, i + 1, caseSensitive)
  {
    var capsSet := 0;
    ghost var goal := FillFrom(find, caseSensitive, i, 0, hTable[..]);
    while capsSet < 4
      invariant 0 <= capsSet <= 4 && (caseSensitive ==> capsSet == 0)
      invariant FillFrom(find, caseSensitive, i, capsSet, hTable[..]) == goal
      invariant HashedFrom(find, hTable[..], i + 1, capsSet, i + 1, caseSensitive)
    {
      EnterOne(find, hTable, i, capsSet, caseSensitive);
      if caseSensitive {
        break;
      }
      capsSet := capsSet + 1;
    }
    if |find| <= 256 {
      AllCapsEntered(find, hTable[..], i + 1, caseSensitive);
    }
  }

  method EnterOne(find: Bytes, hTable: array<Byte>, i: nat, capsSet: nat, caseSensitive: bool)
    requires hTable.Length == H_SIZE && i + 1 < |find| && capsSet < CapsCount(caseSensitive)
    requires FillFrom(find, caseSensitive, i, capsSet, hTable[..]).Some?
    requires HashedFrom(find, hTable[..], i + 1, capsSet, i + 1, caseSensitive)
    modifies hTable
    ensures FillFrom(find, caseSensitive, i, capsSet + 1, hTable[..]) == old(FillFrom(find, caseSensitive, i, capsSet, hTable[..]))
    ensures HashedFrom(find, hTable[..], i + 1, capsSet + 1, i + 1, caseSensitive)
  {
    ghost var before := hTable[..];
    var word := CapsWordOf(find, i, capsSet);
    assert !Full(before);
    ghost var free: nat :| free < H_SIZE && before[free] == 0;
    var h, n := FreeCell(hTable, word, free);
    EntryMade(find, before, i, capsSet, n, h, caseSensitive);
    FirstFree(before, word, 0, n);
    hTable[h] := Stored(i);
    assert hTable[..] == before[h := Stored(i)];
  }

  // ----- the search -----

  /** The bytes of an occurrence, read as a word, are one of the capitalizations entered for its offset. */
  lemma OccurrenceIsEntered(s: Bytes, find: Bytes, fold: bool, p: nat, i: nat) returns (caps: nat)
    requires OccursAt(s, find, fold, p) && i + 1 < |find|
    ensures caps < CapsCount(!fold) && CapsWord(find, i, caps) == Word(s[p + i], s[p + i + 1])
  {
    assert Folded(s[p + i], fold) == find[i] && Folded(s[p + (i + 1)], fold) == find[i + 1];
    caps := (if s[p + i] == find[i] then 0 else 1) + (if s[p + i + 1] == find[i + 1] then 0 else 2);
  }

  /** The comparison of a putative match. */
  method MatchesAt(s: Bytes, find: Bytes, r: nat, caseSensitive: bool) returns (yes: bool)
    requires r + |find| <= |s|
    ensures yes <==> OccursAt(s, find, !caseSensitive, r)
  {
    for i := 0 to |find|
      invariant forall k | 0 <= k < i :: Folded(s[r + k], !caseSensitive) == find[k]
    {
      if (if caseSensitive then s[r + i] else ToLower(s[r + i])) != find[i] {
        assert Folded(s[r + i], !caseSensitive) != find[i];
        return false;
      }
    }
    return true;
  }

  /** The start that cell h names for the word at `at`. */
  function Candidate(table: seq<Byte>, at: nat, h: nat): int
    requires h < |table|
  {
    at - (table[h] as int - 1)
  }

  /** The cells probed so far name no occurrence. */
  ghost predicate Probed(s: Bytes, find: Bytes, fold: bool, table: seq<Byte>, at: nat, w: nat, n: nat) {
    OccupiedPath(table, w, n) && forall m: nat | m < n :: !OccursAt(s, find, fold, Candidate(table, at, Cell(w, m)))
  }

  /** An occurrence that covers the word at `at` is met when its cell is probed, before those of later starts. */
  lemma ProbeFinds(s: Bytes, find: Bytes, fold: bool, table: seq<Byte>, at: nat, w: nat, n: nat, p: nat)
    requires Filled(find, table, !fold) && p <= at && at - p + 1 < |find| && at + 1 < |s| && w == Word(s[at], s[at + 1])
    requires OccursAt(s, find, fold, p) && Probed(s, find, fold, table, at, w, n)
    ensures table[Cell(w, n)] != 0 && Candidate(table, at, Cell(w, n)) <= p
  {
    var i := at - p;
    var caps := OccurrenceIsEntered(s, find, fold, p, i);
    assert Entered(table, CapsWord(find, i, caps), i);
    var k: nat :| ReachedAfter(table, w, i, k);
    assert Candidate(table, at, Cell(w, k)) == p;
  }

  /** None of the starts covered by the word at `at` and before `upto` is an occurrence. */
  ghost predicate NoneCovered(s: Bytes, find: Bytes, fold: bool, at: nat, upto: int) {
    forall p: nat | at - (|find| - 2) <= p <= at && p < upto :: !OccursAt(s, find, fold, p)
  }

  lemma CoveredSoFar(s: Bytes, find: Bytes, fold: bool, table: seq<Byte>, at: nat, w: nat, n: nat, upto: int)
    requires 2 <= |find| && Filled(find, table, !fold) && at + 1 < |s| && w == Word(s[at], s[at + 1])
    requires Probed(s, find, fold, table, at, w, n)
    requires table[Cell(w, n)] == 0 || upto <= Candidate(table, at, Cell(w, n))
    ensures NoneCovered(s, find, fold, at, upto)
  {
    forall p: nat | at - (|find| - 2) <= p <= at && p < upto ensures !OccursAt(s, find, fold, p) {
      if OccursAt(s, find, fold, p) {
        ProbeFinds(s, find, fold, table, at, w, n, p);
      }
    }
  }

  /** Look the word at `at` up: the first occurrence among the starts it covers, if any. */
  method Lookup(s: Bytes, find: Bytes, at: nat, hTable: array<Byte>, caseSensitive: bool) returns (r: Hit)
    requires 2 <= |find| && hTable.Length == H_SIZE && Filled(find, hTable[..], caseSensitive)
    requires |find| - 2 <= at && at + |find| <= |s|
    ensures match r
      case NoHit => NoneCovered(s, find, !caseSensitive, at, |s|)
      case Hit(p) =>
        at - (|find| - 2) <= p <= at && OccursAt(s, find, !caseSensitive, p) && NoneCovered(s, find, !caseSensitive, at, p)
  {
    ghost var table := hTable[..];
    var w := Word(s[at], s[at + 1]);
    ghost var free: nat :| free < H_SIZE && table[free] == 0;
    ghost var last, n := Distance(w, free), 0;
    HomeCell(w);
    var h := w % H_SIZE;
    while hTable[h] != 0
      invariant 0 <= n <= last && h == Cell(w, n)
      invariant Probed(s, find, !caseSensitive, table, at, w, n)
      decreases last - n
    {
      var r0 := at - (hTable[h] - 1);
      assert table[h] < |find|;
      var yes := MatchesAt(s, find, r0, caseSensitive);
      if yes {
        CoveredSoFar(s, find, !caseSensitive, table, at, w, n, r0);
        return Hit(r0);
      }
      PathGrows(table, w, n, last);
      h, n := (h + 1) % H_SIZE, n + 1;
    }
    CoveredSoFar(s, find, !caseSensitive, table, at, w, n, |s|);
    return NoHit;
  }

  ghost predicate NoneBefore(s: Bytes, find: Bytes, fold: bool, upto: int) {
    forall p | 0 <= p < upto :: !OccursAt(s, find, fold, p)
  }

  /** The first occurrence of the query, or nothing. */
  method Strnstr(s: Bytes, find: Bytes, hTable: array<Byte>, caseSensitive: bool) returns (r: Hit)
    requires 2 <= |find| && hTable.Length == H_SIZE && Filled(find, hTable[..], caseSensitive)
    ensures FirstOccurrence(s, find, !caseSensitive, 0, r)
  {
    if |s| < |find| {
      return NoHit;
    }
    var step := |find| - 2 + 1;
    var sI := |find| - 2;
    while sI <= |s| - |find|
      invariant |find| - 2 <= sI
      invariant NoneBefore(s, find, !caseSensitive, sI - (|find| - 2))
      decreases |s| - sI
    {
      r := Lookup(s, find, sI, hTable, caseSensitive);
      if r.Hit? {
        return;
      }
      sI := sI + step;
    }
    sI := sI - step + 1;
    while sI <= |s| - |find|
      invariant 0 <= sI
      invariant NoneBefore(s, find, !caseSensitive, sI)
      decreases |s| - sI
    {
      var yes := MatchesAt(s, find, sI, caseSensitive);
      if yes {
        return Hit(sI);
      }
      sI := sI + 1;
    }
    return NoHit;
  }
}
