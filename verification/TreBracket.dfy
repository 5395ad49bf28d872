/** Bracket expressions (tre-parse.c, 8-bit build): growing the item array, expanding a class, adding the
    other case, and turning the items into a tree, negated or not. */
module TreBracket {
  import opened Common
  import opened Text
  import opened TreAst

  const TRE_CHAR_MAX: nat := 255

  datatype Item = Item(min: nat, max: nat)

  predicate InRanges(items: seq<Item>, c: nat) {
    exists k | 0 <= k < |items| :: items[k].min <= c <= items[k].max
  }

  /** No range is empty and there is room between two of them. */
  predicate Apart(items: seq<Item>) {
    && (forall k | 0 <= k < |items| :: items[k].min <= items[k].max)
    && (forall j, k | 0 <= j < k < |items| :: items[j].max + 1 < items[k].min)
  }

  lemma RangesOfSum(a: seq<Item>, b: seq<Item>, c: nat)
    ensures InRanges(a + b, c) <==> InRanges(a, c) || InRanges(b, c)
  {
    var s := a + b;
    if InRanges(a, c) {
      var k :| 0 <= k < |a| && a[k].min <= c <= a[k].max;
      assert s[k] == a[k];
    }
    if InRanges(b, c) {
      var k :| 0 <= k < |b| && b[k].min <= c <= b[k].max;
      assert s[|a| + k] == b[k];
    }
    if k :| 0 <= k < |s| && s[k].min <= c <= s[k].max {
      assert s[k] == if k < |a| then a[k] else b[k - |a|];
    }
  }

  /** One range more. */
  lemma RangesGrow(a: seq<Item>, lo: nat, hi: nat, c: nat)
    ensures InRanges(a + [Item(lo, hi)], c) <==> InRanges(a, c) || lo <= c <= hi
  {
    RangesOfSum(a, [Item(lo, hi)], c);
    assert lo <= c <= hi ==> [Item(lo, hi)][0].min <= c <= [Item(lo, hi)][0].max;
  }

  // ----- collecting items -----

  /** The array of items: it is doubled when full, but not when it already has more than 1024 slots. */
  class Items {
    var items: seq<Item>
    var size: nat

    ghost predicate Valid() reads this { |items| <= size && 0 < size }

    constructor ()
      ensures Valid() && items == [] && size == 32
    {
      items, size := [], 32;
    }

    /** tre_new_item. */
    method New(min: nat, max: nat) returns (ok: bool)
      requires Valid()
      modifies this
      ensures Valid() && ok == (old(|items|) < old(size) || old(size) <= 1024)
      ensures items == if ok then old(items) + [Item(min, max)] else old(items)
      ensures size == if ok && old(|items|) == old(size) then 2 * old(size) else old(size)
    {
      if |items| >= size {
        if size > 1024 {
          return false;
        }
        size := size * 2;
      }
      items := items + [Item(min, max)];
      ok := true;
    }
  }

  /** A class is the set of its members; with REG_ICASE a byte counts when one of its cases does. */
  predicate Member(class_: set<Byte>, icase: bool, c: Byte) {
    c in class_ || (icase && (ToLower(c) in class_ || ToUpper(c) in class_))
  }

  /** What tre_expand_ctype has appended when it has looked at the bytes below j. */
  predicate Expanded(class_: set<Byte>, icase: bool, ranges: seq<Item>, j: nat)
    requires j <= 256
  {
    && Apart(ranges) && (forall k | 0 <= k < |ranges| :: ranges[k].max < j)
    && (forall c: Byte | c < j :: InRanges(ranges, c) <==> Member(class_, icase, c))
  }

  predicate Expanding(class_: set<Byte>, icase: bool, ranges: seq<Item>, j: nat, min: int, max: nat)
    requires j <= 256
  {
    if min < 0 then Expanded(class_, icase, ranges, j) && (j > 0 ==> forall k | 0 <= k < |ranges| :: ranges[k].max + 1 < j) else
      && min <= max && max + 1 == j
      && Expanded(class_, icase, ranges, min) && (forall k | 0 <= k < |ranges| :: ranges[k].max + 1 < min)
      && (forall c: Byte | min <= c < j :: Member(class_, icase, c))
  }

  lemma RangeDone(class_: set<Byte>, icase: bool, ranges: seq<Item>, j: nat, min: nat, max: nat)
    requires j <= 256 && Expanding(class_, icase, ranges, j, min, max)
    ensures Expanded(class_, icase, ranges + [Item(min, max)], j)
  {
    forall c: Byte | c < j ensures InRanges(ranges + [Item(min, max)], c) <==> Member(class_, icase, c) {
      RangesGrow(ranges, min, max, c);
    }
  }

  lemma NoMember(class_: set<Byte>, icase: bool, ranges: seq<Item>, j: Byte)
    requires Expanded(class_, icase, ranges, j) && !Member(class_, icase, j)
    ensures Expanding(class_, icase, ranges, j + 1, -1, 0)
  {
  }

  method ExpandCtype(to: Items, class_: set<Byte>, icase: bool) returns (ok: bool, ghost ranges: seq<Item>)
    requires to.Valid()
    modifies to
    ensures to.Valid() && to.items == old(to.items) + ranges
    ensures if ok then Expanded(class_, icase, ranges, 256) else to.size > 1024 && |to.items| == to.size
  {
    var j: nat, min: int, max: int := 0, -1, 0;
    ok := true;
    ranges := [];
    while j < 256 && ok
      invariant j <= 256 && to.Valid() && to.items == old(to.items) + ranges
      invariant if ok then Expanding(class_, icase, ranges, j, min, max) else to.size > 1024 && |to.items| == to.size
    {
      var c: Byte := j;
      if c in class_ || (icase && (ToLower(c) in class_ || ToUpper(c) in class_)) {
        if min < 0 {
          min := c;
        }
        max := c;
      } else {
        if min >= 0 {
          RangeDone(class_, icase, ranges, j, min, max);
          ok := to.New(min, max);
          if ok {
            ranges := ranges + [Item(min, max)];
          }
          min := -1;
        }
        if ok {
          NoMember(class_, icase, ranges, c);
        }
      }
      j := j + 1;
    }
    if min >= 0 && ok {
      RangeDone(class_, icase, ranges, 256, min, max);
      ok := to.New(min, max);
      if ok {
        ranges := ranges + [Item(min, max)];
      }
    }
  }

  // ----- the other case -----

  predicate IsLower(c: nat) { 'a' as int <= c <= 'z' as int }

  predicate IsUpper(c: nat) { 'A' as int <= c <= 'Z' as int }

  /** c is the other case of a letter of lo..to-1. */
  predicate OtherCase(lo: nat, to: nat, c: nat) {
    || (IsUpper(c) && lo <= c + 32 < to)
    || (IsLower(c) && lo <= c - 32 < to)
  }

  /** The ranges hold the other cases of the letters of min..to-1. */
  ghost predicate Counterpoints(ranges: seq<Item>, min: nat, to: nat) {
    forall c: nat :: InRanges(ranges, c) <==> OtherCase(min, to, c)
  }

  lemma SkipCounterpoints(ranges: seq<Item>, min: nat, at: nat)
    requires min <= at && Counterpoints(ranges, min, at) && !IsLower(at) && !IsUpper(at)
    ensures Counterpoints(ranges, min, at + 1)
  {
    forall c: nat ensures InRanges(ranges, c) <==> OtherCase(min, at + 1, c) {
      assert OtherCase(min, at, c) <==> OtherCase(min, at + 1, c);
    }
  }

  lemma MoreCounterpoints(ranges: seq<Item>, min: nat, at: nat, to: nat, cmin: nat, ccurr: nat)
    requires min <= at < to && Counterpoints(ranges, min, at)
    requires || (IsLower(at) && IsLower(to - 1) && cmin == at - 32 && ccurr == to - 33)
             || (IsUpper(at) && IsUpper(to - 1) && cmin == at + 32 && ccurr == to + 31)
    ensures Counterpoints(ranges + [Item(cmin, ccurr)], min, to)
  {
    forall c: nat ensures InRanges(ranges + [Item(cmin, ccurr)], c) <==> OtherCase(min, to, c) {
      RangesGrow(ranges, cmin, ccurr, c);
      assert OtherCase(min, to, c) <==> OtherCase(min, at, c) || cmin <= c <= ccurr;
    }
  }

  /** The loop of tre_parse_bracket_items for REG_ICASE. */
  method AddCounterpoints(to: Items, lo: Byte, hi: Byte) returns (ok: bool, ghost ranges: seq<Item>)
    requires to.Valid() && lo <= hi
    modifies to
    ensures to.Valid() && to.items == old(to.items) + ranges
    ensures if ok then forall c: nat :: InRanges(ranges, c) <==> OtherCase(lo, hi + 1, c)
      else to.size > 1024 && |to.items| == to.size
  {
    var min, max: nat := lo, hi;
    ranges := [];
    while min <= max
      invariant lo <= min <= max + 1 && to.Valid() && to.items == old(to.items) + ranges
      invariant Counterpoints(ranges, lo, min)
      decreases max + 1 - min
    {
      ghost var at := min;
      if IsLower(min) {
        var cmin := min - 32;
        var ccurr := cmin;
        min := min + 1;
        while IsLower(min) && min - 32 == ccurr + 1 && min <= max
          invariant at < min <= max + 1 && ccurr == min - 33 && IsLower(at) && IsLower(min - 1)
        {
          ccurr := min - 32;
          min := min + 1;
        }
        MoreCounterpoints(ranges, lo, at, min, cmin, ccurr);
        ok := to.New(cmin, ccurr);
        if !ok {
          return;
        }
        ranges := ranges + [Item(cmin, ccurr)];
      } else if IsUpper(min) {
        var cmin := min + 32;
        var ccurr := cmin;
        min := min + 1;
        while IsUpper(min) && min + 32 == ccurr + 1 && min <= max
          invariant at < min <= max + 1 && ccurr == min + 31 && IsUpper(at) && IsUpper(min - 1)
        {
          ccurr := min + 32;
          min := min + 1;
        }
        MoreCounterpoints(ranges, lo, at, min, cmin, ccurr);
        ok := to.New(cmin, ccurr);
        if !ok {
          return;
        }
        ranges := ranges + [Item(cmin, ccurr)];
      } else {
        min := min + 1;
        SkipCounterpoints(ranges, lo, at);
      }
    }
    ok := true;
  }

  // ----- the tree of a bracket -----

  /** The items after qsort. */
  predicate Sorted(items: seq<Item>) {
    && (forall k | 0 <= k < |items| :: items[k].min <= items[k].max <= TRE_CHAR_MAX)
    && (forall j, k | 0 <= j < k < |items| :: items[j].min <= items[k].min)
  }

  /** The first byte behind all of the first n items. */
  function Top(items: seq<Item>, n: nat): nat
    requires n <= |items|
  {
    if n == 0 then 0 else
      var t := Top(items, n - 1);
      if items[n - 1].max + 1 > t then items[n - 1].max + 1 else t
  }

  /** An item that starts inside what earlier items cover ends inside it, too. */
  predicate NestedBelow(items: seq<Item>, n: nat)
    requires n <= |items|
  {
    forall k | 0 <= k < n && items[k].min < Top(items, k) :: items[k].max < Top(items, k)
  }

  predicate Nested(items: seq<Item>) { NestedBelow(items, |items|) }

  ghost function Bytes1(ranges: seq<Item>): Language {
    iset w: Word | |w| == 1 && InRanges(ranges, w[0])
  }

  ghost predicate IsTree(node: Option<Ast>, ranges: seq<Item>) {
    match node
    case None => ranges == []
    case Some(t) => Lang(t) == Bytes1(ranges)
  }

  function Joined(node: Option<Ast>, r: Item): Option<Ast> {
    Some(match node
         case None => Literal(r.min, r.max)
         case Some(t) => Union(t, Literal(r.min, r.max)))
  }

  lemma JoinedIsTree(node: Option<Ast>, ranges: seq<Item>, r: Item)
    requires IsTree(node, ranges)
    ensures IsTree(Joined(node, r), ranges + [r])
  {
    forall w: Word | |w| == 1 ensures InRanges(ranges + [r], w[0]) <==> InRanges(ranges, w[0]) || r.min <= w[0] <= r.max {
      RangesGrow(ranges, r.min, r.max, w[0]);
    }
    assert Lang(Joined(node, r).value) == Bytes1(ranges + [r]);
  }

  /** What has been built from the first j items, when negated. */
  ghost predicate Negating(items: seq<Item>, j: nat, ranges: seq<Item>, currMin: nat, currMax: nat)
    requires j <= |items| && Sorted(items)
  {
    && currMin <= currMax == Top(items, j)
    && (forall c | currMin <= c < currMax :: InRanges(items, c))
    && (forall c: nat | InRanges(ranges, c) :: c < currMin)
    && (forall c: nat | c < currMin && !InRanges(items, c) :: InRanges(ranges, c))
    && (NestedBelow(items, j) ==> currMin == currMax && forall c: nat | InRanges(ranges, c) :: !InRanges(items, c))
    && (!NestedBelow(items, j) ==> exists c: nat | c <= TRE_CHAR_MAX && InRanges(items, c) :: InRanges(ranges, c) || currMin <= c < currMax)
  }

  lemma {:induction false} TopCovers(items: seq<Item>, j: nat)
    requires j <= |items| && Sorted(items)
    ensures Top(items, j) <= TRE_CHAR_MAX + 1
    ensures j > 0 ==> forall c | items[j - 1].min <= c < Top(items, j) :: InRanges(items, c)
    ensures forall k | 0 <= k < j :: items[k].max < Top(items, j)
  {
    if j > 0 {
      TopCovers(items, j - 1);
    }
  }

  lemma StartsWithNothing(items: seq<Item>)
    requires Sorted(items)
    ensures Negating(items, 0, [], 0, 0)
  {
  }

  /** An item that starts inside what is covered. */
  lemma Overlap(items: seq<Item>, j: nat, ranges: seq<Item>, currMin: nat, currMax: nat)
    requires j < |items| && Sorted(items) && Negating(items, j, ranges, currMin, currMax) && items[j].min < currMax
    ensures Negating(items, j + 1, ranges, currMin, if items[j].max + 1 > currMax then items[j].max + 1 else currMax)
  {
    if items[j].max >= currMax {
      assert InRanges(items, currMax);
      assert !NestedBelow(items, j + 1);
    } else {
      assert NestedBelow(items, j + 1) <==> NestedBelow(items, j);
    }
  }

  /** An item behind what is covered; the room before it, if any, becomes a range. */
  lemma Behind(items: seq<Item>, j: nat, ranges: seq<Item>, currMin: nat, currMax: nat)
    requires j < |items| && Sorted(items) && Negating(items, j, ranges, currMin, currMax) && items[j].min >= currMax
    ensures Negating(items, j + 1, if items[j].min - 1 >= currMin then ranges + [Item(currMin, items[j].min - 1)] else ranges,
                     items[j].max + 1, items[j].max + 1)
  {
    hide Sorted, Top, NestedBelow, InRanges;
    var room := items[j].min - 1 >= currMin;
    var next := if room then ranges + [Item(currMin, items[j].min - 1)] else ranges;
    forall c: nat ensures InRanges(next, c) <==> InRanges(ranges, c) || currMin <= c < items[j].min {
      if room {
        RangesGrow(ranges, currMin, items[j].min - 1, c);
      }
    }
    BehindBasics(items, j);
    BehindCovers(items, j, ranges, next, currMin, currMax);
  }

  lemma BehindBasics(items: seq<Item>, j: nat)
    requires j < |items| && Sorted(items) && items[j].min >= Top(items, j)
    ensures items[j].min <= items[j].max && Top(items, j + 1) == items[j].max + 1
    ensures NestedBelow(items, j + 1) <==> NestedBelow(items, j)
    ensures forall c | items[j].min <= c <= items[j].max :: InRanges(items, c)
  {
    forall k | 0 <= k < j + 1 && items[k].min < Top(items, k) ensures k < j {
    }
  }

  lemma BehindCovers(items: seq<Item>, j: nat, ranges: seq<Item>, next: seq<Item>, currMin: nat, currMax: nat)
    requires j < |items| && Sorted(items) && Negating(items, j, ranges, currMin, currMax) && items[j].min >= currMax
    requires forall c: nat :: InRanges(next, c) <==> InRanges(ranges, c) || currMin <= c < items[j].min
    ensures NestedBelow(items, j) ==> forall c: nat | InRanges(next, c) :: !InRanges(items, c)
  {
    hide NestedBelow;
    TopCovers(items, j);
    forall c: nat | NestedBelow(items, j) && InRanges(next, c) ensures !InRanges(items, c) {
      if !InRanges(ranges, c) {
        forall k | 0 <= k < |items| ensures !(items[k].min <= c <= items[k].max) {
        }
      }
    }
  }

  /** One byte that no item covers. */
  ghost function Complement(items: seq<Item>): Language {
    iset w: Word | |w| == 1 && w[0] <= TRE_CHAR_MAX && !InRanges(items, w[0])
  }

  lemma LastRange(items: seq<Item>, ranges: seq<Item>, currMin: nat, currMax: nat, node: Option<Ast>)
    requires Sorted(items) && Negating(items, |items|, ranges, currMin, currMax)
    requires node.Some? && IsTree(node, ranges + [Item(currMin, TRE_CHAR_MAX)])
    ensures Complement(items) <= Lang(node.value)
    ensures Nested(items) <==> Lang(node.value) == Complement(items)
  {
    var all := ranges + [Item(currMin, TRE_CHAR_MAX)];
    TopCovers(items, |items|);
    forall c: nat ensures InRanges(all, c) <==> InRanges(ranges, c) || currMin <= c <= TRE_CHAR_MAX {
      RangesGrow(ranges, currMin, TRE_CHAR_MAX, c);
    }
    forall w: Word | w in Complement(items) ensures w in Bytes1(all) {
    }
    if Nested(items) {
      forall w: Word | w in Bytes1(all) ensures w in Complement(items) {
        assert InRanges(all, w[0]);
      }
    } else {
      var c: nat :| c <= TRE_CHAR_MAX && InRanges(items, c) && (InRanges(ranges, c) || currMin <= c < currMax);
      assert [c] in Bytes1(all) && [c] !in Complement(items);
    }
  }

  /** The second half of tre_parse_bracket. The literals of the items are overwritten. */
  method BuildBracket(items: array<Item>, negate: bool) returns (node: Option<Ast>)
    requires negate ==> Sorted(items[..])
    modifies items
    ensures !negate ==> IsTree(node, old(items[..])) && items[..] == old(items[..])
    ensures negate ==> node.Some? && Complement(old(items[..])) <= Lang(node.value)
    ensures negate ==> (Lang(node.value) == Complement(old(items[..])) <==> Nested(old(items[..])))
  {
    hide Negating, IsTree, Nested, Complement, Bytes1, Lang, InRanges, Top, NestedBelow, Joined;
    ghost var its := items[..];
    ghost var ranges: seq<Item> := [];
    var currMin: nat, currMax: nat := 0, 0;
    node := None;
    NoItems();
    if negate {
      StartsWithNothing(its);
    }
    for j := 0 to items.Length
      invariant IsTree(node, ranges) && items[j..] == its[j..]
      invariant !negate ==> ranges == its[..j] && items[..] == its
      invariant negate ==> Negating(its, j, ranges, currMin, currMax)
    {
      var min: int, max: int := items[j].min, items[j].max;
      assert items[j] == items[j..][0] == its[j..][0] == its[j];
      var keep := true;
      if negate {
        if min < currMax {
          Overlap(its, j, ranges, currMin, currMax);
          currMax := if max + 1 > currMax then max + 1 else currMax;
          keep := false;
        } else {
          Behind(its, j, ranges, currMin, currMax);
          if min - 1 >= currMin {
            items[j] := Item(currMin, min - 1);
          } else {
            keep := false;
          }
          currMin, currMax := max + 1, max + 1;
        }
      }
      if keep {
        JoinedIsTree(node, ranges, items[j]);
        ranges := ranges + [items[j]];
        node := Joined(node, items[j]);
      }
    }
    if negate {
      JoinedIsTree(node, ranges, Item(currMin, TRE_CHAR_MAX));
      node := Joined(node, Item(currMin, TRE_CHAR_MAX));
      LastRange(its, ranges, currMin, currMax, node);
    }
    assert its[..|its|] == its;
  }

  lemma NoItems()
    ensures IsTree(None, [])
  {
  }

  /** `[^a-cb-e]`: the second range starts inside the first and ends behind it, so `d` and `e` slip in. */
  lemma PartialOverlap()
    ensures var items := [Item('a' as int, 'c' as int), Item('b' as int, 'e' as int)];
      Sorted(items) && !Nested(items)
  {
    var items := [Item('a' as int, 'c' as int), Item('b' as int, 'e' as int)];
    assert Top(items, 0) == 0;
    assert Top(items, 1) == 100;
    assert items[1].min < Top(items, 1) && items[1].max >= Top(items, 1);
  }
}
