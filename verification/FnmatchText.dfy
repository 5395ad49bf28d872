/** What glob texts mean: bracket expressions and whole patterns are printed from what they stand for, and read back by
    the definitions of FnmatchChar and Fnmatch. */
module FnmatchText {
  import opened Common
  import opened FnmatchChar
  import Fnmatch

  // ----- character classes -----

  const UPPER: string := "ABCDEFGHIJKLMNOPQRSTUVWXYZ"
  const LOWER: string := "abcdefghijklmnopqrstuvwxyz"
  const DIGITS: string := "0123456789"
  const PUNCTUATION: string := "!\"#$%&'()*+,-./:;<=>?@[\\]^_`{|}~"

  function NameOf(k: Class): string {
    match k
    case Alnum => "alnum"
    case Alpha => "alpha"
    case Blank => "blank"
    case Cntrl => "cntrl"
    case Digit => "digit"
    case Graph => "graph"
    case Lower => "lower"
    case Print => "print"
    case Punct => "punct"
    case Space => "space"
    case Upper => "upper"
    case Xdigit => "xdigit"
  }

  /** The members of a class in the C locale, listed. */
  predicate IsMember(k: Class, c: char) {
    match k
    case Alnum => c in UPPER || c in LOWER || c in DIGITS
    case Alpha => c in UPPER || c in LOWER
    case Blank => c in " \t"
    case Cntrl => c as int <= 31 || c as int == 127
    case Digit => c in DIGITS
    case Graph => c in UPPER || c in LOWER || c in DIGITS || c in PUNCTUATION
    case Lower => c in LOWER
    case Print => c in UPPER || c in LOWER || c in DIGITS || c in PUNCTUATION || c == ' '
    case Punct => c in PUNCTUATION
    case Space => c in " \t\n\r" || c as int == 11 || c as int == 12
    case Upper => c in UPPER
    case Xdigit => c in DIGITS || c in "abcdef" || c in "ABCDEF"
  }

  lemma UpperAt(k: nat)
    requires k < 26
    ensures UPPER[k] as int == 65 + k && LOWER[k] as int == 97 + k
  {
  }

  lemma LettersAre(c: char)
    ensures (c in UPPER <==> IsUpper(c)) && (c in LOWER <==> IsLower(c))
  {
    forall k | 0 <= k < 26 ensures UPPER[k] as int == 65 + k && LOWER[k] as int == 97 + k {
      UpperAt(k);
    }
    if IsUpper(c) {
      UpperAt(c as int - 65);
    }
    if IsLower(c) {
      UpperAt(c as int - 97);
    }
  }

  lemma DigitsAre(c: char)
    ensures c in DIGITS <==> IsDigit(c)
  {
    var s := DIGITS;
    assert s[0] == '0' && s[1] == '1' && s[2] == '2' && s[3] == '3' && s[4] == '4';
    assert s[5] == '5' && s[6] == '6' && s[7] == '7' && s[8] == '8' && s[9] == '9';
  }

  lemma HexDigitsAre(c: char)
    ensures (c in "abcdef" <==> 'a' <= c <= 'f') && (c in "ABCDEF" <==> 'A' <= c <= 'F')
  {
    var s, t := "abcdef", "ABCDEF";
    assert s[0] == 'a' && s[1] == 'b' && s[2] == 'c' && s[3] == 'd' && s[4] == 'e' && s[5] == 'f';
    assert t[0] == 'A' && t[1] == 'B' && t[2] == 'C' && t[3] == 'D' && t[4] == 'E' && t[5] == 'F';
  }

  lemma PunctuationAt(k: nat)
    requires k < 32
    ensures |PUNCTUATION| == 32
    ensures PUNCTUATION[k] as int == if k < 15 then 33 + k else if k < 22 then 43 + k else if k < 28 then 69 + k else 95 + k
  {
  }

  lemma PunctuationIs(c: char)
    ensures c in PUNCTUATION <==> IsGraph(c) && !IsAlpha(c) && !IsDigit(c)
  {
    hide PUNCTUATION;
    var n := c as int;
    if k: nat :| k < |PUNCTUATION| && PUNCTUATION[k] == c {
      PunctuationCount();
      PunctuationAt(k);
    }
    if 33 <= n <= 47 {
      PunctuationAt(n - 33);
    } else if 58 <= n <= 64 {
      PunctuationAt(n - 43);
    } else if 91 <= n <= 96 {
      PunctuationAt(n - 69);
    } else if 123 <= n <= 126 {
      PunctuationAt(n - 95);
    }
  }

  lemma PunctuationCount()
    ensures |PUNCTUATION| == 32
  {
  }

  /** A class has the members listed. */
  lemma ClassMembers(k: Class, c: char)
    ensures InClass(k, c) <==> IsMember(k, c)
  {
    LettersAre(c);
    DigitsAre(c);
    HexDigitsAre(c);
    PunctuationIs(c);
  }

  function IndexOf(k: Class): (j: nat)
    ensures j < 12
  {
    match k
    case Alnum => 0
    case Alpha => 1
    case Blank => 2
    case Cntrl => 3
    case Digit => 4
    case Graph => 5
    case Lower => 6
    case Print => 7
    case Punct => 8
    case Space => 9
    case Upper => 10
    case Xdigit => 11
  }

  lemma EntryOf(k: Class)
    ensures |CLASSES| == 12 && CLASSES[IndexOf(k)] == (NameOf(k), k)
  {
  }

  lemma EntryAt(j: nat)
    requires j < 12
    ensures |CLASSES| == 12 && IndexOf(CLASSES[j].1) == j && CLASSES[j].0 == NameOf(CLASSES[j].1)
  {
  }

  lemma NamesDiffer(k: Class, h: Class)
    ensures NameOf(k) == NameOf(h) ==> k == h
  {
    var a, b := NameOf(k), NameOf(h);
    assert a == b ==> a[0] == b[0] && a[1] == b[1] && a[2] == b[2];
  }

  lemma {:induction false} NamedFrom(name: string, k: Class, j: nat)
    requires j <= 12
    ensures |CLASSES| == 12
    ensures ClassNamed(name, j) == Some(k) <==> name == NameOf(k) && j <= IndexOf(k)
    decreases 12 - j
  {
    EntryOf(k);
    if j < 12 {
      hide NameOf, IndexOf;
      EntryAt(j);
      NamedFrom(name, k, j + 1);
      NamesDiffer(k, CLASSES[j].1);
    }
  }

  /** A class is found under its name, and no other is. */
  lemma ClassNames(name: string, k: Class)
    ensures ClassNamed(name, 0) == Some(k) <==> name == NameOf(k)
  {
    EntryOf(k);
    NamedFrom(name, k, 0);
  }

  // ----- the text of a bracket expression -----

  /** What a bracket expression lists; a character is written as it is when `bare`, else behind a backslash. */
  datatype Listed =
    | Character(c: char, bare: bool)
    | Range(lo: char, hi: char, bareLo: bool, bareHi: bool)
    | Named(k: Class)

  /** Written `[!...]` or `[^...]` when negated. */
  datatype Sign = Positive | Bang | Caret

  /** `lead`: a `]` comes first; `dash`: a `-` comes last. */
  datatype Set = Set(sign: Sign, lead: bool, items: seq<Listed>, dash: bool)

  /** Characters that need no backslash wherever they are. */
  predicate Plain(c: char) { c != '\0' && c !in "/[]-!^:\\" }

  predicate Writable(c: char, bare: bool) { c != '\0' && c != '/' && (bare ==> Plain(c)) }

  predicate Printable(it: Listed) {
    match it
    case Character(c, bare) => Writable(c, bare)
    case Range(lo, hi, bareLo, bareHi) => Writable(lo, bareLo) && Writable(hi, bareHi)
    case Named(_) => true
  }

  predicate PrintableSet(b: Set) { (forall it | it in b.items :: Printable(it)) && (b.lead || b.dash || b.items != []) }

  function CharText(c: char, bare: bool): string { if bare then [c] else ['\\', c] }

  function ItemText(it: Listed): string {
    match it
    case Character(c, bare) => CharText(c, bare)
    case Range(lo, hi, bareLo, bareHi) => CharText(lo, bareLo) + "-" + CharText(hi, bareHi)
    case Named(k) => "[:" + NameOf(k) + ":]"
  }

  function ItemsText(items: seq<Listed>): string {
    if items == [] then "" else ItemText(items[0]) + ItemsText(items[1..])
  }

  function SignText(sign: Sign): string {
    match sign
    case Positive => ""
    case Bang => "!"
    case Caret => "^"
  }

  function LastText(dash: bool): string { if dash then "-]" else "]" }

  function SetText(b: Set): string {
    "[" + (SignText(b.sign) + ((if b.lead then "]" else "") + (ItemsText(b.items) + LastText(b.dash))))
  }

  /** char is signed: the bytes from 128 on come before the others. */
  predicate NotAbove(a: char, b: char) { if (a as int < 128) == (b as int < 128) then a <= b else b as int < 128 }

  predicate Has(it: Listed, c: char) {
    match it
    case Character(d, _) => c == d
    case Range(lo, hi, _, _) => NotAbove(lo, c) && NotAbove(c, hi)
    case Named(k) => IsMember(k, c)
  }

  predicate InList(b: Set, c: char) { (b.lead && c == ']') || (b.dash && c == '-') || exists it :: it in b.items && Has(it, c) }

  /** The characters a bracket expression stands for. */
  predicate InSet(b: Set, c: char) { if b.sign == Positive then InList(b, c) else !InList(b, c) }

  // ----- reading it back -----

  predicate TextAt(p: string, i: nat, x: string) { i + |x| <= |p| && p[i..i + |x|] == x }

  lemma TextParts(p: string, i: nat, x: string, y: string)
    requires TextAt(p, i, x + y)
    ensures TextAt(p, i, x) && TextAt(p, i + |x|, y)
  {
    var z := x + y;
    assert p[i..i + |x|] == p[i..i + |z|][..|x|] == z[..|x|] == x;
    assert p[i + |x|..i + |z|] == p[i..i + |z|][|x|..] == z[|x|..] == y;
  }

  lemma TextChar(p: string, i: nat, x: string, k: nat)
    requires TextAt(p, i, x) && k < |x|
    ensures At(p, i + k) == p[i + k] == x[k]
  {
    assert p[i..i + |x|][k] == x[k];
  }

  function ItemOf(it: Listed): Item {
    match it
    case Character(c, _) => RangeItem(c, c)
    case Range(lo, hi, _, _) => RangeItem(lo, hi)
    case Named(k) => ClassItem(k)
  }

  function ItemsOf(items: seq<Listed>): (r: seq<Item>)
    ensures |r| == |items| && forall k | 0 <= k < |items| :: r[k] == ItemOf(items[k])
  {
    if items == [] then [] else [ItemOf(items[0])] + ItemsOf(items[1..])
  }

  /** Nothing at index j makes a range or a class of what stands before it. */
  predicate Apart(p: string, j: nat) { At(p, j) != ':' && (At(p, j) == '-' ==> At(p, j + 1) == ']') }

  lemma NotAClass(p: string, i: nat)
    requires At(p, i) != '[' || At(p, i + 1) != ':'
    ensures ClassAt(p, i).None?
  {
  }

  lemma ReadCharacter(p: string, i: nat, c: char, bare: bool)
    requires Writable(c, bare) && TextAt(p, i, CharText(c, bare)) && Apart(p, i + |CharText(c, bare)|)
    ensures ScanItem(p, i) == FnmatchChar.Item(RangeItem(c, c), i + |CharText(c, bare)|)
  {
    TextChar(p, i, CharText(c, bare), 0);
    if !bare {
      TextChar(p, i, CharText(c, bare), 1);
    }
    NotAClass(p, if bare then i else i + 1);
  }

  lemma ReadRange(p: string, i: nat, it: Listed)
    requires it.Range? && Printable(it) && TextAt(p, i, ItemText(it))
    ensures ScanItem(p, i) == FnmatchChar.Item(RangeItem(it.lo, it.hi), i + |ItemText(it)|)
  {
    var x, y := CharText(it.lo, it.bareLo), CharText(it.hi, it.bareHi);
    assert ItemText(it) == x + ("-" + y);
    TextParts(p, i, x, "-" + y);
    TextParts(p, i + |x|, "-", y);
    TextChar(p, i, x, 0);
    if !it.bareLo {
      TextChar(p, i, x, 1);
    }
    TextChar(p, i + |x|, "-", 0);
    TextChar(p, i + |x| + 1, y, 0);
    if !it.bareHi {
      TextChar(p, i + |x| + 1, y, 1);
    }
    NotAClass(p, if it.bareLo then i else i + 1);
  }

  lemma NameHasNoColon(k: Class)
    ensures forall h | 0 <= h < |NameOf(k)| :: NameOf(k)[h] != ':'
  {
    var x := NameOf(k);
    assert |x| == 5 || |x| == 6;
    assert x[0] != ':' && x[1] != ':' && x[2] != ':' && x[3] != ':' && x[4] != ':' && (|x| == 6 ==> x[5] != ':');
  }

  lemma ReadClass(p: string, i: nat, k: Class)
    requires TextAt(p, i, "[:" + NameOf(k) + ":]")
    ensures ScanItem(p, i) == FnmatchChar.Item(ClassItem(k), i + |NameOf(k)| + 4)
  {
    var x := NameOf(k);
    NameHasNoColon(k);
    ClassNames(x, k);
    hide NameOf, ClassNamed;
    NameBetween(p, i, x);
  }

  lemma NameBetween(p: string, i: nat, x: string)
    requires TextAt(p, i, "[:" + x + ":]") && forall h | 0 <= h < |x| :: x[h] != ':'
    ensures i + |x| + 4 <= |p| && p[i] == '[' && At(p, i + 1) == ':' && At(p, i + 3 + |x|) == ']'
    ensures p[i + 2..i + 2 + |x|] == x && FindChar(p, i + 2, ':') == i + 2 + |x|
  {
    NameParts(p, i, x);
    ColonAfter(p, i + 2, x);
    hide TextAt, FindChar;
    TextChar(p, i, "[:", 0);
    TextChar(p, i, "[:", 1);
    TextChar(p, i + 2 + |x|, ":]", 1);
  }

  lemma ColonAfter(p: string, i: nat, x: string)
    requires TextAt(p, i, x) && TextAt(p, i + |x|, ":]") && forall h | 0 <= h < |x| :: x[h] != ':'
    ensures FindChar(p, i, ':') == i + |x|
  {
    hide TextAt, FindChar;
    TextChar(p, i + |x|, ":]", 0);
    var k := FindChar(p, i, ':');
    if k < i + |x| {
      TextChar(p, i, x, k - i);
    }
  }

  lemma NameParts(p: string, i: nat, x: string)
    requires TextAt(p, i, "[:" + x + ":]")
    ensures i + |x| + 4 <= |p| && TextAt(p, i, "[:") && TextAt(p, i + 2, x) && TextAt(p, i + 2 + |x|, ":]")
    ensures p[i + 2..i + 2 + |x|] == x
  {
    Regroup("[:", x, ":]");
    TextParts(p, i, "[:", x + ":]");
    TextParts(p, i + 2, x, ":]");
  }

  /** One item. */
  lemma ReadItem(p: string, i: nat, it: Listed)
    requires Printable(it) && TextAt(p, i, ItemText(it)) && Apart(p, i + |ItemText(it)|)
    ensures ScanItem(p, i) == FnmatchChar.Item(ItemOf(it), i + |ItemText(it)|)
  {
    hide ScanItem, NameOf;
    match it
    case Character(c, bare) => ReadCharacter(p, i, c, bare);
    case Range(_, _, _, _) => ReadRange(p, i, it);
    case Named(k) => ReadClass(p, i, k);
  }

  /** What an item begins with. */
  lemma ItemBegins(it: Listed)
    requires Printable(it)
    ensures |ItemText(it)| > 0 && ItemText(it)[0] !in "]-:!^"
  {
  }

  /** What may stand behind an item. */
  lemma TailApart(p: string, j: nat, items: seq<Listed>, dash: bool)
    requires (forall it | it in items :: Printable(it)) && TextAt(p, j, ItemsText(items) + LastText(dash))
    ensures j < |p| && Apart(p, j)
    ensures p[j] !in "!^" && (p[j] == ']' <==> items == [] && !dash)
  {
    hide ItemText;
    var last := LastText(dash);
    TextChar(p, j, ItemsText(items) + last, 0);
    if items == [] {
      TextChar(p, j, last, |last| - 1);
    } else {
      ItemBegins(items[0]);
      assert (ItemsText(items) + last)[0] == ItemText(items[0])[0];
    }
  }

  /** One item has been read. */
  lemma ScanOne(p: string, i: nat, before: seq<Item>, item: Item, next: nat)
    requires i < |p| && p[i] != ']' && ScanItem(p, i) == FnmatchChar.Item(item, next)
    ensures next <= |p| && ScanItems(p, i, before) == ScanItems(p, next, before + [item])
  {
  }

  lemma FirstText(items: seq<Listed>, last: string)
    requires items != []
    ensures ItemsText(items) + last == ItemText(items[0]) + (ItemsText(items[1..]) + last)
    ensures |ItemsText(items)| == |ItemText(items[0])| + |ItemsText(items[1..])|
  {
    Regroup(ItemText(items[0]), ItemsText(items[1..]), last);
  }

  lemma Regroup(x: string, y: string, z: string)
    ensures (x + y) + z == x + (y + z)
  {
  }

  lemma FirstItem(items: seq<Listed>, before: seq<Item>)
    requires items != []
    ensures before + [ItemOf(items[0])] + ItemsOf(items[1..]) == before + ItemsOf(items)
  {
  }

  lemma ReadFirst(p: string, i: nat, items: seq<Listed>, dash: bool, before: seq<Item>)
    requires items != [] && (forall it | it in items :: Printable(it)) && TextAt(p, i, ItemsText(items) + LastText(dash))
    ensures var next := i + |ItemText(items[0])|;
      && next <= |p| && TextAt(p, next, ItemsText(items[1..]) + LastText(dash))
      && ScanItems(p, i, before) == ScanItems(p, next, before + [ItemOf(items[0])])
  {
    hide ScanItems, ScanItem, ItemText, ItemsText, ItemsOf, LastText, Printable, TextAt, ItemOf, Apart;
    var x, rest := ItemText(items[0]), ItemsText(items[1..]);
    TailApart(p, i, items, dash);
    FirstText(items, LastText(dash));
    TextParts(p, i, x, rest + LastText(dash));
    TailApart(p, i + |x|, items[1..], dash);
    ReadItem(p, i, items[0]);
    ScanOne(p, i, before, ItemOf(items[0]), i + |x|);
  }

  lemma {:induction false} ReadItems(p: string, i: nat, items: seq<Listed>, dash: bool, before: seq<Item>)
    requires (forall it | it in items :: Printable(it)) && TextAt(p, i, ItemsText(items) + LastText(dash))
    ensures i <= |p| && ScanItems(p, i, before)
         == Items(before + ItemsOf(items) + (if dash then [RangeItem('-', '-')] else []), i + |ItemsText(items)| + |LastText(dash)|)
    decreases |items|
  {
    hide ScanItems, ItemText, ItemsText, ItemsOf, LastText, Printable, ItemOf;
    if items == [] {
      NoItems(LastText(dash), before);
      ReadLast(p, i, dash, before);
    } else {
      hide *;
      ReadFirst(p, i, items, dash, before);
      FirstText(items, LastText(dash));
      FirstItem(items, before);
      ReadItems(p, i + |ItemText(items[0])|, items[1..], dash, before + [ItemOf(items[0])]);
    }
  }

  lemma NoItems(last: string, before: seq<Item>)
    ensures ItemsText([]) == "" && ItemsText([]) + last == last && before + ItemsOf([]) == before
  {
  }

  lemma ReadLast(p: string, i: nat, dash: bool, before: seq<Item>)
    requires TextAt(p, i, LastText(dash))
    ensures ScanItems(p, i, before)
         == Items(before + (if dash then [RangeItem('-', '-')] else []), i + |LastText(dash)|)
  {
    if dash {
      TextChar(p, i, "-]", 0);
      TextChar(p, i, "-]", 1);
      NotAClass(p, i);
      assert ScanItem(p, i) == FnmatchChar.Item(RangeItem('-', '-'), i + 1);
      assert ScanItems(p, i + 1, before + [RangeItem('-', '-')]) == Items(before + [RangeItem('-', '-')], i + 2);
    } else {
      TextChar(p, i, "]", 0);
      assert before + [] == before;
    }
  }

  function SetItems(b: Set): seq<Item> {
    (if b.lead then [RangeItem(']', ']')] else []) + ItemsOf(b.items) + if b.dash then [RangeItem('-', '-')] else []
  }

  /** What stands behind the sign. */
  function SetTail(b: Set): string { ItemsText(b.items) + LastText(b.dash) }

  /** Where the sign and a leading `]` of a bracket expression are. */
  lemma SetParts(p: string, i: nat, b: Set)
    requires PrintableSet(b) && TextAt(p, i, SetText(b))
    ensures var start := i + 1 + |SignText(b.sign)|; var first := start + if b.lead then 1 else 0;
      && p[i] == '[' && first < |p| && TextAt(p, first, SetTail(b)) && (b.lead <==> p[start] == ']')
      && (b.sign == Positive ==> p[i + 1] !in "!^") && (b.sign == Bang ==> p[i + 1] == '!') && (b.sign == Caret ==> p[i + 1] == '^')
      && i + |SetText(b)| == first + |SetTail(b)|
  {
    hide ItemsText, Printable, TextAt;
    var sign, lead, tail := SignText(b.sign), if b.lead then "]" else "", SetTail(b);
    TextChar(p, i, SetText(b), 0);
    TextParts(p, i, "[", sign + (lead + tail));
    TextParts(p, i + 1, sign, lead + tail);
    var start := i + 1 + |sign|;
    TextParts(p, start, lead, tail);
    TailApart(p, start + |lead|, b.items, b.dash);
    if b.lead {
      TextChar(p, start, lead, 0);
    }
    if b.sign != Positive {
      TextChar(p, i + 1, sign, 0);
    }
  }

  /** The items behind a `]` that comes first. */
  lemma ReadLed(p: string, start: nat, b: Set)
    requires PrintableSet(b) && b.lead && start < |p| && p[start] == ']' && TextAt(p, start + 1, SetTail(b))
    ensures ScanPlain(p, start) == FnmatchChar.Item(RangeItem(']', ']'), start + 1)
    ensures ScanItems(p, start + 1, [RangeItem(']', ']')]) == Items(SetItems(b), start + 1 + |SetTail(b)|)
  {
    hide ScanItems, ScanPlain, ItemsText, ItemsOf, TextAt, Printable, Apart;
    TailApart(p, start + 1, b.items, b.dash);
    LeadingBracket(p, start);
    ReadItems(p, start + 1, b.items, b.dash, [RangeItem(']', ']')]);
  }

  lemma ReadUnled(p: string, start: nat, b: Set)
    requires PrintableSet(b) && !b.lead && TextAt(p, start, SetTail(b))
    ensures start < |p| && ScanItems(p, start, []) == Items(SetItems(b), start + |SetTail(b)|)
  {
    hide ScanItems, ItemsText, ItemsOf, TextAt, Printable, Apart;
    TailApart(p, start, b.items, b.dash);
    ReadItems(p, start, b.items, b.dash, []);
    assert [] + ItemsOf(b.items) == ItemsOf(b.items);
  }

  /** The text of a bracket expression is read back as what it lists, up to its closing bracket. */
  lemma ReadSet(p: string, i: nat, b: Set)
    requires PrintableSet(b) && TextAt(p, i, SetText(b))
    ensures p[i] == '[' && Bracket(p, i) == Items(SetItems(b), i + |SetText(b)|) && (Negated(p, i) <==> b.sign != Positive)
  {
    hide ScanItems, ScanPlain, ItemsText, ItemsOf, SetText, SetTail, SetItems, TextAt, PrintableSet, Apart;
    SetParts(p, i, b);
    var start := i + 1 + |SignText(b.sign)|;
    if b.lead {
      ReadLed(p, start, b);
    } else {
      ReadUnled(p, start, b);
    }
  }

  lemma LeadingBracket(p: string, i: nat)
    requires i < |p| && p[i] == ']' && Apart(p, i + 1)
    ensures ScanPlain(p, i) == FnmatchChar.Item(RangeItem(']', ']'), i + 1)
  {
  }

  predicate IsByte(c: char) { c as int < 256 }

  predicate Bytes(it: Listed) {
    match it
    case Character(c, _) => IsByte(c)
    case Range(lo, hi, _, _) => IsByte(lo) && IsByte(hi)
    case Named(_) => true
  }

  lemma HasItem(it: Listed, c: char)
    requires IsByte(c) && Bytes(it)
    ensures ItemHas(ItemOf(it), c) <==> Has(it, c)
  {
    if it.Named? {
      ClassMembers(it.k, c);
    }
  }

  /** The items, one by one. */
  lemma ItemsAre(b: Set)
    ensures var items, from := SetItems(b), if b.lead then 1 else 0;
      && |items| == from + |b.items| + (if b.dash then 1 else 0)
      && (b.lead ==> items[0] == RangeItem(']', ']')) && (b.dash ==> items[|items| - 1] == RangeItem('-', '-'))
      && forall n | from <= n < from + |b.items| :: items[n] == ItemOf(b.items[n - from])
  {
  }

  lemma AnyOf(b: Set, c: char)
    requires IsByte(c) && forall it | it in b.items :: Bytes(it)
    ensures AnyItem(SetItems(b), c) <==> InList(b, c)
  {
    hide ItemHas, Has, Bytes, SetItems, ItemOf;
    ItemsAre(b);
    SingleHas(']', c);
    SingleHas('-', c);
    var items, from := SetItems(b), if b.lead then 1 else 0;
    if AnyItem(items, c) {
      var n :| 0 <= n < |items| && ItemHas(items[n], c);
      if from <= n < from + |b.items| {
        HasItem(b.items[n - from], c);
      }
    }
    if it :| it in b.items && Has(it, c) {
      var n :| 0 <= n < |b.items| && b.items[n] == it;
      HasItem(it, c);
      var k := from + n;
      assert items[k] == ItemOf(b.items[k - from]);
    }
  }

  lemma SingleHas(d: char, c: char)
    requires IsByte(c) && IsByte(d)
    ensures ItemHas(RangeItem(d, d), c) <==> c == d
  {
  }

  /** A bracket expression matches exactly the characters it stands for. */
  lemma SetFits(p: string, i: nat, b: Set, c: char)
    requires PrintableSet(b) && TextAt(p, i, SetText(b)) && IsByte(c) && forall it | it in b.items :: Bytes(it)
    ensures i < |p| && Skip(p, i) == i + |SetText(b)| && (Fits(p, i, c) <==> InSet(b, c))
  {
    hide SetText, SetItems, Bracket, Negated, AnyItem, InList;
    ReadSet(p, i, b);
    AnyOf(b, c);
  }

  /** A bracket that is never closed is an ordinary character. */
  lemma {:induction false} NeverCloses(p: string, i: nat, before: seq<Item>)
    requires i <= |p| && forall h | i <= h < |p| :: p[h] != ']'
    ensures ScanItems(p, i, before).Unclosed?
    decreases |p| - i
  {
    if i < |p| && ScanItem(p, i).Item? {
      NeverCloses(p, ScanItem(p, i).next, before + [ScanItem(p, i).item]);
    }
  }

  lemma UnclosedFits(p: string, i: nat, c: char)
    requires i < |p| && p[i] == '[' && forall h | i <= h < |p| :: p[h] != ']'
    ensures (Fits(p, i, c) <==> c == '[') && Skip(p, i) == i + 1
  {
    hide ScanItems, ScanPlain;
    var start := if Negated(p, i) then i + 2 else i + 1;
    NeverCloses(p, start, []);
  }

  // ----- whole patterns -----

  datatype Element = Slash(bare: bool) | Star | Question | One(c: char, bare: bool) | OneOf(b: Set)

  /** Characters that stand for themselves in a pattern. */
  predicate Ordinary(c: char) { c != '\0' && c !in "/*?[\\" }

  predicate PrintableElement(e: Element) {
    match e
    case One(c, bare) => c != '\0' && c != '/' && (bare ==> Ordinary(c))
    case OneOf(b) => PrintableSet(b) && forall it | it in b.items :: Bytes(it)
    case _ => true
  }

  function ElementText(e: Element): string {
    match e
    case Slash(bare) => CharText('/', bare)
    case Star => "*"
    case Question => "?"
    case One(c, bare) => CharText(c, bare)
    case OneOf(b) => SetText(b)
  }

  function GlobText(g: seq<Element>): string {
    if g == [] then "" else ElementText(g[0]) + GlobText(g[1..])
  }

  predicate StandsFor(e: Element, c: char) {
    match e
    case Slash(_) => c == '/'
    case Star => false
    case Question => c != '/'
    case One(d, _) => c == d
    case OneOf(b) => c != '/' && InSet(b, c)
  }

  /** A string is matched piece by piece: a star takes any run of characters other than slashes, and every other
      element one character. */
  ghost predicate GlobMatches(g: seq<Element>, s: string)
    decreases |g|
  {
    if g == [] then s == ""
    else if g[0].Star? then exists k :: 0 <= k <= |s| && '/' !in s[..k] && GlobMatches(g[1..], s[k..])
    else s != "" && StandsFor(g[0], s[0]) && GlobMatches(g[1..], s[1..])
  }

  lemma ReadOne(p: string, i: nat, e: Element, c: char)
    requires PrintableElement(e) && !e.Star? && TextAt(p, i, ElementText(e)) && IsByte(c)
    ensures i < |p| && p[i] != '*'
    ensures if e.Slash? then SlashAt(p, i) && Fnmatch.AfterSlash(p, i) == i + |ElementText(e)|
      else !SlashAt(p, i) && Skip(p, i) == i + |ElementText(e)| && (c != '/' && Fits(p, i, c) <==> StandsFor(e, c))
  {
    hide SetText, InSet, Bracket, AnyItem;
    if e.OneOf? {
      SetFits(p, i, e.b, c);
      ReadSet(p, i, e.b);
    } else {
      TextChar(p, i, ElementText(e), 0);
      if |ElementText(e)| > 1 {
        TextChar(p, i, ElementText(e), 1);
      }
    }
  }

  /** The text of a pattern, read by the definition that ag_fnmatch is proved against, means what it was printed from. */
  lemma {:induction false} ReadGlob(g: seq<Element>, p: string, i: nat, s: string, j: nat)
    requires (forall e | e in g :: PrintableElement(e)) && i <= |p| && p[i..] == GlobText(g)
    requires (forall c | c in s :: IsByte(c)) && j <= |s|
    ensures Fnmatch.Matches(p, i, s, j) <==> GlobMatches(g, s[j..])
    decreases |g|, 1
  {
    hide ElementText, Skip, Fits, SlashAt, PrintableElement, StandsFor;
    if g != [] {
      var x, rest := ElementText(g[0]), GlobText(g[1..]);
      assert p[i..i + |x|] == (x + rest)[..|x|] == x;
      assert p[i + |x|..] == p[i..][|x|..] == rest;
      if g[0].Star? {
        ReadStar(g, p, i, s, j);
      } else {
        var c := if j < |s| then s[j] else 'a';
        assert j < |s| ==> s[j] in s && s[j..][1..] == s[j + 1..];
        ReadOne(p, i, g[0], c);
        SlashStands(g[0], c);
        if j < |s| {
          ReadGlob(g[1..], p, i + |x|, s, j + 1);
        }
      }
    }
  }

  lemma SlashStands(e: Element, c: char)
    ensures e.Slash? ==> (StandsFor(e, c) <==> c == '/')
  {
  }

  lemma StarText(g: seq<Element>, p: string, i: nat)
    requires g != [] && g[0].Star? && i <= |p| && p[i..] == GlobText(g)
    ensures i < |p| && p[i] == '*' && p[i + 1..] == GlobText(g[1..])
  {
    var rest := GlobText(g[1..]);
    assert GlobText(g) == "*" + rest;
    assert p[i] == p[i..][0];
    assert p[i + 1..] == p[i..][1..];
  }

  lemma {:induction false} ReadStar(g: seq<Element>, p: string, i: nat, s: string, j: nat)
    requires (forall e | e in g :: PrintableElement(e)) && g != [] && g[0].Star? && i <= |p| && p[i..] == GlobText(g)
    requires (forall c | c in s :: IsByte(c)) && j <= |s|
    ensures Fnmatch.Matches(p, i, s, j) <==> GlobMatches(g, s[j..])
    decreases |g|, 0
  {
    StarText(g, p, i);
    hide PrintableElement, GlobText, Fnmatch.Matches, GlobMatches;
    var after := i + 1;
    forall k: nat | j <= k <= |s| ensures Fnmatch.Matches(p, after, s, k) <==> GlobMatches(g[1..], s[j..][k - j..]) {
      ReadGlob(g[1..], p, after, s, k);
      assert s[j..][k - j..] == s[k..];
    }
    StarRun(g, p, i, s, j);
  }

  /** A star stands for the same runs on both sides. */
  lemma StarRun(g: seq<Element>, p: string, i: nat, s: string, j: nat)
    requires g != [] && g[0].Star? && i < |p| && p[i] == '*' && j <= |s|
    requires var after := i + 1;
      forall k: nat | j <= k <= |s| :: Fnmatch.Matches(p, after, s, k) <==> GlobMatches(g[1..], s[j..][k - j..])
    ensures Fnmatch.Matches(p, i, s, j) <==> GlobMatches(g, s[j..])
  {
    hide Fits, Skip, SlashAt, StandsFor;
    var after, t := i + 1, s[j..];
    if Fnmatch.Matches(p, i, s, j) {
      var k: nat :| j <= k <= |s| && Fnmatch.NoSlash(s, j, k) && Fnmatch.Matches(p, after, s, k);
      NoSlashIn(s, j, k);
      assert GlobMatches(g[1..], t[k - j..]);
    }
    if GlobMatches(g, t) {
      var k :| 0 <= k <= |t| && '/' !in t[..k] && GlobMatches(g[1..], t[k..]);
      var h := j + k;
      NoSlashIn(s, j, h);
      assert t[h - j..] == t[k..];
      assert Fnmatch.NoSlash(s, j, h) && Fnmatch.Matches(p, after, s, h);
    }
  }

  lemma NoSlashIn(s: string, j: nat, k: nat)
    requires j <= k <= |s|
    ensures Fnmatch.NoSlash(s, j, k) <==> '/' !in s[j..][..k - j]
  {
    var run := s[j..][..k - j];
    assert forall m | 0 <= m < |run| :: run[m] == s[j + m];
    assert forall h | j <= h < k :: run[h - j] == s[h];
  }

  /** ag_fnmatch on the text of a pattern. */
  method MatchText(g: seq<Element>, s: string) returns (matched: bool)
    requires (forall e | e in g :: PrintableElement(e)) && CString(GlobText(g)) && CString(s)
    ensures matched <==> GlobMatches(g, s)
  {
    hide GlobMatches, GlobText, PrintableElement, Fnmatch.Matches;
    matched := Fnmatch.AgFnmatch(GlobText(g), s);
    assert GlobText(g)[0..] == GlobText(g) && s[0..] == s;
    ReadGlob(g, GlobText(g), 0, s, 0);
  }
}
