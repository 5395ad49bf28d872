/** One element of a glob pattern against one character (classmatch and fnmatch_ch, infnmatch.c).

    A pattern is a NUL-terminated string: `At` gives '\0' behind its end.  The flags are those of
    ignore.c, FNM_PATHNAME alone: backslash escapes, slash is special, case counts.  A bracket
    expression is first parsed into a list of items, whatever the character; the C code parses and
    tests in one pass. */
module FnmatchChar {
  import opened Common

  function At(p: string, i: nat): char { if i < |p| then p[i] else '\0' }

  /** Bytes, no NUL inside. */
  predicate CString(p: string) { forall i | 0 <= i < |p| :: 0 < p[i] as int < 256 }

  // ----- character classes of the C locale -----

  predicate IsUpper(c: char) { 'A' <= c <= 'Z' }
  predicate IsLower(c: char) { 'a' <= c <= 'z' }
  predicate IsDigit(c: char) { '0' <= c <= '9' }
  predicate IsAlpha(c: char) { IsUpper(c) || IsLower(c) }
  predicate IsGraph(c: char) { 33 <= c as int <= 126 }

  datatype Class = Alnum | Alpha | Blank | Cntrl | Digit | Graph | Lower | Print | Punct | Space | Upper | Xdigit

  predicate InClass(k: Class, c: char) {
    match k
    case Alnum => IsAlpha(c) || IsDigit(c)
    case Alpha => IsAlpha(c)
    case Blank => c == ' ' || c == '\t'
    case Cntrl => c as int < 32 || c as int == 127
    case Digit => IsDigit(c)
    case Graph => IsGraph(c)
    case Lower => IsLower(c)
    case Print => c == ' ' || IsGraph(c)
    case Punct => IsGraph(c) && !IsAlpha(c) && !IsDigit(c)
    case Space => c == ' ' || 9 <= c as int <= 13
    case Upper => IsUpper(c)
    case Xdigit => IsDigit(c) || 'a' <= c <= 'f' || 'A' <= c <= 'F'
  }

  const CLASSES: seq<(string, Class)> := [
    ("alnum", Alnum), ("alpha", Alpha), ("blank", Blank), ("cntrl", Cntrl), ("digit", Digit), ("graph", Graph),
    ("lower", Lower), ("print", Print), ("punct", Punct), ("space", Space), ("upper", Upper), ("xdigit", Xdigit)]

  /** The index of the first class with this name at or after k. */
  function ClassNamed(name: string, k: nat): (r: Option<Class>)
    requires k <= |CLASSES|
    decreases |CLASSES| - k
  {
    if k == |CLASSES| then None
    else if CLASSES[k].0 == name then Some(CLASSES[k].1)
    else ClassNamed(name, k + 1)
  }

  function FindChar(p: string, i: nat, c: char): (k: nat)
    requires i <= |p|
    ensures i <= k <= |p| && (k < |p| ==> p[k] == c) && forall h | i <= h < k :: p[h] != c
    decreases |p| - i
  {
    if i == |p| || p[i] == c then i else FindChar(p, i + 1, c)
  }

  /** "[:name:]" at index i: the class and the index behind it. */
  function ClassAt(p: string, i: nat): (r: Option<(Class, nat)>)
    ensures r.Some? ==> i + 3 < r.value.1 <= |p|
  {
    if At(p, i) != '[' || At(p, i + 1) != ':' then None
    else
      var colon := FindChar(p, i + 2, ':');
      if colon == |p| || At(p, colon + 1) != ']' then None
      else
        var named := ClassNamed(p[i + 2..colon], 0);
        if named.None? then None else Some((named.value, colon + 2))
  }

  // ----- bracket expressions -----

  datatype Item = ClassItem(k: Class) | RangeItem(lo: char, hi: char)

  /** char is signed. */
  function CharValue(c: char): int { if c as int < 128 then c as int else c as int - 256 }

  predicate ItemHas(it: Item, c: char) {
    match it
    case ClassItem(k) => InClass(k, c)
    case RangeItem(lo, hi) => CharValue(lo) <= CharValue(c) <= CharValue(hi)
  }

  predicate AnyItem(items: seq<Item>, c: char) { exists n :: 0 <= n < |items| && ItemHas(items[n], c) }

  datatype Scan = Broken | Item(item: Item, next: nat)

  /** A single character or a range at index i; a range needs an end other than ']', '/' and the end of the pattern. */
  function ScanPlain(p: string, i: nat): (r: Scan)
    requires i < |p|
    ensures r.Item? ==> i < r.next <= |p|
  {
    if At(p, i + 1) == '-' && At(p, i + 2) != ']' then
      var e := if At(p, i + 2) == '\\' then i + 3 else i + 2;
      if At(p, e) == '\0' || At(p, e) == '/' || e >= |p| then Broken else Item(RangeItem(p[i], p[e]), e + 1)
    else Item(RangeItem(p[i], p[i]), i + 1)
  }

  /** The item at index i, not a closing bracket. */
  function ScanItem(p: string, i: nat): (r: Scan)
    requires i < |p|
    ensures r.Item? ==> i < r.next <= |p|
  {
    var j := if p[i] == '\\' then i + 1 else i;
    if j >= |p| || p[j] == '/' then Broken
    else if ClassAt(p, j).Some? then Item(ClassItem(ClassAt(p, j).value.0), ClassAt(p, j).value.1)
    else ScanPlain(p, j)
  }

  datatype Items = Unclosed | Items(items: seq<Item>, next: nat)

  /** The items from index i to the closing bracket. */
  function ScanItems(p: string, i: nat, before: seq<Item>): (r: Items)
    requires i <= |p|
    ensures r.Items? ==> i < r.next <= |p|
    decreases |p| - i
  {
    if i == |p| then Unclosed
    else if p[i] == ']' then Items(before, i + 1)
    else
      var it := ScanItem(p, i);
      if it.Broken? then Unclosed else ScanItems(p, it.next, before + [it.item])
  }

  predicate Negated(p: string, i: nat) { At(p, i + 1) == '!' || At(p, i + 1) == '^' }

  /** The bracket expression that starts at index i, if it is closed; a ']' right at its start is an ordinary character. */
  function Bracket(p: string, i: nat): (r: Items)
    requires i < |p| && p[i] == '['
    ensures r.Items? ==> i + 1 < r.next <= |p|
  {
    var start := if Negated(p, i) then i + 2 else i + 1;
    if At(p, start) == ']' then
      var it := ScanPlain(p, start);
      if it.Broken? then Unclosed else ScanItems(p, it.next, [it.item])
    else ScanItems(p, start, [])
  }

  // ----- one pattern element -----

  predicate SlashAt(p: string, i: nat) { At(p, i) == '/' || (At(p, i) == '\\' && At(p, i + 1) == '/') }

  /** The element at i stands for exactly one character. */
  predicate Single(p: string, i: nat) { i < |p| && p[i] != '*' && !SlashAt(p, i) }

  /** The index behind the element at i. */
  function Skip(p: string, i: nat): (next: nat)
    requires i < |p|
    ensures i < next <= |p|
  {
    if p[i] == '[' && Bracket(p, i).Items? then Bracket(p, i).next
    else if p[i] == '\\' && i + 1 < |p| then i + 2
    else i + 1
  }

  /** The element at i matches character c. */
  predicate Fits(p: string, i: nat, c: char)
    requires i < |p|
  {
    if p[i] == '[' && Bracket(p, i).Items? then AnyItem(Bracket(p, i).items, c) != Negated(p, i)
    else if p[i] == '?' then true
    else if p[i] == '\\' && i + 1 < |p| then c == p[i + 1]
    else c == p[i]
  }

  // ----- the code -----

  datatype RangeResult = RangeMatch | RangeNomatch | RangeError

  method ClassMatch(p: string, i: nat, test: char) returns (r: RangeResult, ep: nat)
    ensures match ClassAt(p, i)
      case None => r == RangeError && ep == i
      case Some(kn) => ep == kn.1 && r == if InClass(kn.0, test) then RangeMatch else RangeNomatch
  {
    if At(p, i) != '[' || At(p, i + 1) != ':' {
      return RangeError, i;
    }
    var colon := i + 2;
    while colon < |p| && p[colon] != ':'
      invariant i + 2 <= colon <= |p| && FindChar(p, i + 2, ':') == FindChar(p, colon, ':')
    {
      colon := colon + 1;
    }
    if colon == |p| || At(p, colon + 1) != ']' {
      return RangeError, i;
    }
    var name := p[i + 2..colon];
    var cc := 0;
    while cc < |CLASSES|
      invariant 0 <= cc <= |CLASSES| && ClassNamed(name, 0) == ClassNamed(name, cc)
    {
      if name == CLASSES[cc].0 {
        return if InClass(CLASSES[cc].1, test) then RangeMatch else RangeNomatch, colon + 2;
      }
      cc := cc + 1;
    }
    return RangeError, i;
  }

  lemma AnyItemMore(items: seq<Item>, it: Item, c: char)
    ensures AnyItem(items + [it], c) <==> AnyItem(items, c) || ItemHas(it, c)
  {
    var more := items + [it];
    if AnyItem(items, c) {
      var n :| 0 <= n < |items| && ItemHas(items[n], c);
      assert ItemHas(more[n], c);
    }
    if ItemHas(it, c) {
      assert ItemHas(more[|items|], c);
    }
    if AnyItem(more, c) {
      var n :| 0 <= n < |more| && ItemHas(more[n], c);
      assert n < |items| ==> ItemHas(items[n], c);
    }
  }

  /** The single-character-or-range part of the bracket loop. */
  method PlainItem(p: string, i: nat, c: char) returns (broken: bool, hit: bool, next: nat)
    requires i < |p| && CString(p) && c as int < 256
    ensures broken <==> ScanPlain(p, i).Broken?
    ensures !broken ==> next == ScanPlain(p, i).next && (hit <==> ItemHas(ScanPlain(p, i).item, c))
  {
    broken, hit, next := false, false, i;
    if At(p, i + 1) == '-' && At(p, i + 2) != ']' {
      next := i + if At(p, i + 2) == '\\' then 3 else 2;
      if next >= |p| || p[next] == '/' {
        return true, false, next;
      }
      hit := CharValue(c) >= CharValue(p[i]) && CharValue(c) <= CharValue(p[next]);
      next := next + 1;
    } else {
      hit := c == p[i];
      next := i + 1;
    }
  }

  /** One turn of the bracket loop: a class, or else a character or range. */
  method BracketItem(p: string, i: nat, c: char) returns (broken: bool, hit: bool, next: nat)
    requires i < |p| && CString(p) && c as int < 256
    ensures broken <==> ScanItem(p, i).Broken?
    ensures !broken ==> next == ScanItem(p, i).next && (hit <==> ItemHas(ScanItem(p, i).item, c))
  {
    hide InClass, CharValue, ClassAt, ScanPlain;
    broken, hit, next := true, false, i;
    var plain := if p[i] == '\\' then i + 1 else i;
    if plain >= |p| || p[plain] == '/' {
      return;
    }
    var r, ep := ClassMatch(p, plain, c);
    if r != RangeError {
      return false, r == RangeMatch, ep;
    }
    broken, hit, next := PlainItem(p, plain, c);
  }

  /** The bracket half of fnmatch_ch: parse and test in one pass. */
  method MatchBracket(p: string, i: nat, c: char) returns (closed: bool, hit: bool, next: nat)
    requires i < |p| && p[i] == '[' && CString(p) && c as int < 256
    ensures closed <==> Bracket(p, i).Items?
    ensures closed ==> next == Bracket(p, i).next && (hit <==> AnyItem(Bracket(p, i).items, c) != Negated(p, i))
  {
    hide ItemHas, AnyItem, ScanPlain, ScanItem, InClass, ClassAt, CharValue;
    next := i + 1;
    var negate := At(p, next) == '!' || At(p, next) == '^';
    if negate {
      next := next + 1;
    }
    var leading := At(p, next) == ']';
    hit := false;
    ghost var items: seq<Item> := [];
    NoItem(c);
    while next < |p|
      invariant i < next <= |p|
      invariant leading ==> items == [] && !hit && next < |p| && p[next] == ']' && next == if negate then i + 2 else i + 1
      invariant !leading ==> Bracket(p, i) == ScanItems(p, next, items)
      invariant hit <==> AnyItem(items, c)
      decreases |p| - next
    {
      if !leading && p[next] == ']' {
        return true, hit != negate, next + 1;
      }
      ghost var it := if leading then ScanPlain(p, next) else ScanItem(p, next);
      var broken, one, after := false, false, next;
      if leading {
        broken, one, after := PlainItem(p, next, c);
      } else {
        broken, one, after := BracketItem(p, next, c);
      }
      if broken {
        leading := false;
        break;
      }
      AnyItemMore(items, it.item, c);
      assert items == [] ==> items + [it.item] == [it.item];
      items := items + [it.item];
      leading, hit, next := false, hit || one, after;
    }
    return false, false, i;
  }

  lemma NoItem(c: char)
    ensures !AnyItem([], c)
  {
  }

  /** fnmatch_ch on a character that is not a slash: the element is tested and stepped over. */
  method FnmatchCh(p: string, i: nat, s: string, j: nat) returns (ok: bool, i1: nat, j1: nat)
    requires CString(p) && CString(s) && i < |p| && j < |s| && s[j] != '/'
    ensures Single(p, i) ==> i1 == Skip(p, i) && j1 == j + 1 && (ok <==> Fits(p, i, s[j]))
    ensures SlashAt(p, i) ==> !ok && j1 == j && At(p, i1) == '/'
  {
    i1, j1 := i, j;
    if p[i] == '[' {
      var closed, hit, next := MatchBracket(p, i, s[j]);
      if closed {
        return hit, next, j + 1;
      }
    } else if p[i] == '?' {
      return true, i + 1, j + 1;
    } else if p[i] == '\\' && i + 1 < |p| {
      i1 := i + 1;
    }
    ok := s[j] == p[i1];
    if p[i1] == '/' {
      return;
    }
    i1, j1 := i1 + 1, j + 1;
  }
}
