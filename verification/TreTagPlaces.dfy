/** What tre_add_tags (tre-compile.c) promises of every group of a pattern: which tag holds where it starts and ends, where
    that tag stands, how it is optimized, and which tag comes before which. */
module TreTagPlaces {
  import opened TreAst
  import opened TreMarked
  import opened TreTags
  import opened TreSubmatches
  import opened TreTagNumbers
  import opened TreRegset

  // ----- the promise -----

  /** Some node takes the tag that is due in front of it: only empty nodes take none. */
  predicate Stops(m: Marked) {
    match m.node
    case Nothing => false
    case Cat(l, r) => Stops(l) || Stops(r)
    case _ => true
  }

  /** The group ends in m, and no node of m that takes a tag comes after it on its way out of m. */
  predicate EndWaits(m: Marked, id: nat) {
    m.id == id ||
    match m.node
    case Cat(l, r) => EndWaits(r, id) || (EndWaits(l, id) && !Stops(r))
    case Alt(l, r) => EndWaits(l, id) || EndWaits(r, id)
    case Iter(a, _, _) => EndWaits(a, id)
    case _ => false
  }

  /** The same for the start of a group: such a group has nothing that takes a tag. */
  predicate StartWaits(m: Marked, id: nat) {
    (m.id == id && !Stops(m)) ||
    match m.node
    case Cat(l, r) => StartWaits(r, id) || (StartWaits(l, id) && !Stops(r))
    case Alt(l, r) => StartWaits(l, id) || StartWaits(r, id)
    case Iter(a, _, _) => StartWaits(a, id)
    case _ => false
  }

  /** The tag comes first, but for empty nodes. */
  predicate LedBy(t: Ast, tag: nat) {
    t.Catenation? && (t.left == Tag(tag) || LedBy(t.left, tag) || (Blank(t.left) && LedBy(t.right, tag)))
  }

  /** A start or an end is due behind m. */
  ghost predicate DueBehind(m: Marked, due: bool) { (due && !Stops(m)) || exists id: nat :: EndWaits(m, id) }

  /** Behind an iteration or a union later is better, inside an iteration earlier. */
  function DirectionBehind(m: Marked, d: Direction): Direction {
    match m.node
    case Cat(l, r) => DirectionBehind(r, DirectionBehind(l, d))
    case Lit(_, _) => d
    case Nothing => d
    case _ => Maximize
  }

  predicate HasDirection(dirs: Directions, tag: nat, d: Direction) { tag in dirs && dirs[tag] == d }

  /** All tags of a come before all those of b. */
  ghost predicate AllBefore(a: Ast, b: Ast) { forall i: nat, j: nat | InTree(a, i) && InTree(b, j) :: i < j }

  ghost predicate Before(i: nat, t: Ast) { forall j: nat | InTree(t, j) :: i < j }

  /** The first tag of the left operand, the first one of the right operand, the others of the left one, the others of
      the right one. */
  ghost predicate CatOrder(l: Ast, r: Ast) {
    forall i: nat, j: nat | InTree(l, i) && InTree(r, j) ::
      i < j <==> Lowest(l, i) || !Lowest(r, j)
  }

  ghost predicate Lowest(t: Ast, i: nat) { forall j: nat | InTree(t, j) :: i <= j }

  /** The node behind the tag in front of it. */
  function Body(t: Ast, due: bool): Ast { if due && t.Catenation? then t.right else t }

  /** A tag that is due stands in front of the node, and has the lowest number. */
  ghost predicate TakesTag(t: Ast, due: bool, d: Direction, dirs: Directions) {
    due ==> t.Catenation? && t.left.Tag? && HasDirection(dirs, t.left.id, d) && Before(t.left.id, t.right)
  }

  /** What ends or begins in m and waits for a tag gets the tag that leads t. */
  ghost predicate HandsOver(m: Marked, t: Ast, data: SubmatchData) {
    && (forall id: nat | EndWaits(m, id) :: id in data.eo && LedBy(t, data.eo[id]))
    && (forall id: nat | StartWaits(m, id) :: id in data.so && LedBy(t, data.so[id]))
  }

  /** Tree t is m with its tags, when `due` says whether a tag is due in front of it and d how that is optimized. */
  ghost predicate Right(m: Marked, t: Ast, due: bool, d: Direction, dirs: Directions, data: SubmatchData)
    decreases m, 1
  {
    && (m.id >= 0 && Stops(m) ==> m.id in data.so && LedBy(t, data.so[m.id]))
    && RightNode(m, t, due || m.id >= 0, d, dirs, data)
  }

  ghost predicate RightNode(m: Marked, t: Ast, due: bool, d: Direction, dirs: Directions, data: SubmatchData)
    decreases m, 0
  {
    match m.node
    case Lit(lo, hi) => TakesTag(t, due, d, dirs) && Body(t, due) == Literal(lo, hi)
    case Nothing => t == Empty
    case Cat(l, r) =>
      && t.Catenation? && CatOrder(t.left, t.right)
      && Right(l, t.left, due, d, dirs, data) && Right(r, t.right, DueBehind(l, due), DirectionBehind(l, d), dirs, data)
      && (Stops(r) ==> HandsOver(l, t.right, data))
    case Iter(a, min, max) =>
      var body := Body(t, due);
      && TakesTag(t, due, d, dirs) && body.Iteration? && body.min == min && body.max == max
      && Right(a, body.arg, false, Minimize, dirs, data)
    case Alt(l, r) =>
      var body := Body(t, due);
      && TakesTag(t, due, d, dirs) && body.Union?
      && if HasGroup(m)
         then RightSides(body.left, body.right, dirs) &&
              Right(l, body.left.left, false, d, dirs, data) && Right(r, body.right.left, false, DirectionBehind(l, d), dirs, data)
         else AllBefore(body.left, body.right) &&
              Right(l, body.left, false, d, dirs, data) && Right(r, body.right, false, DirectionBehind(l, d), dirs, data)
  }

  ghost predicate HasGroup(m: Marked) { exists id: nat :: Occurrences(m, id) > 0 }

  /** A union with groups has one more tag behind each operand: that of the left one first, and both before those inside. */
  ghost predicate RightSides(left: Ast, right: Ast, dirs: Directions) {
    && left.Catenation? && left.right.Tag? && right.Catenation? && right.right.Tag?
    && var i, j := left.right.id, right.right.id;
       && HasDirection(dirs, i, Maximize) && HasDirection(dirs, j, Maximize) && i < j
       && Before(j, left.left) && Before(j, right.left) && AllBefore(left.left, right.left)
  }

  // ----- how often an id occurs -----

  function OccurrencesInside(m: Marked, id: nat): nat {
    match m.node
    case Cat(l, r) => Occurrences(l, id) + Occurrences(r, id)
    case Alt(l, r) => Occurrences(l, id) + Occurrences(r, id)
    case Iter(a, _, _) => Occurrences(a, id)
    case _ => 0
  }

  lemma {:induction false} OccurrencesCounted(m: Marked, id: nat)
    ensures Occurrences(m, id) <= Submatches(m)
  {
    match m.node
    case Cat(l, r) => OccurrencesCounted(l, id); OccurrencesCounted(r, id);
    case Alt(l, r) => OccurrencesCounted(l, id); OccurrencesCounted(r, id);
    case Iter(a, _, _) => OccurrencesCounted(a, id);
    case _ =>
  }

  lemma {:induction false} SomeOccurs(m: Marked) returns (id: nat)
    requires Submatches(m) > 0
    ensures Occurrences(m, id) > 0
  {
    if m.id >= 0 {
      id := m.id;
    } else {
      match m.node
      case Cat(l, r) => if Submatches(l) > 0 { id := SomeOccurs(l); } else { id := SomeOccurs(r); }
      case Alt(l, r) => if Submatches(l) > 0 { id := SomeOccurs(l); } else { id := SomeOccurs(r); }
      case Iter(a, _, _) => id := SomeOccurs(a);
    }
  }

  // ----- what waits -----

  /** A start, or an end, by its number in regset. */
  predicate Waits(m: Marked, item: nat) { if item % 2 == 0 then StartWaits(m, item / 2) else EndWaits(m, item / 2) }

  lemma {:induction false} WaitsOccurs(m: Marked, id: nat)
    ensures StartWaits(m, id) ==> EndWaits(m, id)
    ensures EndWaits(m, id) ==> Occurrences(m, id) > 0
  {
    match m.node
    case Cat(l, r) => WaitsOccurs(l, id); WaitsOccurs(r, id);
    case Alt(l, r) => WaitsOccurs(l, id); WaitsOccurs(r, id);
    case Iter(a, _, _) => WaitsOccurs(a, id);
    case _ =>
  }

  lemma {:induction false} LeftoverIs(m: Marked, waiting: seq<nat>, item: nat)
    ensures item in Leftover(m, waiting) <==> Waits(m, item) || (item in waiting && !Stops(m))
  {
    var w := Open(m, waiting);
    match m.node
    case Cat(l, r) => LeftoverIs(l, w, item); LeftoverIs(r, Leftover(l, w), item);
    case Alt(l, r) => LeftoverIs(l, [], item); LeftoverIs(r, [], item);
    case Iter(a, _, _) => LeftoverIs(a, [], item);
    case _ =>
  }

  /** Something waits behind m exactly if a tag is due there. */
  lemma LeftoverIsDue(m: Marked, waiting: seq<nat>)
    ensures Leftover(m, waiting) != [] <==> DueBehind(m, waiting != [])
  {
    var rest := Leftover(m, waiting);
    if rest != [] {
      LeftoverIs(m, waiting, rest[0]);
      WaitsOccurs(m, rest[0] / 2);
    }
    if waiting != [] {
      LeftoverIs(m, waiting, waiting[0]);
    }
    if id: nat :| EndWaits(m, id) {
      LeftoverIs(m, waiting, EndOf(id));
    }
  }

  // ----- the tag that leads -----

  lemma {:induction false} NoStops(m: Marked, p: Pass)
    requires !Stops(m) && p.tag < p.nextTag
    ensures Blank(Place(m, p).tree) && Place(m, p).pass.tag == p.tag && (p.pending ==> Place(m, p).pass.pending)
    ensures Count(m, p.pending).num == 0
  {
    match m.node
    case Cat(l, r) =>
      var q := p.(pending := p.pending || m.id >= 0);
      NoStops(l, q);
      NoStops(r, AfterLeft(Place(l, q).pass, q, 0, false));
      PlacedPending(l, q);
    case _ =>
  }

  lemma {:induction false} Leads(m: Marked, p: Pass)
    requires Stops(m) && (p.pending || m.id >= 0) && p.tag < p.nextTag
    ensures LedBy(Place(m, p).tree, p.tag)
  {
    var q := p.(pending := p.pending || m.id >= 0);
    match m.node
    case Cat(l, r) =>
      var first := Count(l, true);
      var reserve := first.num > 0 && Count(r, first.pending).num > 0;
      var p1 := if reserve then q.(nextTag := q.nextTag + 1) else q;
      if Stops(l) {
        Leads(l, p1);
      } else {
        NoStops(l, q);
        Leads(r, AfterLeft(Place(l, q).pass, q, 0, false));
      }
    case _ =>
  }

  /** The direction does not depend on the tags. */
  lemma {:induction false} DirectionStays(m: Marked, p: Pass)
    ensures Place(m, p).pass.direction == DirectionBehind(m, p.direction)
  {
    var q := p.(pending := p.pending || m.id >= 0);
    match m.node
    case Cat(l, r) =>
      var first := Count(l, q.pending);
      var reserve := first.num > 0 && Count(r, first.pending).num > 0;
      var p1 := if reserve then q.(nextTag := q.nextTag + 1) else q;
      DirectionStays(l, p1);
      DirectionStays(r, AfterLeft(Place(l, p1).pass, q, first.num, reserve));
    case _ =>
  }

  // ----- the offsets -----

  predicate IsAt(data: SubmatchData, item: nat, tag: nat) {
    if item % 2 == 0 then item / 2 in data.so && data.so[item / 2] == tag else item / 2 in data.eo && data.eo[item / 2] == tag
  }

  predicate SameAt(a: SubmatchData, b: SubmatchData, item: nat) {
    var id := item / 2;
    if item % 2 == 0 then (id in a.so <==> id in b.so) && (id in a.so ==> a.so[id] == b.so[id])
    else (id in a.eo <==> id in b.eo) && (id in a.eo ==> a.eo[id] == b.eo[id])
  }

  lemma {:induction false} PurgeAt(waiting: seq<nat>, tag: nat, data: SubmatchData, item: nat)
    ensures var after := Purge(waiting, tag, data); if item in waiting then IsAt(after, item, tag) else SameAt(data, after, item)
    decreases waiting
  {
    if waiting != [] {
      PurgeAt(waiting[1..], tag, SetOffset(waiting[0], tag, data), item);
      assert waiting == [waiting[0]] + waiting[1..];
    }
  }

  /** A node sets what waits in front of it, if it takes a tag, and what is its own. */
  ghost predicate Settled(stops: bool, tag: nat, waiting: seq<nat>, data: SubmatchData, after: SubmatchData, item: nat) {
    if item in waiting && stops then IsAt(after, item, tag) else SameAt(data, after, item)
  }

  lemma {:induction false} Settles(m: Marked, p: Pass, waiting: seq<nat>, data: SubmatchData, item: nat)
    requires Occurrences(m, item / 2) == 0 && p.tag < p.nextTag
    ensures Settled(Stops(m), p.tag, waiting, data, Purged(m, p, waiting, data), item)
    decreases m, 1
  {
    SettlesInside(m, p.(pending := p.pending || m.id >= 0), Open(m, waiting), data, item);
  }

  lemma {:induction false} SettlesInside(m: Marked, p: Pass, waiting: seq<nat>, data: SubmatchData, item: nat)
    requires OccurrencesInside(m, item / 2) == 0 && p.tag < p.nextTag
    ensures Settled(Stops(m), p.tag, waiting, data, PurgedOf(m, p, waiting, data), item)
    decreases m, 0
  {
    hide Place, Count, Purge, Purged, Leftover, IsAt, SameAt;
    PurgeAt(waiting, p.tag, data, item);
    match m.node
    case Lit(_, _) =>
    case Nothing => SameAsIs(data, item);
    case Cat(l, r) =>
      var first := Count(l, p.pending);
      var reserve := first.num > 0 && Count(r, first.pending).num > 0;
      var p1 := if reserve then p.(nextTag := p.nextTag + 1) else p;
      var p2 := AfterLeft(Place(l, p1).pass, p, first.num, reserve);
      var data1 := Purged(l, p1, waiting, data);
      Settles(l, p1, waiting, data, item);
      LeftoverIs(l, waiting, item);
      WaitsOccurs(l, item / 2);
      Numbers(l, p1);
      Settles(r, p2, Leftover(l, waiting), data1, item);
      if !Stops(l) {
        NoStops(l, p1);
      }
      SameTwice(data, data1, PurgedOf(m, p, waiting, data), item, p.tag);
    case Iter(a, _, _) =>
      var p1, data1 := AfterTag(p).(direction := Minimize), Purge(waiting, p.tag, data);
      Settles(a, p1, [], data1, item);
      SameTwice(data, data1, PurgedOf(m, p, waiting, data), item, p.tag);
    case Alt(l, r) =>
      var reserved := Reserved(AfterTag(p), Submatches(m) > 0);
      var data1 := Purge(waiting, p.tag, data);
      var data2 := Purged(l, reserved, [], data1);
      Settles(l, reserved, [], data1, item);
      Numbers(l, reserved);
      Settles(r, Place(l, reserved).pass.(pending := false), [], data2, item);
      SameTwice(data, data1, data2, item, p.tag);
      SameTwice(data, data2, PurgedOf(m, p, waiting, data), item, p.tag);
  }

  lemma SameAsIs(data: SubmatchData, item: nat)
    ensures SameAt(data, data, item)
  {
  }

  lemma SameTwice(a: SubmatchData, b: SubmatchData, c: SubmatchData, item: nat, tag: nat)
    ensures SameAt(a, b, item) && SameAt(b, c, item) ==> SameAt(a, c, item)
    ensures IsAt(b, item, tag) && SameAt(b, c, item) ==> IsAt(c, item, tag)
  {
  }

  // ----- the directions -----

  /** Only the tags of the tree get directions. */
  lemma {:induction false} OthersStay(m: Marked, p: Pass, tag: nat)
    ensures var r := Place(m, p);
      !InTree(r.tree, tag) ==> SameDirection(p.dirs, r.pass.dirs, tag)
  {
    hide Count, PlaceAlt, Submatches, Reserved;
    var q := p.(pending := p.pending || m.id >= 0);
    match m.node
    case Cat(l, r) =>
      var first := Count(l, q.pending);
      var reserve := first.num > 0 && Count(r, first.pending).num > 0;
      var p1 := if reserve then q.(nextTag := q.nextTag + 1) else q;
      OthersStay(l, p1, tag);
      OthersStay(r, AfterLeft(Place(l, p1).pass, q, first.num, reserve), tag);
    case Iter(a, min, max) =>
      var inner := Place(a, AfterTag(q).(direction := Minimize)).tree;
      OthersStay(a, AfterTag(q).(direction := Minimize), tag);
      InFront(Iteration(inner, min, max), q, tag);
    case Alt(l, r) =>
      var reserved := Reserved(AfterTag(q), Submatches(m) > 0);
      OthersStay(l, reserved, tag);
      OthersStay(r, Place(l, reserved).pass.(pending := false), tag);
      UnionStays(m, l, r, q, tag);
    case Lit(lo, hi) => InFront(Literal(lo, hi), q, tag);
    case Nothing =>
  }

  /** What the tree of a union holds besides its operands. */
  lemma InPlacedUnion(m: Marked, l: Marked, r: Marked, p: Pass, tag: nat)
    requires m.node == Alt(l, r)
    ensures var reserved := Reserved(AfterTag(p), Submatches(m) > 0);
      var left := Place(l, reserved); var right := Place(r, left.pass.(pending := false));
      InTree(PlaceAlt(m, l, r, p).tree, tag) <==>
        || InTree(left.tree, tag) || InTree(right.tree, tag) || (p.pending && tag == p.tag)
        || (Submatches(m) > 0 && (tag == LeftTag(p) || tag == RightTag(p)))
  {
    hide Place, Count, InTree, TagLeft, Submatches, PlaceAlt;
    Joined(m, l, r, p);
    var reserved := Reserved(AfterTag(p), Submatches(m) > 0);
    var left := Place(l, reserved);
    var right := Place(r, left.pass.(pending := false));
    var i, j := LeftTag(AfterTag(p)), RightTag(AfterTag(p));
    InUnion(left.tree, right.tree, i, j, tag);
    InFront(Union(left.tree, right.tree), p, tag);
    InFront(Union(Catenation(left.tree, Tag(i)), Catenation(right.tree, Tag(j))), p, tag);
  }

  lemma UnionStays(m: Marked, l: Marked, r: Marked, p: Pass, tag: nat)
    requires m.node == Alt(l, r)
    requires var reserved := Reserved(AfterTag(p), Submatches(m) > 0);
      var left := Place(l, reserved); var right := Place(r, left.pass.(pending := false));
      && (!InTree(left.tree, tag) ==> SameDirection(reserved.dirs, left.pass.dirs, tag))
      && (!InTree(right.tree, tag) ==> SameDirection(left.pass.dirs, right.pass.dirs, tag))
    ensures var u := PlaceAlt(m, l, r, p); !InTree(u.tree, tag) ==> SameDirection(p.dirs, u.pass.dirs, tag)
  {
    hide Place, Count, InTree, TagLeft, Submatches;
    InPlacedUnion(m, l, r, p, tag);
  }

  predicate SameDirection(a: Directions, b: Directions, tag: nat) {
    (tag in b <==> tag in a) && (tag in a ==> b[tag] == a[tag])
  }

  /** dirs has the directions that the pass gives to the tags of the tree. */
  ghost predicate Gives(r: Placed, dirs: Directions) {
    forall k: nat | InTree(r.tree, k) :: k in r.pass.dirs && k in dirs && dirs[k] == r.pass.dirs[k]
  }

  // ----- every node -----

  /** `after` is what the pass over m leaves, and `final` what is left in the end of the offsets that m settles. */
  ghost predicate Keeps(m: Marked, after: SubmatchData, final: SubmatchData) {
    forall item: nat | Occurrences(m, item / 2) > 0 && !Waits(m, item) :: SameAt(after, final, item)
  }

  ghost predicate Foreign(m: Marked, waiting: seq<nat>) { forall item | item in waiting :: Occurrences(m, item / 2) == 0 }

  lemma {:induction false} PlacedRight(m: Marked, p: Pass, waiting: seq<nat>, data: SubmatchData, dirs: Directions, final: SubmatchData)
    requires p.tag < p.nextTag && p.pending == (waiting != []) && Once(m) && Foreign(m, waiting)
    requires Gives(Place(m, p), dirs) && Keeps(m, Purged(m, p, waiting, data), final)
    ensures Right(m, Place(m, p).tree, p.pending, p.direction, dirs, final)
    decreases m, 1
  {
    hide Place, Purged, PurgedOf, Gives, Keeps, RightNode, Once, Foreign;
    if m.id >= 0 && Stops(m) {
      OwnStart(m, p, waiting, data, final);
    }
    NodeRight(m, p, waiting, data, dirs, final);
  }

  lemma OwnStart(m: Marked, p: Pass, waiting: seq<nat>, data: SubmatchData, final: SubmatchData)
    requires p.tag < p.nextTag && Once(m) && m.id >= 0 && Stops(m)
    requires Keeps(m, Purged(m, p, waiting, data), final)
    ensures m.id in final.so && LedBy(Place(m, p).tree, final.so[m.id])
  {
    hide Place, PurgedOf, LedBy;
    var item := StartOf(m.id);
    assert Occurrences(m, m.id) == 1;
    SettlesInside(m, p.(pending := p.pending || m.id >= 0), Open(m, waiting), data, item);
    Leads(m, p);
    NoneInside(m);
    assert item / 2 == m.id && !Waits(m, item);
    SameTwice(data, Purged(m, p, waiting, data), final, item, p.tag);
  }

  /** What is not inside m does not wait there. */
  lemma NoneInside(m: Marked)
    requires m.id >= 0 && OccurrencesInside(m, m.id) == 0 && Stops(m)
    ensures !StartWaits(m, m.id)
  {
    match m.node
    case Cat(l, r) => WaitsOccurs(l, m.id); WaitsOccurs(r, m.id);
    case Alt(l, r) => WaitsOccurs(l, m.id); WaitsOccurs(r, m.id);
    case Iter(a, _, _) => WaitsOccurs(a, m.id);
    case _ =>
  }

  lemma {:induction false} NodeRight(m: Marked, p: Pass, waiting: seq<nat>, data: SubmatchData, dirs: Directions, final: SubmatchData)
    requires p.tag < p.nextTag && p.pending == (waiting != []) && Once(m) && Foreign(m, waiting)
    requires Gives(Place(m, p), dirs) && Keeps(m, Purged(m, p, waiting, data), final)
    ensures RightNode(m, Place(m, p).tree, p.pending || m.id >= 0, p.direction, dirs, final)
    decreases m, 0
  {
    hide Count, PlaceCat, PlaceAlt;
    var q := p.(pending := p.pending || m.id >= 0);
    var w := Open(m, waiting);
    match m.node
    case Lit(lo, hi) => LitRight(m, lo, hi, q, dirs, final);
    case Nothing =>
    case Cat(l, r) =>
      ForeignBelow(m, l, r, waiting);
      CatRight(m, l, r, q, w, data, dirs, final);
    case Iter(a, min, max) => IterRight(m, a, q, w, data, dirs, final);
    case Alt(l, r) => AltRight(m, l, r, q, w, data, dirs, final);
  }

  lemma LitRight(m: Marked, lo: nat, hi: nat, p: Pass, dirs: Directions, final: SubmatchData)
    requires m.node == Lit(lo, hi) && Gives(Placed(TagLeft(Literal(lo, hi), p), AfterTag(p)), dirs)
    ensures RightNode(m, TagLeft(Literal(lo, hi), p), p.pending, p.direction, dirs, final)
  {
    hide InTree;
    InFront(Literal(lo, hi), p, p.tag);
    NoTags(lo, hi);
  }

  /** The two operands of a node with two have different ids. */
  ghost predicate Apart(l: Marked, r: Marked) {
    Once(l) && Once(r) && forall id: nat :: Occurrences(l, id) == 0 || Occurrences(r, id) == 0
  }

  lemma OnceBelow(m: Marked, l: Marked, r: Marked)
    requires Once(m) && (m.node == Cat(l, r) || m.node == Alt(l, r))
    ensures Apart(l, r)
    ensures forall id: nat :: Occurrences(l, id) > 0 || Occurrences(r, id) > 0 ==> m.id != id
    ensures forall id: nat :: OccurrencesInside(m, id) == Occurrences(l, id) + Occurrences(r, id)
  {
    hide Occurrences;
    forall id: nat
      ensures Occurrences(l, id) <= 1 && Occurrences(r, id) <= 1 && Occurrences(l, id) + Occurrences(r, id) <= 1
      ensures Occurrences(l, id) > 0 || Occurrences(r, id) > 0 ==> m.id != id
    {
      OwnAndInside(m, id);
    }
  }

  lemma OwnAndInside(m: Marked, id: nat)
    ensures Occurrences(m, id) == OccurrencesInside(m, id) + if m.id == id then 1 else 0
  {
  }

  /** The pass between the operands of a catenation. */
  function Between(l: Marked, r: Marked, p: Pass): (Pass, Pass) {
    var first := Count(l, p.pending);
    var reserve := first.num > 0 && Count(r, first.pending).num > 0;
    var p1 := if reserve then p.(nextTag := p.nextTag + 1) else p;
    (p1, AfterLeft(Place(l, p1).pass, p, first.num, reserve))
  }

  lemma BetweenIs(m: Marked, l: Marked, r: Marked, p: Pass, w: seq<nat>, data: SubmatchData)
    requires m.node == Cat(l, r)
    ensures var (p1, p2) := Between(l, r, p);
      && PlaceCat(m, l, r, p) == Placed(Catenation(Place(l, p1).tree, Place(r, p2).tree), Place(r, p2).pass)
      && PurgedOf(m, p, w, data) == Purged(r, p2, Leftover(l, w), Purged(l, p1, w, data))
      && p1.tag == p.tag && p1.pending == p.pending && p1.direction == p.direction
      && p2.pending == Place(l, p1).pass.pending && p2.direction == Place(l, p1).pass.direction && p2.dirs == Place(l, p1).pass.dirs
  {
    hide Place, Count, Leftover;
  }

  /** The tags of the operands of a catenation, by their numbers. */
  lemma BetweenNumbers(l: Marked, r: Marked, p: Pass)
    requires p.tag < p.nextTag
    ensures var (p1, p2) := Between(l, r, p); var (left, right) := (Place(l, p1).tree, Place(r, p2).tree);
      && p1.tag < p1.nextTag && p2.tag < p2.nextTag && CatOrder(left, right)
      && forall k: nat :: !InTree(left, k) || !InTree(right, k)
  {
    hide Place, Count, InTree, TagNodes, Lowest;
    var (p1, p2) := Between(l, r, p);
    Numbers(l, p1);
    PlacedPending(l, p1);
    Numbers(r, p2);
    var left, right := Place(l, p1).tree, Place(r, p2).tree;
    var n1, n2 := Count(l, p1.pending).num, Count(r, p2.pending).num;
    forall i: nat, j: nat | InTree(left, i) && InTree(right, j) ensures i != j && (i < j <==> Lowest(left, i) || !Lowest(right, j)) {
      LowestIs(p1, n1, left, i);
      LowestIs(p2, n2, right, j);
    }
  }

  lemma LowestIs(p: Pass, num: nat, t: Ast, i: nat)
    requires p.tag < p.nextTag && UsesExactly(p, num, t) && InTree(t, i)
    ensures Lowest(t, i) <==> i == p.tag
  {
    hide InTree, TagNodes;
    assert Uses(p, num, i) && Uses(p, num, p.tag);
  }

  lemma {:induction false} CatRight(m: Marked, l: Marked, r: Marked, p: Pass, w: seq<nat>, data: SubmatchData, dirs: Directions, final: SubmatchData)
    requires m.node == Cat(l, r) && p.tag < p.nextTag && p.pending == (w != []) && Once(m) && Foreign(l, w) && Foreign(r, w)
    requires Gives(PlaceCat(m, l, r, p), dirs) && Keeps(m, PurgedOf(m, p, w, data), final)
    ensures RightNode(m, PlaceCat(m, l, r, p).tree, p.pending, p.direction, dirs, final)
    decreases m, 0, 0
  {
    hide Place, PlaceCat, Count, Purged, PurgedOf, Leftover, Gives, Keeps, Once, Foreign, Right, CatOrder, HandsOver, DueBehind, InTree, Between;
    var (p1, p2) := Between(l, r, p);
    var w2, data1 := Leftover(l, w), Purged(l, p1, w, data);
    OnceBelow(m, l, r);
    BetweenIs(m, l, r, p, w, data);
    BetweenNumbers(l, r, p);
    PendingBetween(l, p1, w);
    ForeignBetween(l, r, w);
    GivesBoth(m, l, r, p, dirs);
    KeepsLeft(m, l, r, p2, w, data1, final);
    KeepsRight(m, l, r, Purged(r, p2, w2, data1), final);
    PlacedRight(l, p1, w, data, dirs, final);
    PlacedRight(r, p2, w2, data1, dirs, final);
    DirectionStays(l, p1);
    if Stops(r) {
      HandedOver(m, l, r, p2, w, data1, final);
    }
  }

  lemma PendingBetween(l: Marked, p: Pass, w: seq<nat>)
    requires p.pending == (w != [])
    ensures Place(l, p).pass.pending == (Leftover(l, w) != []) == DueBehind(l, p.pending)
  {
    WaitingIsPending(l, w);
    PlacedPending(l, p);
    LeftoverIsDue(l, w);
  }

  lemma ForeignBelow(m: Marked, l: Marked, r: Marked, waiting: seq<nat>)
    requires m.node == Cat(l, r) && Once(m) && Foreign(m, waiting)
    ensures Foreign(l, Open(m, waiting)) && Foreign(r, Open(m, waiting))
  {
    hide Occurrences;
    OnceBelow(m, l, r);
    forall item | item in Open(m, waiting) ensures Occurrences(l, item / 2) == 0 && Occurrences(r, item / 2) == 0 {
      OwnAndInside(m, item / 2);
    }
  }

  lemma ForeignBetween(l: Marked, r: Marked, w: seq<nat>)
    requires Apart(l, r) && Foreign(r, w)
    ensures Foreign(r, Leftover(l, w))
  {
    hide Leftover;
    forall item | item in Leftover(l, w) ensures Occurrences(r, item / 2) == 0 {
      LeftoverIs(l, w, item);
      WaitsOccurs(l, item / 2);
    }
  }

  lemma GivesBoth(m: Marked, l: Marked, r: Marked, p: Pass, dirs: Directions)
    requires m.node == Cat(l, r) && p.tag < p.nextTag && Gives(PlaceCat(m, l, r, p), dirs)
    ensures var (p1, p2) := Between(l, r, p); Gives(Place(l, p1), dirs) && Gives(Place(r, p2), dirs)
  {
    hide Place, PlaceCat, Count, InTree, Between;
    var (p1, p2) := Between(l, r, p);
    var left, right := Place(l, p1), Place(r, p2);
    BetweenIs(m, l, r, p, [], NO_DATA);
    BetweenNumbers(l, r, p);
    forall k: nat | InTree(left.tree, k) || InTree(right.tree, k)
      ensures k in dirs && InTree(left.tree, k) ==> k in left.pass.dirs && dirs[k] == left.pass.dirs[k]
      ensures k in dirs && InTree(right.tree, k) ==> k in right.pass.dirs && dirs[k] == right.pass.dirs[k]
      ensures k in dirs
    {
      InCatenation(left.tree, right.tree, k);
      OthersStay(r, p2, k);
    }
  }

  lemma KeepsLeft(m: Marked, l: Marked, r: Marked, p2: Pass, w: seq<nat>, data1: SubmatchData, final: SubmatchData)
    requires m.node == Cat(l, r) && Once(m) && p2.tag < p2.nextTag && Foreign(l, w)
    requires Keeps(m, Purged(r, p2, Leftover(l, w), data1), final)
    ensures Keeps(l, data1, final)
  {
    hide Purged, Leftover, SameAt, IsAt, Once, Stops;
    OnceBelow(m, l, r);
    var w2 := Leftover(l, w);
    var data2 := Purged(r, p2, w2, data1);
    forall item: nat | Occurrences(l, item / 2) > 0 && !Waits(l, item) ensures SameAt(data1, final, item) {
      Settles(r, p2, w2, data1, item);
      LeftoverIs(l, w, item);
      WaitsOccurs(r, item / 2);
      OwnAndInside(m, item / 2);
      SameTwice(data1, data2, final, item, 0);
    }
  }

  lemma KeepsRight(m: Marked, l: Marked, r: Marked, data2: SubmatchData, final: SubmatchData)
    requires m.node == Cat(l, r) && Once(m) && Keeps(m, data2, final)
    ensures Keeps(r, data2, final)
  {
    hide SameAt, Once, Stops;
    OnceBelow(m, l, r);
    forall item: nat | Occurrences(r, item / 2) > 0 && !Waits(r, item) ensures SameAt(data2, final, item) {
      WaitsOccurs(l, item / 2);
      OwnAndInside(m, item / 2);
    }
  }

  lemma HandedOver(m: Marked, l: Marked, r: Marked, p2: Pass, w: seq<nat>, data1: SubmatchData, final: SubmatchData)
    requires m.node == Cat(l, r) && Once(m) && Stops(r) && p2.tag < p2.nextTag && p2.pending == (Leftover(l, w) != [])
    requires Keeps(m, Purged(r, p2, Leftover(l, w), data1), final)
    ensures HandsOver(l, Place(r, p2).tree, final)
  {
    hide Place, Purged, Leftover, SameAt, Once, LedBy, Keeps;
    forall id: nat | EndWaits(l, id) ensures id in final.eo && LedBy(Place(r, p2).tree, final.eo[id]) {
      ItemHandedOver(m, l, r, p2, w, data1, final, EndOf(id));
    }
    forall id: nat | StartWaits(l, id) ensures id in final.so && LedBy(Place(r, p2).tree, final.so[id]) {
      ItemHandedOver(m, l, r, p2, w, data1, final, StartOf(id));
    }
  }

  lemma ItemHandedOver(m: Marked, l: Marked, r: Marked, p2: Pass, w: seq<nat>, data1: SubmatchData, final: SubmatchData, item: nat)
    requires m.node == Cat(l, r) && Once(m) && Stops(r) && p2.tag < p2.nextTag && p2.pending == (Leftover(l, w) != [])
    requires Keeps(m, Purged(r, p2, Leftover(l, w), data1), final) && Waits(l, item)
    ensures IsAt(final, item, p2.tag) && LedBy(Place(r, p2).tree, p2.tag)
  {
    hide Place, Purged, Leftover, SameAt, IsAt, Once, LedBy;
    OnceBelow(m, l, r);
    LeftoverIs(l, w, item);
    WaitsOccurs(l, item / 2);
    WaitsOccurs(r, item / 2);
    OwnAndInside(m, item / 2);
    Settles(r, p2, Leftover(l, w), data1, item);
    SameTwice(data1, Purged(r, p2, Leftover(l, w), data1), final, item, p2.tag);
    Leads(r, p2);
  }

  lemma {:induction false} IterRight(m: Marked, a: Marked, p: Pass, w: seq<nat>, data: SubmatchData, dirs: Directions, final: SubmatchData)
    requires m.node.Iter? && m.node.arg == a && p.tag < p.nextTag && p.pending == (w != []) && Once(m)
    requires var inner := Place(a, AfterTag(p).(direction := Minimize));
      Gives(Placed(TagLeft(Iteration(inner.tree, m.node.min, m.node.max), p), inner.pass), dirs)
    requires Keeps(m, PurgedOf(m, p, w, data), final)
    ensures var inner := Place(a, AfterTag(p).(direction := Minimize));
      RightNode(m, TagLeft(Iteration(inner.tree, m.node.min, m.node.max), p), p.pending, p.direction, dirs, final)
    decreases m, 0, 0
  {
    hide Place, Count, Purge, Purged, Right, TakesTag, Gives, Keeps, Once;
    var p1, data1 := AfterTag(p).(direction := Minimize), Purge(w, p.tag, data);
    IterTag(m, a, p, dirs);
    OnceIn(m, a, Purged(a, p1, [], data1), final);
    PlacedRight(a, p1, [], data1, dirs, final);
  }

  lemma IterTag(m: Marked, a: Marked, p: Pass, dirs: Directions)
    requires m.node.Iter? && m.node.arg == a && p.tag < p.nextTag
    requires var inner := Place(a, AfterTag(p).(direction := Minimize));
      Gives(Placed(TagLeft(Iteration(inner.tree, m.node.min, m.node.max), p), inner.pass), dirs)
    ensures var inner := Place(a, AfterTag(p).(direction := Minimize));
      && TakesTag(TagLeft(Iteration(inner.tree, m.node.min, m.node.max), p), p.pending, p.direction, dirs) && Gives(inner, dirs)
  {
    hide Place, Count, InTree, TagNodes;
    var p1 := AfterTag(p).(direction := Minimize);
    var inner := Place(a, p1);
    var body := Iteration(inner.tree, m.node.min, m.node.max);
    Numbers(a, p1);
    forall k: nat
      ensures InTree(TagLeft(body, p), k) <==> InTree(inner.tree, k) || (p.pending && k == p.tag)
      ensures InTree(body, k) <==> InTree(inner.tree, k)
    {
      InFront(body, p, k);
      InIteration(inner.tree, m.node.min, m.node.max, k);
    }
    OthersStay(a, p1, p.tag);
  }

  lemma InIteration(t: Ast, min: nat, max: int, id: nat)
    ensures InTree(Iteration(t, min, max), id) <==> InTree(t, id)
  {
  }

  lemma OnceIn(m: Marked, a: Marked, data: SubmatchData, final: SubmatchData)
    requires m.node.Iter? && m.node.arg == a && Once(m) && Keeps(m, data, final)
    ensures Once(a) && Keeps(a, data, final)
  {
    hide SameAt, Occurrences, Stops;
    forall id: nat ensures Occurrences(a, id) <= 1 && (Occurrences(a, id) > 0 ==> m.id != id && Occurrences(m, id) > 0) {
      OwnAndInside(m, id);
    }
    forall item: nat | Occurrences(a, item / 2) > 0 && !Waits(a, item) ensures SameAt(data, final, item) {
      assert !Waits(m, item);
    }
  }

  lemma {:induction false} AltRight(m: Marked, l: Marked, r: Marked, p: Pass, w: seq<nat>, data: SubmatchData, dirs: Directions, final: SubmatchData)
    requires m.node == Alt(l, r) && p.tag < p.nextTag && p.pending == (w != []) && Once(m)
    requires Gives(PlaceAlt(m, l, r, p), dirs) && Keeps(m, PurgedOf(m, p, w, data), final)
    ensures RightNode(m, PlaceAlt(m, l, r, p).tree, p.pending, p.direction, dirs, final)
    decreases m, 0, 0
  {
    hide Place, PlaceAlt, Count, Purge, Purged, Right, TakesTag, Gives, Keeps, Once, Before, AllBefore, Submatches, InTree, RightSides,
        Reserved, AfterTag, LeftTag, RightTag, Body, DirectionBehind, Occurrences, HasGroup;
    var reserved := Reserved(AfterTag(p), Submatches(m) > 0);
    var data1 := Purge(w, p.tag, data);
    var left := Place(l, reserved);
    var p2, data2 := left.pass.(pending := false), Purged(l, reserved, [], data1);
    ReservedPass(p, Submatches(m) > 0);
    SomeGroup(m);
    OnceBelow(m, l, r);
    UnionTags(m, l, r, p, dirs);
    KeepsOperands(m, l, r, p2, data2, final);
    PlacedRight(l, reserved, [], data1, dirs, final);
    PlacedRight(r, p2, [], data2, dirs, final);
    DirectionStays(l, reserved);
  }

  lemma ReservedPass(p: Pass, some: bool)
    ensures var q := Reserved(AfterTag(p), some); !q.pending && q.direction == p.direction
  {
  }

  lemma SomeGroup(m: Marked)
    ensures Submatches(m) > 0 <==> HasGroup(m)
  {
    if Submatches(m) > 0 {
      var id := SomeOccurs(m);
    }
    if id: nat :| Occurrences(m, id) > 0 {
      OccurrencesCounted(m, id);
    }
  }

  lemma KeepsOperands(m: Marked, l: Marked, r: Marked, p2: Pass, data2: SubmatchData, final: SubmatchData)
    requires m.node == Alt(l, r) && Once(m) && p2.tag < p2.nextTag && Keeps(m, Purged(r, p2, [], data2), final)
    ensures Keeps(l, data2, final) && Keeps(r, Purged(r, p2, [], data2), final)
  {
    hide Purged, SameAt, IsAt, Once, Stops;
    OnceBelow(m, l, r);
    var after := Purged(r, p2, [], data2);
    forall item: nat | Occurrences(l, item / 2) > 0 && !Waits(l, item) ensures SameAt(data2, final, item) {
      Settles(r, p2, [], data2, item);
      WaitsOccurs(r, item / 2);
      OwnAndInside(m, item / 2);
      SameTwice(data2, after, final, item, 0);
    }
    forall item: nat | Occurrences(r, item / 2) > 0 && !Waits(r, item) ensures SameAt(after, final, item) {
      WaitsOccurs(l, item / 2);
      OwnAndInside(m, item / 2);
    }
  }

  /** The numbers in the operands of a union. */
  lemma UnionNumbers(m: Marked, l: Marked, r: Marked, p: Pass)
    requires m.node == Alt(l, r) && p.tag < p.nextTag
    ensures var reserved := Reserved(AfterTag(p), Submatches(m) > 0);
      var left := Place(l, reserved); var p2 := left.pass.(pending := false); var right := Place(r, p2);
      && reserved.tag < reserved.nextTag && p2.tag < p2.nextTag && AllBefore(left.tree, right.tree)
      && (forall k: nat | InTree(left.tree, k) || InTree(right.tree, k) :: reserved.tag <= k)
  {
    hide Place, Count, InTree, TagNodes, Submatches;
    var reserved := Reserved(AfterTag(p), Submatches(m) > 0);
    Numbers(l, reserved);
    Numbers(r, Place(l, reserved).pass.(pending := false));
  }

  lemma UnionDirections(m: Marked, l: Marked, r: Marked, p: Pass, dirs: Directions, k: nat)
    requires m.node == Alt(l, r) && p.tag < p.nextTag && Gives(PlaceAlt(m, l, r, p), dirs)
    ensures var some := Submatches(m) > 0; var reserved := Reserved(AfterTag(p), some);
      var left := Place(l, reserved); var right := Place(r, left.pass.(pending := false));
      && (InTree(left.tree, k) ==> k in left.pass.dirs && HasDirection(dirs, k, left.pass.dirs[k]))
      && (InTree(right.tree, k) ==> k in right.pass.dirs && HasDirection(dirs, k, right.pass.dirs[k]))
      && (p.pending && k == p.tag ==> HasDirection(dirs, k, p.direction))
      && (some && (k == LeftTag(p) || k == RightTag(p)) ==> HasDirection(dirs, k, Maximize))
  {
    hide Place, Count, InTree, TagNodes, Submatches, TagLeft;
    var reserved := Reserved(AfterTag(p), Submatches(m) > 0);
    InPlacedUnion(m, l, r, p, k);
    UnionNumbers(m, l, r, p);
    OthersStay(l, reserved, k);
    OthersStay(r, Place(l, reserved).pass.(pending := false), k);
  }

  lemma UnionTags(m: Marked, l: Marked, r: Marked, p: Pass, dirs: Directions)
    requires m.node == Alt(l, r) && p.tag < p.nextTag && Gives(PlaceAlt(m, l, r, p), dirs)
    ensures var some := Submatches(m) > 0; var reserved := Reserved(AfterTag(p), some);
      var left := Place(l, reserved); var p2 := left.pass.(pending := false); var right := Place(r, p2);
      var t := PlaceAlt(m, l, r, p).tree; var body := Body(t, p.pending);
      && Gives(left, dirs) && Gives(right, dirs) && TakesTag(t, p.pending, p.direction, dirs)
      && reserved.tag < reserved.nextTag && p2.tag < p2.nextTag
      && body == (if some then Union(Catenation(left.tree, Tag(LeftTag(p))), Catenation(right.tree, Tag(RightTag(p)))) else Union(left.tree, right.tree))
      && (if some then RightSides(body.left, body.right, dirs) else AllBefore(body.left, body.right))
  {
    hide Place, PlaceAlt, Count, InTree, TagNodes, Submatches;
    var some := Submatches(m) > 0;
    var reserved := Reserved(AfterTag(p), some);
    var left := Place(l, reserved);
    var right := Place(r, left.pass.(pending := false));
    var i, j := LeftTag(p), RightTag(p);
    Joined(m, l, r, p);
    UnionNumbers(m, l, r, p);
    forall k: nat | InTree(left.tree, k) ensures k in left.pass.dirs && HasDirection(dirs, k, left.pass.dirs[k]) {
      UnionDirections(m, l, r, p, dirs, k);
    }
    forall k: nat | InTree(right.tree, k) ensures k in right.pass.dirs && HasDirection(dirs, k, right.pass.dirs[k]) {
      UnionDirections(m, l, r, p, dirs, k);
    }
    UnionDirections(m, l, r, p, dirs, i);
    UnionDirections(m, l, r, p, dirs, j);
    UnionDirections(m, l, r, p, dirs, p.tag);
    var body := if some then Union(Catenation(left.tree, Tag(i)), Catenation(right.tree, Tag(j))) else Union(left.tree, right.tree);
    forall k: nat | p.pending && InTree(body, k) ensures p.tag < k {
      InUnion(left.tree, right.tree, i, j, k);
    }
  }

  // ----- the whole pattern -----

  /** What still waits at the end of the pattern gets the end tag; the tags are numbered from 0 on. */
  ghost predicate TagsRight(m: Marked, g: Tagged, data: SubmatchData) {
    && Right(m, g.tree, false, Minimize, g.dirs, data)
    && (forall id: nat | EndWaits(m, id) :: id in data.eo && data.eo[id] == g.numTags)
    && (forall id: nat | StartWaits(m, id) :: id in data.so && data.so[id] == g.numTags)
    && (forall id: nat :: InTree(g.tree, id) <==> id < g.numTags)
    && TagNodes(g.tree) == g.numTags
  }

  /** The tags of a pattern whose groups have different numbers. */
  lemma GroupTags(m: Marked)
    requires Once(m)
    ensures TagsRight(m, PlaceTags(m), DataOf(m))
  {
    hide Place, Count, Purge, Purged, Leftover, Right, SameAt, TagNodes, InTree;
    var r, data1 := Place(m, BEGIN), Purged(m, BEGIN, [], NO_DATA);
    var final := DataOf(m);
    Numbers(m, BEGIN);
    PassesAgree(m);
    forall item: nat ensures if Waits(m, item) then IsAt(final, item, r.pass.tag) else SameAt(data1, final, item) {
      LeftoverIs(m, [], item);
      PurgeAt(Leftover(m, []), r.pass.tag, data1, item);
    }
    PlacedRight(m, BEGIN, [], NO_DATA, r.pass.dirs, final);
    forall id: nat | EndWaits(m, id) ensures id in final.eo && final.eo[id] == Count(m, false).num {
      assert Waits(m, EndOf(id)) && EndOf(id) / 2 == id;
    }
    forall id: nat | StartWaits(m, id) ensures id in final.so && final.so[id] == Count(m, false).num {
      assert Waits(m, StartOf(id)) && StartOf(id) / 2 == id;
    }
  }
}
