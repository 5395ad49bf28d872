/** Which tags hold the offsets of which submatch (submatch_data of tre-compile.c): tre_add_tags collects the offsets
    that wait for a tag in `regset`, and gives them the next tag it places. */
module TreRegset {
  import opened TreAst
  import opened TreMarked
  import opened TreSubmatches
  import opened TreTagNumbers
  import opened TreTags

  // ----- offsets that wait for a tag -----

  function StartOf(id: nat): nat { 2 * id }

  function EndOf(id: nat): nat { 2 * id + 1 }

  function Open(m: Marked, waiting: seq<nat>): seq<nat> { if m.id >= 0 then waiting + [StartOf(m.id)] else waiting }

  function Close(m: Marked, waiting: seq<nat>): seq<nat> { if m.id >= 0 then waiting + [EndOf(m.id)] else waiting }

  /** The offsets that wait behind a node, given those in front of it. */
  function Leftover(m: Marked, waiting: seq<nat>): seq<nat>
    decreases m, 1
  {
    Close(m, LeftoverOf(m, Open(m, waiting)))
  }

  /** The same between the two ends of the node. */
  function LeftoverOf(m: Marked, waiting: seq<nat>): seq<nat>
    decreases m, 0
  {
    match m.node
    case Lit(_, _) => []
    case Nothing => waiting
    case Cat(l, r) => Leftover(r, Leftover(l, waiting))
    case Iter(a, _, _) => Leftover(a, [])
    case Alt(l, r) => Leftover(l, []) + Leftover(r, [])
  }

  /** Some offset waits exactly when the passes have a tag pending. */
  lemma {:induction false} WaitingIsPending(m: Marked, waiting: seq<nat>)
    ensures Leftover(m, waiting) != [] <==> Count(m, waiting != []).pending
  {
    var inner := Open(m, waiting);
    match m.node
    case Lit(_, _) =>
    case Nothing =>
    case Cat(l, r) =>
      WaitingIsPending(l, inner);
      WaitingIsPending(r, Leftover(l, inner));
    case Iter(a, _, _) => WaitingIsPending(a, []);
    case Alt(l, r) =>
      WaitingIsPending(l, []);
      WaitingIsPending(r, []);
  }

  lemma {:induction false} PlacedPending(m: Marked, p: Pass)
    ensures Place(m, p).pass.pending == Count(m, p.pending).pending
  {
    var q := p.(pending := p.pending || m.id >= 0);
    match m.node
    case Lit(_, _) =>
    case Nothing =>
    case Cat(l, r) =>
      var first := Count(l, q.pending);
      var reserve := first.num > 0 && Count(r, first.pending).num > 0;
      var p1 := if reserve then q.(nextTag := q.nextTag + 1) else q;
      PlacedPending(l, p1);
      PlacedPending(r, AfterLeft(Place(l, p1).pass, q, first.num, reserve));
    case Iter(a, _, _) => PlacedPending(a, AfterTag(q).(direction := Minimize));
    case Alt(l, r) =>
      var reserved := Reserved(AfterTag(q), Submatches(m) > 0);
      PlacedPending(l, reserved);
      PlacedPending(r, Place(l, reserved).pass.(pending := false));
  }

  // ----- the tags of the offsets -----

  /** so_tag and eo_tag of the submatches. */
  datatype SubmatchData = SubmatchData(so: map<nat, nat>, eo: map<nat, nat>)

  function SetOffset(item: nat, tag: nat, data: SubmatchData): SubmatchData {
    if item % 2 == 0 then data.(so := data.so[item / 2 := tag]) else data.(eo := data.eo[item / 2 := tag])
  }

  /** tre_purge_regset. */
  function Purge(waiting: seq<nat>, tag: nat, data: SubmatchData): SubmatchData {
    if waiting == [] then data else Purge(waiting[1..], tag, SetOffset(waiting[0], tag, data))
  }

  /** The second pass on a node: each tag is given to the offsets that wait when it is placed. */
  function Purged(m: Marked, p: Pass, waiting: seq<nat>, data: SubmatchData): SubmatchData
    decreases m, 1
  {
    PurgedOf(m, p.(pending := p.pending || m.id >= 0), Open(m, waiting), data)
  }

  /** The same between the two ends of the node. */
  function PurgedOf(m: Marked, p: Pass, waiting: seq<nat>, data: SubmatchData): SubmatchData
    decreases m, 0
  {
    match m.node
    case Lit(_, _) => Purge(waiting, p.tag, data)
    case Nothing => data
    case Cat(l, r) =>
      var first := Count(l, p.pending);
      var reserve := first.num > 0 && Count(r, first.pending).num > 0;
      var p1 := if reserve then p.(nextTag := p.nextTag + 1) else p;
      Purged(r, AfterLeft(Place(l, p1).pass, p, first.num, reserve), Leftover(l, waiting), Purged(l, p1, waiting, data))
    case Iter(a, _, _) => Purged(a, AfterTag(p).(direction := Minimize), [], Purge(waiting, p.tag, data))
    case Alt(l, r) =>
      var reserved := Reserved(AfterTag(p), Submatches(m) > 0);
      Purged(r, Place(l, reserved).pass.(pending := false), [], Purged(l, reserved, [], Purge(waiting, p.tag, data)))
  }

  const BEGIN := Pass(false, 0, 1, Minimize, map[])

  const NO_DATA := SubmatchData(map[], map[])

  /** submatch_data of a pattern: what still waits at the end gets the end tag. */
  function DataOf(m: Marked): SubmatchData {
    Purge(Leftover(m, []), Place(m, BEGIN).pass.tag, Purged(m, BEGIN, [], NO_DATA))
  }

  // ----- the offsets of the whole match -----

  /** No node stands for submatch 0. */
  predicate NoWhole(m: Marked) {
    m.id != 0 &&
    match m.node
    case Cat(l, r) => NoWhole(l) && NoWhole(r)
    case Alt(l, r) => NoWhole(l) && NoWhole(r)
    case Iter(a, _, _) => NoWhole(a)
    case _ => true
  }

  /** The root alone is submatch 0. */
  predicate OnlyRoot(m: Marked) { m.id == 0 && NoWhole(m.(id := -1)) }

  /** What data says of where the whole match starts. */
  predicate SameStart(a: SubmatchData, b: SubmatchData) { (0 in a.so <==> 0 in b.so) && (0 in a.so ==> a.so[0] == b.so[0]) }

  lemma {:induction false} PurgeStart(waiting: seq<nat>, tag: nat, data: SubmatchData)
    ensures var after := Purge(waiting, tag, data);
      if StartOf(0) in waiting then 0 in after.so && after.so[0] == tag else SameStart(data, after)
    decreases waiting
  {
    if waiting != [] {
      PurgeStart(waiting[1..], tag, SetOffset(waiting[0], tag, data));
      assert waiting == [waiting[0]] + waiting[1..];
    }
  }

  lemma {:induction false} PurgeEnd(waiting: seq<nat>, tag: nat, data: SubmatchData)
    ensures EndOf(0) in waiting ==> var after := Purge(waiting, tag, data); 0 in after.eo && after.eo[0] == tag
    ensures EndOf(0) !in waiting && 0 in data.eo ==> var after := Purge(waiting, tag, data); 0 in after.eo && after.eo[0] == data.eo[0]
    decreases waiting
  {
    if waiting != [] {
      PurgeEnd(waiting[1..], tag, SetOffset(waiting[0], tag, data));
      assert waiting == [waiting[0]] + waiting[1..];
    }
  }

  lemma CloseKeeps(m: Marked, waiting: seq<nat>)
    ensures StartOf(0) in Close(m, waiting) <==> StartOf(0) in waiting
  {
  }

  /** Without submatch 0 its start is not touched. */
  lemma {:induction false} StartStays(m: Marked, p0: Pass, waiting0: seq<nat>, data: SubmatchData)
    requires NoWhole(m) && StartOf(0) !in waiting0
    ensures StartOf(0) !in Leftover(m, waiting0) && SameStart(data, Purged(m, p0, waiting0, data))
    decreases m
  {
    hide Place, Count, Purge;
    var p := p0.(pending := p0.pending || m.id >= 0);
    var waiting := Open(m, waiting0);
    PurgeStart(waiting, p.tag, data);
    match m.node
    case Lit(_, _) =>
    case Nothing =>
    case Cat(l, r) =>
      var first := Count(l, p.pending);
      var reserve := first.num > 0 && Count(r, first.pending).num > 0;
      var p1 := if reserve then p.(nextTag := p.nextTag + 1) else p;
      StartStays(l, p1, waiting, data);
      StartStays(r, AfterLeft(Place(l, p1).pass, p, first.num, reserve), Leftover(l, waiting), Purged(l, p1, waiting, data));
    case Iter(a, _, _) => StartStays(a, AfterTag(p).(direction := Minimize), [], Purge(waiting, p.tag, data));
    case Alt(l, r) =>
      var reserved := Reserved(AfterTag(p), Submatches(m) > 0);
      var data1 := Purge(waiting, p.tag, data);
      StartStays(l, reserved, [], data1);
      StartStays(r, Place(l, reserved).pass.(pending := false), [], Purged(l, reserved, [], data1));
  }

  /** The start of the whole match gets the first tag that is placed. */
  ghost predicate FirstTag(m: Marked, p: Pass, waiting: seq<nat>, data: SubmatchData) {
    var after := Purged(m, p, waiting, data);
    if Count(m, p.pending).num > 0 then StartOf(0) !in Leftover(m, waiting) && 0 in after.so && after.so[0] == p.tag
    else StartOf(0) in Leftover(m, waiting) && after == data
  }

  lemma {:induction false} StartGetsFirst(m: Marked, p: Pass, waiting0: seq<nat>, data: SubmatchData)
    requires (m.id == 0 || StartOf(0) in waiting0) && NoWhole(m.(id := -1))
    requires p.tag < p.nextTag && p.pending == (waiting0 != [])
    ensures FirstTag(m, p, waiting0, data)
    decreases m, 1
  {
    hide Place, Purge, Purged, Count, LeftoverOf, NoWhole;
    var q := p.(pending := true);
    var waiting := Open(m, waiting0);
    CloseKeeps(m, LeftoverOf(m, waiting));
    Parts(m);
    match m.node
    case Lit(_, _) => LitGetsFirst(m, p, waiting0, data);
    case Nothing => NothingWaits(m, p, waiting0, data);
    case Cat(l, r) =>
      CatGetsFirst(m, l, r, q, waiting, data);
      CatParts(m, l, r, p, waiting0, data);
    case Iter(a, _, _) => IterGetsFirst(m, p, waiting0, data);
    case Alt(l, r) => AltGetsFirst(m, l, r, p, waiting0, data);
  }

  lemma Parts(m: Marked)
    requires NoWhole(m.(id := -1))
    ensures match m.node
      case Cat(l, r) => NoWhole(l) && NoWhole(r)
      case Alt(l, r) => NoWhole(l) && NoWhole(r)
      case Iter(a, _, _) => NoWhole(a)
      case _ => true
  {
  }

  lemma LitGetsFirst(m: Marked, p: Pass, waiting0: seq<nat>, data: SubmatchData)
    requires m.node.Lit? && (m.id == 0 || StartOf(0) in waiting0) && p.pending == (waiting0 != [])
    ensures FirstTag(m, p, waiting0, data)
  {
    hide Purge;
    var waiting := Open(m, waiting0);
    assert StartOf(0) in waiting;
    PurgeStart(waiting, p.tag, data);
    CloseKeeps(m, []);
    assert p.pending || m.id >= 0;
    assert Purged(m, p, waiting0, data) == Purge(waiting, p.tag, data);
    assert Count(m, p.pending).num == 1;
    assert Leftover(m, waiting0) == Close(m, []);
    assert StartOf(0) !in Close(m, []);
  }

  lemma NothingWaits(m: Marked, p: Pass, waiting0: seq<nat>, data: SubmatchData)
    requires m.node.Nothing? && (m.id == 0 || StartOf(0) in waiting0)
    ensures FirstTag(m, p, waiting0, data)
  {
    CloseKeeps(m, Open(m, waiting0));
  }

  lemma IterGetsFirst(m: Marked, p: Pass, waiting0: seq<nat>, data: SubmatchData)
    requires m.node.Iter? && NoWhole(m.node.arg) && (m.id == 0 || StartOf(0) in waiting0) && p.pending == (waiting0 != [])
    ensures FirstTag(m, p, waiting0, data)
  {
    hide Purge, Place;
    var q, waiting := p.(pending := true), Open(m, waiting0);
    assert p.(pending := p.pending || m.id >= 0) == q && Count(m, p.pending).num > 0;
    assert StartOf(0) in waiting;
    PurgeStart(waiting, p.tag, data);
    var a, p1, data1 := m.node.arg, AfterTag(q).(direction := Minimize), Purge(waiting, p.tag, data);
    StartStays(a, p1, [], data1);
    CloseKeeps(m, LeftoverOf(m, waiting));
    assert Purged(m, p, waiting0, data) == PurgedOf(m, q, waiting, data) == Purged(a, p1, [], data1);
    assert Leftover(m, waiting0) == Close(m, Leftover(a, []));
  }

  lemma AltGetsFirst(m: Marked, l: Marked, r: Marked, p: Pass, waiting0: seq<nat>, data: SubmatchData)
    requires m.node == Alt(l, r) && NoWhole(l) && NoWhole(r)
    requires (m.id == 0 || StartOf(0) in waiting0) && p.pending == (waiting0 != [])
    ensures FirstTag(m, p, waiting0, data)
  {
    hide Purge, Place, Submatches;
    var q, waiting := p.(pending := true), Open(m, waiting0);
    var reserved := Reserved(AfterTag(q), Submatches(m) > 0);
    var data1 := Purge(waiting, p.tag, data);
    assert p.(pending := p.pending || m.id >= 0) == q && Count(m, p.pending).num > 0;
    assert StartOf(0) in waiting;
    PurgeStart(waiting, p.tag, data);
    StartStays(l, reserved, [], data1);
    var p2 := Place(l, reserved).pass.(pending := false);
    StartStays(r, p2, [], Purged(l, reserved, [], data1));
    CloseKeeps(m, LeftoverOf(m, waiting));
    assert Purged(m, p, waiting0, data) == PurgedOf(m, q, waiting, data) == Purged(r, p2, [], Purged(l, reserved, [], data1));
    assert Leftover(m, waiting0) == Close(m, Leftover(l, []) + Leftover(r, []));
  }

  lemma CatParts(m: Marked, l: Marked, r: Marked, p: Pass, waiting0: seq<nat>, data: SubmatchData)
    requires m.node == Cat(l, r) && (p.pending || m.id >= 0)
    ensures var q := p.(pending := true);
      var first := Count(l, true);
      var reserve := first.num > 0 && Count(r, first.pending).num > 0;
      var p1 := if reserve then q.(nextTag := q.nextTag + 1) else q;
      var p2 := AfterLeft(Place(l, p1).pass, q, first.num, reserve);
      && Count(m, p.pending).num == first.num + Count(r, first.pending).num
      && Purged(m, p, waiting0, data) == Purged(r, p2, Leftover(l, Open(m, waiting0)), Purged(l, p1, Open(m, waiting0), data))
  {
    hide Place;
  }

  lemma {:induction false} CatGetsFirst(m: Marked, l: Marked, r: Marked, p: Pass, waiting: seq<nat>, data: SubmatchData)
    requires m.node == Cat(l, r) && StartOf(0) in waiting && NoWhole(l) && NoWhole(r) && p.pending && p.tag < p.nextTag
    ensures var first := Count(l, true);
      var reserve := first.num > 0 && Count(r, first.pending).num > 0;
      var p1 := if reserve then p.(nextTag := p.nextTag + 1) else p;
      var p2 := AfterLeft(Place(l, p1).pass, p, first.num, reserve);
      var after := Purged(r, p2, Leftover(l, waiting), Purged(l, p1, waiting, data));
      if first.num + Count(r, first.pending).num > 0
      then StartOf(0) !in LeftoverOf(m, waiting) && 0 in after.so && after.so[0] == p.tag
      else StartOf(0) in LeftoverOf(m, waiting) && after == data
    decreases m, 0
  {
    hide Place, Purge, Count, Purged, Leftover;
    var first := Count(l, true);
    var reserve := first.num > 0 && Count(r, first.pending).num > 0;
    var p1 := if reserve then p.(nextTag := p.nextTag + 1) else p;
    var p2 := AfterLeft(Place(l, p1).pass, p, first.num, reserve);
    WholeIn(l);
    WholeIn(r);
    StartGetsFirst(l, p1, waiting, data);
    Numbers(l, p1);
    WaitingIsPending(l, waiting);
    if first.num > 0 {
      StartStays(r, p2, Leftover(l, waiting), Purged(l, p1, waiting, data));
    } else {
      StartGetsFirst(r, p2, Leftover(l, waiting), Purged(l, p1, waiting, data));
    }
  }

  lemma WholeIn(m: Marked)
    requires NoWhole(m)
    ensures NoWhole(m.(id := -1))
  {
  }

  /** The whole match starts at tag 0, or at the end tag when there is no tag, and ends at the end tag. */
  lemma WholeOffsets(m: Marked)
    requires OnlyRoot(m)
    ensures var data, n := DataOf(m), PlaceTags(m).numTags; 0 in data.so && data.so[0] == 0 && 0 in data.eo && data.eo[0] == n
  {
    hide Place, Purge, Count, Purged, LeftoverOf, NoWhole;
    var waiting := Leftover(m, []);
    StartGetsFirst(m, BEGIN, [], NO_DATA);
    Numbers(m, BEGIN);
    var tag := Place(m, BEGIN).pass.tag;
    assert EndOf(0) in waiting;
    PurgeStart(waiting, tag, Purged(m, BEGIN, [], NO_DATA));
    PurgeEnd(waiting, tag, Purged(m, BEGIN, [], NO_DATA));
  }
}
