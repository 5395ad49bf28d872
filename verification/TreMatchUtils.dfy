/** What the two matchers share (tre-match-utils.h). */
module TreMatchUtils {
  import opened TreAst
  import opened TreParallel
  import opened TreArrivals

  /** tre_tag_order. */
  method TagOrder(dirs: Directions, t1: seq<int>, t2: seq<int>) returns (wins: bool)
    requires |t1| == |t2|
    ensures wins == Wins(dirs, t1, t2, 0)
    ensures wins <==> Beats(dirs, t1, t2)
  {
    hide Beats;
    WinsExactly(dirs, t1, t2);
    for i := 0 to |t1|
      invariant Wins(dirs, t1, t2, 0) == Wins(dirs, t1, t2, i)
    {
      if DirectionOf(dirs, i) == Minimize {
        if t1[i] < t2[i] { return true; }
        if t1[i] > t2[i] { return false; }
      } else {
        if t1[i] > t2[i] { return true; }
        if t1[i] < t2[i] { return false; }
      }
    }
    return false;
  }
}
