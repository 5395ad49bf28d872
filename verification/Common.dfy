/** Small things that several modules use. */
module Common {
  datatype Option<T> = None | Some(value: T)

  /** The first n numbers. */
  function Below(n: nat): set<nat> { if n == 0 then {} else Below(n - 1) + {n - 1} }

  lemma {:induction false} BelowIff(n: nat)
    ensures |Below(n)| == n && forall q: nat :: q in Below(n) <==> q < n
  {
    if n > 0 {
      BelowIff(n - 1);
    }
  }

  lemma {:induction false} SubsetSize<T>(a: set<T>, b: set<T>)
    requires a <= b
    ensures |a| <= |b|
    decreases a
  {
    if a != {} {
      var x :| x in a;
      SubsetSize(a - {x}, b - {x});
    }
  }
}
