/** uthash as the loop check uses it: HASH_FIND, HASH_ADD, HASH_DELETE and the bucket expansion
    (uthash.h), on linked items.  Keys are compared as byte strings; the hash function is arbitrary.

    `Valid` is what HASH_FSCK checks, and more: each item sits in the bucket of its hash value. */
module HashTable {

  type Key = seq<nat>

  const INITIAL_LOG2: nat := 5
  const CAPACITY_THRESH: nat := 10

  function Pow2(n: nat): (r: nat)
    ensures r > 0
  {
    if n == 0 then 1 else 2 * Pow2(n - 1)
  }

  /** Bitwise and. */
  function And(x: nat, y: nat): nat
    decreases x
  {
    if x == 0 || y == 0 then 0 else (x % 2) * (y % 2) + 2 * And(x / 2, y / 2)
  }

  lemma AndOdd(x: nat, half: nat)
    ensures And(x, 2 * half + 1) == x % 2 + 2 * And(x / 2, half)
  {
    assert (2 * half + 1) % 2 == 1 && (2 * half + 1) / 2 == half;
  }

  /** hashv & (num_buckets - 1) is the remainder, the number of buckets being a power of two. */
  lemma {:induction false} MaskIsRemainder(x: nat, n: nat)
    ensures And(x, Pow2(n) - 1) == x % Pow2(n)
    decreases n
  {
    if n > 0 {
      var p := Pow2(n - 1);
      AndOdd(x, p - 1);
      MaskIsRemainder(x / 2, n - 1);
      Halves(x, p);
    }
  }

  lemma Halves(x: nat, p: nat)
    requires p > 0
    ensures x % (2 * p) == x % 2 + 2 * ((x / 2) % p)
  {
    var q, r := (x / 2) / p, (x / 2) % p;
    assert x / 2 == q * p + r;
    assert x == 2 * (q * p + r) + x % 2;
    assert 2 * (q * p) == q * (2 * p);
    assert x == q * (2 * p) + (2 * r + x % 2);
    RemainderIs(x, 2 * p, q, 2 * r + x % 2);
  }

  lemma RemainderIs(x: nat, m: nat, q: nat, r: nat)
    requires m > 0 && r < m && x == q * m + r
    ensures x % m == r
  {
    assert x / m == q by {
      if x / m < q {
        Monotone(x / m + 1, q, m);
      } else if x / m > q {
        Monotone(q + 1, x / m, m);
      }
    }
  }

  lemma Monotone(a: int, b: int, m: nat)
    requires a <= b
    ensures a * m <= b * m
  {
  }

  /** UT_hash_handle with the item it sits in. */
  class Item {
    const key: Key
    var hashv: nat
    var prev: Item?                        // insertion order
    var next: Item?
    var hhPrev: Item?                      // bucket order
    var hhNext: Item?

    constructor (key: Key)
      ensures this.key == key
    {
      this.key := key;
      hashv, prev, next, hhPrev, hhNext := 0, null, null, null, null;
    }
  }

  datatype Bucket = Bucket(hhHead: Item?, count: nat, expandMult: nat)

  // ----- linked lists and the sequences they stand for -----

  predicate Distinct(xs: seq<Item>) { forall i, j | 0 <= i < j < |xs| :: xs[i] != xs[j] }

  function First(xs: seq<Item>): Item? { if xs == [] then null else xs[0] }

  function After(xs: seq<Item>, i: nat): Item? { if i + 1 < |xs| then xs[i + 1] else null }

  function Before(xs: seq<Item>, i: nat): Item? { if 0 < i <= |xs| then xs[i - 1] else null }

  /** The bucket list. */
  ghost predicate Chained(xs: seq<Item>)
    reads xs`hhNext, xs`hhPrev
  {
    forall i | 0 <= i < |xs| :: xs[i].hhNext == After(xs, i) && xs[i].hhPrev == Before(xs, i)
  }

  /** Its forward links only. */
  ghost predicate ChainedForward(xs: seq<Item>)
    reads xs`hhNext
  {
    forall i | 0 <= i < |xs| :: xs[i].hhNext == After(xs, i)
  }

  /** The insertion-order list. */
  ghost predicate Ordered(xs: seq<Item>)
    reads xs`next, xs`prev
  {
    forall i | 0 <= i < |xs| :: xs[i].next == After(xs, i) && xs[i].prev == Before(xs, i)
  }

  function Without(xs: seq<Item>, k: nat): (r: seq<Item>)
    requires k < |xs|
    ensures |r| == |xs| - 1
    ensures forall i | 0 <= i < |r| :: r[i] == if i < k then xs[i] else xs[i + 1]
  {
    xs[..k] + xs[k + 1..]
  }

  // ----- the buckets -----

  ghost predicate InBucket(xs: seq<Item>, log2: nat, b: nat, members: set<Item>)
    reads xs`hashv
  {
    forall x | x in xs :: x in members && x.hashv % Pow2(log2) == b
  }

  ghost predicate BucketOk(buckets: array<Bucket>, chains: seq<seq<Item>>, log2: nat, members: set<Item>, b: nat)
    requires b < |chains| == buckets.Length
    reads buckets, chains[b]`hashv, chains[b]`hhNext, chains[b]`hhPrev
  {
    && InBucket(chains[b], log2, b, members)
    && Distinct(chains[b]) && Chained(chains[b])
    && buckets[b].hhHead == First(chains[b]) && buckets[b].count == |chains[b]|
  }

  ghost predicate Contained(chains: seq<seq<Item>>, members: set<Item>) {
    forall b: nat, x | b < |chains| && x in chains[b] :: x in members
  }

  function Total(chains: seq<seq<Item>>): nat {
    if chains == [] then 0 else Total(chains[..|chains| - 1]) + |chains[|chains| - 1]|
  }

  lemma {:induction false} TotalUpdate(chains: seq<seq<Item>>, b: nat, c: seq<Item>)
    requires b < |chains|
    ensures Total(chains[b := c]) == Total(chains) - |chains[b]| + |c|
    decreases |chains|
  {
    var n := |chains| - 1;
    if b < n {
      TotalUpdate(chains[..n], b, c);
      assert chains[b := c][..n] == chains[..n][b := c];
    } else {
      assert chains[b := c][..n] == chains[..n];
    }
  }

  /** The buckets hold exactly the members, each in the bucket of its hash value. */
  ghost predicate BucketsOk(buckets: array<Bucket>, chains: seq<seq<Item>>, log2: nat, members: set<Item>)
    reads buckets, members`hashv, members`hhNext, members`hhPrev
  {
    && buckets.Length == |chains| == Pow2(log2) && Contained(chains, members)
    && (forall b: nat | b < |chains| :: BucketOk(buckets, chains, log2, members, b))
    && (forall x | x in members :: x in chains[x.hashv % Pow2(log2)])
    && Total(chains) == |members|
  }

  /** Link an item in front of a bucket list. */
  method LinkFront(ghost xs: seq<Item>, head: Item?, add: Item)
    requires Chained(xs) && Distinct(xs) && head == First(xs) && add !in xs
    modifies add`hhNext, add`hhPrev, xs`hhPrev
    ensures Chained([add] + xs)
  {
    add.hhNext := head;
    add.hhPrev := null;
    if head != null {
      head.hhPrev := add;
    }
    ghost var ys := [add] + xs;
    forall i | 0 <= i < |ys| ensures ys[i].hhNext == After(ys, i) && ys[i].hhPrev == Before(ys, i) {
      if i > 0 {
        assert ys[i] == xs[i - 1] && xs[i - 1].hhNext == After(xs, i - 1);
      }
    }
  }

  /** Items of another bucket are not in this one. */
  lemma OtherBucket(buckets: array<Bucket>, chains: seq<seq<Item>>, log2: nat, members: set<Item>, b: nat, c: nat)
    requires BucketsOk(buckets, chains, log2, members) && b < |chains| && c < |chains| && b != c
    ensures forall x | x in chains[c] :: x !in chains[b] && x in members
  {
    assert BucketOk(buckets, chains, log2, members, b) && BucketOk(buckets, chains, log2, members, c);
  }

  /** The linking half of HASH_ADD_TO_BKT, also done by HASH_EXPAND_BUCKETS: put `add` in front of a bucket. */
  method PushFront(buckets: array<Bucket>, b: nat, add: Item, ghost chains: seq<seq<Item>>, ghost log2: nat,
                   ghost members: set<Item>)
      returns (ghost chains1: seq<seq<Item>>)
    requires BucketsOk(buckets, chains, log2, members) && add !in members && b == add.hashv % Pow2(log2)
    modifies buckets, add`hhNext, add`hhPrev, chains[b]`hhPrev
    ensures BucketsOk(buckets, chains1, log2, members + {add})
    ensures chains1 == chains[b := [add] + chains[b]]
    ensures buckets[b].expandMult == old(buckets[b].expandMult)
    ensures forall c | 0 <= c < buckets.Length && c != b :: buckets[c] == old(buckets[c])
  {
    hide Pow2, Chained, Total, Distinct;
    assert BucketOk(buckets, chains, log2, members, b);
    forall c: nat | c < |chains| && c != b ensures forall x | x in chains[c] :: x !in chains[b] && x in members {
      OtherBucket(buckets, chains, log2, members, b, c);
    }
    LinkFront(chains[b], buckets[b].hhHead, add);
    buckets[b] := Bucket(add, buckets[b].count + 1, buckets[b].expandMult);
    chains1 := chains[b := [add] + chains[b]];
    TotalUpdate(chains, b, [add] + chains[b]);
    DistinctFront(add, chains[b]);
    forall c: nat | c < |chains1| ensures BucketOk(buckets, chains1, log2, members + {add}, c) {
      assert old(BucketOk(buckets, chains, log2, members, c));
      if c != b {
        forall x | x in chains[c] ensures x.hhNext == old(x.hhNext) && x.hhPrev == old(x.hhPrev) {
          assert x !in chains[b] && x != add;
        }
        ChainedStays(chains[c]);
      }
    }
  }

  twostate lemma ChainedStays(xs: seq<Item>)
    requires old(Chained(xs)) && forall x | x in xs :: x.hhNext == old(x.hhNext) && x.hhPrev == old(x.hhPrev)
    ensures Chained(xs)
  {
  }

  lemma DistinctFront(x: Item, xs: seq<Item>)
    requires Distinct(xs) && x !in xs
    ensures Distinct([x] + xs)
  {
  }

  /** HASH_DEL_IN_BKT on the links: take the k-th item out of a bucket list. */
  method UnlinkChain(ghost xs: seq<Item>, ghost k: nat, del: Item)
    requires Chained(xs) && Distinct(xs) && k < |xs| && del == xs[k]
    modifies (set x | x in xs && x != del)`hhNext, (set x | x in xs && x != del)`hhPrev
    ensures Chained(Without(xs, k))
  {
    if del.hhPrev != null {
      del.hhPrev.hhNext := del.hhNext;
    }
    if del.hhNext != null {
      del.hhNext.hhPrev := del.hhPrev;
    }
    ghost var ys := Without(xs, k);
    forall i | 0 <= i < |ys| ensures ys[i].hhNext == After(ys, i) && ys[i].hhPrev == Before(ys, i) {
      ghost var j := if i < k then i else i + 1;
      assert ys[i] == xs[j] && old(xs[j].hhNext) == After(xs, j) && old(xs[j].hhPrev) == Before(xs, j);
    }
  }

  lemma WithoutFacts(xs: seq<Item>, k: nat)
    requires Distinct(xs) && k < |xs|
    ensures Distinct(Without(xs, k))
    ensures forall x :: x in Without(xs, k) <==> x in xs && x != xs[k]
  {
    var ys := Without(xs, k);
    forall x | x in xs && x != xs[k] ensures x in ys {
      var i :| 0 <= i < |xs| && xs[i] == x;
      assert ys[if i < k then i else i - 1] == x;
    }
    forall x | x in ys ensures x in xs && x != xs[k] {
      var i :| 0 <= i < |ys| && ys[i] == x;
    }
  }

  /** HASH_DEL_IN_BKT. */
  method DelInBkt(buckets: array<Bucket>, b: nat, del: Item, ghost chains: seq<seq<Item>>, ghost log2: nat,
                  ghost members: set<Item>)
      returns (ghost chains1: seq<seq<Item>>)
    requires BucketsOk(buckets, chains, log2, members) && del in members && b == del.hashv % Pow2(log2)
    modifies buckets, (set x | x in chains[b] && x != del)`hhNext, (set x | x in chains[b] && x != del)`hhPrev
    ensures BucketsOk(buckets, chains1, log2, members - {del})
  {
    hide Pow2, Chained, Total, Distinct;
    assert BucketOk(buckets, chains, log2, members, b);
    forall c: nat | c < |chains| && c != b ensures forall x | x in chains[c] :: x !in chains[b] && x in members {
      OtherBucket(buckets, chains, log2, members, b, c);
    }
    ghost var k: nat :| k < |chains[b]| && chains[b][k] == del;
    FirstOfChain(chains[b], k);
    var head := buckets[b].hhHead;
    if head == del {
      head := del.hhNext;
    }
    buckets[b] := Bucket(head, buckets[b].count - 1, buckets[b].expandMult);
    UnlinkChain(chains[b], k, del);
    WithoutFacts(chains[b], k);
    chains1 := chains[b := Without(chains[b], k)];
    TotalUpdate(chains, b, Without(chains[b], k));
    forall c: nat | c < |chains1| ensures BucketOk(buckets, chains1, log2, members - {del}, c) {
      assert old(BucketOk(buckets, chains, log2, members, c));
      if c != b {
        forall x | x in chains[c] ensures x.hhNext == old(x.hhNext) && x.hhPrev == old(x.hhPrev) {
          assert x !in chains[b];
        }
        ChainedStays(chains[c]);
      }
    }
  }

  /** The first item of a list without its k-th item. */
  lemma FirstOfChain(xs: seq<Item>, k: nat)
    requires Chained(xs) && Distinct(xs) && k < |xs|
    ensures First(Without(xs, k)) == if First(xs) == xs[k] then xs[k].hhNext else First(xs)
  {
  }

  // ----- the insertion-order list -----

  /** Append to the list. */
  method Append(ghost xs: seq<Item>, tail: Item, add: Item)
    requires Ordered(xs) && Distinct(xs) && xs != [] && tail == xs[|xs| - 1] && add !in xs
    modifies tail`next, add`next, add`prev
    ensures Ordered(xs + [add])
  {
    add.next := null;
    tail.next := add;
    add.prev := tail;
    ghost var ys := xs + [add];
    forall i | 0 <= i < |ys| ensures ys[i].next == After(ys, i) && ys[i].prev == Before(ys, i) {
      assert i < |xs| ==> old(xs[i].next) == After(xs, i) && old(xs[i].prev) == Before(xs, i);
    }
  }

  /** The patch-up of HASH_DELETE: take the k-th item out of the list. */
  method UnlinkOrder(ghost xs: seq<Item>, ghost k: nat, del: Item)
    requires Ordered(xs) && Distinct(xs) && k < |xs| && del == xs[k]
    modifies (set x | x in xs && x != del)`next, (set x | x in xs && x != del)`prev
    ensures Ordered(Without(xs, k))
  {
    if del.prev != null {
      del.prev.next := del.next;
    }
    if del.next != null {
      del.next.prev := del.prev;
    }
    ghost var ys := Without(xs, k);
    forall i | 0 <= i < |ys| ensures ys[i].next == After(ys, i) && ys[i].prev == Before(ys, i) {
      ghost var j := if i < k then i else i + 1;
      assert ys[i] == xs[j] && old(xs[j].next) == After(xs, j) && old(xs[j].prev) == Before(xs, j);
    }
  }

  // ----- bucket expansion -----

  ghost predicate MovedAt(chains: seq<seq<Item>>, log2: nat, i: nat, j: nat, x: Item)
    reads x`hashv
  {
    var b := x.hashv % Pow2(log2);
    b < i || (b == i && i < |chains| && j <= |chains[i]| && x in chains[i][..j])
  }

  /** The items of the old buckets before i, and the first j of bucket i, have been moved. */
  ghost predicate Moved(chains: seq<seq<Item>>, log2: nat, members: set<Item>, done: set<Item>, i: nat, j: nat)
    reads members`hashv
  {
    done <= members && forall x | x in members :: x in done <==> MovedAt(chains, log2, i, j, x)
  }

  /** What an old bucket still is while items move out of the ones before it. */
  ghost predicate OldBucket(buckets: array<Bucket>, chains: seq<seq<Item>>, log2: nat, members: set<Item>, c: nat)
    requires c < |chains| == buckets.Length
    reads buckets, chains[c]`hashv
  {
    InBucket(chains[c], log2, c, members) && Distinct(chains[c]) && buckets[c].hhHead == First(chains[c])
  }

  /** One item moves to its new bucket. */
  /** expand_mult of a bucket: how many times the ideal length it holds, once it is longer. */
  predicate ExpandOk(b: Bucket, ideal: nat)
    requires ideal > 0
  {
    b.expandMult == if b.count > ideal then b.count / ideal else 0
  }

  ghost predicate AllExpandOk(buckets: array<Bucket>, ideal: nat)
    requires ideal > 0
    reads buckets
  {
    forall b | 0 <= b < buckets.Length :: ExpandOk(buckets[b], ideal)
  }

  function Over(xs: seq<Item>, ideal: nat): nat { if |xs| > ideal then |xs| - ideal else 0 }

  /** Items beyond the ideal length of their chain. */
  function Excess(chains: seq<seq<Item>>, ideal: nat): nat {
    if chains == [] then 0 else Excess(chains[..|chains| - 1], ideal) + Over(chains[|chains| - 1], ideal)
  }

  lemma {:induction false} ExcessUpdate(chains: seq<seq<Item>>, b: nat, xs: seq<Item>, ideal: nat)
    requires b < |chains|
    ensures Excess(chains[b := xs], ideal) + Over(chains[b], ideal) == Excess(chains, ideal) + Over(xs, ideal)
    decreases |chains|
  {
    var last := |chains| - 1;
    if b < last {
      ExcessUpdate(chains[..last], b, xs, ideal);
      assert chains[b := xs][..last] == chains[..last][b := xs];
    } else {
      assert chains[b := xs][..last] == chains[..last];
    }
  }

  lemma {:induction false} NoExcess(chains: seq<seq<Item>>, ideal: nat)
    requires forall b | 0 <= b < |chains| :: chains[b] == []
    ensures Excess(chains, ideal) == 0
    decreases |chains|
  {
    if chains != [] {
      NoExcess(chains[..|chains| - 1], ideal);
    }
  }

  method MoveOne(newBuckets: array<Bucket>, thh: Item, ideal: nat, ghost newChains: seq<seq<Item>>, ghost log2: nat,
                 ghost done: set<Item>)
      returns (over: bool, ghost chains1: seq<seq<Item>>)
    requires BucketsOk(newBuckets, newChains, log2, done) && thh !in done && ideal > 0 && AllExpandOk(newBuckets, ideal)
    modifies newBuckets, thh`hhNext, thh`hhPrev, done`hhPrev
    ensures BucketsOk(newBuckets, chains1, log2, done + {thh}) && AllExpandOk(newBuckets, ideal)
    ensures Excess(chains1, ideal) == Excess(newChains, ideal) + if over then 1 else 0
  {
    hide BucketsOk, Excess, Pow2, Over;
    var b := BucketOf(thh, newBuckets, newChains, log2, done);
    chains1 := PushFront(newBuckets, b, thh, newChains, log2, done);
    CountOf(newBuckets, chains1, log2, done + {thh}, b);
    ExcessUpdate(newChains, b, [thh] + newChains[b], ideal);
    OverOne(newChains[b], thh, ideal);
    over := newBuckets[b].count > ideal;
    if over {
      SetExpandMult(newBuckets, b, newBuckets[b].count / ideal, chains1, log2, done + {thh});
    }
  }

  lemma OverOne(xs: seq<Item>, x: Item, ideal: nat)
    ensures Over([x] + xs, ideal) == Over(xs, ideal) + if |xs| + 1 > ideal then 1 else 0
  {
  }

  /** The bucket an item goes to. */
  method BucketOf(thh: Item, buckets: array<Bucket>, ghost chains: seq<seq<Item>>, ghost log2: nat, ghost members: set<Item>)
      returns (b: nat)
    requires BucketsOk(buckets, chains, log2, members)
    ensures b == thh.hashv % Pow2(log2) && b < |chains| == buckets.Length
    ensures buckets[b].count == |chains[b]| && forall x | x in chains[b] :: x in members
  {
    b := thh.hashv % buckets.Length;
    CountOf(buckets, chains, log2, members, b);
  }

  lemma CountOf(buckets: array<Bucket>, chains: seq<seq<Item>>, log2: nat, members: set<Item>, b: nat)
    requires BucketsOk(buckets, chains, log2, members) && b < buckets.Length
    ensures buckets.Length == |chains| == Pow2(log2) && buckets[b].count == |chains[b]|
    ensures forall x | x in chains[b] :: x in members
  {
    hide Chained, Total, Distinct;
    assert BucketOk(buckets, chains, log2, members, b);
  }

  method SetExpandMult(buckets: array<Bucket>, b: nat, mult: nat, ghost chains: seq<seq<Item>>, ghost log2: nat,
                       ghost members: set<Item>)
    requires BucketsOk(buckets, chains, log2, members) && b < buckets.Length
    modifies buckets
    ensures BucketsOk(buckets, chains, log2, members)
    ensures buckets[..] == old(buckets[..])[b := old(buckets[b]).(expandMult := mult)]
  {
    hide Chained, Total, Distinct;
    buckets[b] := buckets[b].(expandMult := mult);
    forall c: nat | c < |chains| ensures BucketOk(buckets, chains, log2, members, c) {
      assert old(BucketOk(buckets, chains, log2, members, c));
    }
  }

  /** HASH_TO_BKT. */
  function ToBkt(hashv: nat, numBkts: nat): nat
    requires numBkts > 0
  {
    And(hashv, numBkts - 1)
  }

  lemma DoneMore(chains: seq<seq<Item>>, log2: nat, members: set<Item>, done: set<Item>, i: nat, j: nat)
    requires Moved(chains, log2, members, done, i, j) && i < |chains| && j < |chains[i]|
    requires InBucket(chains[i], log2, i, members) && Distinct(chains[i])
    ensures chains[i][j] !in done && Moved(chains, log2, members, done + {chains[i][j]}, i, j + 1)
  {
    var x := chains[i][j];
    assert x !in chains[i][..j];
    assert chains[i][..j + 1] == chains[i][..j] + [x];
  }

  lemma BucketMoved(chains: seq<seq<Item>>, log2: nat, members: set<Item>, done: set<Item>, i: nat)
    requires i < |chains| == Pow2(log2) && Moved(chains, log2, members, done, i, |chains[i]|)
    requires forall x | x in members :: x in chains[x.hashv % Pow2(log2)]
    ensures Moved(chains, log2, members, done, i + 1, 0)
  {
    assert chains[i][..|chains[i]|] == chains[i];
  }

  /** The inner loop of HASH_EXPAND_BUCKETS: all items of one old bucket move. */
  method MoveBucket(newBuckets: array<Bucket>, head: Item?, ideal: nat, ghost chains: seq<seq<Item>>, ghost i: nat, ghost log2: nat,
                    ghost members: set<Item>, ghost newChains: seq<seq<Item>>, ghost done0: set<Item>)
      returns (over: nat, ghost chains1: seq<seq<Item>>, ghost done: set<Item>)
    requires i < |chains| && head == First(chains[i]) && ChainedForward(chains[i]) && ideal > 0
    requires InBucket(chains[i], log2, i, members) && Distinct(chains[i])
    requires BucketsOk(newBuckets, newChains, log2 + 1, done0) && Moved(chains, log2, members, done0, i, 0)
    requires AllExpandOk(newBuckets, ideal)
    modifies newBuckets, chains[i]`hhNext, chains[i]`hhPrev, done0`hhPrev
    ensures BucketsOk(newBuckets, chains1, log2 + 1, done) && Moved(chains, log2, members, done, i, |chains[i]|)
    ensures AllExpandOk(newBuckets, ideal) && Excess(chains1, ideal) == Excess(newChains, ideal) + over
  {
    hide BucketsOk, Moved, InBucket, Excess;
    over, chains1, done := 0, newChains, done0;
    var thh := head;
    ghost var j := 0;
    while thh != null
      invariant 0 <= j <= |chains[i]| && thh == (if j < |chains[i]| then chains[i][j] else null)
      invariant forall h | j <= h < |chains[i]| :: chains[i][h].hhNext == After(chains[i], h)
      invariant BucketsOk(newBuckets, chains1, log2 + 1, done) && Moved(chains, log2, members, done, i, j)
      invariant AllExpandOk(newBuckets, ideal) && Excess(chains1, ideal) == Excess(newChains, ideal) + over
      invariant forall x | x in done :: x in done0 || x in chains[i]
      decreases |chains[i]| - j
    {
      DoneMore(chains, log2, members, done, i, j);
      var nxt := thh.hhNext;
      assert thh == chains[i][j] && nxt == After(chains[i], j);
      var one;
      one, chains1 := MoveOne(newBuckets, thh, ideal, chains1, log2 + 1, done);
      done := done + {thh};
      over := over + if one then 1 else 0;
      thh, j := nxt, j + 1;
    }
  }

  lemma NothingMoved(chains: seq<seq<Item>>, log2: nat, members: set<Item>)
    ensures Moved(chains, log2, members, {}, 0, 0)
  {
  }

  lemma AllMoved(chains: seq<seq<Item>>, log2: nat, members: set<Item>, done: set<Item>)
    requires |chains| == Pow2(log2) && Moved(chains, log2, members, done, |chains|, 0)
    ensures done == members
  {
    assert forall x | x in members :: MovedAt(chains, log2, |chains|, 0, x);
  }

  lemma {:induction false} TotalEmpty(chains: seq<seq<Item>>)
    requires forall b | 0 <= b < |chains| :: chains[b] == []
    ensures Total(chains) == 0
    decreases |chains|
  {
    if chains != [] {
      TotalEmpty(chains[..|chains| - 1]);
    }
  }

  /** Newly allocated buckets hold nothing. */
  lemma EmptyBuckets(buckets: array<Bucket>, chains: seq<seq<Item>>, log2: nat)
    requires buckets.Length == |chains| == Pow2(log2)
    requires forall b | 0 <= b < |chains| :: chains[b] == [] && buckets[b] == Bucket(null, 0, 0)
    ensures BucketsOk(buckets, chains, log2, {})
  {
    TotalEmpty(chains);
  }

  /** The old buckets from i on have still to be emptied. */
  ghost predicate Remaining(buckets: array<Bucket>, chains: seq<seq<Item>>, log2: nat, members: set<Item>, i: nat)
    reads buckets, members`hashv, members`hhNext
  {
    && buckets.Length == |chains| && Contained(chains, members)
    && forall c: nat | i <= c < |chains| :: OldBucket(buckets, chains, log2, members, c) && ChainedForward(chains[c])
  }

  lemma AllRemain(buckets: array<Bucket>, chains: seq<seq<Item>>, log2: nat, members: set<Item>)
    requires BucketsOk(buckets, chains, log2, members)
    ensures Remaining(buckets, chains, log2, members, 0)
    ensures |chains| == Pow2(log2) && forall x | x in members :: x in chains[x.hashv % Pow2(log2)]
  {
    forall c: nat | c < |chains| ensures OldBucket(buckets, chains, log2, members, c) && ChainedForward(chains[c]) {
      assert BucketOk(buckets, chains, log2, members, c);
    }
  }

  /** One turn of the outer loop. */
  method MoveNext(buckets: array<Bucket>, i: nat, newBuckets: array<Bucket>, ideal: nat, ghost chains: seq<seq<Item>>, ghost log2: nat,
                  ghost members: set<Item>, ghost newChains: seq<seq<Item>>, ghost done0: set<Item>)
      returns (over: nat, ghost chains1: seq<seq<Item>>, ghost done: set<Item>)
    requires i < |chains| == buckets.Length && Remaining(buckets, chains, log2, members, i) && ideal > 0 && buckets != newBuckets
    requires |chains| == Pow2(log2) && forall x | x in members :: x in chains[x.hashv % Pow2(log2)]
    requires BucketsOk(newBuckets, newChains, log2 + 1, done0) && Moved(chains, log2, members, done0, i, 0)
    requires AllExpandOk(newBuckets, ideal)
    modifies newBuckets, members`hhNext, members`hhPrev
    ensures BucketsOk(newBuckets, chains1, log2 + 1, done) && Moved(chains, log2, members, done, i + 1, 0)
    ensures AllExpandOk(newBuckets, ideal) && Excess(chains1, ideal) == Excess(newChains, ideal) + over
    ensures Remaining(buckets, chains, log2, members, i + 1)
  {
    hide BucketsOk, Moved, Excess;
    assert OldBucket(buckets, chains, log2, members, i);
    MovedAreMembers(chains, log2, members, done0, i, 0);
    over, chains1, done := MoveBucket(newBuckets, buckets[i].hhHead, ideal, chains, i, log2, members, newChains, done0);
    BucketMoved(chains, log2, members, done, i);
    forall c: nat | i + 1 <= c < |chains| ensures OldBucket(buckets, chains, log2, members, c) && ChainedForward(chains[c]) {
      assert old(OldBucket(buckets, chains, log2, members, c) && ChainedForward(chains[c]));
      forall x | x in chains[c] ensures x.hhNext == old(x.hhNext) {
        assert x !in chains[i];
      }
    }
  }

  lemma MovedAreMembers(chains: seq<seq<Item>>, log2: nat, members: set<Item>, done: set<Item>, i: nat, j: nat)
    requires Moved(chains, log2, members, done, i, j)
    ensures done <= members
  {
  }

  lemma DoubleLength(buckets: array<Bucket>, chains: seq<seq<Item>>, log2: nat, members: set<Item>)
    requires BucketsOk(buckets, chains, log2, members)
    ensures buckets.Length == |chains| && 2 * buckets.Length == Pow2(log2 + 1)
  {
  }

  /** Twice as many buckets, all empty. */
  method NewBuckets(n: nat, ideal: nat, ghost log2: nat) returns (newBuckets: array<Bucket>, ghost newChains: seq<seq<Item>>)
    requires n == Pow2(log2) && ideal > 0
    ensures fresh(newBuckets) && BucketsOk(newBuckets, newChains, log2, {})
    ensures AllExpandOk(newBuckets, ideal) && Excess(newChains, ideal) == 0
  {
    hide BucketsOk, Pow2;
    newBuckets := new Bucket[n](_ => Bucket(null, 0, 0));
    newChains := seq(n, _ => []);
    EmptyBuckets(newBuckets, newChains, log2);
    NoExcess(newChains, ideal);
  }

  /** HASH_EXPAND_BUCKETS on the buckets: twice as many, every item in the bucket of its hash value, with the
      expansion factors and the number of items beyond the ideal chain length. */
  method DoubleBuckets(buckets: array<Bucket>, ideal: nat, ghost chains: seq<seq<Item>>, ghost log2: nat, ghost members: set<Item>)
      returns (newBuckets: array<Bucket>, nonideal: nat, ghost newChains: seq<seq<Item>>)
    requires BucketsOk(buckets, chains, log2, members) && ideal > 0
    modifies members`hhNext, members`hhPrev
    ensures fresh(newBuckets) && BucketsOk(newBuckets, newChains, log2 + 1, members)
    ensures AllExpandOk(newBuckets, ideal) && nonideal == Excess(newChains, ideal)
  {
    hide Moved, Remaining, BucketsOk, Pow2, Excess, AllExpandOk;
    AllRemain(buckets, chains, log2, members);
    newBuckets, newChains := NewBuckets(2 * buckets.Length, ideal, log2 + 1) by { DoubleLength(buckets, chains, log2, members); }
    nonideal := 0;
    ghost var done: set<Item> := {};
    NothingMoved(chains, log2, members);
    for i := 0 to buckets.Length
      invariant BucketsOk(newBuckets, newChains, log2 + 1, done) && Moved(chains, log2, members, done, i, 0)
      invariant Remaining(buckets, chains, log2, members, i)
      invariant AllExpandOk(newBuckets, ideal) && nonideal == Excess(newChains, ideal)
    {
      var over;
      over, newChains, done := MoveNext(buckets, i, newBuckets, ideal, chains, log2, members, newChains, done);
      nonideal := nonideal + over;
    }
    AllMoved(chains, log2, members, done);
  }

  // ----- the table -----

  function Members(items: seq<Item>): set<Item> { set x | x in items }

  predicate KeysDistinct(items: seq<Item>) { forall i, j | 0 <= i < j < |items| :: items[i].key != items[j].key }

  /** The table as a map. */
  function Lookup(items: seq<Item>): map<Key, Item> {
    if items == [] then map[] else Lookup(items[..|items| - 1])[items[|items| - 1].key := items[|items| - 1]]
  }

  lemma {:induction false} LookupIs(items: seq<Item>, key: Key)
    requires KeysDistinct(items)
    ensures key in Lookup(items) <==> exists x :: x in items && x.key == key
    ensures forall x | x in items :: x.key in Lookup(items) && Lookup(items)[x.key] == x
    decreases |items|
  {
    if items != [] {
      var front := items[..|items| - 1];
      LookupIs(front, key);
      assert items == front + [items[|items| - 1]];
    }
  }

  lemma LookupSnoc(items: seq<Item>, x: Item)
    ensures Lookup(items + [x]) == Lookup(items)[x.key := x]
  {
    assert (items + [x])[..|items + [x]| - 1] == items;
  }

  lemma MembersSnoc(xs: seq<Item>, x: Item)
    ensures Members(xs + [x]) == Members(xs) + {x}
  {
  }

  /** UT_hash_table and the head pointer of the user's list. */
  class Table {
    const hash: Key -> nat
    var head: Item?
    var tail: Item?
    var buckets: array<Bucket>
    var log2: nat
    var numItems: nat
    var idealChainMaxlen: nat
    var nonidealItems: nat
    var ineffExpands: nat
    var noexpand: bool
    ghost var items: seq<Item>             // in insertion order
    ghost var chains: seq<seq<Item>>       // the buckets

    ghost predicate ListOk()
      reads this`head, this`tail, this`items, items`next, items`prev
    {
      && Distinct(items) && KeysDistinct(items) && Ordered(items) && head == First(items)
      && (items != [] ==> tail == items[|items| - 1])
    }

    ghost predicate TableOk(members: set<Item>)
      reads this`buckets, this`log2, this`numItems, this`chains, buckets
      reads members`hashv, members`hhNext, members`hhPrev
    {
      && BucketsOk(buckets, chains, log2, members) && numItems == |members|
      && forall x | x in members :: x.hashv == hash(x.key)
    }

    ghost predicate Valid()
      reads this, buckets, items`next, items`prev, items`hashv, items`hhNext, items`hhPrev
    {
      ListOk() && (items != [] ==> TableOk(Members(items)))
    }

    constructor (hash: Key -> nat)
      ensures this.hash == hash && Valid() && items == []
    {
      this.hash := hash;
      head, tail, items, chains := null, null, [], [];
      buckets := new Bucket[0];
      log2, numItems, idealChainMaxlen, nonidealItems, ineffExpands, noexpand := 0, 0, 0, 0, 0, false;
    }

    /** HASH_FIND. */
    method Find(key: Key) returns (out: Item?)
      requires Valid()
      ensures out == if key in Lookup(items) then Lookup(items)[key] else null
    {
      LookupIs(items, key);
      if head == null {
        return null;
      }
      out := FindInBkt(key);
    }

    /** HASH_FIND_IN_BKT, for a table with items. */
    method FindInBkt(key: Key) returns (out: Item?)
      requires items != [] && TableOk(Members(items))
      ensures if out == null then forall x | x in items :: x.key != key else out in items && out.key == key
    {
      MaskIsRemainder(hash(key), log2);
      var bkt := ToBkt(hash(key), buckets.Length);
      ghost var xs := chains[bkt];
      assert BucketOk(buckets, chains, log2, Members(items), bkt);
      out := buckets[bkt].hhHead;
      ghost var k := 0;
      while out != null
        invariant 0 <= k <= |xs| && out == (if k < |xs| then xs[k] else null)
        invariant forall h | 0 <= h < k :: xs[h].key != key
        decreases |xs| - k
      {
        if out.key == key {
          return;
        }
        assert xs[k].hhNext == After(xs, k);
        out, k := out.hhNext, k + 1;
      }
      forall x | x in items ensures x.key != key {
        assert x in Members(items);
      }
    }

    /** HASH_MAKE_TABLE for an empty table. */
    method MakeTable()
      modifies this
      ensures fresh(buckets) && TableOk({}) && items == old(items) && head == old(head) && tail == old(tail)
    {
      hide Total;
      buckets := new Bucket[32](_ => Bucket(null, 0, 0));
      log2, numItems, idealChainMaxlen, nonidealItems, ineffExpands, noexpand := INITIAL_LOG2, 0, 0, 0, 0, false;
      chains := seq(32, _ => []);
      assert Pow2(5) == 2 * Pow2(4) && Pow2(4) == 2 * Pow2(3) && Pow2(3) == 2 * Pow2(2) && Pow2(2) == 2 * Pow2(1) && Pow2(1) == 2;
      EmptyBuckets(buckets, chains, log2);
    }

    /** HASH_EXPAND_BUCKETS. */
    method ExpandBuckets(ghost members: set<Item>)
      requires BucketsOk(buckets, chains, log2, members) && numItems == |members| > 0
      modifies this`buckets, this`log2, this`chains, this`idealChainMaxlen, this`nonidealItems, this`ineffExpands, this`noexpand
      modifies members`hhNext, members`hhPrev
      ensures fresh(buckets) && BucketsOk(buckets, chains, log2, members)
      ensures log2 == old(log2) + 1
    {
      hide BucketsOk;
      BucketCount(buckets, chains, log2, members);
      var ideal := IdealChain(numItems, log2);
      var newBuckets, nonideal;
      ghost var newChains;
      newBuckets, nonideal, newChains := DoubleBuckets(buckets, ideal, chains, log2, members);
      Install(newBuckets, ideal, nonideal, newChains, members);
    }

    /** The end of HASH_EXPAND_BUCKETS: the new buckets, and whether the expansion was of use. */
    method Install(newBuckets: array<Bucket>, ideal: nat, nonideal: nat, ghost newChains: seq<seq<Item>>, ghost members: set<Item>)
      requires BucketsOk(newBuckets, newChains, log2 + 1, members)
      modifies this`buckets, this`log2, this`chains, this`idealChainMaxlen, this`nonidealItems, this`ineffExpands, this`noexpand
      ensures buckets == newBuckets && log2 == old(log2) + 1 && BucketsOk(buckets, chains, log2, members)
    {
      hide Pow2;
      idealChainMaxlen, nonidealItems := ideal, nonideal;
      buckets, chains, log2 := newBuckets, newChains, log2 + 1;
      ineffExpands := if nonidealItems > numItems / 2 then ineffExpands + 1 else 0;
      noexpand := noexpand || ineffExpands > 1;
    }

    /** HASH_ADD_TO_BKT. */
    method AddToBkt(bkt: nat, add: Item, ghost members: set<Item>)
      requires BucketsOk(buckets, chains, log2, members) && add !in members && bkt == add.hashv % Pow2(log2)
      requires numItems == |members| + 1
      modifies this`buckets, this`log2, this`chains, this`idealChainMaxlen, this`nonidealItems, this`ineffExpands, this`noexpand
      modifies buckets, members`hhNext, members`hhPrev, add`hhNext, add`hhPrev
      ensures BucketsOk(buckets, chains, log2, members + {add}) && (buckets == old(buckets) || fresh(buckets))
    {
      ChainsAreMembers(buckets, chains, log2, members, bkt);
      chains := PushFront(buckets, bkt, add, chains, log2, members);
      if buckets[bkt].count >= (buckets[bkt].expandMult + 1) * CAPACITY_THRESH && !noexpand {
        ExpandBuckets(members + {add});
      }
    }

    /** HASH_ADD_KEYPTR on the insertion-order list, when there are items. */
    method LinkLast(add: Item)
      requires ListOk() && items != [] && add !in items && forall x | x in items :: x.key != add.key
      modifies this`tail, this`items, items`next, add`next, add`prev
      ensures items == old(items) + [add] && ListOk()
    {
      hide Distinct, KeysDistinct;
      OneMoreItem(items, add);
      Append(items, tail, add);
      tail := add;
      items := items + [add];
    }

    /** The buckets do not depend on the order list. */
    method LinkLastOnly(add: Item, ghost members: set<Item>)
      requires ListOk() && items != [] && add !in items && forall x | x in items :: x.key != add.key
      requires TableOk(members)
      modifies this`tail, this`items, items`next, add`next, add`prev
      ensures items == old(items) + [add] && ListOk() && TableOk(members)
    {
      hide BucketOk, Pow2, Total, Ordered, Contained, Distinct, KeysDistinct;
      LinkLast(add);
      assert true == BucketsOk(buckets, chains, log2, members);
    }

    /** HASH_ADD_KEYPTR on the insertion-order list, when there is no table. */
    method LinkOnly(add: Item)
      requires head == null && items == []
      modifies this, add`next, add`prev
      ensures items == [add] && ListOk() && fresh(buckets) && TableOk({})
    {
      hide BucketsOk;
      add.next := null;
      head := add;
      add.prev := null;
      tail := add;
      items := [add];
      MakeTable();
    }

    /** HASH_ADD_KEYPTR for an item whose key has just been looked for in vain. */
    method Add(add: Item)
      requires Valid() && add !in items && add.key !in Lookup(items)
      modifies this, buckets, items`next, items`hhNext, items`hhPrev, add
      ensures Valid() && items == old(items) + [add] && Lookup(items) == old(Lookup(items))[add.key := add]
      ensures buckets == old(buckets) || fresh(buckets)
    {
      hide Lookup, BucketsOk, Ordered, Distinct, KeysDistinct;
      ghost var members := Members(items);
      MembersSnoc(items, add);
      LookupSnoc(items, add);
      LookupIs(items, add.key);
      if head == null {
        assert members == {};
        LinkOnly(add);
      } else {
        LinkLastOnly(add, members);
      }
      PlaceInBucket(add, members);
      assert true == ListOk();
      assert Members(items) == members + {add};
    }

    /** HASH_DELETE: the order list, then the bucket; with the last item the table goes. */
    method Delete(del: Item)
      requires Valid() && del in items
      modifies this, buckets, items`next, items`prev, items`hhNext, items`hhPrev
      ensures Valid() && Lookup(items) == old(Lookup(items)) - {del.key}
      ensures exists k :: 0 <= k < |old(items)| && old(items)[k] == del && items == Without(old(items), k)
      ensures buckets == old(buckets)
    {
      hide BucketsOk, Lookup, Ordered, Distinct, KeysDistinct;
      ghost var k: nat :| k < |items| && items[k] == del;
      LookupWithout(items, k);
      if del.prev == null && del.next == null {
        OnlyItem(items, k);
        head, tail, items := null, null, [];
        NothingListed();
      } else {
        MoreItems(items, k);
        DeleteOneOfMany(del, k);
      }
    }

    method DeleteOneOfMany(del: Item, ghost k: nat)
      requires Valid() && k < |items| && items[k] == del && |items| > 1
      modifies this, buckets, items`next, items`prev, items`hhNext, items`hhPrev
      ensures Valid() && items == Without(old(items), k) && buckets == old(buckets)
    {
      hide BucketsOk, Ordered, Distinct, KeysDistinct, Without;
      ghost var members := Members(items);
      MembersWithout(items, k);
      UnlinkItemOnly(del, k, members);
      TakeFromBucket(del, members);
      assert true == ListOk();
    }

    /** The patch-up of the order list in HASH_DELETE. */
    method UnlinkItem(del: Item, ghost k: nat)
      requires ListOk() && k < |items| && items[k] == del && |items| > 1
      modifies this`head, this`tail, this`items, items`next, items`prev
      ensures items == Without(old(items), k) && ListOk()
    {
      hide Distinct, KeysDistinct, Ordered;
      KeepDistinct(items, k);
      EndsWithout(items, k);
      var ends := NewEnds(items, k, head, tail, del);
      UnlinkOrder(items, k, del);
      head, tail, items := ends.0, ends.1, Without(items, k);
    }

    method UnlinkItemOnly(del: Item, ghost k: nat, ghost members: set<Item>)
      requires ListOk() && k < |items| && items[k] == del && |items| > 1 && TableOk(members)
      modifies this`head, this`tail, this`items, items`next, items`prev
      ensures items == Without(old(items), k) && ListOk() && TableOk(members)
    {
      hide BucketOk, Pow2, Total, Ordered, Contained, Distinct, KeysDistinct;
      UnlinkItem(del, k);
      assert true == BucketsOk(buckets, chains, log2, members);
    }

    method TakeFromBucket(del: Item, ghost members: set<Item>)
      requires TableOk(members) && del in members
      modifies this`numItems, this`chains, buckets, members`hhNext, members`hhPrev
      ensures TableOk(members - {del})
    {
      hide BucketsOk;
      BucketCount(buckets, chains, log2, members);
      MaskIsRemainder(del.hashv, log2);
      var bkt := ToBkt(del.hashv, buckets.Length);
      ChainsAreMembers(buckets, chains, log2, members, bkt);
      numItems := numItems - 1;
      chains := DelInBkt(buckets, bkt, del, chains, log2, members);
    }

    method CountItem(add: Item, ghost members: set<Item>)
      requires TableOk(members) && add !in members
      modifies this`numItems, add`hashv
      ensures numItems == |members| + 1 && add.hashv == hash(add.key)
      ensures BucketsOk(buckets, chains, log2, members) && forall x | x in members :: x.hashv == hash(x.key)
    {
      hide Pow2, Total;
      numItems := numItems + 1;
      add.hashv := hash(add.key);
    }

    /** The second half of HASH_ADD_KEYPTR. */
    method PlaceInBucket(add: Item, ghost members: set<Item>)
      requires TableOk(members) && add !in members
      modifies this`buckets, this`log2, this`chains, this`idealChainMaxlen, this`nonidealItems, this`ineffExpands, this`noexpand
      modifies this`numItems, buckets, members`hhNext, members`hhPrev, add`hhNext, add`hhPrev, add`hashv
      ensures TableOk(members + {add}) && (buckets == old(buckets) || fresh(buckets))
    {
      hide BucketsOk;
      CountItem(add, members);
      BucketCount(buckets, chains, log2, members);
      MaskIsRemainder(add.hashv, log2);
      AddToBkt(ToBkt(add.hashv, buckets.Length), add, members);
    }
  }

  lemma NothingListed()
    ensures Distinct([]) && KeysDistinct([]) && Ordered([])
  {
  }

  lemma Neighbours(xs: seq<Item>, k: nat)
    requires Ordered(xs) && k < |xs|
    ensures xs[k].prev == Before(xs, k) && xs[k].next == After(xs, k)
  {
  }

  lemma OneMoreItem(xs: seq<Item>, x: Item)
    requires Distinct(xs) && KeysDistinct(xs) && x !in xs && forall y | y in xs :: y.key != x.key
    ensures Distinct(xs + [x]) && KeysDistinct(xs + [x])
  {
  }

  /** The ends of the order list without the k-th item. */
  function NewEnds(ghost xs: seq<Item>, ghost k: nat, head: Item?, tail: Item?, del: Item): (ends: (Item?, Item?))
    requires Ordered(xs) && Distinct(xs) && k < |xs| && |xs| > 1 && xs[k] == del
    requires head == xs[0] && tail == xs[|xs| - 1]
    reads xs`next, xs`prev
    ensures ends.0 == Without(xs, k)[0] && ends.1 == Without(xs, k)[|xs| - 2]
  {
    EndsWithout(xs, k);
    Neighbours(xs, k);
    LastIsLast(xs, k);
    (if del.prev == null then del.next else head, if del == tail then del.prev else tail)
  }

  lemma MembersWithout(xs: seq<Item>, k: nat)
    requires Distinct(xs) && k < |xs|
    ensures Members(Without(xs, k)) == Members(xs) - {xs[k]}
  {
    WithoutFacts(xs, k);
  }

  lemma LastIsLast(xs: seq<Item>, k: nat)
    requires Distinct(xs) && k < |xs|
    ensures xs[k] == xs[|xs| - 1] <==> k == |xs| - 1
  {
  }

  lemma KeepDistinct(xs: seq<Item>, k: nat)
    requires Distinct(xs) && KeysDistinct(xs) && k < |xs|
    ensures Distinct(Without(xs, k)) && KeysDistinct(Without(xs, k))
  {
  }

  /** An item without neighbours is the only one. */
  lemma OnlyItem(xs: seq<Item>, k: nat)
    requires Ordered(xs) && k < |xs| && xs[k].prev == null && xs[k].next == null
    ensures Without(xs, k) == []
  {
  }

  lemma MoreItems(xs: seq<Item>, k: nat)
    requires Ordered(xs) && k < |xs| && (xs[k].prev != null || xs[k].next != null)
    ensures |xs| > 1
  {
  }

  lemma EndsWithout(xs: seq<Item>, k: nat)
    requires |xs| > 1 && k < |xs|
    ensures var ys := Without(xs, k);
      ys[0] == (if k == 0 then xs[1] else xs[0]) && ys[|ys| - 1] == if k == |xs| - 1 then xs[k - 1] else xs[|xs| - 1]
  {
  }

  lemma KeysWithout(items: seq<Item>, k: nat)
    requires KeysDistinct(items) && k < |items|
    ensures KeysDistinct(Without(items, k))
  {
  }

  /** The keys of a table without its k-th item. */
  lemma LookupKey(items: seq<Item>, k: nat, key: Key)
    requires KeysDistinct(items) && Distinct(items) && k < |items| && KeysDistinct(Without(items, k))
    ensures key in Lookup(Without(items, k)) <==> key in Lookup(items) && key != items[k].key
    ensures key in Lookup(Without(items, k)) ==> Lookup(Without(items, k))[key] == Lookup(items)[key]
  {
    hide Lookup, Without;
    var ys, del := Without(items, k), items[k];
    WithoutFacts(items, k);
    LookupIs(items, key);
    LookupIs(ys, key);
    if key in Lookup(items) && key != del.key {
      var x :| x in items && x.key == key;
      assert x in ys;
    }
    if key in Lookup(ys) {
      var x :| x in ys && x.key == key;
      assert x in items && x != del;
    }
  }

  lemma LookupWithout(items: seq<Item>, k: nat)
    requires KeysDistinct(items) && Distinct(items) && k < |items|
    ensures KeysDistinct(Without(items, k))
    ensures Lookup(Without(items, k)) == Lookup(items) - {items[k].key}
  {
    KeysWithout(items, k);
    hide Lookup, Without, Distinct, KeysDistinct;
    forall key ensures SameExcept(Lookup(Without(items, k)), Lookup(items), items[k].key, key) {
      LookupKey(items, k, key);
    }
    EqualExcept(Lookup(Without(items, k)), Lookup(items), items[k].key);
  }

  predicate SameExcept(a: map<Key, Item>, b: map<Key, Item>, gone: Key, key: Key) {
    (key in a <==> key in b && key != gone) && (key in a ==> a[key] == b[key])
  }

  lemma EqualExcept(a: map<Key, Item>, b: map<Key, Item>, gone: Key)
    requires forall key :: SameExcept(a, b, gone, key)
    ensures a == b - {gone}
  {
    assert forall key :: SameExcept(a, b, gone, key) ==> (key in a <==> key in b - {gone});
  }

  lemma BucketCount(buckets: array<Bucket>, chains: seq<seq<Item>>, log2: nat, members: set<Item>)
    requires BucketsOk(buckets, chains, log2, members)
    ensures buckets.Length == Pow2(log2) == |chains|
  {
  }

  /** ceil(num_items / (2 * num_buckets)), with a shift and a mask. */
  function IdealChain(numItems: nat, log2: nat): (ideal: nat)
    requires numItems > 0
    ensures ideal > 0
    ensures ideal == numItems / Pow2(log2 + 1) + if numItems % Pow2(log2 + 1) != 0 then 1 else 0
  {
    var twice := Pow2(log2 + 1);
    MaskIsRemainder(numItems, log2 + 1);
    CeilingPositive(numItems, twice);
    numItems / twice + if And(numItems, twice - 1) != 0 then 1 else 0
  }

  lemma CeilingPositive(n: nat, m: nat)
    requires n > 0 && m > 0
    ensures n / m + (if n % m != 0 then 1 else 0) > 0
  {
  }

  lemma ChainsAreMembers(buckets: array<Bucket>, chains: seq<seq<Item>>, log2: nat, members: set<Item>, b: nat)
    requires BucketsOk(buckets, chains, log2, members) && b < |chains|
    ensures forall x | x in chains[b] :: x in members
  {
    assert BucketOk(buckets, chains, log2, members, b);
  }
}
