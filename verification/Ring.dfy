/** Index arithmetic on a ring of `n` buckets, and the Robin Hood order on the
    distances of a whole table.

    `d[i]` is the distance of bucket `i`'s entry from its initial bucket, or -1
    when the bucket counts as free. */
module Ring {

  function Next(n: nat, i: nat): (r: nat)
    requires i < n
    ensures r < n && r == (i + 1) % n
  {
    if i + 1 == n then 0 else i + 1
  }

  function Prev(n: nat, i: nat): (r: nat)
    requires i < n
    ensures r < n && Next(n, r) == i
  {
    if i == 0 then n - 1 else i - 1
  }

  /** How many steps of `Next` lead from `from` to `i`. */
  function Dist(n: nat, i: nat, from: nat): (r: nat)
    requires i < n && from < n
    ensures r < n
  {
    if i >= from then i - from else n + i - from
  }

  /** The bucket `t` steps before `i`. */
  function Back(n: nat, i: nat, t: nat): (r: nat)
    requires i < n && t <= n
    ensures r < n
  {
    if i >= t then i - t else n + i - t
  }

  /** The Robin Hood order: going one bucket forward, the distance grows by at
      most one, and a free bucket counts as -1. */
  ghost predicate Smooth(d: seq<int>) {
    (forall i :: 0 <= i < |d| ==> d[i] >= -1) &&
    forall i: nat {:trigger Next(|d|, i)} :: i < |d| ==> d[Next(|d|, i)] <= d[i] + 1
  }

  /** Walking back `t` buckets lowers the distance by at most `t`. */
  lemma {:induction false} WalkBack(d: seq<int>, i: nat, t: nat)
    requires Smooth(d) && i < |d| && t <= |d|
    ensures d[Back(|d|, i, t)] >= d[i] - t
    decreases t
  {
    if t > 0 {
      WalkBack(d, i, t - 1);
      assert Next(|d|, Back(|d|, i, t)) == Back(|d|, i, t - 1);
    }
  }

  /** A free bucket bounds every distance, so no probe ever laps the ring. */
  lemma {:induction false} FreeBoundsDistance(d: seq<int>, f: nat, i: nat)
    requires Smooth(d) && f < |d| && i < |d| && d[f] == -1
    ensures d[i] < Dist(|d|, i, f)
    ensures d[i] < |d| - 1
  {
    WalkBack(d, i, Dist(|d|, i, f));
    assert Back(|d|, i, Dist(|d|, i, f)) == f;
  }

  /** Every bucket on the way from the initial bucket of a stored entry to the
      entry itself is at least as far from home as the probe is long. */
  lemma {:induction false} ProbePathIsPoor(d: seq<int>, home: nat, at: nat, i: nat)
    requires Smooth(d) && home < |d| && at < |d| && i < |d|
    requires d[at] == Dist(|d|, at, home)
    requires Dist(|d|, i, home) <= Dist(|d|, at, home)
    ensures d[i] >= Dist(|d|, i, home)
  {
    var t := Dist(|d|, at, home) - Dist(|d|, i, home);
    WalkBack(d, at, t);
    assert Back(|d|, at, t) == i;
  }

  /** Putting an entry that is poorer than the bucket's present one, and no
      poorer than its predecessor allows, keeps the order. */
  lemma {:induction false} PlaceKeepsSmooth(d: seq<int>, i: nat, dist: nat)
    requires Smooth(d) && i < |d|
    requires d[i] <= dist <= d[Prev(|d|, i)] + 1
    ensures Smooth(d[i := dist])
  {
    var e := d[i := dist];
    forall j: nat | j < |e| ensures e[Next(|e|, j)] <= e[j] + 1 {
      assert d[Next(|d|, j)] <= d[j] + 1;
      if Next(|e|, j) == i { assert j == Prev(|d|, i); }
    }
  }

  /** The order with a hole at `p`: the hole counts as free, and the bucket
      after it may be up to two steps poorer than the bucket before it. */
  ghost predicate SmoothWithHole(d: seq<int>, p: nat) {
    p < |d| && d[p] == -1 &&
    (forall i :: 0 <= i < |d| ==> d[i] >= -1) &&
    (forall i: nat {:trigger Next(|d|, i)} :: i < |d| && i != p ==> d[Next(|d|, i)] <= d[i] + 1) &&
    (|d| > 1 ==> d[Next(|d|, p)] <= d[Prev(|d|, p)] + 2)
  }

  lemma {:induction false} HoleOpens(d: seq<int>, p: nat)
    requires Smooth(d) && p < |d|
    ensures SmoothWithHole(d[p := -1], p)
  {
    var e := d[p := -1];
    assert d[Next(|d|, p)] <= d[p] + 1;
    assert d[Next(|d|, Prev(|d|, p))] <= d[Prev(|d|, p)] + 1;
    forall i: nat | i < |e| && i != p ensures e[Next(|e|, i)] <= e[i] + 1 {
      assert d[Next(|d|, i)] <= d[i] + 1;
    }
  }

  /** Moving the entry behind the hole one step back moves the hole forward. */
  lemma {:induction false} HoleMoves(d: seq<int>, p: nat)
    requires SmoothWithHole(d, p) && |d| > 1 && d[Next(|d|, p)] > 0
    ensures SmoothWithHole(d[p := d[Next(|d|, p)] - 1][Next(|d|, p) := -1], Next(|d|, p))
  {
    var n, q := |d|, Next(|d|, p);
    var e := d[p := d[q] - 1][q := -1];
    assert d[Next(n, q)] <= d[q] + 1;
    forall i: nat | i < n && i != q ensures e[Next(n, i)] <= e[i] + 1 {
      if i != p { assert d[Next(n, i)] <= d[i] + 1; }
      if Next(n, i) == p { assert i == Prev(n, p); }
    }
    assert Prev(n, q) == p;
  }

  lemma {:induction false} HoleCloses(d: seq<int>, p: nat)
    requires SmoothWithHole(d, p) && d[Next(|d|, p)] <= 0
    ensures Smooth(d)
  {
  }

  /** Pigeonhole: fewer used indexes than buckets leave some bucket out. */
  lemma {:induction false} SomeIndexUnused(n: nat, used: seq<nat>) returns (f: nat)
    requires |used| < n
    ensures f < n && f !in used
  {
    f := n - 1;
    if n - 1 in used {
      var p :| 0 <= p < |used| && used[p] == n - 1;
      f := SomeIndexUnused(n - 1, used[..p] + used[p + 1..]);
    }
  }
}
