/** The Robin Hood table: distances, tracking of entries, and what placing and
    swapping entries keeps. */
module RobinHood {
  import opened Ring
  import opened HashTable

  type DibRaw = d: int | 0 <= d <= 0xff

  const DIB_RAW_OVERFLOW: DibRaw := 0xfd
  const DIB_RAW_REHASH: DibRaw := 0xfe
  const DIB_RAW_FREE: DibRaw := 0xff

  /** `compare(a, b) == 0` holds exactly when `ident(a) == ident(b)`, and the
      hash depends on the key only through what the comparison sees. */
  datatype HashOps = HashOps(hash: (nat, nat) -> nat, ident: nat -> nat)

  datatype Hasher = Hasher(ops: HashOps, hashKey: nat) {
    function Home(n: nat, key: nat): (r: nat)
      requires n > 0
      ensures r < n
    {
      ops.hash(hashKey, ops.ident(key)) % n
    }
  }

  /** The storage: `n` buckets and behind them the two swap slots; one raw
      distance a bucket; list head and tail; and the slots in insertion order,
      which the code keeps only for ordered maps. */
  datatype Table = Table(slots: seq<Entry>, dibs: seq<DibRaw>, head: nat, tail: nat, order: seq<nat>) {
    function Contents(): (c: seq<Pair>)
      requires Slots(slots, order)
      ensures |c| == |order|
    {
      HashTable.Contents(slots, order)
    }
  }

  ghost predicate Shape(t: Table) {
    0 < |t.dibs| && |t.slots| == |t.dibs| + 2 < IDX_FIRST && Slots(t.slots, t.order)
  }

  /** The list holds the used buckets, and possibly the swap slot IDX_PUT. */
  ghost predicate Tracks(t: Table)
    requires Shape(t)
  {
    (forall a :: 0 <= a < |t.order| ==> t.order[a] <= |t.dibs|) &&
    (forall a :: 0 <= a < |t.order| && t.order[a] < |t.dibs| ==> t.dibs[t.order[a]] != DIB_RAW_FREE) &&
    (forall i :: 0 <= i < |t.dibs| && t.dibs[i] != DIB_RAW_FREE ==> i in t.order)
  }

  ghost predicate List(ordered: bool, t: Table)
    requires Shape(t)
  {
    ordered ==> Linked(t.slots, t.head, t.tail, t.order)
  }

  /** The same buckets are free, and the same wait to be rehashed. */
  ghost predicate SameUse(d: seq<DibRaw>, e: seq<DibRaw>) {
    |d| == |e| && forall i :: 0 <= i < |d| ==>
      (d[i] == DIB_RAW_FREE <==> e[i] == DIB_RAW_FREE) && (d[i] == DIB_RAW_REHASH <==> e[i] == DIB_RAW_REHASH)
  }

  function Raw(dib: nat): DibRaw {
    if dib < DIB_RAW_OVERFLOW then dib else DIB_RAW_OVERFLOW
  }

  /** The distance of a placed entry; free and not yet rehashed count as -1. */
  function DibAt(h: Hasher, t: Table, i: nat): (d: int)
    requires i < |t.dibs| <= |t.slots|
    ensures -1 <= d < |t.dibs|
  {
    if t.dibs[i] <= DIB_RAW_OVERFLOW then Dist(|t.dibs|, i, h.Home(|t.dibs|, t.slots[i].key)) else -1
  }

  function Dibs(h: Hasher, t: Table): (d: seq<int>)
    requires |t.dibs| <= |t.slots|
    ensures |d| == |t.dibs|
  {
    seq(|t.dibs|, i requires 0 <= i < |t.dibs| => DibAt(h, t, i))
  }

  /** Raw distances are the true ones, cut off at the overflow mark. */
  ghost predicate RawOk(h: Hasher, t: Table)
    requires Shape(t)
  {
    forall i :: 0 <= i < |t.dibs| && t.dibs[i] <= DIB_RAW_OVERFLOW ==> t.dibs[i] == Raw(DibAt(h, t, i))
  }

  ghost predicate FreeIsZero(t: Table)
    requires Shape(t)
  {
    forall i :: 0 <= i < |t.dibs| && t.dibs[i] == DIB_RAW_FREE ==> t.slots[i].key == NULL
  }

  ghost predicate KeysDiffer(ops: HashOps, c: seq<Pair>) {
    forall a, b :: 0 <= a < b < |c| ==> ops.ident(c[a].key) != ops.ident(c[b].key)
  }

  /** What holds all through probing and rehashing. */
  ghost predicate Core(h: Hasher, ordered: bool, t: Table) {
    Shape(t) && Tracks(t) && List(ordered, t) && RawOk(h, t) && Smooth(Dibs(h, t)) && FreeIsZero(t) &&
    KeysDiffer(h.ops, t.Contents())
  }

  /** What holds between operations: nothing is pending, and some bucket is free
      or holds an entry at distance 0. */
  ghost predicate Settled(h: Hasher, ordered: bool, t: Table) {
    Core(h, ordered, t) && |t.dibs| !in t.order &&
    (forall i :: 0 <= i < |t.dibs| ==> t.dibs[i] != DIB_RAW_REHASH) &&
    HasStop(h, t)
  }

  ghost predicate HasStop(h: Hasher, t: Table)
    requires Shape(t)
  {
    exists i :: 0 <= i < |t.dibs| && Dibs(h, t)[i] <= 0
  }

  // ----- moves on the whole table -----

  function MoveTo(t: Table, ordered: bool, k: nat, to: nat): Table
    requires k < |t.order| && Move.requires(t.slots, ordered, t.order[k], to)
  {
    var from := t.order[k];
    Table(Move(t.slots, ordered, from, to), t.dibs,
          if ordered && t.head == from then to else t.head,
          if ordered && t.tail == from then to else t.tail,
          t.order[k := to])
  }

  lemma {:induction false} MoveToKeeps(t: Table, ordered: bool, k: nat, to: nat)
    requires Shape(t) && List(ordered, t) && k < |t.order| && to < |t.slots| && to !in t.order
    ensures Move.requires(t.slots, ordered, t.order[k], to)
    ensures var u := MoveTo(t, ordered, k, to);
      && Shape(u) && List(ordered, u) && u.Contents() == t.Contents()
      && u.order == t.order[k := to] && u.dibs == t.dibs
      && forall v: nat {:trigger u.slots[v]} :: v < |t.slots| ==>
           u.slots[v].KeyValue() == t.slots[if v == to then t.order[k] else v].KeyValue()
  {
    MoveKeepsContents(t.slots, t.head, t.tail, ordered, t.order, k, to);
    if ordered { MoveKeepsList(t.slots, t.head, t.tail, t.order, k, to); }
  }

  /** `u` is `t` with bucket `i` (at place `j` of the list) and IDX_PUT (at place
      `k`) exchanged; IDX_TMP is scratch. */
  ghost predicate Exchanged(t: Table, u: Table, i: nat, j: nat, k: nat)
    requires Shape(t) && i < |t.dibs| && j < |t.order| && k < |t.order|
  {
    var n := |t.dibs|;
    Shape(u) && |u.dibs| == n && u.Contents() == t.Contents() && u.order == t.order[j := n][k := i] &&
    u.slots[n].KeyValue() == t.slots[i].KeyValue() && u.slots[i].KeyValue() == t.slots[n].KeyValue() &&
    forall v: nat {:trigger u.slots[v]} :: v < n && v != i ==> u.slots[v].KeyValue() == t.slots[v].KeyValue()
  }

  lemma {:induction false} ThreeMovesExchange(t: Table, t1: Table, t2: Table, u: Table, ordered: bool, i: nat, j: nat, k: nat)
    requires Shape(t) && List(ordered, t) && i < |t.dibs| && |t.dibs| + 1 !in t.order
    requires j < |t.order| && k < |t.order| && t.order[j] == i && t.order[k] == |t.dibs|
    requires Move.requires(t.slots, ordered, i, |t.dibs| + 1)
    requires t1 == MoveTo(t, ordered, j, |t.dibs| + 1)
    requires Move.requires(t1.slots, ordered, |t.dibs|, i) && t2 == MoveTo(t1, ordered, k, i)
    requires Move.requires(t2.slots, ordered, |t.dibs| + 1, |t.dibs|) && u == MoveTo(t2, ordered, j, |t.dibs|)
    ensures List(ordered, u) && Exchanged(t, u, i, j, k) && u.dibs == t.dibs
  {
    MoveToKeeps(t, ordered, j, |t.dibs| + 1);
    MoveToKeeps(t1, ordered, k, i);
    MoveToKeeps(t2, ordered, j, |t.dibs|);
  }

  // ----- placing entries -----

  /** Bucket `i` is given a new entry at distance `dist`; the others stay. */
  ghost predicate Reassigned(h: Hasher, t: Table, u: Table, i: nat, dist: nat) {
    Shape(t) && Shape(u) && |u.dibs| == |t.dibs| && i < |t.dibs| && u.dibs == t.dibs[i := Raw(dist)] &&
    dist == Dist(|t.dibs|, i, h.Home(|t.dibs|, u.slots[i].key)) &&
    forall v: nat {:trigger u.slots[v]} :: v < |t.dibs| && v != i ==> u.slots[v].KeyValue() == t.slots[v].KeyValue()
  }

  lemma {:induction false} ReassignedDibs(h: Hasher, t: Table, u: Table, i: nat, dist: nat)
    requires Reassigned(h, t, u, i, dist)
    requires RawOk(h, t) && Smooth(Dibs(h, t)) && FreeIsZero(t)
    requires Dibs(h, t)[i] <= dist <= Dibs(h, t)[Prev(|t.dibs|, i)] + 1
    ensures Dibs(h, u) == Dibs(h, t)[i := dist]
    ensures RawOk(h, u) && Smooth(Dibs(h, u)) && FreeIsZero(u)
  {
    forall v: nat | v < |t.dibs| && v != i ensures DibAt(h, u, v) == DibAt(h, t, v) {
      assert u.slots[v].KeyValue() == t.slots[v].KeyValue();
    }
    assert Dibs(h, u) == Dibs(h, t)[i := dist];
    PlaceKeepsSmooth(Dibs(h, t), i, dist);
    forall v: nat | v < |u.dibs| && u.dibs[v] == DIB_RAW_FREE ensures u.slots[v].key == NULL {
      assert u.slots[v].KeyValue() == t.slots[v].KeyValue();
    }
  }

  /** Exchanging a used bucket with IDX_PUT: a Robin Hood swap, or placing the
      entry where one that is not rehashed yet was. */
  lemma {:induction false} ExchangeKeepsCore(h: Hasher, ordered: bool, t: Table, u: Table, i: nat, j: nat, k: nat, dist: nat)
    requires Core(h, ordered, t) && i < |t.dibs| && t.dibs[i] != DIB_RAW_FREE
    requires j < |t.order| && k < |t.order| && t.order[j] == i && t.order[k] == |t.dibs|
    requires Exchanged(t, u, i, j, k) && List(ordered, u) && Reassigned(h, t, u, i, dist)
    requires Dibs(h, t)[i] <= dist <= Dibs(h, t)[Prev(|t.dibs|, i)] + 1
    ensures Core(h, ordered, u) && Dibs(h, u) == Dibs(h, t)[i := dist]
  {
    ReassignedDibs(h, t, u, i, dist);
    ExchangeTracks(t, u, i, j, k);
  }

  lemma {:induction false} ExchangeTracks(t: Table, u: Table, i: nat, j: nat, k: nat)
    requires Shape(t) && Tracks(t) && Shape(u) && i < |t.dibs| && t.dibs[i] != DIB_RAW_FREE
    requires j < |t.order| && k < |t.order| && t.order[j] == i && t.order[k] == |t.dibs|
    requires |u.dibs| == |t.dibs| && u.order == t.order[j := |t.dibs|][k := i]
    requires forall v :: 0 <= v < |t.dibs| && v != i ==> u.dibs[v] == t.dibs[v]
    requires u.dibs[i] != DIB_RAW_FREE
    ensures Tracks(u)
  {
    forall v | 0 <= v < |u.dibs| && u.dibs[v] != DIB_RAW_FREE ensures v in u.order {
      var a :| 0 <= a < |t.order| && t.order[a] == v;
      if v == i { assert u.order[k] == v; } else { assert u.order[a] == v; }
    }
  }

  /** Placing the entry of IDX_PUT in a free bucket. */
  lemma {:induction false} FillKeepsCore(h: Hasher, ordered: bool, t: Table, u: Table, i: nat, k: nat, dist: nat)
    requires Core(h, ordered, t) && i < |t.dibs| && t.dibs[i] == DIB_RAW_FREE
    requires k < |t.order| && t.order[k] == |t.dibs|
    requires Reassigned(h, t, u, i, dist) && List(ordered, u)
    requires u.order == t.order[k := i] && u.Contents() == t.Contents()
    requires dist <= Dibs(h, t)[Prev(|t.dibs|, i)] + 1
    ensures Core(h, ordered, u) && Dibs(h, u) == Dibs(h, t)[i := dist] && |t.dibs| !in u.order
  {
    ReassignedDibs(h, t, u, i, dist);
    forall v | 0 <= v < |u.dibs| && u.dibs[v] != DIB_RAW_FREE ensures v in u.order {
      if v == i { assert u.order[k] == v; } else {
        var a :| 0 <= a < |t.order| && t.order[a] == v;
        assert u.order[a] == v;
      }
    }
  }

  // ----- one probe step of hashmap_put_robin_hood -----

  /** The put loop's state: the entry in IDX_PUT (place `k` of the list) has come
      `distance` buckets from its initial bucket to `idx`, may legally sit
      there, and `f` is some bucket that counts as free. */
  ghost predicate Probing(h: Hasher, ordered: bool, t: Table, k: nat, f: nat, idx: nat, distance: nat) {
    Core(h, ordered, t) && k < |t.order| && t.order[k] == |t.dibs| &&
    f < |t.dibs| && t.dibs[f] >= DIB_RAW_REHASH && idx < |t.dibs| &&
    distance == Dist(|t.dibs|, idx, h.Home(|t.dibs|, t.slots[|t.dibs|].key)) &&
    distance <= Dibs(h, t)[Prev(|t.dibs|, idx)] + 1 &&
    (Dist(|t.dibs|, f, idx) == |t.dibs| - 1 ==> distance == 0)
  }

  lemma {:induction false} RawOkAt(h: Hasher, t: Table, i: nat)
    requires Shape(t) && RawOk(h, t) && i < |t.dibs|
    ensures t.dibs[i] <= DIB_RAW_OVERFLOW ==> t.dibs[i] == Raw(DibAt(h, t, i))
  {
  }

  lemma {:induction false} ProbeStarts(h: Hasher, ordered: bool, t: Table, k: nat, f: nat)
    requires Core(h, ordered, t) && k < |t.order| && t.order[k] == |t.dibs|
    requires f < |t.dibs| && t.dibs[f] >= DIB_RAW_REHASH
    ensures Probing(h, ordered, t, k, f, h.Home(|t.dibs|, t.slots[|t.dibs|].key), 0)
  {
  }

  /** The present entry is at least as poor: go on, without lapping the ring. */
  lemma {:induction false} ProbePasses(h: Hasher, ordered: bool, t: Table, k: nat, f: nat, idx: nat, distance: nat)
    requires Probing(h, ordered, t, k, f, idx, distance)
    requires t.dibs[idx] <= DIB_RAW_OVERFLOW && Dibs(h, t)[idx] >= distance
    ensures Probing(h, ordered, t, k, f, Next(|t.dibs|, idx), distance + 1)
    ensures Dist(|t.dibs|, f, Next(|t.dibs|, idx)) < Dist(|t.dibs|, f, idx)
  {
    FreeBoundsDistance(Dibs(h, t), f, idx);
    assert Prev(|t.dibs|, Next(|t.dibs|, idx)) == idx;
  }

  /** The present entry is wealthier: it goes on in the place of the other. */
  lemma {:induction false} ProbeSwaps(h: Hasher, ordered: bool, t: Table, u: Table, j: nat, k: nat, f: nat, idx: nat, distance: nat)
    requires Probing(h, ordered, t, k, f, idx, distance)
    requires t.dibs[idx] <= DIB_RAW_OVERFLOW && Dibs(h, t)[idx] < distance
    requires j < |t.order| && t.order[j] == idx
    requires Exchanged(t, u, idx, j, k) && List(ordered, u) && u.dibs == t.dibs[idx := Raw(distance)]
    ensures Probing(h, ordered, u, j, f, Next(|t.dibs|, idx), Dibs(h, t)[idx] + 1)
    ensures Dist(|t.dibs|, f, Next(|t.dibs|, idx)) < Dist(|t.dibs|, f, idx)
  {
    ExchangeKeepsCore(h, ordered, t, u, idx, j, k, distance);
    assert Prev(|t.dibs|, Next(|t.dibs|, idx)) == idx;
  }

  /** When the probe ends at a bucket that counts as free, the table still has a
      bucket that is free or at distance 0. */
  lemma {:induction false} ProbeEnds(h: Hasher, ordered: bool, t: Table, k: nat, f: nat, idx: nat, distance: nat) returns (stop: nat)
    requires Probing(h, ordered, t, k, f, idx, distance) && t.dibs[idx] >= DIB_RAW_REHASH
    ensures stop < |t.dibs| && Dibs(h, t)[idx := distance][stop] <= 0
  {
    stop := if idx == f && |t.dibs| > 1 then Next(|t.dibs|, f) else f;
  }

  lemma {:induction false} ProbeFills(h: Hasher, ordered: bool, t: Table, u: Table, k: nat, f: nat, idx: nat, distance: nat)
    requires Probing(h, ordered, t, k, f, idx, distance) && t.dibs[idx] == DIB_RAW_FREE
    requires Shape(u) && u.dibs == t.dibs[idx := Raw(distance)] && List(ordered, u)
    requires forall v: nat {:trigger u.slots[v]} :: v < |t.dibs| ==>
      u.slots[v].KeyValue() == t.slots[if v == idx then |t.dibs| else v].KeyValue()
    requires u.order == t.order[k := idx] && u.Contents() == t.Contents()
    ensures Core(h, ordered, u) && HasStop(h, u) && |t.dibs| !in u.order
  {
    var stop := ProbeEnds(h, ordered, t, k, f, idx, distance);
    assert u.slots[idx].KeyValue() == t.slots[|t.dibs|].KeyValue();
    FillKeepsCore(h, ordered, t, u, idx, k, distance);
  }

  lemma {:induction false} ProbeDisplaces(h: Hasher, ordered: bool, t: Table, u: Table, j: nat, k: nat, f: nat, idx: nat, distance: nat)
    requires Probing(h, ordered, t, k, f, idx, distance) && t.dibs[idx] == DIB_RAW_REHASH
    requires j < |t.order| && t.order[j] == idx
    requires Exchanged(t, u, idx, j, k) && List(ordered, u) && u.dibs == t.dibs[idx := Raw(distance)]
    ensures Core(h, ordered, u) && HasStop(h, u) && |t.dibs| in u.order
  {
    var stop := ProbeEnds(h, ordered, t, k, f, idx, distance);
    ExchangeKeepsCore(h, ordered, t, u, idx, j, k, distance);
    assert u.order[j] == |t.dibs|;
  }
}
