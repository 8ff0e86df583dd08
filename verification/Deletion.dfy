/** Backward-shift deletion: opening a hole, moving it forward, closing it. */
module Deletion {
  import opened Ring
  import opened HashTable
  import opened RobinHood

  /** The table with bucket `p` counted as free. */
  ghost function Freed(t: Table, p: nat): Table
    requires p < |t.dibs|
  {
    t.(dibs := t.dibs[p := DIB_RAW_FREE])
  }

  ghost predicate NoRehash(t: Table) {
    forall i :: 0 <= i < |t.dibs| ==> t.dibs[i] != DIB_RAW_REHASH
  }

  /** Everything but the Robin Hood order around `p`, which nobody uses. */
  ghost predicate Holed(h: Hasher, ordered: bool, t: Table, p: nat) {
    p < |t.dibs| && t.dibs[p] != DIB_RAW_FREE && NoRehash(t) &&
    var g := Freed(t, p);
    Shape(g) && Tracks(g) && |t.dibs| !in t.order && List(ordered, g) && RawOk(h, g) && KeysDiffer(h.ops, g.Contents()) &&
    FreeIsZeroBut(t, p) && SmoothWithHole(Dibs(h, g), p)
  }

  ghost predicate FreeIsZeroBut(t: Table, p: nat)
    requires |t.dibs| <= |t.slots|
  {
    forall i :: 0 <= i < |t.dibs| && t.dibs[i] == DIB_RAW_FREE && i != p ==> t.slots[i].key == NULL
  }

  ghost predicate SamePairs(t: Table, u: Table) {
    |u.slots| == |t.slots| &&
    forall v {:trigger u.slots[v]} :: 0 <= v < |t.slots| ==> u.slots[v].KeyValue() == t.slots[v].KeyValue()
  }

  /** The shift loop's state. `right` is the stop bucket; it may be the bucket of
      the removed entry itself. */
  ghost predicate Shifting(h: Hasher, ordered: bool, t: Table, p: nat, right: nat) {
    Holed(h, ordered, t, p) && right < |t.dibs| &&
    var d := Dibs(h, Freed(t, p));
    if p == right then d[Next(|d|, p)] <= 1 else d[right] <= 0
  }

  /** The buckets from `from` up to before `to` are used and not at distance 0. */
  ghost predicate Busy(dibs: seq<DibRaw>, from: nat, to: nat)
    requires from < |dibs| && to < |dibs|
  {
    forall j: nat {:trigger Dist(|dibs|, j, from)} :: j < |dibs| && Dist(|dibs|, j, from) < Dist(|dibs|, to, from) ==>
      dibs[j] != 0 && dibs[j] != DIB_RAW_FREE
  }

  /** `right` is the stop bucket behind `idx`. */
  ghost predicate StopBehind(dibs: seq<DibRaw>, idx: nat, right: nat) {
    idx < |dibs| && right < |dibs| && Busy(dibs, Next(|dibs|, idx), right) && (dibs[right] == 0 || dibs[right] == DIB_RAW_FREE)
  }

  /** The same buckets are free. */
  ghost predicate SameFree(d: seq<DibRaw>, e: seq<DibRaw>) {
    |e| == |d| && forall i :: 0 <= i < |d| ==> (e[i] == DIB_RAW_FREE <==> d[i] == DIB_RAW_FREE)
  }

  /** Removing at `idx` frees one bucket: the one before the stop bucket. */
  ghost predicate FreesLast(d: seq<DibRaw>, e: seq<DibRaw>, idx: nat) {
    |e| == |d| &&
    exists right ::
      (StopBehind(d, idx, right) &&
       forall i :: 0 <= i < |d| ==> (e[i] == DIB_RAW_FREE <==> d[i] == DIB_RAW_FREE || i == Prev(|d|, right)))
  }

  /** There is one stop bucket. */
  lemma {:induction false} StopIsUnique(dibs: seq<DibRaw>, idx: nat, r: nat, s: nat)
    requires StopBehind(dibs, idx, r) && StopBehind(dibs, idx, s)
    ensures r == s
  {
    var from := Next(|dibs|, idx);
    if Dist(|dibs|, r, from) == Dist(|dibs|, s, from) {
      SameDistance(|dibs|, r, s, from);
    }
  }

  lemma {:induction false} SameDistance(n: nat, r: nat, s: nat, from: nat)
    requires r < n && s < n && from < n && Dist(n, r, from) == Dist(n, s, from)
    ensures r == s
  {
  }

  lemma {:induction false} FreesBefore(d: seq<DibRaw>, e: seq<DibRaw>, f: seq<DibRaw>, idx: nat, prev: nat, right: nat)
    requires StopBehind(d, idx, right) && SameFree(d, e) && prev < |d| && Next(|d|, prev) == right && f == e[prev := DIB_RAW_FREE]
    ensures FreesLast(d, f, idx)
  {
    assert Prev(|d|, right) == prev;
  }

  lemma {:induction false} BusyGrows(dibs: seq<DibRaw>, from: nat, to: nat)
    requires from < |dibs| && to < |dibs| && Busy(dibs, from, to)
    requires dibs[to] != 0 && dibs[to] != DIB_RAW_FREE && Next(|dibs|, to) != from
    ensures Busy(dibs, from, Next(|dibs|, to))
    ensures Dist(|dibs|, Next(|dibs|, to), from) == Dist(|dibs|, to, from) + 1
  {
    forall j: nat | j < |dibs| && Dist(|dibs|, j, from) < Dist(|dibs|, Next(|dibs|, to), from)
      ensures dibs[j] != 0 && dibs[j] != DIB_RAW_FREE
    {
      if Dist(|dibs|, j, from) == Dist(|dibs|, to, from) { assert j == to; }
    }
  }

  lemma {:induction false} BusyShrinks(dibs: seq<DibRaw>, dibs': seq<DibRaw>, p: nat, from: nat, to: nat, raw: DibRaw)
    requires from < |dibs| && to < |dibs| && Busy(dibs, from, to) && from != to && p < |dibs| && from == Next(|dibs|, p)
    requires dibs' == dibs[p := raw]
    ensures Busy(dibs', Next(|dibs|, from), to)
    ensures Dist(|dibs|, to, Next(|dibs|, from)) < Dist(|dibs|, to, from)
  {
    forall j: nat | j < |dibs| && Dist(|dibs|, j, Next(|dibs|, from)) < Dist(|dibs|, to, Next(|dibs|, from))
      ensures dibs'[j] != 0 && dibs'[j] != DIB_RAW_FREE
    {
      assert Dist(|dibs|, j, from) < Dist(|dibs|, to, from);
    }
  }

  /** The table is not all occupied with every distance above 0. */
  lemma {:induction false} StopBucketExists(h: Hasher, ordered: bool, t: Table, idx: nat)
    requires Settled(h, ordered, t) && idx < |t.dibs|
    requires Busy(t.dibs, Next(|t.dibs|, idx), idx)
    ensures t.dibs[idx] == 0 || t.dibs[idx] == DIB_RAW_FREE
  {
    var s :| 0 <= s < |t.dibs| && Dibs(h, t)[s] <= 0;
    assert DibAt(h, t, s) <= 0;
    assert Dist(|t.dibs|, s, Next(|t.dibs|, idx)) <= Dist(|t.dibs|, idx, Next(|t.dibs|, idx));
  }

  // ----- opening the hole -----

  lemma {:induction false} WithoutKeepsDistinct(ops: HashOps, c: seq<Pair>, a: nat)
    requires KeysDiffer(ops, c) && a < |c|
    ensures KeysDiffer(ops, Without(c, a))
  {
  }

  lemma {:induction false} FreedDibs(h: Hasher, t: Table, u: Table, p: nat)
    requires Shape(t) && RawOk(h, t) && p < |t.dibs| && u.dibs == t.dibs && SamePairs(t, u) && Shape(Freed(u, p))
    ensures Dibs(h, Freed(u, p)) == Dibs(h, t)[p := -1] && RawOk(h, Freed(u, p))
  {
    forall v: nat | v < |t.dibs| && v != p ensures DibAt(h, Freed(u, p), v) == DibAt(h, t, v) {
      assert u.slots[v].KeyValue() == t.slots[v].KeyValue();
    }
  }

  lemma {:induction false} UnlinkTracks(t: Table, u: Table, a: nat)
    requires Shape(t) && Tracks(t) && |t.dibs| !in t.order && a < |t.order|
    requires u.dibs == t.dibs && |u.slots| == |t.slots| && u.order == Without(t.order, a)
    ensures t.order[a] < |t.dibs| && t.dibs[t.order[a]] != DIB_RAW_FREE
    ensures Shape(Freed(u, t.order[a])) && Tracks(Freed(u, t.order[a]))
    ensures |t.dibs| !in u.order
  {
    var g := Freed(u, t.order[a]);
    forall i | 0 <= i < |g.dibs| && g.dibs[i] != DIB_RAW_FREE ensures i in g.order {
      var b :| 0 <= b < |t.order| && t.order[b] == i;
      assert g.order[if b < a then b else b - 1] == i;
    }
  }

  lemma {:induction false} UnlinkContents(t: Table, u: Table, a: nat, p: nat)
    requires Shape(t) && FreeIsZero(t) && a < |t.order| && SamePairs(t, u) && u.dibs == t.dibs
    requires u.order == Without(t.order, a) && Slots(u.slots, u.order)
    ensures u.Contents() == Without(t.Contents(), a) && FreeIsZeroBut(u, p)
  {
    forall b | 0 <= b < |u.order| ensures u.Contents()[b] == Without(t.Contents(), a)[b] {
      assert u.slots[u.order[b]].KeyValue() == t.slots[u.order[b]].KeyValue();
    }
    forall i | 0 <= i < |u.dibs| && u.dibs[i] == DIB_RAW_FREE ensures u.slots[i].key == NULL {
      assert u.slots[i].KeyValue() == t.slots[i].KeyValue();
    }
  }

  /** Unlinking place `a` of the list opens a hole there. */
  lemma {:induction false} UnlinkOpensHole(h: Hasher, ordered: bool, t: Table, u: Table, a: nat, right: nat)
    requires Settled(h, ordered, t) && a < |t.order| && right < |t.dibs|
    requires SamePairs(t, u) && u.dibs == t.dibs && u.order == Without(t.order, a)
    requires Slots(u.slots, u.order) && (ordered ==> Linked(u.slots, u.head, u.tail, u.order))
    requires t.dibs[right] == 0 || t.dibs[right] == DIB_RAW_FREE
    ensures t.order[a] < |t.dibs| && Shifting(h, ordered, u, t.order[a], right)
    ensures u.Contents() == Without(t.Contents(), a)
  {
    assert |u.slots| == |t.slots| && NoRehash(u) by { hide Core, HasStop, Slots, Linked; }
    hide Slots, Linked, SamePairs, KeysDiffer, RawOk, FreeIsZeroBut, SmoothWithHole, FreeIsZero, DibAt, HasStop, Smooth, Tracks, NoRehash, Dibs;
    var p := t.order[a];
    UnlinkTracks(t, u, a);
    FreedDibs(h, t, u, p);
    HoleOpens(Dibs(h, t), p);
    UnlinkContents(t, u, a, p);
    WithoutKeepsDistinct(h.ops, t.Contents(), a);
    UnlinkStop(h, t, right, p);
  }

  lemma {:induction false} UnlinkStop(h: Hasher, t: Table, right: nat, p: nat)
    requires Shape(t) && RawOk(h, t) && Smooth(Dibs(h, t)) && right < |t.dibs| && p < |t.dibs|
    requires t.dibs[right] == 0 || t.dibs[right] == DIB_RAW_FREE
    ensures var d := Dibs(h, t)[p := -1];
      if p == right then d[Next(|d|, p)] <= 1 else d[right] <= 0
  {
    assert DibAt(h, t, right) <= 0;
    assert Dibs(h, t)[Next(|t.dibs|, p)] <= Dibs(h, t)[p] + 1;
  }

  // ----- moving it -----

  lemma {:induction false} ShiftDibs(h: Hasher, t: Table, u: Table, p: nat)
    requires Shape(t) && p < |t.dibs| && RawOk(h, Freed(t, p)) && |t.dibs| > 1
    requires Shape(u) && |u.dibs| == |t.dibs|
    requires var q := Next(|t.dibs|, p);
      && u.dibs[q] == t.dibs[q] <= DIB_RAW_OVERFLOW && DibAt(h, t, q) > 0
      && u.dibs == t.dibs[p := Raw(DibAt(h, t, q) - 1)]
      && u.slots[p].KeyValue() == t.slots[q].KeyValue()
    requires forall v {:trigger u.slots[v]} :: 0 <= v < |t.dibs| && v != p ==> u.slots[v].KeyValue() == t.slots[v].KeyValue()
    ensures var q := Next(|t.dibs|, p);
      && Dibs(h, Freed(u, q)) == Dibs(h, Freed(t, p))[p := DibAt(h, t, q) - 1][q := -1]
      && RawOk(h, Freed(u, q))
  {
    var q := Next(|t.dibs|, p);
    assert u.slots[p].key == t.slots[q].key;
    forall v: nat | v < |t.dibs| && v != p && v != q ensures DibAt(h, Freed(u, q), v) == DibAt(h, Freed(t, p), v) {
      assert u.slots[v].KeyValue() == t.slots[v].KeyValue();
    }
  }

  lemma {:induction false} ShiftTracks(t: Table, u: Table, p: nat, k: nat)
    requires Shape(t) && p < |t.dibs| && Tracks(Freed(t, p)) && |t.dibs| !in t.order && k < |t.order|
    requires t.order[k] == Next(|t.dibs|, p) && p != t.order[k]
    requires Shape(u) && |u.dibs| == |t.dibs| && u.order == t.order[k := p]
    requires u.dibs[p] != DIB_RAW_FREE && forall v :: 0 <= v < |t.dibs| && v != p ==> u.dibs[v] == t.dibs[v]
    ensures Tracks(Freed(u, t.order[k])) && |t.dibs| !in u.order
  {
    var g := Freed(u, t.order[k]);
    forall i | 0 <= i < |g.dibs| && g.dibs[i] != DIB_RAW_FREE ensures i in g.order {
      if i == p { assert g.order[k] == i; } else {
        assert Freed(t, p).dibs[i] != DIB_RAW_FREE;
        var b :| 0 <= b < |t.order| && t.order[b] == i;
        assert g.order[b] == i;
      }
    }
  }

  lemma {:induction false} ShiftNext(h: Hasher, t: Table, p: nat, k: nat)
    requires Shape(t) && p < |t.dibs| && Tracks(Freed(t, p)) && RawOk(h, Freed(t, p)) && NoRehash(t)
    requires |t.dibs| !in t.order && k < |t.order| && t.order[k] == Next(|t.dibs|, p)
    requires |t.dibs| > 1 && t.dibs[Next(|t.dibs|, p)] != 0
    ensures t.dibs[t.order[k]] <= DIB_RAW_OVERFLOW && DibAt(h, t, t.order[k]) > 0
    ensures t.dibs[t.order[k]] == Raw(DibAt(h, t, t.order[k])) && p !in t.order
    ensures Dibs(h, Freed(t, p))[t.order[k]] == DibAt(h, t, t.order[k])
  {
    assert Freed(t, p).dibs[t.order[k]] != DIB_RAW_FREE;
  }

  /** The rest of the table, `u` against `t`, after the entry behind the hole `p`
      has been moved into it. */
  ghost predicate Shifted(h: Hasher, t: Table, u: Table, p: nat, k: nat) {
    Shape(t) && Shape(u) && p < |t.dibs| && k < |t.order| && t.order[k] == Next(|t.dibs|, p) && |u.slots| == |t.slots| &&
    u.order == t.order[k := p] && u.dibs == t.dibs[p := Raw(if DibAt(h, t, t.order[k]) > 0 then DibAt(h, t, t.order[k]) - 1 else 0)] &&
    u.slots[p].KeyValue() == t.slots[t.order[k]].KeyValue() &&
    forall v {:trigger u.slots[v]} :: 0 <= v < |t.dibs| && v != p ==> u.slots[v].KeyValue() == t.slots[v].KeyValue()
  }

  lemma {:induction false} ShiftFree(h: Hasher, t: Table, u: Table, p: nat, k: nat)
    requires Shifted(h, t, u, p, k) && |t.dibs| > 1 && FreeIsZeroBut(t, p) && NoRehash(t)
    ensures FreeIsZeroBut(u, t.order[k]) && NoRehash(u)
  {
    forall i | 0 <= i < |u.dibs| && u.dibs[i] == DIB_RAW_FREE ensures u.slots[i].key == NULL {
      assert u.slots[i].KeyValue() == t.slots[i].KeyValue();
    }
  }

  /** Moving the next entry one bucket back moves the hole one bucket forward. */
  lemma {:induction false} ShiftMovesHole(h: Hasher, ordered: bool, t: Table, u: Table, p: nat, right: nat, k: nat)
    requires Shifting(h, ordered, t, p, right) && |t.dibs| > 1 && Shifted(h, t, u, p, k)
    requires Next(|t.dibs|, p) != right && t.dibs[Next(|t.dibs|, p)] != 0
    requires List(ordered, u) && u.Contents() == t.Contents()
    ensures Shifting(h, ordered, u, t.order[k], right)
  {
    hide Slots, Linked, KeysDiffer, RawOk, FreeIsZeroBut, NoRehash, SmoothWithHole, Tracks, DibAt;
    ShiftNext(h, t, p, k);
    ShiftDibs(h, t, u, p);
    ShiftTracks(t, u, p, k);
    ShiftFree(h, t, u, p, k);
    HoleMoves(Dibs(h, Freed(t, p)), p);
  }

  /** Zeroing a slot outside the list. */
  lemma {:induction false} ZeroKeepsList(slots: seq<Entry>, head: nat, tail: nat, order: seq<nat>, p: nat)
    requires Slots(slots, order) && p < |slots| && p !in order
    ensures Slots(slots[p := ZERO_ENTRY], order)
    ensures Contents(slots[p := ZERO_ENTRY], order) == Contents(slots, order)
    ensures Linked(slots, head, tail, order) ==> Linked(slots[p := ZERO_ENTRY], head, tail, order)
  {
    if Linked(slots, head, tail, order) {
      var s := slots[p := ZERO_ENTRY];
      forall a: nat | a < |order| ensures LinkedAt(s, order, a) {
        assert LinkedAt(slots, order, a);
      }
    }
  }

  lemma {:induction false} ZeroKeepsDibs(h: Hasher, t: Table, u: Table, p: nat)
    requires p < |t.dibs| && Shape(Freed(t, p)) && Shape(u) && RawOk(h, Freed(t, p)) && FreeIsZeroBut(t, p)
    requires u.dibs == t.dibs[p := DIB_RAW_FREE] && u.slots == t.slots[p := ZERO_ENTRY]
    ensures Dibs(h, u) == Dibs(h, Freed(t, p)) && RawOk(h, u) && FreeIsZero(u)
  {
    forall i: nat | i < |u.dibs| ensures DibAt(h, u, i) == DibAt(h, Freed(t, p), i) {}
  }

  /** Marking the hole free when the stop bucket is next settles the table. */
  lemma {:induction false} HoleSettles(h: Hasher, ordered: bool, t: Table, u: Table, p: nat)
    requires p < |t.dibs| && Shifting(h, ordered, t, p, Next(|t.dibs|, p))
    requires u == Table(t.slots[p := ZERO_ENTRY], t.dibs[p := DIB_RAW_FREE], t.head, t.tail, t.order)
    ensures Settled(h, ordered, u) && u.Contents() == t.Contents()
  {
    assert p !in t.order;
    ZeroKeepsList(t.slots, t.head, t.tail, t.order, p);
    ZeroKeepsDibs(h, t, u, p);
    HoleCloses(Dibs(h, u), p);
    assert Dibs(h, u)[p] <= 0;
    hide Slots, Linked, KeysDiffer, RawOk, SmoothWithHole, DibAt;
  }

  // ----- where the other entries go -----

  /** Every listed entry is where it was, or one bucket before. */
  ghost predicate StayedOrShifted(n: nat, was: seq<nat>, now: seq<nat>) {
    |was| == |now| && forall b :: 0 <= b < |was| ==>
      was[b] < n && (now[b] == was[b] || now[b] == Prev(n, was[b]))
  }

  /** The same in mid-shift: what moved is not between `left` and `right`. */
  ghost predicate ShiftedBehind(n: nat, was: seq<nat>, now: seq<nat>, left: nat, right: nat)
    requires left < n && right < n
  {
    |was| == |now| && forall b :: 0 <= b < |was| ==>
      was[b] < n && (now[b] == was[b] || (now[b] == Prev(n, was[b]) && Dist(n, now[b], left) >= Dist(n, right, left)))
  }

  lemma {:induction false} NothingShifted(n: nat, order: seq<nat>, left: nat, right: nat)
    requires left < n && right < n && forall b :: 0 <= b < |order| ==> order[b] < n
    ensures ShiftedBehind(n, order, order, left, right)
  {
  }

  lemma {:induction false} AllShifted(n: nat, was: seq<nat>, now: seq<nat>, left: nat, right: nat)
    requires left < n && right < n && ShiftedBehind(n, was, now, left, right)
    ensures StayedOrShifted(n, was, now)
  {
  }

  lemma {:induction false} ShiftStaysBehind(n: nat, was: seq<nat>, now: seq<nat>, p: nat, right: nat, k: nat)
    requires p < n && right < n && n > 1 && Next(n, p) != right && k < |now| && now[k] == Next(n, p)
    requires forall a, b :: 0 <= a < b < |now| ==> now[a] != now[b]
    requires ShiftedBehind(n, was, now, Next(n, p), right)
    ensures ShiftedBehind(n, was, now[k := p], Next(n, Next(n, p)), right)
  {
    var left := Next(n, p);
    assert was[k] == left;
    assert Prev(n, left) == p;
  }

  lemma {:induction false} HoleOrder(h: Hasher, ordered: bool, t: Table, p: nat)
    requires Holed(h, ordered, t, p)
    ensures forall b :: 0 <= b < |t.order| ==> t.order[b] < |t.dibs|
  {
  }

  /** The used bucket behind the hole is in the list. */
  lemma {:induction false} HoleNext(h: Hasher, ordered: bool, t: Table, p: nat, left: nat) returns (k: nat)
    requires Holed(h, ordered, t, p) && left < |t.dibs| && left != p && t.dibs[left] != DIB_RAW_FREE
    ensures k < |t.order| && t.order[k] == left
    ensures forall a, b :: 0 <= a < b < |t.order| ==> t.order[a] != t.order[b]
  {
    assert Freed(t, p).dibs[left] != DIB_RAW_FREE;
    k :| 0 <= k < |t.order| && t.order[k] == left;
  }
}
