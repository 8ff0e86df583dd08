/** Rehashing in place: every used bucket of the grown storage waits to be
    rehashed and counts as free until its entry is put again. */
module Rehash {
  import opened Ring
  import opened HashTable
  import opened RobinHood

  /** The buckets that wait. */
  ghost function Waiting(dibs: seq<DibRaw>): set<nat> {
    set i: nat | i < |dibs| && dibs[i] == DIB_RAW_REHASH
  }

  /** `u` is `t` with more buckets, all used ones marked. */
  ghost predicate Grown(t: Table, u: Table) {
    |t.dibs| < |u.dibs| && |u.slots| == |u.dibs| + 2 < IDX_FIRST && |t.slots| == |t.dibs| + 2 &&
    u.head == t.head && u.tail == t.tail && u.order == t.order &&
    u.slots[..|t.dibs|] == t.slots[..|t.dibs|] &&
    (forall i :: |t.dibs| <= i < |u.dibs| ==> u.slots[i] == ZERO_ENTRY && u.dibs[i] == DIB_RAW_FREE) &&
    (forall i :: 0 <= i < |t.dibs| ==> u.dibs[i] == if t.dibs[i] == DIB_RAW_FREE then DIB_RAW_FREE else DIB_RAW_REHASH)
  }

  lemma {:induction false} GrownList(ordered: bool, t: Table, u: Table)
    requires Shape(t) && Tracks(t) && |t.dibs| !in t.order && List(ordered, t) && Grown(t, u)
    ensures Shape(u) && Tracks(u) && |u.dibs| !in u.order && List(ordered, u) && u.Contents() == t.Contents()
  {
    forall a | 0 <= a < |t.order| ensures u.slots[t.order[a]] == t.slots[t.order[a]] && u.order[a] < |t.dibs| {
      assert u.slots[..|t.dibs|][t.order[a]] == t.slots[..|t.dibs|][t.order[a]];
    }
    if ordered {
      forall a: nat | a < |u.order| ensures LinkedAt(u.slots, u.order, a) {
        assert LinkedAt(t.slots, t.order, a);
      }
    }
  }

  /** Right after growing nothing is placed, so everything holds for any new hash key. */
  lemma {:induction false} GrownCore(h: Hasher, h': Hasher, ordered: bool, t: Table, u: Table)
    requires Settled(h, ordered, t) && Grown(t, u) && h'.ops == h.ops
    ensures Core(h', ordered, u) && |u.dibs| !in u.order && u.Contents() == t.Contents()
    ensures |Waiting(u.dibs)| == |t.order|
    ensures forall i :: |t.dibs| <= i < |u.dibs| ==> u.dibs[i] == DIB_RAW_FREE
  {
    hide Linked, KeysDiffer, RawOk, HasStop, Smooth;
    GrownList(ordered, t, u);
    GrownDibs(h', t, u);
    GrownCount(t, u);
  }

  lemma {:induction false} GrownDibs(h': Hasher, t: Table, u: Table)
    requires Shape(t) && FreeIsZero(t) && Grown(t, u) && Shape(u)
    ensures RawOk(h', u) && Smooth(Dibs(h', u)) && FreeIsZero(u)
  {
    forall i | 0 <= i < |u.dibs| && u.dibs[i] == DIB_RAW_FREE ensures u.slots[i].key == NULL {
      if i < |t.dibs| { assert u.slots[..|t.dibs|][i] == t.slots[..|t.dibs|][i]; }
    }
  }

  lemma {:induction false} GrownCount(t: Table, u: Table)
    requires Shape(t) && Tracks(t) && |t.dibs| !in t.order && Grown(t, u)
    ensures |Waiting(u.dibs)| == |t.order|
  {
    DistinctCount(t.order);
    forall i: nat ensures i in Waiting(u.dibs) <==> i in Elements(t.order) {
      if i in Elements(t.order) {
        var a :| 0 <= a < |t.order| && t.order[a] == i;
        assert t.order[a] < |t.dibs|;
      }
    }
    assert Waiting(u.dibs) == Elements(t.order);
  }

  ghost function Elements(s: seq<nat>): set<nat> {
    set x | x in s
  }

  lemma {:induction false} DistinctCount(s: seq<nat>)
    requires forall a, b :: 0 <= a < b < |s| ==> s[a] != s[b]
    ensures |Elements(s)| == |s|
  {
    if s == [] {
      assert Elements(s) == {};
    } else {
      var r, last := s[..|s| - 1], s[|s| - 1];
      DistinctCount(r);
      assert s == r + [last];
      assert Elements(s) == Elements(r) + {last};
      assert forall a :: 0 <= a < |r| ==> r[a] != last;
    }
  }

  /** An entry that hashes to its present bucket is rehashed by setting its distance. */
  lemma {:induction false} SettleInPlace(h: Hasher, ordered: bool, t: Table, u: Table, i: nat)
    requires Core(h, ordered, t) && i < |t.dibs| && t.dibs[i] == DIB_RAW_REHASH
    requires h.Home(|t.dibs|, t.slots[i].key) == i
    requires u == t.(dibs := t.dibs[i := 0])
    ensures Core(h, ordered, u) && u.Contents() == t.Contents()
    ensures Waiting(u.dibs) == Waiting(t.dibs) - {i}
  {
    hide Linked, KeysDiffer;
    ReassignedDibs(h, t, u, i, 0);
    assert Tracks(u);
    hide RawOk, FreeIsZero, Smooth;
  }

  /** Lifting an entry that waits out of its bucket into IDX_PUT. */
  lemma {:induction false} LiftToPut(h: Hasher, ordered: bool, t: Table, m: Table, u: Table, i: nat, k: nat)
    requires Core(h, ordered, t) && |t.dibs| !in t.order && i < |t.dibs| && t.dibs[i] == DIB_RAW_REHASH
    requires k < |t.order| && t.order[k] == i
    requires Move.requires(t.slots, ordered, i, |t.dibs|) && m == MoveTo(t, ordered, k, |t.dibs|)
    requires u == m.(dibs := t.dibs[i := DIB_RAW_FREE], slots := m.slots[i := ZERO_ENTRY])
    ensures Core(h, ordered, u) && |u.dibs| in u.order && u.Contents() == t.Contents()
    ensures u.slots[|u.dibs|].key == t.slots[i].key
    ensures Waiting(u.dibs) == Waiting(t.dibs) - {i}
  {
    hide Linked, KeysDiffer, Smooth;
    MoveToKeeps(t, ordered, k, |t.dibs|);
    assert i !in u.order;
    ZeroSlot(ordered, m, i);
    assert u.order[k] == |u.dibs|;
    LiftDibs(h, t, u, i);
    LiftTracks(t, u, i, k);
    hide RawOk, FreeIsZero, Tracks, Slots;
  }

  lemma {:induction false} ZeroSlot(ordered: bool, m: Table, i: nat)
    requires Shape(m) && List(ordered, m) && i < |m.dibs| && i !in m.order
    ensures var s := m.slots[i := ZERO_ENTRY];
      Slots(s, m.order) && Contents(s, m.order) == m.Contents() && (ordered ==> Linked(s, m.head, m.tail, m.order))
  {
    var s := m.slots[i := ZERO_ENTRY];
    if ordered {
      forall a: nat | a < |m.order| ensures LinkedAt(s, m.order, a) {
        assert LinkedAt(m.slots, m.order, a);
      }
    }
  }

  lemma {:induction false} LiftDibs(h: Hasher, t: Table, u: Table, i: nat)
    requires Shape(t) && Shape(u) && i < |t.dibs| && t.dibs[i] == DIB_RAW_REHASH && u.dibs == t.dibs[i := DIB_RAW_FREE]
    requires u.slots[i] == ZERO_ENTRY
    requires forall v: nat {:trigger u.slots[v]} :: v < |t.dibs| && v != i ==> u.slots[v].KeyValue() == t.slots[v].KeyValue()
    requires RawOk(h, t) && FreeIsZero(t)
    ensures Dibs(h, u) == Dibs(h, t) && RawOk(h, u) && FreeIsZero(u)
  {
    forall v: nat | v < |t.dibs| && v != i ensures DibAt(h, u, v) == DibAt(h, t, v) && u.slots[v].key == t.slots[v].key {
      assert u.slots[v].KeyValue() == t.slots[v].KeyValue();
    }
    assert Dibs(h, u) == Dibs(h, t);
  }

  lemma {:induction false} LiftTracks(t: Table, u: Table, i: nat, k: nat)
    requires Shape(t) && Shape(u) && Tracks(t) && i < |t.dibs| && k < |t.order| && t.order[k] == i
    requires u.dibs == t.dibs[i := DIB_RAW_FREE] && u.order == t.order[k := |t.dibs|]
    ensures Tracks(u)
  {
    forall v | 0 <= v < |u.dibs| && u.dibs[v] != DIB_RAW_FREE ensures v in u.order {
      var a :| 0 <= a < |t.order| && t.order[a] == v;
      assert u.order[a] == v;
    }
  }

  /** The put loop takes at most one bucket off the waiting ones. */
  lemma {:induction false} PutWaiting(d: seq<DibRaw>, e: seq<DibRaw>, at: nat)
    requires |d| == |e| && at < |d| && e[at] <= DIB_RAW_OVERFLOW && SameUse(d, e[at := d[at]])
    ensures Waiting(e) == Waiting(d) - {at}
  {
  }

  /** With fewer entries than buckets some bucket is free. */
  lemma {:induction false} RoomMeansStop(h: Hasher, ordered: bool, t: Table)
    requires Core(h, ordered, t) && |t.order| < |t.dibs|
    ensures HasStop(h, t)
  {
    var f := SomeIndexUnused(|t.dibs|, t.order);
    assert Dibs(h, t)[f] <= 0;
  }
}
