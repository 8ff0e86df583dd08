/** Why the early exits of a lookup never miss a stored key. */
module Lookup {
  import opened Ring
  import opened HashTable
  import opened RobinHood

  /** The pair at place `a` of the contents has a key equal to `key`. */
  ghost predicate Stores(ops: HashOps, c: seq<Pair>, key: nat, a: int) {
    0 <= a < |c| && ops.ident(c[a].key) == ops.ident(key)
  }

  ghost predicate Absent(ops: HashOps, c: seq<Pair>, key: nat) {
    forall a :: 0 <= a < |c| ==> !Stores(ops, c, key, a)
  }

  /** Bucket `i` holds a key equal to `key`. */
  ghost predicate Matches(ops: HashOps, t: Table, key: nat, i: nat)
    requires i < |t.dibs| <= |t.slots|
  {
    t.dibs[i] != DIB_RAW_FREE && ops.ident(t.slots[i].key) == ops.ident(key)
  }

  /** The lookup loop's state: no bucket before the probe matches. */
  ghost predicate Scanning(h: Hasher, ordered: bool, t: Table, key: nat, idx: nat, distance: nat) {
    Settled(h, ordered, t) && idx < |t.dibs| && distance <= |t.dibs| &&
    var n, home := |t.dibs|, h.Home(|t.dibs|, key);
    (if distance < n then Dist(n, idx, home) == distance else idx == home) &&
    forall i: nat {:trigger Matches(h.ops, t, key, i)} ::
      i < n && Matches(h.ops, t, key, i) ==> Dist(n, i, home) >= distance
  }

  lemma {:induction false} ScanStarts(h: Hasher, ordered: bool, t: Table, key: nat)
    requires Settled(h, ordered, t)
    ensures Scanning(h, ordered, t, key, h.Home(|t.dibs|, key), 0)
  {
  }

  /** A matching bucket is still ahead of the probe only if this bucket is at
      least as poor as the probe is long. */
  lemma {:induction false} MatchIsAhead(h: Hasher, ordered: bool, t: Table, key: nat, idx: nat, distance: nat, i: nat)
    requires Scanning(h, ordered, t, key, idx, distance) && i < |t.dibs| && Matches(h.ops, t, key, i)
    ensures distance < |t.dibs| && t.dibs[idx] <= DIB_RAW_OVERFLOW && Dibs(h, t)[idx] >= distance
    ensures Dibs(h, t)[i] == Dist(|t.dibs|, i, h.Home(|t.dibs|, key))
  {
    var n, home := |t.dibs|, h.Home(|t.dibs|, key);
    assert DibAt(h, t, i) == Dist(n, i, home);
    ProbePathIsPoor(Dibs(h, t), home, i, idx);
  }

  lemma {:induction false} ScanMisses(h: Hasher, ordered: bool, t: Table, key: nat, idx: nat, distance: nat)
    requires Scanning(h, ordered, t, key, idx, distance)
    requires t.dibs[idx] == DIB_RAW_FREE || Dibs(h, t)[idx] < distance
    ensures Absent(h.ops, t.Contents(), key)
  {
    forall a | 0 <= a < |t.order| ensures !Stores(h.ops, t.Contents(), key, a) {
      if Stores(h.ops, t.Contents(), key, a) {
        assert t.order[a] != |t.dibs|;
        assert Matches(h.ops, t, key, t.order[a]);
        MatchIsAhead(h, ordered, t, key, idx, distance, t.order[a]);
      }
    }
  }

  lemma {:induction false} ScanAdvances(h: Hasher, ordered: bool, t: Table, key: nat, idx: nat, distance: nat)
    requires Scanning(h, ordered, t, key, idx, distance)
    requires t.dibs[idx] != DIB_RAW_FREE && Dibs(h, t)[idx] >= distance
    requires Dibs(h, t)[idx] == distance ==> h.ops.ident(t.slots[idx].key) != h.ops.ident(key)
    ensures distance < |t.dibs| && Scanning(h, ordered, t, key, Next(|t.dibs|, idx), distance + 1)
  {
    var n, home := |t.dibs|, h.Home(|t.dibs|, key);
    forall i: nat | i < n && Matches(h.ops, t, key, i) ensures Dist(n, i, home) >= distance + 1 {
      MatchIsAhead(h, ordered, t, key, idx, distance, i);
    }
  }

  /** A found bucket is at one place of the contents. */
  lemma {:induction false} ScanFinds(h: Hasher, ordered: bool, t: Table, key: nat, idx: nat) returns (a: nat)
    requires Settled(h, ordered, t) && idx < |t.dibs| && Matches(h.ops, t, key, idx)
    ensures a < |t.order| && t.order[a] == idx && Stores(h.ops, t.Contents(), key, a)
    ensures t.Contents()[a] == t.slots[idx].KeyValue()
  {
    a :| 0 <= a < |t.order| && t.order[a] == idx;
  }

  lemma {:induction false} AbsentKeepsDiffer(ops: HashOps, c: seq<Pair>, p: Pair)
    requires KeysDiffer(ops, c) && Absent(ops, c, p.key)
    ensures KeysDiffer(ops, c + [p])
  {
    forall a | 0 <= a < |c| ensures ops.ident(c[a].key) != ops.ident(p.key) {
      assert !Stores(ops, c, p.key, a);
    }
  }

  /** The new entry, linked in at the end, waits in IDX_PUT. */
  lemma {:induction false} AppendedCore(h: Hasher, ordered: bool, t: Table, u: Table, key: nat, value: nat)
    requires Settled(h, ordered, t) && Absent(h.ops, t.Contents(), key)
    requires ordered ==> t.tail == IDX_NIL || t.tail < |t.slots|
    requires u.slots == Append(t.slots, ordered, t.tail, |t.dibs|, key, value)
    requires u.dibs == t.dibs && u.order == t.order + [|t.dibs|]
    requires ordered ==> u.head == (if t.head == IDX_NIL then |t.dibs| else t.head) && u.tail == |t.dibs|
    ensures Core(h, ordered, u) && |u.dibs| in u.order
    ensures u.Contents() == t.Contents() + [Pair(key, value)] && u.slots[|u.dibs|].key == key
  {
    hide HasStop, Smooth;
    if ordered { AppendKeepsList(t.slots, t.head, t.tail, t.order, |t.dibs|, key, value); }
    AppendContents(t.slots, ordered, t.tail, t.order, |t.dibs|, key, value);
    AppendedDibs(h, t, u);
    AbsentKeepsDiffer(h.ops, t.Contents(), Pair(key, value));
    assert u.order[|t.order|] == |u.dibs|;
    hide Linked, KeysDiffer, RawOk, FreeIsZero;
  }

  lemma {:induction false} AppendedDibs(h: Hasher, t: Table, u: Table)
    requires Shape(t) && Tracks(t) && Shape(u) && RawOk(h, t) && FreeIsZero(t)
    requires u.dibs == t.dibs && u.order == t.order + [|t.dibs|]
    requires forall v {:trigger u.slots[v]} :: 0 <= v < |t.dibs| ==> u.slots[v].KeyValue() == t.slots[v].KeyValue()
    ensures RawOk(h, u) && FreeIsZero(u) && Dibs(h, u) == Dibs(h, t) && Tracks(u)
  {
    forall v: nat | v < |t.dibs| ensures DibAt(h, u, v) == DibAt(h, t, v) && u.slots[v].key == t.slots[v].key {
      assert u.slots[v].KeyValue() == t.slots[v].KeyValue();
    }
  }

  /** Overwriting an entry with an equal key and any value. */
  lemma {:induction false} OverwriteKeeps(h: Hasher, ordered: bool, t: Table, u: Table, a: nat, key: nat, value: nat)
    requires Settled(h, ordered, t) && Stores(h.ops, t.Contents(), key, a)
    requires u == t.(slots := t.slots[t.order[a] := t.slots[t.order[a]].(key := key, value := value)])
    ensures Settled(h, ordered, u) && u.Contents() == t.Contents()[a := Pair(key, value)]
  {
    hide Smooth;
    assert t.order[a] != |t.dibs|;
    OverwriteList(ordered, t, u, a, key, value);
    OverwriteDibs(h, t, u, a, key, value);
    hide Linked, RawOk, FreeIsZero;
  }

  lemma {:induction false} OverwriteList(ordered: bool, t: Table, u: Table, a: nat, key: nat, value: nat)
    requires Shape(t) && List(ordered, t) && a < |t.order|
    requires u == t.(slots := t.slots[t.order[a] := t.slots[t.order[a]].(key := key, value := value)])
    ensures Shape(u) && List(ordered, u) && u.Contents() == t.Contents()[a := Pair(key, value)]
  {
    if ordered {
      forall b: nat | b < |u.order| ensures LinkedAt(u.slots, u.order, b) {
        assert LinkedAt(t.slots, t.order, b);
      }
    }
  }

  lemma {:induction false} OverwriteDibs(h: Hasher, t: Table, u: Table, a: nat, key: nat, value: nat)
    requires Shape(t) && Shape(u) && Tracks(t) && RawOk(h, t) && FreeIsZero(t) && a < |t.order| && t.order[a] < |t.dibs|
    requires h.ops.ident(t.slots[t.order[a]].key) == h.ops.ident(key)
    requires u == t.(slots := t.slots[t.order[a] := t.slots[t.order[a]].(key := key, value := value)])
    ensures RawOk(h, u) && FreeIsZero(u) && Dibs(h, u) == Dibs(h, t)
  {
    forall v: nat | v < |t.dibs| ensures DibAt(h, u, v) == DibAt(h, t, v) {}
  }
}
