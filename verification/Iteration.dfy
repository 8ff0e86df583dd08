/** Iterators: where an iterator stands, and why removing the current entry,
    which may shift the next one a bucket back, does not lead it astray. */
module Iteration {
  import opened Ring
  import opened HashTable
  import opened RobinHood
  import opened Lookup
  import opened Deletion
  import opened AssocSpec

  /** Place `a` of the list is behind the cursor. The cursor counts places in an
      ordered map and buckets in the others. */
  ghost predicate Behind(t: Table, ordered: bool, cursor: nat, a: nat)
    requires a < |t.order|
  {
    if ordered then a < cursor else t.order[a] < cursor
  }

  ghost function End(t: Table, ordered: bool): nat {
    if ordered then |t.order| else |t.dibs|
  }

  /** Place `a` is the one the cursor is on. */
  ghost predicate On(t: Table, ordered: bool, cursor: nat, a: nat)
    requires a < |t.order|
  {
    if ordered then a == cursor else t.order[a] == cursor
  }

  /** The iterator stands on an entry, knows its key, and its bucket up to one
      backward shift; or it is fresh; or it is at the end. */
  ghost predicate Standing(t: Table, ordered: bool, idx: nat, nextKey: nat, cursor: nat) {
    if idx == IDX_FIRST then cursor == 0
    else if idx == IDX_NIL then cursor == End(t, ordered)
    else
      0 < |t.dibs| && idx < |t.dibs| && (ordered || 0 < idx) &&
      exists a :: StandingOn(t, ordered, idx, nextKey, cursor, a)
  }

  ghost predicate StandingOn(t: Table, ordered: bool, idx: nat, nextKey: nat, cursor: nat, a: int) {
    0 <= a < |t.order| && idx < |t.dibs| < |t.slots| && On(t, ordered, cursor, a) &&
    (t.order[a] == idx || t.order[a] == Prev(|t.dibs|, idx)) && t.order[a] < |t.slots| && t.slots[t.order[a]].key == nextKey
  }

  /** Comparing key pointers tells whether an entry was shifted, unless its key is
      NULL and the bucket it left is free. */
  lemma {:induction false} CompensateIff(h: Hasher, ordered: bool, t: Table, a: nat, idx: nat, key: nat)
    requires Settled(h, ordered, t) && a < |t.order| && idx < |t.dibs|
    requires t.order[a] == idx || t.order[a] == Prev(|t.dibs|, idx)
    requires t.slots[t.order[a]].key == key
    ensures t.order[a] == (if t.slots[idx].key == key then idx else Prev(|t.dibs|, idx))
      <==> key != NULL || t.order[a] == idx || t.dibs[idx] != DIB_RAW_FREE
  {
    hide Smooth, RawOk, Linked, HasStop;
    if t.slots[idx].key == key && t.dibs[idx] != DIB_RAW_FREE {
      var b :| 0 <= b < |t.order| && t.order[b] == idx;
      SameKeySamePlace(h.ops, t.Contents(), a, b);
    }
  }

  /** The entry at place `a` is the last one to be shifted when the one at place `b` goes. */
  ghost predicate LastShifted(t: Table, a: nat, b: nat) {
    a < |t.order| && b < |t.order| && t.order[a] < |t.dibs| && StopBehind(t.dibs, t.order[b], Next(|t.dibs|, t.order[a]))
  }

  /** Where the comparison of key pointers looks for an entry after another one was removed. */
  lemma {:induction false} FoundAgain(h: Hasher, ordered: bool, t: Table, c: seq<Pair>, was: Table, a: nat, b: nat, key: nat)
    requires Settled(h, ordered, t) && |was.order| == |c| && |was.dibs| == |t.dibs| && a < |c| && b < |c| && a != b
    requires t.Contents() == Without(c, b) && c[a].key == key && Settled(h, ordered, was)
    requires StayedOrShifted(|t.dibs|, Without(was.order, b), t.order) && FreesLast(was.dibs, t.dibs, was.order[b])
    ensures Shift(a, b) < |t.order| && was.order[a] < |t.dibs| < |t.slots|
    ensures var idx := if t.slots[was.order[a]].key == key then was.order[a] else Prev(|t.dibs|, was.order[a]);
      && (t.order[Shift(a, b)] == idx <==> t.dibs[idx] != DIB_RAW_FREE)
      && (t.dibs[idx] == DIB_RAW_FREE <==> key == NULL && LastShifted(was, a, b))
  {
    hide Smooth, RawOk, Linked, HasStop, KeysDiffer, FreesLast;
    var k, at := Shift(a, b), was.order[a];
    assert Without(was.order, b)[k] == at && Without(c, b)[k] == c[a];
    assert t.Contents()[k] == t.slots[t.order[k]].KeyValue();
    CompensateIff(h, ordered, t, k, at, key);
    FreedIff(was, t, a, b);
  }

  lemma {:induction false} FreedIff(was: Table, t: Table, a: nat, b: nat)
    requires Shape(was) && Tracks(was) && a < |was.order| && b < |was.order| && was.order[a] < |was.dibs|
    requires FreesLast(was.dibs, t.dibs, was.order[b])
    ensures t.dibs[was.order[a]] == DIB_RAW_FREE <==> LastShifted(was, a, b)
  {
    var d, at := was.dibs, was.order[a];
    var right :| StopBehind(d, was.order[b], right) &&
      forall i :: 0 <= i < |d| ==> (t.dibs[i] == DIB_RAW_FREE <==> d[i] == DIB_RAW_FREE || i == Prev(|d|, right));
    assert d[at] != DIB_RAW_FREE;
    if LastShifted(was, a, b) { StopIsUnique(d, was.order[b], right, Next(|d|, at)); }
    NextPrev(|d|, at, right);
  }

  lemma {:induction false} NextPrev(n: nat, a: nat, b: nat)
    requires a < n && b < n
    ensures a == Prev(n, b) <==> Next(n, a) == b
  {
  }

  lemma {:induction false} SameKeySamePlace(ops: HashOps, c: seq<Pair>, a: nat, b: nat)
    requires KeysDiffer(ops, c) && a < |c| && b < |c| && c[a].key == c[b].key
    ensures a == b
  {
  }

  /** The iterator stands exactly on the bucket it remembers. */
  ghost predicate Exact(t: Table, ordered: bool, idx: nat, nextKey: nat, cursor: nat) {
    Standing(t, ordered, idx, nextKey, cursor) && idx != IDX_FIRST &&
    (idx != IDX_NIL ==> forall b :: StandingOn(t, ordered, idx, nextKey, cursor, b) ==> t.order[b] == idx)
  }

  /** What is behind the cursor once place `a` is gone was behind it before. */
  ghost predicate NothingPassed(t: Table, u: Table, ordered: bool, cursor: nat, cursor': nat, a: nat)
    requires |u.order| == |t.order| - 1
  {
    forall b: nat :: b < |u.order| && Behind(u, ordered, cursor', b) ==> Behind(t, ordered, cursor, if b < a then b else b + 1)
  }

  /** The entry the iterator stands on is still there, at most one bucket back. */
  lemma {:induction false} RemoveKeepsNext(t: Table, u: Table, ordered: bool, a: nat, b: nat, idx: nat, nextKey: nat, cursor: nat)
    requires Shape(t) && Shape(u) && |u.dibs| == |t.dibs| && a < |t.order| && idx != IDX_FIRST
    requires Behind(t, ordered, cursor, a) && StandingOn(t, ordered, idx, nextKey, cursor, b) && t.order[b] == idx
    requires StayedOrShifted(|t.dibs|, Without(t.order, a), u.order) && u.Contents() == Without(t.Contents(), a)
    ensures b != a && Shift(b, a) < |u.order|
    ensures StandingOn(u, ordered, idx, nextKey, if ordered then Shift(b, a) else u.order[Shift(b, a)], Shift(b, a))
  {
    var b' := Shift(b, a);
    assert Without(t.order, a)[b'] == idx;
    assert u.Contents()[b'] == t.Contents()[b];
    assert u.Contents()[b'] == u.slots[u.order[b']].KeyValue();
  }

  /** In an ordered map the places behind the cursor are the same. */
  lemma {:induction false} RemoveOrdered(t: Table, u: Table, a: nat, cursor: nat, b: nat)
    requires |u.order| == |t.order| - 1 && a < cursor && cursor == b < |t.order|
    ensures NothingPassed(t, u, true, cursor, Shift(b, a), a)
  {
  }

  /** In a plain map no bucket behind the new cursor holds an entry that was ahead. */
  lemma {:induction false} RemovePlain(t: Table, u: Table, a: nat, idx: nat, b: nat, cursor: nat)
    requires Shape(t) && a < |t.order| && t.order[a] < cursor && b < |t.order| && b != a && t.order[b] == idx == cursor && 0 < idx < |t.dibs|
    requires StayedOrShifted(|t.dibs|, Without(t.order, a), u.order)
    requires u.order[Shift(b, a)] == idx || u.order[Shift(b, a)] == idx - 1
    requires forall c :: 0 <= c < |u.order| && c != Shift(b, a) ==> u.order[c] != u.order[Shift(b, a)]
    ensures NothingPassed(t, u, false, cursor, u.order[Shift(b, a)], a)
  {
    var n, b', w := |t.dibs|, Shift(b, a), Without(t.order, a);
    forall c: nat | c < |u.order| && u.order[c] < u.order[b'] ensures t.order[if c < a then c else c + 1] < cursor {
      assert w[c] == t.order[if c < a then c else c + 1];
      assert w[c] != idx;
      assert u.order[c] == w[c] || u.order[c] == Prev(n, w[c]);
    }
  }

  /** Removing the entry at place `a`, just behind the cursor, leaves the iterator
      standing on the same next entry, and puts nothing unvisited behind it. */
  lemma {:induction false} RemoveKeepsStanding(t: Table, u: Table, ordered: bool, a: nat, idx: nat, nextKey: nat, cursor: nat)
    returns (cursor': nat)
    requires Shape(t) && Shape(u) && |u.dibs| == |t.dibs| && a < |t.order|
    requires Behind(t, ordered, cursor, a) && Exact(t, ordered, idx, nextKey, cursor)
    requires StayedOrShifted(|t.dibs|, Without(t.order, a), u.order) && u.Contents() == Without(t.Contents(), a)
    ensures Standing(u, ordered, idx, nextKey, cursor')
    ensures NothingPassed(t, u, ordered, cursor, cursor', a)
    ensures ordered && cursor == a + 1 ==> cursor' == a
  {
    assert |u.order| == |t.order| - 1;
    hide StayedOrShifted;
    if idx == IDX_NIL {
      cursor' := End(u, ordered);
      AtTheEnd(t, u, ordered, cursor, a);
    } else {
      var b: nat :| StandingOn(t, ordered, idx, nextKey, cursor, b);
      RemoveKeepsNext(t, u, ordered, a, b, idx, nextKey, cursor);
      var b' := Shift(b, a);
      cursor' := if ordered then b' else u.order[b'];
      if ordered {
        RemoveOrdered(t, u, a, cursor, b);
      } else {
        RemovePlain(t, u, a, idx, b, cursor);
      }
      hide StandingOn, NothingPassed;
    }
  }

  lemma {:induction false} AtTheEnd(t: Table, u: Table, ordered: bool, cursor: nat, a: nat)
    requires a < |t.order| && cursor == End(t, ordered) && |u.dibs| == |t.dibs|
    requires StayedOrShifted(|t.dibs|, Without(t.order, a), u.order)
    ensures NothingPassed(t, u, ordered, cursor, End(u, ordered), a)
  {
    var w := Without(t.order, a);
    assert forall c: nat :: c < |w| ==> w[c] == t.order[if c < a then c else c + 1] && w[c] < |t.dibs|;
  }

  /** Nothing but place `a` lies between the two cursors. */
  ghost predicate Steps(t: Table, ordered: bool, cursor: nat, cursor': nat, a: nat) {
    a < |t.order| && !Behind(t, ordered, cursor, a) && Behind(t, ordered, cursor', a) && cursor < cursor' <= End(t, ordered) &&
    forall b: nat :: b < |t.order| && Behind(t, ordered, cursor', b) ==> Behind(t, ordered, cursor, b) || b == a
  }

  lemma {:induction false} StepOrdered(t: Table, k: nat)
    requires Shape(t) && k < |t.order|
    ensures Steps(t, true, k, k + 1, k)
  {
  }

  lemma {:induction false} StandOrdered(h: Hasher, t: Table, k: nat)
    requires Settled(h, true, t) && k <= |t.order|
    ensures var idx := NextOf(t.order, k - 1);
      Exact(t, true, idx, if idx < |t.slots| then t.slots[idx].key else 0, k)
  {
    hide Smooth, RawOk, Linked, HasStop, KeysDiffer;
    if k < |t.order| {
      assert t.order[k] < |t.dibs|;
      assert StandingOn(t, true, t.order[k], t.slots[t.order[k]].key, k, k);
    }
  }

  /** The first used bucket at or behind `from`. */
  ghost predicate FirstUsed(dibs: seq<DibRaw>, from: nat, r: nat) {
    (forall i :: from <= i < |dibs| && i < r ==> dibs[i] == DIB_RAW_FREE) &&
    (r == IDX_NIL || (from <= r < |dibs| && dibs[r] != DIB_RAW_FREE))
  }

  /** In bucket order: from bucket `idx` to the next used one. */
  lemma {:induction false} StepPlain(h: Hasher, t: Table, cursor: nat, idx: nat, next: nat) returns (a: nat, cursor': nat)
    requires Settled(h, false, t) && cursor <= idx < |t.dibs| && t.dibs[idx] != DIB_RAW_FREE
    requires forall i :: cursor <= i < idx ==> t.dibs[i] == DIB_RAW_FREE
    requires FirstUsed(t.dibs, idx + 1, next)
    ensures a < |t.order| && t.order[a] == idx && Steps(t, false, cursor, cursor', a)
    ensures Exact(t, false, next, if next < |t.slots| then t.slots[next].key else 0, cursor')
  {
    hide Smooth, RawOk, Linked, HasStop, KeysDiffer;
    a :| 0 <= a < |t.order| && t.order[a] == idx;
    cursor' := if next == IDX_NIL then |t.dibs| else next;
    forall b: nat | b < |t.order| && Behind(t, false, cursor', b) ensures Behind(t, false, cursor, b) || b == a {
      assert t.order[b] < |t.dibs| && t.dibs[t.order[b]] != DIB_RAW_FREE;
    }
    if next != IDX_NIL {
      var b :| 0 <= b < |t.order| && t.order[b] == next;
      assert StandingOn(t, false, next, t.slots[next].key, cursor', b);
    }
  }

  lemma {:induction false} HeadIsFirst(h: Hasher, t: Table)
    requires Settled(h, true, t)
    ensures t.head == if t.order == [] then IDX_NIL else t.order[0]
    ensures t.order != [] ==> t.head < |t.dibs|
  {
    hide Smooth, RawOk, HasStop, KeysDiffer, FreeIsZero;
  }

  lemma {:induction false} NextIsNext(h: Hasher, t: Table, k: nat)
    requires Settled(h, true, t) && k < |t.order|
    ensures t.slots[t.order[k]].next == NextOf(t.order, k)
    ensures NextOf(t.order, k) != IDX_NIL ==> NextOf(t.order, k) < |t.dibs|
  {
    hide Smooth, RawOk, HasStop, KeysDiffer, FreeIsZero;
    assert LinkedAt(t.slots, t.order, k);
    if k + 1 < |t.order| { assert t.order[k + 1] <= |t.dibs|; }
  }

  /** Everything behind the cursor satisfies `known`. */
  ghost predicate AllBehind(t: Table, ordered: bool, cursor: nat, known: nat -> bool)
    requires Shape(t)
  {
    forall b: nat {:trigger Behind(t, ordered, cursor, b)} ::
      b < |t.order| && Behind(t, ordered, cursor, b) ==> known(t.Contents()[b].key)
  }

  lemma {:induction false} SkipKeepsBehind(t: Table, ordered: bool, cursor: nat, cursor': nat, a: nat, known: nat -> bool)
    requires Shape(t) && Steps(t, ordered, cursor, cursor', a) && AllBehind(t, ordered, cursor, known)
    requires known(t.Contents()[a].key)
    ensures AllBehind(t, ordered, cursor', known)
  {
  }

  lemma {:induction false} RemoveKeepsBehind(t: Table, u: Table, ordered: bool, cursor: nat, cursor': nat, cursor'': nat, a: nat, known: nat -> bool)
    requires Shape(t) && Shape(u) && Steps(t, ordered, cursor, cursor', a) && AllBehind(t, ordered, cursor, known)
    requires u.Contents() == Without(t.Contents(), a) && NothingPassed(t, u, ordered, cursor', cursor'', a)
    ensures AllBehind(u, ordered, cursor'', known)
  {
    forall b: nat | b < |u.order| && Behind(u, ordered, cursor'', b) ensures known(u.Contents()[b].key) {
      var d := if b < a then b else b + 1;
      assert Behind(t, ordered, cursor', d);
      assert Behind(t, ordered, cursor, d);
    }
  }

  lemma {:induction false} FreshAllBehind(t: Table, ordered: bool, known: nat -> bool)
    requires Shape(t)
    ensures AllBehind(t, ordered, 0, known)
  {
  }

  lemma {:induction false} AllKnown(t: Table, ordered: bool, cursor: nat, known: nat -> bool)
    requires Shape(t) && AllBehind(t, ordered, cursor, known)
    requires forall b: nat :: b < |t.order| ==> Behind(t, ordered, cursor, b)
    ensures forall j :: 0 <= j < |t.order| ==> known(t.Contents()[j].key)
  {
    forall j | 0 <= j < |t.order| ensures known(t.Contents()[j].key) {
      assert Behind(t, ordered, cursor, j);
    }
  }

  /** What was seen stays seen, and the entry just visited is seen if it is kept. */
  lemma {:induction false} SeenGrows(c: seq<Pair>, visited: seq<Pair>, keep: Pair -> bool, now: seq<Pair>, a: nat, t: Table, ordered: bool, cursor: nat)
    requires Shape(t) && now == t.Contents() && a < |now| && now[a] in c
    requires AllBehind(t, ordered, cursor, SeenKeys(c, visited, keep))
    ensures AllBehind(t, ordered, cursor, SeenKeys(c, visited + [now[a]], keep))
    ensures keep(now[a]) ==> SeenKeys(c, visited + [now[a]], keep)(now[a].key)
  {
    forall key: nat | SeenKeys(c, visited, keep)(key) ensures SeenKeys(c, visited + [now[a]], keep)(key) {
      var p :| p in c && p in visited && keep(p) && p.key == key;
      assert p in visited + [now[a]];
    }
    assert now[a] in visited + [now[a]];
  }

  lemma {:induction false} ExactStands(t: Table, ordered: bool, idx: nat, nextKey: nat, cursor: nat)
    requires Exact(t, ordered, idx, nextKey, cursor)
    ensures Standing(t, ordered, idx, nextKey, cursor)
  {
  }
}
