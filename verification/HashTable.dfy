/** The storage of a hashmap as a value, what `bucket_move_entry` does to it, and
    the insertion-order list threaded through it. */
module HashTable {
  const NULL: nat := 0
  const IDX_FIRST: nat := 0xffff_fffe
  const IDX_NIL: nat := 0xffff_ffff

  /** An entry: a key pointer, a value pointer and, in ordered maps, two links. */
  datatype Entry = Entry(key: nat, value: nat, next: nat, prev: nat) {
    function KeyValue(): Pair {
      Pair(key, value)
    }
  }

  datatype Pair = Pair(key: nat, value: nat)

  ghost predicate KeysNonNull(c: seq<Pair>) {
    forall a :: 0 <= a < |c| ==> c[a].key != NULL
  }

  const ZERO_ENTRY := Entry(NULL, NULL, 0, 0)

  /** What the list visits, first to last. */
  function Contents(slots: seq<Entry>, order: seq<nat>): (c: seq<Pair>)
    requires Slots(slots, order)
    ensures |c| == |order|
  {
    seq(|order|, a requires 0 <= a < |order| => slots[order[a]].KeyValue())
  }

  /** `order` names distinct slots. */
  ghost predicate Slots(slots: seq<Entry>, order: seq<nat>) {
    |slots| < IDX_FIRST &&
    (forall a :: 0 <= a < |order| ==> order[a] < |slots|) &&
    (forall a, b :: 0 <= a < b < |order| ==> order[a] != order[b])
  }

  ghost function NextOf(order: seq<nat>, a: int): nat {
    if 0 <= a + 1 < |order| then order[a + 1] else IDX_NIL
  }

  ghost function PrevOf(order: seq<nat>, a: int): nat {
    if 0 <= a - 1 < |order| then order[a - 1] else IDX_NIL
  }

  ghost predicate LinkedAt(slots: seq<Entry>, order: seq<nat>, a: nat)
    requires Slots(slots, order) && a < |order|
  {
    slots[order[a]].next == NextOf(order, a) && slots[order[a]].prev == PrevOf(order, a)
  }

  /** The links, the head and the tail spell out exactly `order`. */
  ghost predicate Linked(slots: seq<Entry>, head: nat, tail: nat, order: seq<nat>)
    requires Slots(slots, order)
  {
    head == NextOf(order, -1) && tail == PrevOf(order, |order|) &&
    forall a: nat :: a < |order| ==> LinkedAt(slots, order, a)
  }

  /** `bucket_move_entry` on the slots: copies the entry and points its
      neighbours at the new place. */
  function Move(slots: seq<Entry>, ordered: bool, from: nat, to: nat): (r: seq<Entry>)
    requires from < |slots| && to < |slots|
    requires ordered ==> slots[from].next == IDX_NIL || slots[from].next < |slots|
    requires ordered ==> slots[from].prev == IDX_NIL || slots[from].prev < |slots|
    ensures |r| == |slots|
  {
    var e := slots[from];
    var s1 := slots[to := e];
    if !ordered then s1 else
      var s2 := if e.next != IDX_NIL then s1[e.next := s1[e.next].(prev := to)] else s1;
      if e.prev != IDX_NIL then s2[e.prev := s2[e.prev].(next := to)] else s2
  }

  lemma {:induction false} MoveAt(slots: seq<Entry>, ordered: bool, from: nat, to: nat, v: nat)
    requires Move.requires(slots, ordered, from, to) && v < |slots| < IDX_FIRST
    requires ordered ==> slots[from].next != to && slots[from].prev != to
    ensures var r := Move(slots, ordered, from, to);
      && r[v].KeyValue() == slots[if v == to then from else v].KeyValue()
      && (!ordered && v != to ==> r[v] == slots[v])
      && (ordered ==> r[v].next == if v == to then slots[from].next else if v == slots[from].prev then to else slots[v].next)
      && (ordered ==> r[v].prev == if v == to then slots[from].prev else if v == slots[from].next then to else slots[v].prev)
  {
  }

  /** Moving a listed entry to an unlisted slot keeps what the list visits. */
  lemma {:induction false} MoveKeepsContents(slots: seq<Entry>, head: nat, tail: nat, ordered: bool, order: seq<nat>, k: nat, to: nat)
    requires Slots(slots, order) && k < |order| && to < |slots| && to !in order
    requires ordered ==> Linked(slots, head, tail, order)
    ensures Move.requires(slots, ordered, order[k], to)
    ensures var r := Move(slots, ordered, order[k], to);
      && Slots(r, order[k := to])
      && Contents(r, order[k := to]) == Contents(slots, order)
      && forall v: nat {:trigger r[v]} :: v < |slots| ==> r[v].KeyValue() == slots[if v == to then order[k] else v].KeyValue()
  {
    if ordered { assert LinkedAt(slots, order, k); }
    var r := Move(slots, ordered, order[k], to);
    forall v: nat | v < |slots| ensures r[v].KeyValue() == slots[if v == to then order[k] else v].KeyValue() {
      MoveAt(slots, ordered, order[k], to, v);
    }
  }

  lemma {:induction false} MoveKeepsLinkAt(slots: seq<Entry>, order: seq<nat>, k: nat, to: nat, a: nat)
    requires Slots(slots, order) && k < |order| && to < |slots| && to !in order && a < |order|
    requires LinkedAt(slots, order, a) && LinkedAt(slots, order, k)
    requires Slots(Move(slots, true, order[k], to), order[k := to])
    ensures LinkedAt(Move(slots, true, order[k], to), order[k := to], a)
  {
    var v := order[k := to][a];
    MoveAt(slots, true, order[k], to, v);
  }

  /** ... and keeps the links, with the new slot in the place of the old one. */
  lemma {:induction false} MoveKeepsList(slots: seq<Entry>, head: nat, tail: nat, order: seq<nat>, k: nat, to: nat)
    requires Slots(slots, order) && k < |order| && to < |slots| && to !in order
    requires Linked(slots, head, tail, order)
    ensures LinkedAt(slots, order, k) && Slots(Move(slots, true, order[k], to), order[k := to])
    ensures Linked(Move(slots, true, order[k], to), if head == order[k] then to else head,
                   if tail == order[k] then to else tail, order[k := to])
  {
    assert LinkedAt(slots, order, k);
    var r, p := Move(slots, true, order[k], to), order[k := to];
    forall a: nat | a < |order| ensures LinkedAt(r, p, a) {
      MoveKeepsLinkAt(slots, order, k, to, a);
    }
  }

  // ----- taking an entry out of the list -----

  function Without<X>(s: seq<X>, a: nat): (r: seq<X>)
    requires a < |s|
    ensures |r| == |s| - 1
    ensures forall b :: 0 <= b < a ==> r[b] == s[b]
    ensures forall b :: a <= b < |r| ==> r[b] == s[b + 1]
  {
    s[..a] + s[a + 1..]
  }

  /** The neighbours of `slots[idx]` linked to each other. */
  function Unlink(slots: seq<Entry>, idx: nat): (r: seq<Entry>)
    requires idx < |slots|
    requires slots[idx].next == IDX_NIL || slots[idx].next < |slots|
    requires slots[idx].prev == IDX_NIL || slots[idx].prev < |slots|
    ensures |r| == |slots|
    ensures forall v {:trigger r[v]} :: 0 <= v < |slots| ==> r[v].KeyValue() == slots[v].KeyValue()
  {
    var e := slots[idx];
    var s1 := if e.next != IDX_NIL then slots[e.next := slots[e.next].(prev := e.prev)] else slots;
    if e.prev != IDX_NIL then s1[e.prev := s1[e.prev].(next := e.next)] else s1
  }

  lemma {:induction false} UnlinkAt(slots: seq<Entry>, idx: nat, v: nat)
    requires Unlink.requires(slots, idx) && v < |slots| < IDX_FIRST
    requires slots[idx].next != idx && slots[idx].prev != idx
    ensures var r := Unlink(slots, idx);
      && r[v].next == (if v == slots[idx].prev then slots[idx].next else slots[v].next)
      && r[v].prev == (if v == slots[idx].next then slots[idx].prev else slots[v].prev)
  {
  }

  lemma {:induction false} UnlinkKeepsLinkAt(slots: seq<Entry>, order: seq<nat>, a: nat, b: nat)
    requires Slots(slots, order) && a < |order| && b < |order| && b != a
    requires LinkedAt(slots, order, a) && LinkedAt(slots, order, b)
    requires Slots(Unlink(slots, order[a]), Without(order, a))
    ensures LinkedAt(Unlink(slots, order[a]), Without(order, a), if b < a then b else b - 1)
  {
    UnlinkAt(slots, order[a], order[b]);
  }

  lemma {:induction false} UnlinkKeepsSlots(slots: seq<Entry>, order: seq<nat>, a: nat)
    requires Slots(slots, order) && a < |order| && LinkedAt(slots, order, a)
    ensures Slots(Unlink(slots, order[a]), Without(order, a))
  {
  }

  lemma {:induction false} UnlinkKeepsLinks(slots: seq<Entry>, order: seq<nat>, a: nat, c: nat)
    requires Slots(slots, order) && a < |order| && c < |order| - 1 && LinkedAt(slots, order, a)
    requires forall b: nat {:trigger LinkedAt(slots, order, b)} :: b < |order| ==> LinkedAt(slots, order, b)
    requires Slots(Unlink(slots, order[a]), Without(order, a))
    ensures LinkedAt(Unlink(slots, order[a]), Without(order, a), c)
  {
    var b := if c < a then c else c + 1;
    assert LinkedAt(slots, order, b);
    UnlinkKeepsLinkAt(slots, order, a, b);
  }

  lemma {:induction false} UnlinkKeepsList(slots: seq<Entry>, head: nat, tail: nat, order: seq<nat>, a: nat)
    requires Slots(slots, order) && a < |order| && Linked(slots, head, tail, order)
    ensures LinkedAt(slots, order, a) && Slots(Unlink(slots, order[a]), Without(order, a))
    ensures var e := slots[order[a]];
      Linked(Unlink(slots, order[a]), if e.prev == IDX_NIL then e.next else head,
             if e.next == IDX_NIL then e.prev else tail, Without(order, a))
  {
    assert LinkedAt(slots, order, a);
    UnlinkKeepsSlots(slots, order, a);
    var r, p := Unlink(slots, order[a]), Without(order, a);
    forall c: nat | c < |p| ensures LinkedAt(r, p, c) {
      UnlinkKeepsLinks(slots, order, a, c);
    }
    hide Unlink;
  }

  // ----- adding an entry at the end of the list -----

  /** The entry with this key and value put into slot `p`, behind the tail. */
  function Append(slots: seq<Entry>, ordered: bool, tail: nat, p: nat, key: nat, value: nat): (r: seq<Entry>)
    requires p < |slots| && (ordered ==> tail == IDX_NIL || tail < |slots|)
    ensures |r| == |slots|
  {
    var s1 := slots[p := Entry(key, value, IDX_NIL, tail)];
    if ordered && tail != IDX_NIL then s1[tail := s1[tail].(next := p)] else s1
  }

  lemma {:induction false} AppendContents(slots: seq<Entry>, ordered: bool, tail: nat, order: seq<nat>, p: nat, key: nat, value: nat)
    requires Slots(slots, order) && p < |slots| && p !in order && (ordered ==> tail == IDX_NIL || tail in order)
    ensures ordered ==> tail == IDX_NIL || tail < |slots|
    ensures var r := Append(slots, ordered, tail, p, key, value);
      && Slots(r, order + [p]) && r[p].KeyValue() == Pair(key, value)
      && (forall v {:trigger r[v]} :: 0 <= v < |slots| && v != p ==> r[v].KeyValue() == slots[v].KeyValue())
      && Contents(r, order + [p]) == Contents(slots, order) + [Pair(key, value)]
  {
    var r := Append(slots, ordered, tail, p, key, value);
    forall a | 0 <= a < |order| ensures r[order[a]].KeyValue() == slots[order[a]].KeyValue() {
      assert order[a] != p;
    }
  }

  lemma {:induction false} AppendKeepsList(slots: seq<Entry>, head: nat, tail: nat, order: seq<nat>, p: nat, key: nat, value: nat)
    requires Slots(slots, order) && p < |slots| && p !in order && Linked(slots, head, tail, order)
    ensures tail == IDX_NIL || tail in order
    ensures Slots(slots, order + [p])
    ensures Linked(Append(slots, true, tail, p, key, value), if head == IDX_NIL then p else head, p, order + [p])
  {
    var r, o := Append(slots, true, tail, p, key, value), order + [p];
    forall a: nat | a < |o| ensures LinkedAt(r, o, a) {
      if a < |order| { assert LinkedAt(slots, order, a); }
    }
  }
}
