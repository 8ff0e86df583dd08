/** What a hashmap is for: an association list without equal keys, read as a
    finite map, and the results the operations report. */
module AssocSpec {
  import opened HashTable
  import opened RobinHood
  import opened Lookup

  const EEXIST := -17
  const ENOENT := -2
  const ENOMEM := -12

  /** The place of the pair whose key equals `key`, or -1. */
  function Find(ops: HashOps, c: seq<Pair>, key: nat): (a: int)
    ensures -1 <= a < |c|
    ensures a >= 0 ==> Stores(ops, c, key, a)
    ensures a < 0 ==> Absent(ops, c, key)
  {
    if c == [] then -1
    else if ops.ident(c[|c| - 1].key) == ops.ident(key) then |c| - 1
    else
      var front := c[..|c| - 1];
      assert forall b :: 0 <= b < |front| ==> (Stores(ops, c, key, b) <==> Stores(ops, front, key, b));
      Find(ops, front, key)
  }

  lemma {:induction false} FindUnique(ops: HashOps, c: seq<Pair>, key: nat, a: nat)
    requires KeysDiffer(ops, c) && Stores(ops, c, key, a)
    ensures Find(ops, c, key) == a
  {
    var b := Find(ops, c, key);
    assert b >= 0;
  }

  lemma {:induction false} WithoutAbsent(ops: HashOps, c: seq<Pair>, key: nat, a: nat)
    requires Absent(ops, c, key) && a < |c|
    ensures Absent(ops, Without(c, a), key)
  {
    forall b | 0 <= b < |c| - 1 ensures !Stores(ops, Without(c, a), key, b) {
      assert !Stores(ops, c, key, if b < a then b else b + 1);
    }
  }

  lemma {:induction false} WithoutRemovesKey(ops: HashOps, c: seq<Pair>, key: nat, a: nat)
    requires KeysDiffer(ops, c) && Stores(ops, c, key, a)
    ensures Absent(ops, Without(c, a), key)
  {
    forall b | 0 <= b < |c| - 1 ensures !Stores(ops, Without(c, a), key, b) {
      var d := if b < a then b else b + 1;
      assert ops.ident(c[d].key) != ops.ident(c[a].key);
    }
  }

  /** Place of `a` after place `b` is taken out. */
  function Shift(a: nat, b: nat): nat
    requires a != b
  {
    if a < b then a else a - 1
  }

  function Filter(c: seq<Pair>, keep: Pair -> bool): seq<Pair> {
    if c == [] then []
    else Filter(c[..|c| - 1], keep) + if keep(c[|c| - 1]) then [c[|c| - 1]] else []
  }

  /** `hashmap_remove_and_replace`: the entries of the old and of the new key go,
      the new one comes last. */
  function Replaced(ops: HashOps, c: seq<Pair>, oldKey: nat, newKey: nat, value: nat): seq<Pair> {
    var a, b := Find(ops, c, oldKey), Find(ops, c, newKey);
    if a < 0 then c
    else
      var rest := if b < 0 || b == a then Without(c, a) else Without(Without(c, b), Shift(a, b));
      rest + [Pair(newKey, value)]
  }

  /** Where a loop over the contents `c` is that has kept some of what it visited:
      `now` is the contents, `cursor` the place of the next entry. */
  ghost predicate Visited(c: seq<Pair>, visited: seq<Pair>, keep: Pair -> bool, now: seq<Pair>, cursor: nat) {
    |visited| <= |c| && visited == c[..|visited|] && cursor == |Filter(visited, keep)| &&
    now == Filter(visited, keep) + c[|visited|..]
  }

  lemma {:induction false} VisitedStarts(c: seq<Pair>, keep: Pair -> bool)
    ensures Visited(c, [], keep, c, 0)
  {
  }

  lemma {:induction false} VisitedNext(c: seq<Pair>, visited: seq<Pair>, keep: Pair -> bool, now: seq<Pair>, cursor: nat)
    requires Visited(c, visited, keep, now, cursor) && cursor < |now|
    ensures |visited| < |c| && now[cursor] == c[|visited|]
    ensures var more := visited + [c[|visited|]];
      if keep(now[cursor]) then Visited(c, more, keep, now, cursor + 1)
      else Visited(c, more, keep, Without(now, cursor), cursor)
  {
    var more := visited + [c[|visited|]];
    assert more[..|more| - 1] == visited;
    assert c[|visited|..] == [c[|visited|]] + c[|more|..];
  }

  lemma {:induction false} FilterKeepsNonNull(c: seq<Pair>, keep: Pair -> bool)
    requires KeysNonNull(c)
    ensures KeysNonNull(Filter(c, keep))
  {
    if c != [] { FilterKeepsNonNull(c[..|c| - 1], keep); }
  }

  lemma {:induction false} VisitedNonNull(c: seq<Pair>, visited: seq<Pair>, keep: Pair -> bool, now: seq<Pair>, cursor: nat)
    requires Visited(c, visited, keep, now, cursor) && KeysNonNull(c)
    ensures KeysNonNull(now) && (cursor == |now| <==> |visited| == |c|)
    ensures |visited| == |c| ==> visited == c && now == Filter(c, keep)
  {
    FilterKeepsNonNull(visited, keep);
  }

  // ----- a loop in any order -----

  /** Where a loop over `c` in any order is: `now` is what is left, all that is gone
      was visited, and nothing to be kept is gone. */
  ghost predicate Looping(c: seq<Pair>, visited: seq<Pair>, keep: Pair -> bool, now: seq<Pair>) {
    Filter(now, keep) == Filter(c, keep) &&
    (forall p :: p in c ==> p in visited || p in now) && (forall p :: p in now ==> p in c) && forall p :: p in visited ==> p in c
  }

  /** The keys of what was visited and is kept. */
  ghost function SeenKeys(c: seq<Pair>, visited: seq<Pair>, keep: Pair -> bool): nat -> bool {
    (key: nat) => exists p :: p in c && p in visited && keep(p) && p.key == key
  }

  lemma {:induction false} FilterWithout(c: seq<Pair>, keep: Pair -> bool, a: nat)
    requires a < |c| && !keep(c[a])
    ensures Filter(Without(c, a), keep) == Filter(c, keep)
  {
    var w, front := Without(c, a), c[..|c| - 1];
    if a == |c| - 1 {
      assert w == front;
    } else {
      FilterWithout(front, keep, a);
      assert w[..|w| - 1] == Without(front, a) && w[|w| - 1] == c[|c| - 1];
    }
  }

  lemma {:induction false} FilterAll(c: seq<Pair>, keep: Pair -> bool)
    requires forall i :: 0 <= i < |c| ==> keep(c[i])
    ensures Filter(c, keep) == c
  {
    if c != [] { FilterAll(c[..|c| - 1], keep); }
  }

  lemma {:induction false} WithoutMembers(c: seq<Pair>, a: nat, p: Pair)
    requires a < |c|
    ensures p in Without(c, a) ==> p in c
    ensures p in c ==> p == c[a] || p in Without(c, a)
  {
    var w := Without(c, a);
    if p in c && p != c[a] {
      var i :| 0 <= i < |c| && c[i] == p;
      assert w[if i < a then i else i - 1] == p;
    }
  }

  lemma {:induction false} LoopVisits(c: seq<Pair>, visited: seq<Pair>, keep: Pair -> bool, now: seq<Pair>, a: nat)
    requires Looping(c, visited, keep, now) && a < |now|
    ensures now[a] in c && Looping(c, visited + [now[a]], keep, if keep(now[a]) then now else Without(now, a))
  {
    if !keep(now[a]) {
      FilterWithout(now, keep, a);
      forall p ensures (p in Without(now, a) ==> p in now) && (p in now ==> p == now[a] || p in Without(now, a)) {
        WithoutMembers(now, a, p);
      }
    }
    hide Filter, Without;
  }

  /** Once everything that is left was visited and is kept, the loop is done. */
  lemma {:induction false} LoopEnds(ops: HashOps, c: seq<Pair>, visited: seq<Pair>, keep: Pair -> bool, now: seq<Pair>)
    requires Looping(c, visited, keep, now) && KeysDiffer(ops, c)
    requires forall j :: 0 <= j < |now| ==> SeenKeys(c, visited, keep)(now[j].key)
    ensures now == Filter(c, keep) && forall p :: p in c ==> p in visited
  {
    forall j | 0 <= j < |now| ensures keep(now[j]) && now[j] in visited {
      var p :| p in c && p in visited && keep(p) && p.key == now[j].key;
      var i :| 0 <= i < |c| && c[i] == p;
      assert now[j] in c;
      var k :| 0 <= k < |c| && c[k] == now[j];
      SameKeySame(ops, c, i, k);
    }
    FilterAll(now, keep);
  }

  lemma {:induction false} SameKeySame(ops: HashOps, c: seq<Pair>, i: nat, k: nat)
    requires KeysDiffer(ops, c) && i < |c| && k < |c| && c[i].key == c[k].key
    ensures i == k
  {
  }

  lemma {:induction false} ReplacedAbsent(ops: HashOps, c: seq<Pair>, oldKey: nat, newKey: nat)
    requires KeysDiffer(ops, c) && Find(ops, c, oldKey) >= 0
    ensures var a, b := Find(ops, c, oldKey), Find(ops, c, newKey);
      Absent(ops, if b < 0 || b == a then Without(c, a) else Without(Without(c, b), Shift(a, b)), newKey)
  {
    var a, b := Find(ops, c, oldKey), Find(ops, c, newKey);
    if b < 0 {
      WithoutAbsent(ops, c, newKey, a);
    } else {
      WithoutRemovesKey(ops, c, newKey, b);
      if b != a { WithoutAbsent(ops, Without(c, b), newKey, Shift(a, b)); }
    }
  }

  ghost function KnownKeys(ops: HashOps, c: seq<Pair>): nat -> bool {
    (key: nat) => Find(ops, c, key) >= 0
  }

  // ----- moving entries from one map to another -----

  /** `h0` and `o0` are the two maps at the start; the pairs `moved` have gone
      from the other map, now `o`, to this one, now `h`. */
  ghost predicate Moving(ops: HashOps, h0: seq<Pair>, o0: seq<Pair>, moved: seq<Pair>, h: seq<Pair>, o: seq<Pair>) {
    h == h0 + moved && multiset(o) + multiset(moved) == multiset(o0) &&
    (forall i :: 0 <= i < |moved| ==> Find(ops, h0, moved[i].key) < 0) &&
    forall i, j :: 0 <= i < |moved| && 0 <= j < |o| ==> ops.ident(moved[i].key) != ops.ident(o[j].key)
  }

  /** A key of the other map that is found was there from the start. */
  lemma {:induction false} MovingFound(ops: HashOps, h0: seq<Pair>, o0: seq<Pair>, moved: seq<Pair>, h: seq<Pair>, o: seq<Pair>, a: nat)
    requires Moving(ops, h0, o0, moved, h, o) && a < |o| && Find(ops, h, o[a].key) >= 0
    ensures Find(ops, h0, o[a].key) >= 0
  {
    var i := Find(ops, h, o[a].key);
    forall j | |h0| <= j < |h| ensures !Stores(ops, h, o[a].key, j) {
      assert h[j] == moved[j - |h0|];
    }
    assert Stores(ops, h0, o[a].key, i);
  }

  lemma {:induction false} WithoutMultiset(o: seq<Pair>, a: nat)
    requires a < |o|
    ensures multiset(o) == multiset(Without(o, a)) + multiset{o[a]}
  {
    var l, r := o[..a], o[a + 1..];
    assert o == l + ([o[a]] + r);
    assert Without(o, a) == l + r;
    assert multiset(l + ([o[a]] + r)) == multiset(l) + (multiset{o[a]} + multiset(r));
  }

  lemma {:induction false} StaysAbsent(ops: HashOps, h0: seq<Pair>, more: seq<Pair>, key: nat)
    requires Find(ops, h0 + more, key) < 0
    ensures Find(ops, h0, key) < 0
  {
    forall i | 0 <= i < |h0| ensures !Stores(ops, h0, key, i) {
      assert !Stores(ops, h0 + more, key, i);
    }
  }

  lemma {:induction false} MovedApart(ops: HashOps, moved: seq<Pair>, o: seq<Pair>, a: nat)
    requires KeysDiffer(ops, o) && a < |o|
    requires forall i, j :: 0 <= i < |moved| && 0 <= j < |o| ==> ops.ident(moved[i].key) != ops.ident(o[j].key)
    ensures var more, rest := moved + [o[a]], Without(o, a);
      forall i, j :: 0 <= i < |more| && 0 <= j < |rest| ==> ops.ident(more[i].key) != ops.ident(rest[j].key)
  {
    var rest := Without(o, a);
    forall j | 0 <= j < |rest| ensures exists k :: 0 <= k < |o| && k != a && rest[j] == o[k] {
      var k := if j < a then j else j + 1;
      assert rest[j] == o[k];
    }
  }

  lemma {:induction false} MovingMoves(ops: HashOps, h0: seq<Pair>, o0: seq<Pair>, moved: seq<Pair>, h: seq<Pair>, o: seq<Pair>, a: nat)
    requires Moving(ops, h0, o0, moved, h, o) && KeysDiffer(ops, o) && a < |o| && Find(ops, h, o[a].key) < 0
    ensures Moving(ops, h0, o0, moved + [o[a]], h + [o[a]], Without(o, a))
  {
    hide Find, KeysDiffer;
    WithoutMultiset(o, a);
    StaysAbsent(ops, h0, moved, o[a].key);
    MovedApart(ops, moved, o, a);
    assert h + [o[a]] == h0 + (moved + [o[a]]);
    assert multiset(moved + [o[a]]) == multiset(moved) + multiset{o[a]};
    hide Without;
  }

  lemma {:induction false} WithoutNonNull(c: seq<Pair>, a: nat)
    requires KeysNonNull(c) && a < |c|
    ensures KeysNonNull(Without(c, a))
  {
  }
}
