/** The hashmap against a plain finite map: whole runs of operations. */
module FiniteMap {
  import opened HashTable
  import opened RobinHood
  import opened Lookup
  import opened AssocSpec
  import opened Growth
  import opened Hashmaps
  import opened Iteration
  import opened Wrappers

  datatype Op =
    | Put(key: nat, value: nat)
    | Replace(key: nat, value: nat)
    | Update(key: nat, value: nat)
    | Remove(key: nat)
    | Get(key: nat)
    | RemoveAndPut(oldKey: nat, newKey: nat, value: nat)
    | RemoveAndReplace(oldKey: nat, newKey: nat, value: nat)

  /** What an operation answers: a return code, or a value pointer. */
  datatype Answer = Code(code: int) | Value(value: nat)

  /** The contents as a finite map from what the comparison sees of a key. */
  function AsMap(ops: HashOps, c: seq<Pair>): map<nat, Pair> {
    if c == [] then map[]
    else AsMap(ops, c[..|c| - 1])[ops.ident(c[|c| - 1].key) := c[|c| - 1]]
  }

  /** One operation on a finite map; a new key may be refused for lack of memory. */
  function MapStep(ops: HashOps, m: map<nat, Pair>, op: Op, refused: bool): (map<nat, Pair>, Answer) {
    match op
    case Put(key, value) =>
      var k := ops.ident(key);
      if k in m then (m, Code(if m[k].value == value then 0 else EEXIST))
      else if refused then (m, Code(ENOMEM))
      else (m[k := Pair(key, value)], Code(1))
    case Replace(key, value) =>
      var k := ops.ident(key);
      if k !in m && refused then (m, Code(ENOMEM)) else (m[k := Pair(key, value)], Code(if k in m then 0 else 1))
    case Update(key, value) =>
      var k := ops.ident(key);
      if k in m then (m[k := Pair(m[k].key, value)], Code(0)) else (m, Code(ENOENT))
    case Remove(key) =>
      var k := ops.ident(key);
      (m - {k}, Value(if k in m then m[k].value else NULL))
    case Get(key) =>
      var k := ops.ident(key);
      (m, Value(if k in m then m[k].value else NULL))
    case RemoveAndPut(oldKey, newKey, value) =>
      var j, k := ops.ident(oldKey), ops.ident(newKey);
      if j !in m then (m, Code(ENOENT))
      else if k in m then (m, Code(EEXIST))
      else ((m - {j})[k := Pair(newKey, value)], Code(0))
    case RemoveAndReplace(oldKey, newKey, value) =>
      var j, k := ops.ident(oldKey), ops.ident(newKey);
      if j !in m then (m, Code(ENOENT)) else ((m - {j})[k := Pair(newKey, value)], Code(0))
  }

  function MapRun(ops: HashOps, m: map<nat, Pair>, run: seq<Op>, refused: seq<bool>): (map<nat, Pair>, seq<Answer>)
    requires |refused| == |run|
  {
    if run == [] then (m, [])
    else
      var n := |run| - 1;
      var (m1, answers) := MapRun(ops, m, run[..n], refused[..n]);
      var (m2, answer) := MapStep(ops, m1, run[n], refused[n]);
      (m2, answers + [answer])
  }

  /** One operation on the pairs in insertion order: new pairs come last, values
      change in their place. */
  function SeqStep(ops: HashOps, c: seq<Pair>, op: Op, refused: bool): (seq<Pair>, Answer) {
    match op
    case Put(key, value) =>
      var a := Find(ops, c, key);
      if a >= 0 then (c, Code(if c[a].value == value then 0 else EEXIST))
      else if refused then (c, Code(ENOMEM))
      else (c + [Pair(key, value)], Code(1))
    case Replace(key, value) =>
      var a := Find(ops, c, key);
      if a >= 0 then (c[a := Pair(key, value)], Code(0))
      else if refused then (c, Code(ENOMEM))
      else (c + [Pair(key, value)], Code(1))
    case Update(key, value) =>
      var a := Find(ops, c, key);
      if a >= 0 then (c[a := Pair(c[a].key, value)], Code(0)) else (c, Code(ENOENT))
    case Remove(key) =>
      var a := Find(ops, c, key);
      if a >= 0 then (Without(c, a), Value(c[a].value)) else (c, Value(NULL))
    case Get(key) =>
      var a := Find(ops, c, key);
      (c, Value(if a >= 0 then c[a].value else NULL))
    case RemoveAndPut(oldKey, newKey, value) =>
      var a := Find(ops, c, oldKey);
      if a < 0 then (c, Code(ENOENT))
      else if Find(ops, c, newKey) >= 0 then (c, Code(EEXIST))
      else (Without(c, a) + [Pair(newKey, value)], Code(0))
    case RemoveAndReplace(oldKey, newKey, value) =>
      (Replaced(ops, c, oldKey, newKey, value), Code(if Find(ops, c, oldKey) < 0 then ENOENT else 0))
  }

  function SeqRun(ops: HashOps, c: seq<Pair>, run: seq<Op>, refused: seq<bool>): (seq<Pair>, seq<Answer>)
    requires |refused| == |run|
  {
    if run == [] then (c, [])
    else
      var n := |run| - 1;
      var (c1, answers) := SeqRun(ops, c, run[..n], refused[..n]);
      var (c2, answer) := SeqStep(ops, c1, run[n], refused[n]);
      (c2, answers + [answer])
  }

  lemma {:induction false} AsMapHas(ops: HashOps, c: seq<Pair>, key: nat)
    requires KeysDiffer(ops, c)
    ensures ops.ident(key) in AsMap(ops, c) <==> Find(ops, c, key) >= 0
    ensures Find(ops, c, key) >= 0 ==> AsMap(ops, c)[ops.ident(key)] == c[Find(ops, c, key)]
  {
    if c != [] { AsMapHas(ops, c[..|c| - 1], key); }
  }

  lemma {:induction false} AsMapPut(ops: HashOps, c: seq<Pair>, p: Pair)
    ensures AsMap(ops, c + [p]) == AsMap(ops, c)[ops.ident(p.key) := p]
  {
    assert (c + [p])[..|c|] == c;
  }

  lemma {:induction false} AsMapSet(ops: HashOps, c: seq<Pair>, a: nat, p: Pair)
    requires KeysDiffer(ops, c) && a < |c| && ops.ident(p.key) == ops.ident(c[a].key)
    ensures AsMap(ops, c[a := p]) == AsMap(ops, c)[ops.ident(p.key) := p]
  {
    var front := c[..|c| - 1];
    if a == |c| - 1 {
      assert c[a := p][..|c| - 1] == front;
    } else {
      AsMapSet(ops, front, a, p);
      assert c[a := p][..|c| - 1] == front[a := p];
    }
  }

  lemma {:induction false} AsMapRemove(ops: HashOps, c: seq<Pair>, a: nat)
    requires KeysDiffer(ops, c) && a < |c|
    ensures AsMap(ops, Without(c, a)) == AsMap(ops, c) - {ops.ident(c[a].key)}
  {
    var front := c[..|c| - 1];
    if a == |c| - 1 {
      assert Without(c, a) == front;
      AsMapHas(ops, front, c[a].key);
      assert Find(ops, front, c[a].key) < 0 by {
        forall b | 0 <= b < |front| ensures !Stores(ops, front, c[a].key, b) {
          assert ops.ident(c[b].key) != ops.ident(c[a].key);
        }
      }
    } else {
      AsMapRemove(ops, front, a);
      assert Without(c, a)[..|c| - 2] == Without(front, a);
    }
  }

  // ----- the pairs in order against the finite map -----

  /** A step on the pairs is that step on the finite map, and keys stay distinct. */
  ghost predicate Agrees(ops: HashOps, c: seq<Pair>, op: Op, refused: bool) {
    var (c', answer) := SeqStep(ops, c, op, refused);
    MapStep(ops, AsMap(ops, c), op, refused) == (AsMap(ops, c'), answer) && KeysDiffer(ops, c') && |c'| <= |c| + 1
  }

  lemma {:induction false} AppendedDiffer(ops: HashOps, c: seq<Pair>, p: Pair)
    requires KeysDiffer(ops, c) && Find(ops, c, p.key) < 0
    ensures KeysDiffer(ops, c + [p])
  {
    AbsentKeepsDiffer(ops, c, p);
  }

  lemma {:induction false} WithoutDiffer(ops: HashOps, c: seq<Pair>, a: nat)
    requires KeysDiffer(ops, c) && a < |c|
    ensures KeysDiffer(ops, Without(c, a))
  {
  }

  lemma {:induction false} PutAgrees(ops: HashOps, c: seq<Pair>, key: nat, value: nat, refused: bool)
    requires KeysDiffer(ops, c)
    ensures Agrees(ops, c, Put(key, value), refused) && Agrees(ops, c, Replace(key, value), refused)
  {
    hide Find, AsMap;
    AsMapHas(ops, c, key);
    var a := Find(ops, c, key);
    if a >= 0 {
      FoundIdent(ops, c, key);
      AsMapSet(ops, c, a, Pair(key, value));
    } else {
      AsMapPut(ops, c, Pair(key, value));
      AppendedDiffer(ops, c, Pair(key, value));
    }
  }

  lemma {:induction false} FoundIdent(ops: HashOps, c: seq<Pair>, key: nat)
    requires Find(ops, c, key) >= 0
    ensures Find(ops, c, key) < |c| && ops.ident(c[Find(ops, c, key)].key) == ops.ident(key)
  {
  }

  lemma {:induction false} UpdateAgrees(ops: HashOps, c: seq<Pair>, key: nat, value: nat, refused: bool)
    requires KeysDiffer(ops, c)
    ensures Agrees(ops, c, Update(key, value), refused)
  {
    hide Find, AsMap;
    AsMapHas(ops, c, key);
    var a := Find(ops, c, key);
    if a >= 0 {
      FoundIdent(ops, c, key);
      AsMapSet(ops, c, a, Pair(c[a].key, value));
    }
  }

  lemma {:induction false} RemoveAgrees(ops: HashOps, c: seq<Pair>, key: nat, refused: bool)
    requires KeysDiffer(ops, c)
    ensures Agrees(ops, c, Remove(key), refused) && Agrees(ops, c, Get(key), refused)
  {
    hide Find, AsMap;
    AsMapHas(ops, c, key);
    var a := Find(ops, c, key);
    if a >= 0 {
      FoundIdent(ops, c, key);
      AsMapRemove(ops, c, a);
      WithoutDiffer(ops, c, a);
    } else {
      assert AsMap(ops, c) - {ops.ident(key)} == AsMap(ops, c);
    }
  }

  lemma {:induction false} RemoveAndPutAgrees(ops: HashOps, c: seq<Pair>, oldKey: nat, newKey: nat, value: nat, refused: bool)
    requires KeysDiffer(ops, c)
    ensures Agrees(ops, c, RemoveAndPut(oldKey, newKey, value), refused)
  {
    hide Find, AsMap;
    AsMapHas(ops, c, oldKey);
    AsMapHas(ops, c, newKey);
    var a := Find(ops, c, oldKey);
    if a >= 0 && Find(ops, c, newKey) < 0 {
      FoundIdent(ops, c, oldKey);
      AsMapRemove(ops, c, a);
      AsMapPut(ops, Without(c, a), Pair(newKey, value));
      WithoutDiffer(ops, c, a);
      WithoutAbsent(ops, c, newKey, a) by { NotFound(ops, c, newKey); }
      AbsentKeepsDiffer(ops, Without(c, a), Pair(newKey, value));
    }
  }

  lemma {:induction false} NotFound(ops: HashOps, c: seq<Pair>, key: nat)
    requires Find(ops, c, key) < 0
    ensures Absent(ops, c, key)
  {
  }

  lemma {:induction false} RemoveAndReplaceAgrees(ops: HashOps, c: seq<Pair>, oldKey: nat, newKey: nat, value: nat, refused: bool)
    requires KeysDiffer(ops, c)
    ensures Agrees(ops, c, RemoveAndReplace(oldKey, newKey, value), refused)
  {
    hide Find, AsMap, Absent;
    AsMapHas(ops, c, oldKey);
    var a, b := Find(ops, c, oldKey), Find(ops, c, newKey);
    if a >= 0 {
      FoundIdent(ops, c, oldKey);
      ReplacedAbsent(ops, c, oldKey, newKey);
      var rest := if b < 0 || b == a then Without(c, a) else Without(Without(c, b), Shift(a, b));
      if b < 0 || b == a {
        AsMapRemove(ops, c, a);
        WithoutDiffer(ops, c, a);
      } else {
        FoundIdent(ops, c, newKey);
        TwoRemoved(ops, c, a, b);
        var m, j, k := AsMap(ops, c), ops.ident(oldKey), ops.ident(newKey);
        assert (m - {k} - {j})[k := Pair(newKey, value)] == (m - {j})[k := Pair(newKey, value)];
      }
      AsMapPut(ops, rest, Pair(newKey, value));
      AbsentKeepsDiffer(ops, rest, Pair(newKey, value));
    }
  }

  lemma {:induction false} TwoRemoved(ops: HashOps, c: seq<Pair>, a: nat, b: nat)
    requires KeysDiffer(ops, c) && a < |c| && b < |c| && a != b
    ensures var rest := Without(Without(c, b), Shift(a, b));
      && AsMap(ops, rest) == AsMap(ops, c) - {ops.ident(c[b].key)} - {ops.ident(c[a].key)} && KeysDiffer(ops, rest)
  {
    hide AsMap;
    var w := Without(c, b);
    AsMapRemove(ops, c, b);
    WithoutDiffer(ops, c, b);
    assert w[Shift(a, b)] == c[a];
    AsMapRemove(ops, w, Shift(a, b));
    WithoutDiffer(ops, w, Shift(a, b));
  }

  lemma {:induction false} StepAgrees(ops: HashOps, c: seq<Pair>, op: Op, refused: bool)
    requires KeysDiffer(ops, c)
    ensures Agrees(ops, c, op, refused)
  {
    hide Agrees, KeysDiffer;
    match op
    case Put(key, value) => PutAgrees(ops, c, key, value, refused);
    case Replace(key, value) => PutAgrees(ops, c, key, value, refused);
    case Update(key, value) => UpdateAgrees(ops, c, key, value, refused);
    case Remove(key) => RemoveAgrees(ops, c, key, refused);
    case Get(key) => RemoveAgrees(ops, c, key, refused);
    case RemoveAndPut(oldKey, newKey, value) => RemoveAndPutAgrees(ops, c, oldKey, newKey, value, refused);
    case RemoveAndReplace(oldKey, newKey, value) => RemoveAndReplaceAgrees(ops, c, oldKey, newKey, value, refused);
  }

  /** A run on the pairs is the same run on the finite map, answers included. */
  lemma {:induction false} RunAgrees(ops: HashOps, c: seq<Pair>, run: seq<Op>, refused: seq<bool>)
    requires KeysDiffer(ops, c) && |refused| == |run|
    ensures var (c', answers) := SeqRun(ops, c, run, refused);
      && MapRun(ops, AsMap(ops, c), run, refused) == (AsMap(ops, c'), answers) && KeysDiffer(ops, c') && |c'| <= |c| + |run|
    decreases |run|
  {
    hide AsMap, MapStep, SeqStep, KeysDiffer;
    if run != [] {
      var n := |run| - 1;
      RunAgrees(ops, c, run[..n], refused[..n]);
      StepAgrees(ops, SeqRun(ops, c, run[..n], refused[..n]).0, run[n], refused[n]);
    }
  }

  // ----- the table against the pairs in order -----

  /** The replaced entry is stored under the key NULL. */
  ghost predicate StoresNull(ops: HashOps, c: seq<Pair>, op: Op) {
    op.RemoveAndReplace? && Find(ops, c, op.oldKey) >= 0 && c[Find(ops, c, op.oldKey)].key == NULL
  }

  /** Carries out one operation. Nothing is answered if an assertion of the source
      fails, which only a stored NULL key can bring about; a new key is refused only if
      allocation fails. */
  method Perform(h: Hashmap, op: Op, allocates: bool, freshHashKey: nat) returns (answer: Option<Answer>, ghost refused: bool)
    requires h.Valid() && WithinLimit(h.kind, h.nEntries + 1)
    modifies h, h.slots, h.dibs
    ensures refused ==> !allocates
    ensures answer == None ==> StoresNull(h.ops, old(h.Contents()), op)
    ensures answer.Some? ==> h.Valid() && (h.slots == old(h.slots) || fresh(h.slots)) && (h.dibs == old(h.dibs) || fresh(h.dibs))
    ensures answer.Some? ==> SeqStep(h.ops, old(h.Contents()), op, refused) == (h.Contents(), answer.value)
  {
    hide Settled, StorageOk, Find, ResizePlan, Wanted, StorageBytes, LastShifted, Replaced;
    WithinLimitGrows(h.kind, h.hasIndirect, h.nEntries, h.dibs.Length, 1, h.nEntries + 1);
    refused := Refuses(ResizePlan(h.kind, h.hasIndirect, h.nEntries, h.dibs.Length, 1), allocates);
    match op
    case Put(key, value) =>
      var r := h.Put(key, value, allocates, freshHashKey);
      answer := Some(Code(r));
    case Replace(key, value) =>
      var r := h.Replace(key, value, allocates, freshHashKey);
      answer := Some(Code(r));
    case Update(key, value) =>
      var r := h.Update(key, value);
      answer := Some(Code(r));
    case Remove(key) =>
      var v := h.Remove(key);
      answer := Some(Value(v));
    case Get(key) =>
      var v := h.Get(key);
      answer := Some(Value(v));
    case RemoveAndPut(oldKey, newKey, value) =>
      var r := h.RemoveAndPut(oldKey, newKey, value);
      answer := Some(Code(r));
    case RemoveAndReplace(oldKey, newKey, value) =>
      var r := h.RemoveAndReplace(oldKey, newKey, value);
      answer := if r.None? then None else Some(Code(r.value));
  }

  lemma {:induction false} ValidDiffer(h: Hashmap)
    requires h.Valid()
    ensures KeysDiffer(h.ops, h.Contents()) && h.nEntries == |h.Contents()|
  {
  }

  /** Any run of operations, with any results of the allocator and any hash keys, is
      that run on the pairs in insertion order, up to its end or to the replacement of an
      entry stored under NULL. */
  method Run(h: Hashmap, run: seq<Op>, allocates: nat -> bool, hashKeys: nat -> nat)
    returns (done: nat, answers: seq<Answer>, ghost refused: seq<bool>)
    requires h.Valid() && WithinLimit(h.kind, h.nEntries + |run|)
    modifies h, h.slots, h.dibs
    ensures done <= |run| && |refused| == done && forall i :: 0 <= i < done && refused[i] ==> !allocates(i)
    ensures SeqRun(h.ops, old(h.Contents()), run[..done], refused).1 == answers
    ensures done == |run| ==> h.Valid() && h.Contents() == SeqRun(h.ops, old(h.Contents()), run, refused).0
    ensures done < |run| ==> StoresNull(h.ops, SeqRun(h.ops, old(h.Contents()), run[..done], refused).0, run[done])
    ensures MapRun(h.ops, AsMap(h.ops, old(h.Contents())), run[..done], refused).1 == answers
    ensures done == |run| ==> AsMap(h.ops, h.Contents()) == MapRun(h.ops, AsMap(h.ops, old(h.Contents())), run, refused).0
  {
    hide Settled, StorageOk, Wanted, StorageBytes, SeqStep, StoresNull, AsMap, MapRun;
    ghost var c, limit := h.Contents(), h.nEntries + |run|;
    ValidDiffer(h);
    done, answers, refused := 0, [], [];
    while done < |run|
      invariant done <= |run| && h.Valid() && h.nEntries <= limit - |run| + done && |refused| == done
      invariant (h.slots == old(h.slots) || fresh(h.slots)) && (h.dibs == old(h.dibs) || fresh(h.dibs))
      invariant SeqRun(h.ops, c, run[..done], refused) == (h.Contents(), answers)
      invariant forall i :: 0 <= i < done && refused[i] ==> !allocates(i)
    {
      LimitMonotone(h.kind, h.nEntries + 1, limit);
      assert run[..done + 1][..done] == run[..done];
      ValidDiffer(h);
      StepGrows(h.ops, h.Contents(), run[done]);
      var answer; ghost var no;
      answer, no := Perform(h, run[done], allocates(done), hashKeys(done));
      if answer.None? {
        RunAgrees(h.ops, c, run[..done], refused);
        return;
      }
      ValidDiffer(h);
      assert (refused + [no])[..done] == refused;
      done, answers, refused := done + 1, answers + [answer.value], refused + [no];
    }
    assert run[..|run|] == run;
    RunAgrees(h.ops, c, run, refused);
  }

  lemma {:induction false} StepGrows(ops: HashOps, c: seq<Pair>, op: Op)
    requires KeysDiffer(ops, c)
    ensures |SeqStep(ops, c, op, false).0| <= |c| + 1 && |SeqStep(ops, c, op, true).0| <= |c| + 1
  {
    hide SeqStep, MapStep, AsMap, KeysDiffer;
    StepAgrees(ops, c, op, false);
    StepAgrees(ops, c, op, true);
  }

  lemma {:induction false} LimitMonotone(kind: Kind, a: nat, b: nat)
    requires a <= b && WithinLimit(kind, b)
    ensures WithinLimit(kind, a)
  {
    WantedMonotone(a, b);
    BytesMonotone(kind, Wanted(a), Wanted(b));
  }
}
