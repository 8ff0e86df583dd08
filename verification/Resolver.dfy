/** The asynchronous resolver: one main thread, worker threads, a request and a
    response queue, a table of 256 queries and reference counts. */
module Resolver {
  import opened Wrappers

  const QUERIES_MAX: nat := 256
  const WORKERS_MIN: nat := 1
  const WORKERS_MAX: nat := 16
  const ID_RANGE: nat := 0x1_0000_0000

  /** The slot of an id in the table. */
  function SlotOf(id: nat): (i: nat)
    ensures i < QUERIES_MAX
  {
    id % 256
  }

  datatype Kind = AddrInfo | NameInfo

  /** A query object. `live` says that it still points to its resolver. */
  datatype Query = Query(refs: nat, live: bool, kind: Kind, done: bool, floating: bool, id: nat)

  /** A request or the answer to it. On the wire there is the id and the kind;
      `origin` is the object that sent the request, `ask` what it asked. */
  datatype Msg = Msg(id: nat, kind: Kind, origin: nat, ask: nat)

  datatype Packet = Answer(msg: Msg) | Died

  /** A callback that was run: on which query, with whose answer. */
  datatype Call = Call(query: nat, answered: Msg)

  datatype State = State(
    queries: map<nat, Query>,  // the objects that are allocated
    table: map<nat, nat>,  // query_array: slot to object
    issued: nat,  // ids used so far; current_id is this modulo 2^32
    nQueries: nat,
    nDone: nat,
    nOutstanding: nat,
    nRef: nat,
    nWorkers: nat,
    requests: seq<Msg>,
    working: multiset<Msg>,  // what the workers are at
    responses: seq<Packet>,
    dead: bool,
    freed: bool,
    current: Option<nat>,  // the query whose callback runs
    held: map<nat, nat>,  // references the program holds to queries
    heldResolver: nat,  // references the program holds to the resolver
    objects: nat,  // objects allocated so far
    calls: seq<Call>)  // callbacks run so far

  function Init(): State {
    State(map[], map[], 0, 0, 0, 0, 1, 0, [], multiset{}, [], false, false, None, map[], 1, 0, [])
  }

  function Held(s: State, o: nat): nat {
    if o in s.held then s.held[o] else 0
  }

  // ----- what is in flight -----

  function Answers(p: seq<Packet>): multiset<Msg> {
    if p == [] then multiset{}
    else (match p[0] case Answer(m) => multiset{m} case Died => multiset{}) + Answers(p[1..])
  }

  /** The requests that are queued or worked on and the answers not yet read. */
  function InFlight(s: State): multiset<Msg> {
    multiset(s.requests) + s.working + Answers(s.responses)
  }

  // ----- the operations of the main thread -----

  function Lookup(s: State, id: nat): Option<nat> {
    var i := SlotOf(id);
    if i in s.table && s.table[i] in s.queries && s.queries[s.table[i]].id == id then Some(s.table[i]) else None
  }

  ghost predicate FreeWithin(table: map<nat, nat>, n: nat, left: nat) {
    exists j: nat {:trigger SlotOf(j)} :: n <= j < n + left && SlotOf(j) !in table
  }

  /** Counts on from `n` to the first id whose slot is free. */
  function NextFree(table: map<nat, nat>, n: nat, ghost left: nat): (r: nat)
    requires FreeWithin(table, n, left)
    ensures n <= r < n + left && SlotOf(r) !in table
    ensures forall j: nat {:trigger SlotOf(j)} :: n <= j < r ==> SlotOf(j) in table
    decreases left
  {
    if SlotOf(n) !in table then n else NextFree(table, n + 1, left - 1)
  }

  /** Takes a query off the table; the caller releases what it referenced. */
  function Disconnect(s: State, o: nat): State
    requires o in s.queries && s.nQueries > 0 && (s.queries[o].done ==> s.nDone > 0)
  {
    var q := s.queries[o];
    s.(queries := s.queries[o := q.(live := false)],
       table := s.table - {SlotOf(q.id)},
       nQueries := s.nQueries - 1,
       nDone := if q.done then s.nDone - 1 else s.nDone)
  }

  /** The last reference to the resolver is gone: the queries left in the list
      are disconnected and lose the reference of the resolver. */
  function FreeResolver(s: State): State {
    s.(queries := map o | o in s.queries && !(s.queries[o].live && s.queries[o].refs <= 1) ::
                    var q := s.queries[o]; if q.live then q.(live := false, refs := q.refs - 1) else q,
       table := map[], nQueries := 0, nDone := 0, dead := true, freed := true)
  }

  function UnrefResolver(s: State): State
    requires s.nRef >= 1
  {
    var t := s.(nRef := s.nRef - 1);
    if t.nRef == 0 then FreeResolver(t) else t
  }

  function UnrefQuery(s: State, o: nat): State
    requires o in s.queries && s.queries[o].refs >= 1
    requires s.queries[o].live ==>
      s.nQueries > 0 && (s.queries[o].done ==> s.nDone > 0) && (!s.queries[o].floating ==> s.nRef >= 1)
  {
    var q := s.queries[o];
    if q.refs > 1 then s.(queries := s.queries[o := q.(refs := q.refs - 1)])
    else if !q.live then s.(queries := s.queries - {o})
    else
      var t := Disconnect(s, o);
      var u := t.(queries := t.queries - {o});
      if q.floating then u else UnrefResolver(u)
  }

  // ----- the invariant, part by part -----

  ghost predicate TableInv(s: State) {
    (forall i :: i in s.table ==> i < QUERIES_MAX && s.table[i] in s.queries) &&
    (forall i :: i in s.table ==> s.queries[s.table[i]].live && SlotOf(s.queries[s.table[i]].id) == i) &&
    (forall o :: o in s.queries && s.queries[o].live ==>
       SlotOf(s.queries[o].id) in s.table && s.table[SlotOf(s.queries[o].id)] == o)
  }

  ghost function DoneSlots(s: State): set<nat> {
    set i | i in s.table && s.table[i] in s.queries && s.queries[s.table[i]].done
  }

  /** The queries that hold a reference to the resolver. */
  ghost function FixedSlots(s: State): set<nat> {
    set i | i in s.table && s.table[i] in s.queries && !s.queries[s.table[i]].floating
  }

  ghost predicate CountInv(s: State) {
    s.nQueries == |s.table| && s.nDone == |DoneSlots(s)|
  }

  /** Who references query `o`: the program, the resolver if the query floats,
      and `complete_query` while the callback runs. */
  ghost function Owed(s: State, o: nat): nat
    requires o in s.queries
  {
    Held(s, o) + (if s.queries[o].live && s.queries[o].floating then 1 else 0) + (if s.current == Some(o) then 1 else 0)
  }

  /** Every count is right, but for `k` more references to query `e`. */
  ghost predicate RefInv(s: State, e: nat, k: nat) {
    (forall o :: o in s.queries ==> s.queries[o].refs == Owed(s, o) + (if o == e then k else 0)) &&
    (forall o :: o in s.queries ==> s.queries[o].refs >= 1 && o < s.objects) &&
    (forall o :: o in s.held && s.held[o] > 0 ==> o in s.queries) &&
    (s.current.Some? ==> s.current.value in s.queries && s.queries[s.current.value].live && s.queries[s.current.value].done)
  }

  /** The resolver's own count is right, but for `y` more references. */
  ghost predicate OwnRefInv(s: State, y: nat) {
    if s.freed then s.nRef == 0 && s.heldResolver == 0 && s.current == None && s.table == map[] && y == 0
    else s.nRef == s.heldResolver + |FixedSlots(s)| + (if s.current.Some? then 1 else 0) + y && s.nRef >= 1
  }

  ghost predicate FlightInv(s: State) {
    |InFlight(s)| <= s.nOutstanding &&
    (forall m :: m in InFlight(s) ==> InFlight(s)[m] == 1 && m.origin < s.objects) &&
    (forall m, m' :: m in InFlight(s) && m' in InFlight(s) && m.origin == m'.origin ==> m == m') &&
    (forall m :: m in InFlight(s) && m.origin in s.queries ==>
       s.queries[m.origin].id == m.id && s.queries[m.origin].kind == m.kind && !s.queries[m.origin].done)
  }

  /** An answer in flight carries the id of no live query but its own. */
  ghost predicate NoAlias(s: State) {
    forall m, o :: m in InFlight(s) && o in s.queries && s.queries[o].live && s.queries[o].id == m.id ==> o == m.origin
  }

  /** Callbacks ran at most once a query, each with the answer to its own request. */
  ghost predicate CallInv(s: State) {
    (forall i :: 0 <= i < |s.calls| ==> s.calls[i].answered.origin == s.calls[i].query && s.calls[i].query < s.objects) &&
    (forall i, j :: 0 <= i < j < |s.calls| ==> s.calls[i].query != s.calls[j].query) &&
    (forall i, m :: 0 <= i < |s.calls| && m in InFlight(s) ==> m.origin != s.calls[i].query)
  }

  ghost predicate WorkerInv(s: State) {
    |s.working| <= s.nWorkers <= WORKERS_MAX
  }

  ghost predicate InvX(s: State, e: nat, k: nat, y: nat) {
    TableInv(s) && CountInv(s) && RefInv(s, e, k) && OwnRefInv(s, y) && FlightInv(s) && NoAlias(s) && CallInv(s) && WorkerInv(s)
  }

  ghost predicate Inv(s: State) {
    InvX(s, 0, 0, 0)
  }

  /** What holds whatever answers arrive: the table, the counts, the references. */
  ghost predicate Base(s: State) {
    TableInv(s) && CountInv(s) && RefInv(s, 0, 0) && OwnRefInv(s, 0) && s.nWorkers <= WORKERS_MAX
  }

  lemma {:induction false} InvMeansBase(s: State)
    requires Inv(s)
    ensures Base(s)
  {
    hide TableInv, CountInv, RefInv, OwnRefInv, FlightInv, NoAlias, CallInv;
  }

  /** The same resolver with nothing in flight and no callback run. */
  function Quiet(s: State): State {
    s.(requests := [], working := multiset{}, responses := [], calls := [])
  }

  /** Equal but for messages, callbacks run and the count of what is outstanding. */
  ghost predicate SameCore(s: State, t: State) {
    t == s.(requests := t.requests, working := t.working, responses := t.responses, calls := t.calls,
            nOutstanding := t.nOutstanding, dead := t.dead)
  }

  lemma {:induction false} CoreKeepsBase(s: State, t: State)
    requires Base(s) && SameCore(s, t)
    ensures Base(t)
  {
    hide SlotOf;
    assert DoneSlots(t) == DoneSlots(s) && FixedSlots(t) == FixedSlots(s);
    forall o | o in t.queries ensures Owed(t, o) == Owed(s, o) {}
  }

  lemma {:induction false} QuietIsFine(s: State)
    requires Base(s)
    ensures Inv(Quiet(s))
  {
    hide TableInv, CountInv, RefInv, OwnRefInv, SlotOf;
    CoreKeepsBase(s, Quiet(s));
    assert InFlight(Quiet(s)) == multiset{};
  }

  // ----- what taking queries away keeps -----

  /** `t` has no query that `s` has not, and what is in flight is the same. */
  ghost predicate Shrinks(s: State, t: State) {
    t.queries.Keys <= s.queries.Keys && t.requests == s.requests && t.working == s.working && t.responses == s.responses &&
    t.objects == s.objects && t.calls == s.calls && t.nOutstanding == s.nOutstanding && t.nWorkers == s.nWorkers &&
    forall o :: o in t.queries ==>
      t.queries[o].id == s.queries[o].id && t.queries[o].kind == s.queries[o].kind &&
      t.queries[o].done == s.queries[o].done && t.queries[o].floating == s.queries[o].floating &&
      (t.queries[o].live ==> s.queries[o].live)
  }

  lemma {:induction false} ShrinkKeeps(s: State, t: State)
    requires FlightInv(s) && NoAlias(s) && CallInv(s) && WorkerInv(s) && Shrinks(s, t)
    ensures FlightInv(t) && NoAlias(t) && CallInv(t) && WorkerInv(t)
  {
    assert InFlight(t) == InFlight(s);
  }

  lemma {:induction false} DisconnectCounts(s: State, o: nat)
    requires TableInv(s) && CountInv(s) && o in s.queries && s.queries[o].live
    ensures var i := SlotOf(s.queries[o].id);
      i in s.table && s.table[i] == o && s.nQueries > 0 && (s.queries[o].done ==> s.nDone > 0)
  {
    var i := SlotOf(s.queries[o].id);
    assert s.table == (s.table - {i})[i := o];
    if s.queries[o].done { assert i in DoneSlots(s); }
  }

  lemma {:induction false} DisconnectTable(s: State, o: nat)
    requires TableInv(s) && o in s.queries && s.queries[o].live && s.nQueries > 0 && (s.queries[o].done ==> s.nDone > 0)
    ensures var t, i := Disconnect(s, o), SlotOf(s.queries[o].id);
      TableInv(t) && DoneSlots(t) == DoneSlots(s) - {i} && FixedSlots(t) == FixedSlots(s) - {i}
  {
    hide SlotOf;
    var t, i := Disconnect(s, o), SlotOf(s.queries[o].id);
    forall j | j in t.table ensures t.table[j] != o {
      assert SlotOf(s.queries[s.table[j]].id) == j;
    }
    assert DoneSlots(t) == DoneSlots(s) - {i};
    assert FixedSlots(t) == FixedSlots(s) - {i};
  }

  lemma {:induction false} DisconnectCountInv(s: State, o: nat)
    requires TableInv(s) && CountInv(s) && o in s.queries && s.queries[o].live
    requires s.nQueries > 0 && (s.queries[o].done ==> s.nDone > 0)
    ensures CountInv(Disconnect(s, o))
    ensures |FixedSlots(Disconnect(s, o))| == |FixedSlots(s)| - if s.queries[o].floating then 0 else 1
  {
    hide SlotOf;
    DisconnectTable(s, o);
    var t, i := Disconnect(s, o), SlotOf(s.queries[o].id);
    assert i in DoneSlots(s) <==> s.queries[o].done;
    assert i in FixedSlots(s) <==> !s.queries[o].floating;
    assert s.table == (s.table - {i})[i := o];
    hide TableInv, DoneSlots, FixedSlots;
  }

  lemma {:induction false} DisconnectRefs(s: State, o: nat, k: nat)
    requires RefInv(s, o, k) && o in s.queries && s.queries[o].live && s.current != Some(o)
    requires s.nQueries > 0 && (s.queries[o].done ==> s.nDone > 0)
    ensures RefInv(Disconnect(s, o), o, if s.queries[o].floating then k + 1 else k)
  {
    hide SlotOf;
    var t, k' := Disconnect(s, o), if s.queries[o].floating then k + 1 else k;
    forall p | p in t.queries ensures t.queries[p].refs == Owed(t, p) + (if p == o then k' else 0) {
      assert s.queries[p].refs == Owed(s, p) + (if p == o then k else 0);
    }
  }

  /** Disconnecting hands back the resolver's reference to a floating query, or
      the query's reference to the resolver. */
  lemma {:induction false} DisconnectKeeps(s: State, o: nat, k: nat, y: nat)
    requires InvX(s, o, k, y) && !s.freed && o in s.queries && s.queries[o].live && s.current != Some(o)
    ensures s.nQueries > 0 && (s.queries[o].done ==> s.nDone > 0)
    ensures var f := s.queries[o].floating;
      InvX(Disconnect(s, o), o, if f then k + 1 else k, if f then y else y + 1)
  {
    hide FlightInv, NoAlias, CallInv, WorkerInv, TableInv, CountInv, RefInv, SlotOf, FixedSlots;
    DisconnectCounts(s, o);
    DisconnectTable(s, o);
    DisconnectCountInv(s, o);
    DisconnectRefs(s, o, k);
    ShrinkKeeps(s, Disconnect(s, o));
  }

  lemma {:induction false} NoExtra(s: State, e: nat, e': nat, y: nat)
    requires InvX(s, e, 0, y)
    ensures InvX(s, e', 0, y)
  {
    hide FlightInv, NoAlias, CallInv, WorkerInv, TableInv, CountInv, Owed, OwnRefInv;
  }

  function Forget(s: State, o: nat): State {
    s.(queries := s.queries - {o})
  }

  /** Freeing the memory of a query that is disconnected and unreferenced. */
  lemma {:induction false} ForgetKeeps(s: State, o: nat, k: nat, y: nat)
    requires InvX(s, o, k, y) && o in s.queries && !s.queries[o].live && Held(s, o) == 0 && s.current != Some(o)
    ensures InvX(Forget(s, o), 0, 0, y)
  {
    hide FlightInv, NoAlias, CallInv, WorkerInv, TableInv, CountInv, RefInv, FixedSlots, SlotOf;
    ShrinkKeeps(s, Forget(s, o));
    ForgetTable(s, o);
    ForgetRefs(s, o, k);
  }

  lemma {:induction false} ForgetRefs(s: State, o: nat, k: nat)
    requires RefInv(s, o, k) && o in s.queries && Held(s, o) == 0 && s.current != Some(o)
    ensures RefInv(Forget(s, o), 0, 0)
  {
    var t := Forget(s, o);
    forall p | p in t.queries ensures t.queries[p].refs == Owed(t, p) {
      assert s.queries[p].refs == Owed(s, p) + (if p == o then k else 0);
    }
  }

  lemma {:induction false} ForgetTable(s: State, o: nat)
    requires TableInv(s) && CountInv(s) && o in s.queries && !s.queries[o].live
    ensures TableInv(Forget(s, o)) && CountInv(Forget(s, o)) && FixedSlots(Forget(s, o)) == FixedSlots(s)
  {
    hide SlotOf;
    assert forall i :: i in s.table ==> s.table[i] != o;
    assert DoneSlots(Forget(s, o)) == DoneSlots(s);
  }

  /** When the last reference to the resolver goes, only floating queries are left. */
  lemma {:induction false} OnlyFloatingLeft(s: State, e: nat, k: nat, y: nat, o: nat)
    requires InvX(s, e, k, y) && y >= 1 && s.nRef == 1 && o in s.queries && s.queries[o].live
    ensures s.queries[o].floating
  {
    hide FlightInv, NoAlias, CallInv, WorkerInv, CountInv, RefInv, SlotOf;
    assert SlotOf(s.queries[o].id) in FixedSlots(s) <==> !s.queries[o].floating;
  }

  lemma {:induction false} FreeRefs(s: State)
    requires RefInv(s, 0, 0) && s.current == None
    requires forall o :: o in s.queries && s.queries[o].live ==> s.queries[o].floating
    ensures RefInv(FreeResolver(s), 0, 0)
  {
    var t := FreeResolver(s);
    forall o | o in t.queries ensures t.queries[o].refs == Owed(t, o) && t.queries[o].refs >= 1 {
      assert s.queries[o].refs == Owed(s, o);
    }
    forall o | o in t.held && t.held[o] > 0 ensures o in t.queries {
      assert s.queries[o].refs == Owed(s, o);
    }
  }

  lemma {:induction false} UnrefResolverKeeps(s: State, y: nat)
    requires InvX(s, 0, 0, y) && y >= 1 && !s.freed
    ensures s.nRef >= 1 && InvX(UnrefResolver(s), 0, 0, y - 1)
  {
    hide SlotOf, CountInv, FixedSlots, Owed, FlightInv, NoAlias, CallInv, WorkerInv, TableInv;
    var u := s.(nRef := s.nRef - 1);
    var t := UnrefResolver(s);
    if s.nRef == 1 {
      forall o | o in u.queries && u.queries[o].live ensures u.queries[o].floating {
        OnlyFloatingLeft(s, 0, 0, y, o);
      }
      assert RefInv(u, 0, 0) by { SameRefs(s, u); }
      FreeRefs(u);
      ShrinkKeeps(s, t);
      FreeTable(u);
    } else {
      SameRefs(s, u);
      ShrinkKeeps(s, t);
      SameTable(s, u);
    }
  }

  lemma {:induction false} SameRefs(s: State, t: State)
    requires RefInv(s, 0, 0) && t == s.(nRef := t.nRef)
    ensures RefInv(t, 0, 0)
  {
    forall o | o in t.queries ensures Owed(t, o) == Owed(s, o) {}
  }

  lemma {:induction false} SameTable(s: State, t: State)
    requires TableInv(s) && CountInv(s) && t == s.(nRef := t.nRef)
    ensures TableInv(t) && CountInv(t) && FixedSlots(t) == FixedSlots(s)
  {
    assert DoneSlots(t) == DoneSlots(s);
  }

  lemma {:induction false} FreeTable(s: State)
    ensures TableInv(FreeResolver(s)) && CountInv(FreeResolver(s))
  {
    assert DoneSlots(FreeResolver(s)) == {};
  }

  lemma {:induction false} DropRefKeeps(s: State, o: nat, k: nat, y: nat)
    requires InvX(s, o, k, y) && k >= 1 && o in s.queries && s.queries[o].refs > 1
    ensures InvX(s.(queries := s.queries[o := s.queries[o].(refs := s.queries[o].refs - 1)]), o, k - 1, y)
  {
    hide FlightInv, NoAlias, CallInv, WorkerInv, TableInv, CountInv, RefInv, FixedSlots, SlotOf;
    var t := s.(queries := s.queries[o := s.queries[o].(refs := s.queries[o].refs - 1)]);
    ShrinkKeeps(s, t);
    DropRefRefs(s, t, o, k);
    DropRefTable(s, t, o);
  }

  lemma {:induction false} DropRefRefs(s: State, t: State, o: nat, k: nat)
    requires RefInv(s, o, k) && k >= 1 && o in s.queries && s.queries[o].refs > 1
    requires t == s.(queries := s.queries[o := s.queries[o].(refs := s.queries[o].refs - 1)])
    ensures RefInv(t, o, k - 1)
  {
    forall p | p in t.queries ensures t.queries[p].refs == Owed(t, p) + (if p == o then k - 1 else 0) {
      assert s.queries[p].refs == Owed(s, p) + (if p == o then k else 0);
    }
  }

  lemma {:induction false} DropRefTable(s: State, t: State, o: nat)
    requires TableInv(s) && CountInv(s) && o in s.queries && o in t.queries
    requires t == s.(queries := s.queries[o := s.queries[o].(refs := t.queries[o].refs)])
    ensures TableInv(t) && CountInv(t) && FixedSlots(t) == FixedSlots(s)
  {
    assert DoneSlots(t) == DoneSlots(s);
  }

  /** Giving up one reference to a query, with all that may follow. */
  lemma {:induction false} UnrefQueryKeeps(s: State, o: nat, k: nat, y: nat)
    requires InvX(s, o, k, y) && o in s.queries && (s.current == Some(o) ==> s.queries[o].refs > 1)
    requires k >= 1 || (s.queries[o].refs == 1 && Held(s, o) == 0)
    ensures UnrefQuery.requires(s, o)
    ensures var t := UnrefQuery(s, o);
      if s.queries[o].refs > 1 then InvX(t, o, k - 1, y) else InvX(t, 0, 0, y)
  {
    hide FlightInv, NoAlias, CallInv, WorkerInv, TableInv, CountInv, SlotOf, FixedSlots;
    var q := s.queries[o];
    assert q.refs == Owed(s, o) + k;
    if q.refs > 1 {
      if q.live { LiveMeansCounted(s, o, k, y); }
      DropRefKeeps(s, o, k, y);
    } else if !q.live {
      ForgetKeeps(s, o, k, y);
    } else {
      LiveMeansCounted(s, o, k, y);
      DisconnectKeeps(s, o, k, y);
      var t := Disconnect(s, o);
      ForgetKeeps(t, o, if q.floating then k + 1 else k, if q.floating then y else y + 1);
      if !q.floating { UnrefResolverKeeps(Forget(t, o), y + 1); }
    }
  }

  lemma {:induction false} LiveMeansCounted(s: State, o: nat, k: nat, y: nat)
    requires InvX(s, o, k, y) && o in s.queries && s.queries[o].live
    ensures !s.freed && s.nQueries > 0 && (s.queries[o].done ==> s.nDone > 0) && s.nRef >= 1
  {
    hide FlightInv, NoAlias, CallInv, WorkerInv, RefInv, SlotOf, FixedSlots;
    DisconnectCounts(s, o);
  }
}
