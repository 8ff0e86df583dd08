/** The steps of the resolver in every interleaving, and what each keeps. */
module ResolverSteps {
  import opened Wrappers
  import opened Resolver

  // ----- sending a query -----

  lemma {:induction false} SlotOfId(n: nat)
    ensures SlotOf(n % ID_RANGE) == SlotOf(n)
  {
  }

  /** While fewer than 256 queries are live, the search for a free slot ends. */
  lemma {:induction false} TableHasRoom(s: State)
    requires TableInv(s) && CountInv(s) && s.nQueries < QUERIES_MAX
    ensures FreeWithin(s.table, s.issued, QUERIES_MAX)
  {
    var i := UnusedSlot(s.table.Keys, QUERIES_MAX);
    var r := SlotOf(s.issued);
    var j := s.issued + (if i >= r then i - r else QUERIES_MAX + i - r);
    assert SlotOf(j) == i;
  }

  lemma {:induction false} UnusedSlot(used: set<nat>, n: nat) returns (i: nat)
    requires |used| < n
    ensures i < n && i !in used
  {
    i := n - 1;
    if i in used {
      assert |used - {i}| == |used| - 1;
      i := UnusedSlot(used - {i}, n - 1);
    }
  }

  /** The unbounded number of the next id; its low 32 bits are the id. */
  function NextId(s: State): nat
    requires FreeWithin(s.table, s.issued, QUERIES_MAX)
  {
    NextFree(s.table, s.issued, QUERIES_MAX)
  }

  function Allocate(s: State, floating: bool, kind: Kind): State
    requires FreeWithin(s.table, s.issued, QUERIES_MAX)
  {
    var n, o := NextId(s), s.objects;
    var id := n % ID_RANGE;
    s.(queries := s.queries[o := Query(1, true, kind, false, floating, id)],
       table := s.table[SlotOf(id) := o],
       issued := n + 1,
       nQueries := s.nQueries + 1,
       nRef := if floating then s.nRef else s.nRef + 1,
       objects := o + 1)
  }

  /** No request or answer in flight carries the id the next query gets. */
  ghost predicate FreshId(s: State)
    requires FreeWithin(s.table, s.issued, QUERIES_MAX)
  {
    forall m :: m in InFlight(s) ==> m.id != NextId(s) % ID_RANGE
  }

  function Send(s: State, o: nat, ask: nat): State
    requires o in s.queries
  {
    var q := s.queries[o];
    s.(requests := s.requests + [Msg(q.id, q.kind, o, ask)],
       nOutstanding := s.nOutstanding + 1,
       held := if q.floating then s.held else s.held[o := 1])
  }

  lemma {:induction false} AllocateTable(s: State, floating: bool, kind: Kind)
    requires TableInv(s) && CountInv(s) && s.objects !in s.queries && FreeWithin(s.table, s.issued, QUERIES_MAX)
    ensures var t := Allocate(s, floating, kind);
      TableInv(t) && CountInv(t) && |FixedSlots(t)| == |FixedSlots(s)| + if floating then 0 else 1
  {
    SlotOfId(NextId(s));
    hide SlotOf;
    var t, i := Allocate(s, floating, kind), SlotOf(NextId(s));
    assert i !in s.table;
    AllocateSlots(s, t, i, t.queries[s.objects]);
  }

  lemma {:induction false} AllocateSlotAt(s: State, t: State, i: nat, q: Query, j: nat)
    requires TableInv(s) && s.objects !in s.queries && i !in s.table && !q.done
    requires t.table == s.table[i := s.objects] && t.queries == s.queries[s.objects := q]
    ensures j in DoneSlots(t) <==> j in DoneSlots(s)
    ensures j in FixedSlots(t) <==> j in FixedSlots(s) || (j == i && !q.floating)
    ensures i !in FixedSlots(s)
  {
    hide SlotOf;
    if j in s.table { assert s.table[j] in s.queries; }
  }

  lemma {:induction false} AllocateSlots(s: State, t: State, i: nat, q: Query)
    requires TableInv(s) && s.objects !in s.queries && i !in s.table && !q.done
    requires t.table == s.table[i := s.objects] && t.queries == s.queries[s.objects := q]
    ensures DoneSlots(t) == DoneSlots(s) && |FixedSlots(t)| == |FixedSlots(s)| + if q.floating then 0 else 1
  {
    hide TableInv, DoneSlots, FixedSlots;
    forall j: nat
      ensures j in DoneSlots(t) <==> j in DoneSlots(s)
      ensures j in FixedSlots(t) <==> j in FixedSlots(s) || (j == i && !q.floating)
      ensures i !in FixedSlots(s)
    {
      AllocateSlotAt(s, t, i, q, j);
    }
    assert DoneSlots(t) == DoneSlots(s);
    assert FixedSlots(t) == FixedSlots(s) + if q.floating then {} else {i};
  }

  lemma {:induction false} AllocateRefs(s: State, floating: bool, kind: Kind)
    requires RefInv(s, 0, 0) && s.objects !in s.queries && FreeWithin(s.table, s.issued, QUERIES_MAX)
    ensures RefInv(Allocate(s, floating, kind), s.objects, if floating then 0 else 1)
  {
    hide SlotOf;
    var t := Allocate(s, floating, kind);
    forall p | p in t.queries && p != s.objects ensures t.queries[p].refs == Owed(t, p) {
      assert s.queries[p].refs == Owed(s, p);
    }
  }

  lemma {:induction false} AllocateFlight(s: State, floating: bool, kind: Kind)
    requires FlightInv(s) && NoAlias(s) && CallInv(s) && WorkerInv(s) && s.objects !in s.queries
    requires FreeWithin(s.table, s.issued, QUERIES_MAX) && FreshId(s)
    ensures var t := Allocate(s, floating, kind); FlightInv(t) && NoAlias(t) && CallInv(t) && WorkerInv(t)
  {
    hide SlotOf;
    var t := Allocate(s, floating, kind);
    assert InFlight(t) == InFlight(s);
  }

  lemma {:induction false} AllocateKeeps(s: State, floating: bool, kind: Kind)
    requires Inv(s) && !s.freed && FreeWithin(s.table, s.issued, QUERIES_MAX) && FreshId(s)
    ensures s.objects !in s.queries
    ensures InvX(Allocate(s, floating, kind), s.objects, if floating then 0 else 1, 0)
  {
    assert s.objects !in s.queries;
    hide FlightInv, NoAlias, CallInv, WorkerInv, TableInv, CountInv, RefInv, FixedSlots, SlotOf, FreshId, FreeWithin;
    AllocateTable(s, floating, kind);
    AllocateRefs(s, floating, kind);
    AllocateFlight(s, floating, kind);
  }

  lemma {:induction false} SendRefs(s: State, o: nat, ask: nat)
    requires o in s.queries && Held(s, o) == 0
    requires RefInv(s, o, if s.queries[o].floating then 0 else 1)
    ensures RefInv(Send(s, o, ask), 0, 0)
  {
    var t, k := Send(s, o, ask), if s.queries[o].floating then 0 else 1;
    forall p | p in t.queries ensures t.queries[p].refs == Owed(t, p) {
      assert s.queries[p].refs == Owed(s, p) + (if p == o then k else 0);
    }
  }

  function SentMsg(s: State, o: nat, ask: nat): Msg
    requires o in s.queries
  {
    Msg(s.queries[o].id, s.queries[o].kind, o, ask)
  }

  lemma {:induction false} SendInFlight(s: State, o: nat, ask: nat)
    requires o in s.queries
    ensures InFlight(Send(s, o, ask)) == InFlight(s) + multiset{SentMsg(s, o, ask)}
  {
  }

  lemma {:induction false} SendMembers(s: State, o: nat, ask: nat)
    requires o in s.queries && FlightInv(s) && forall m :: m in InFlight(s) ==> m.origin != o
    ensures var t, own := Send(s, o, ask), SentMsg(s, o, ask);
      && |InFlight(t)| == |InFlight(s)| + 1
      && forall m :: m in InFlight(t) ==> InFlight(t)[m] == 1 && (m == own || (m in InFlight(s) && m.origin != o))
  {
    SendInFlight(s, o, ask);
    hide InFlight;
    var t, own := Send(s, o, ask), SentMsg(s, o, ask);
    assert own !in InFlight(s);
    forall m | m in InFlight(t) ensures InFlight(t)[m] == 1 && (m == own || (m in InFlight(s) && m.origin != o)) {
      if m != own { assert m in InFlight(s); }
    }
  }

  lemma {:induction false} SendFlight(s: State, o: nat, ask: nat)
    requires o in s.queries && !s.queries[o].done && o < s.objects && FlightInv(s)
    requires forall m :: m in InFlight(s) ==> m.origin != o
    ensures FlightInv(Send(s, o, ask))
  {
    hide InFlight;
    SendMembers(s, o, ask);
  }

  lemma {:induction false} SendNoAlias(s: State, o: nat, ask: nat)
    requires o in s.queries && s.queries[o].live && TableInv(s) && NoAlias(s)
    ensures NoAlias(Send(s, o, ask))
  {
    SendInFlight(s, o, ask);
    hide InFlight, SlotOf;
    var t, m := Send(s, o, ask), SentMsg(s, o, ask);
    forall m', p | m' in InFlight(t) && p in t.queries && t.queries[p].live && t.queries[p].id == m'.id
      ensures p == m'.origin
    {
      if m' == m { assert s.table[SlotOf(s.queries[p].id)] == p; } else { assert m' in InFlight(s); }
    }
  }

  lemma {:induction false} SendCalls(s: State, o: nat, ask: nat)
    requires o in s.queries && CallInv(s) && WorkerInv(s)
    requires forall i :: 0 <= i < |s.calls| ==> s.calls[i].query != o
    ensures CallInv(Send(s, o, ask)) && WorkerInv(Send(s, o, ask))
  {
    SendInFlight(s, o, ask);
    hide InFlight;
    var t, m := Send(s, o, ask), SentMsg(s, o, ask);
    forall i, m' | 0 <= i < |t.calls| && m' in InFlight(t) ensures m'.origin != t.calls[i].query {
      if m' != m { assert m' in InFlight(s); }
    }
  }

  lemma {:induction false} SendTable(s: State, o: nat, ask: nat)
    requires TableInv(s) && CountInv(s) && o in s.queries
    ensures TableInv(Send(s, o, ask)) && CountInv(Send(s, o, ask)) && FixedSlots(Send(s, o, ask)) == FixedSlots(s)
  {
    assert DoneSlots(Send(s, o, ask)) == DoneSlots(s);
  }

  lemma {:induction false} SendKeeps(s: State, o: nat, ask: nat)
    requires o in s.queries && InvX(s, o, if s.queries[o].floating then 0 else 1, 0) && !s.freed
    requires s.queries[o].live && !s.queries[o].done && Held(s, o) == 0
    requires forall m :: m in InFlight(s) ==> m.origin != o
    requires forall i :: 0 <= i < |s.calls| ==> s.calls[i].query != o
    ensures Inv(Send(s, o, ask))
  {
    assert o < s.objects;
    hide FlightInv, NoAlias, CallInv, WorkerInv, TableInv, CountInv, RefInv, FixedSlots, SlotOf;
    SendRefs(s, o, ask);
    SendFlight(s, o, ask);
    SendNoAlias(s, o, ask);
    SendCalls(s, o, ask);
    SendTable(s, o, ask);
  }

  // ----- receiving an answer -----

  /** `complete_query` up to the call of the callback. */
  function StartCallback(s: State, o: nat, m: Msg): State
    requires o in s.queries && !s.queries[o].done
  {
    var q := s.queries[o];
    s.(queries := s.queries[o := q.(done := true, refs := q.refs + 1)],
       nDone := s.nDone + 1,
       nRef := s.nRef + 1,
       current := Some(o),
       calls := s.calls + [Call(o, m)])
  }

  /** The answer is taken off the queue. */
  function Accept(s: State): State
    requires s.responses != [] && s.nOutstanding > 0
  {
    s.(responses := s.responses[1..], nOutstanding := s.nOutstanding - 1)
  }

  /** The answer at the head of the queue belongs to its sender if that is still
      live, and to nobody otherwise. */
  lemma {:induction false} LookupFindsSender(s: State, m: Msg)
    requires TableInv(s) && FlightInv(s) && NoAlias(s) && m in InFlight(s)
    ensures Lookup(s, m.id) == if m.origin in s.queries && s.queries[m.origin].live then Some(m.origin) else None
  {
    hide SlotOf, InFlight;
    var i := SlotOf(m.id);
    if m.origin in s.queries && s.queries[m.origin].live {
      assert s.queries[m.origin].id == m.id;
    }
  }

  lemma {:induction false} HeadInFlight(s: State)
    requires s.responses != [] && s.responses[0].Answer? && FlightInv(s)
    ensures s.responses[0].msg in InFlight(s) && s.nOutstanding > 0
    ensures InFlight(Accept(s)) == InFlight(s) - multiset{s.responses[0].msg}
  {
    assert s.responses[0].msg in Answers(s.responses);
    assert |InFlight(s)| > 0;
  }

  lemma {:induction false} AcceptFlight(s: State)
    requires s.responses != [] && s.responses[0].Answer? && FlightInv(s) && NoAlias(s) && CallInv(s)
    ensures s.nOutstanding > 0
    ensures var t, m := Accept(s), s.responses[0].msg;
      && m in InFlight(s) && FlightInv(t) && NoAlias(t) && CallInv(t)
      && (forall m' :: m' in InFlight(t) ==> m'.origin != m.origin)
  {
    HeadInFlight(s);
    hide InFlight;
    var t, m := Accept(s), s.responses[0].msg;
    assert InFlight(s)[m] == 1;
    assert forall m' :: m' in InFlight(t) ==> m' in InFlight(s) && m' != m && InFlight(t)[m'] == InFlight(s)[m'];
  }

  lemma {:induction false} AcceptKeeps(s: State)
    requires Inv(s) && s.responses != [] && s.responses[0].Answer?
    ensures s.nOutstanding > 0 && Inv(Accept(s))
  {
    hide FlightInv, NoAlias, CallInv, TableInv, CountInv, RefInv, OwnRefInv, SlotOf;
    AcceptFlight(s);
    SameMain(s, Accept(s));
  }

  lemma {:induction false} StartFlight(s: State, o: nat, m: Msg)
    requires o in s.queries && !s.queries[o].done && FlightInv(s) && NoAlias(s)
    requires forall m' :: m' in InFlight(s) ==> m'.origin != o
    ensures var t := StartCallback(s, o, m); FlightInv(t) && NoAlias(t)
  {
    assert InFlight(StartCallback(s, o, m)) == InFlight(s);
    hide InFlight;
  }

  lemma {:induction false} StartCalls(s: State, o: nat, m: Msg)
    requires o in s.queries && !s.queries[o].done && o < s.objects && m.origin == o && CallInv(s) && WorkerInv(s)
    requires forall m' :: m' in InFlight(s) ==> m'.origin != o
    requires forall i :: 0 <= i < |s.calls| ==> s.calls[i].query != o
    ensures var t := StartCallback(s, o, m); CallInv(t) && WorkerInv(t)
  {
    assert InFlight(StartCallback(s, o, m)) == InFlight(s);
    hide InFlight;
  }

  lemma {:induction false} StartRefs(s: State, o: nat, m: Msg)
    requires o in s.queries && s.queries[o].live && !s.queries[o].done && s.current == None && RefInv(s, 0, 0)
    ensures RefInv(StartCallback(s, o, m), 0, 0)
  {
    var t := StartCallback(s, o, m);
    forall p | p in t.queries ensures t.queries[p].refs == Owed(t, p) {
      assert s.queries[p].refs == Owed(s, p);
    }
  }

  lemma {:induction false} StartTable(s: State, o: nat, m: Msg)
    requires TableInv(s) && CountInv(s) && o in s.queries && s.queries[o].live && !s.queries[o].done
    ensures var t := StartCallback(s, o, m);
      TableInv(t) && CountInv(t) && FixedSlots(t) == FixedSlots(s)
  {
    hide SlotOf;
    var t, i := StartCallback(s, o, m), SlotOf(s.queries[o].id);
    StartSlots(s, t, o, i, t.queries[o]);
  }

  lemma {:induction false} StartSlots(s: State, t: State, o: nat, i: nat, q: Query)
    requires TableInv(s) && o in s.queries && i in s.table && s.table[i] == o && !s.queries[o].done
    requires t.table == s.table && t.queries == s.queries[o := q] && q.done && q.floating == s.queries[o].floating
    ensures DoneSlots(t) == DoneSlots(s) + {i} && i !in DoneSlots(s) && FixedSlots(t) == FixedSlots(s)
  {
    hide SlotOf;
    forall j | j in s.table && s.table[j] == o ensures j == i {
      assert SlotOf(s.queries[s.table[j]].id) == j && SlotOf(s.queries[s.table[i]].id) == i;
    }
    assert DoneSlots(t) == DoneSlots(s) + {i};
    assert FixedSlots(t) == FixedSlots(s);
  }

  lemma {:induction false} StartKeeps(s: State, o: nat, m: Msg)
    requires Inv(s) && !s.freed && s.current == None && o in s.queries && s.queries[o].live && !s.queries[o].done && m.origin == o
    requires forall m' :: m' in InFlight(s) ==> m'.origin != o
    requires forall i :: 0 <= i < |s.calls| ==> s.calls[i].query != o
    ensures Inv(StartCallback(s, o, m))
  {
    assert o < s.objects;
    hide FlightInv, NoAlias, CallInv, WorkerInv, TableInv, CountInv, RefInv, FixedSlots, SlotOf;
    StartFlight(s, o, m);
    StartCalls(s, o, m);
    StartRefs(s, o, m);
    StartTable(s, o, m);
  }

  /** What a step does: it goes on, or an assertion of the source fails. */
  datatype Turn = Goes(next: State) | Aborts

  /** `handle_response`, on any state. */
  function TryReceive(s: State): Turn
    requires s.responses != []
  {
    match s.responses[0]
    case Died => Goes(s.(responses := s.responses[1..], dead := true))
    case Answer(m) =>
      if s.nOutstanding == 0 then Aborts
      else
        var t := Accept(s);
        match Lookup(t, m.id)
        case None => Goes(t)
        case Some(o) =>
          if t.queries[o].kind != m.kind then Goes(t)
          else if t.queries[o].done then Aborts
          else Goes(StartCallback(t, o, m))
  }

  /** While the invariant holds no assertion fails. */
  lemma {:induction false} ReceiveGoes(s: State)
    requires Inv(s) && s.responses != []
    ensures TryReceive(s).Goes?
  {
    hide FlightInv, NoAlias, CallInv, WorkerInv, TableInv, CountInv, RefInv, OwnRefInv, SlotOf, Lookup;
    if s.responses[0].Answer? {
      AcceptFlight(s);
      LookupAfterAccept(s);
    }
  }

  function Receive(s: State): State
    requires Inv(s) && s.responses != []
  {
    ReceiveGoes(s);
    TryReceive(s).next
  }

  /** The query that is found was not done: the assertion of `complete_query`. */
  lemma {:induction false} LookupAfterAccept(s: State)
    requires Inv(s) && s.responses != [] && s.responses[0].Answer? && s.nOutstanding > 0
    ensures var m := s.responses[0].msg;
      match Lookup(Accept(s), m.id)
      case None => m.origin !in s.queries || !s.queries[m.origin].live
      case Some(o) => o == m.origin && o in s.queries && s.queries[o].live && !s.queries[o].done && s.queries[o].kind == m.kind
  {
    hide SlotOf, CountInv, RefInv, CallInv, WorkerInv, OwnRefInv;
    HeadInFlight(s);
    LookupFindsSender(s, s.responses[0].msg);
  }

  lemma {:induction false} ReceiveKeeps(s: State)
    requires Inv(s) && !s.freed && s.current == None && s.responses != []
    ensures Inv(Receive(s))
  {
    match s.responses[0]
    case Died => DiedKeeps(s);
    case Answer(m) =>
      AcceptFlight(s);
      AcceptKeeps(s);
      LookupAfterAccept(s);
      assert forall i :: 0 <= i < |s.calls| ==> s.calls[i].query != m.origin;
      hide FlightInv, NoAlias, CallInv, WorkerInv, TableInv, CountInv, RefInv, OwnRefInv, SlotOf, InFlight;
      match Lookup(Accept(s), m.id)
      case None =>
      case Some(o) => StartKeeps(Accept(s), o, m);
  }

  lemma {:induction false} DiedKeeps(s: State)
    requires Inv(s) && s.responses != [] && s.responses[0].Died?
    ensures Inv(s.(responses := s.responses[1..], dead := true))
  {
    hide FlightInv, NoAlias, CallInv, TableInv, CountInv, RefInv, OwnRefInv, SlotOf;
    var t := s.(responses := s.responses[1..], dead := true);
    SameMain(s, t);
    SameFlight(s, t);
  }

  /** Steps that only move messages from one place to another. */
  lemma {:induction false} SameFlight(s: State, t: State)
    requires FlightInv(s) && NoAlias(s) && CallInv(s) && InFlight(t) == InFlight(s)
    requires t.queries == s.queries && t.calls == s.calls && t.objects == s.objects && t.nOutstanding == s.nOutstanding
    ensures FlightInv(t) && NoAlias(t) && CallInv(t)
  {
    hide InFlight;
  }

  /** Steps that touch neither the queries nor the counts. */
  lemma {:induction false} SameMain(s: State, t: State)
    requires TableInv(s) && CountInv(s) && RefInv(s, 0, 0) && OwnRefInv(s, 0)
    requires t.queries == s.queries && t.table == s.table && t.nQueries == s.nQueries && t.nDone == s.nDone && t.nRef == s.nRef
    requires t.freed == s.freed && t.current == s.current && t.held == s.held && t.heldResolver == s.heldResolver && t.objects == s.objects
    ensures TableInv(t) && CountInv(t) && RefInv(t, 0, 0) && OwnRefInv(t, 0)
  {
    assert DoneSlots(t) == DoneSlots(s) && FixedSlots(t) == FixedSlots(s);
    forall o | o in t.queries ensures Owed(t, o) == Owed(s, o) {}
  }

  // ----- the callback returns -----

  /** A floating query whose callback ran can be disconnected. */
  ghost predicate CanRelease(s: State, o: nat) {
    o in s.queries &&
    (s.queries[o].floating ==>
       s.nQueries > 0 && (s.queries[o].done ==> s.nDone > 0) && UnrefQuery.requires(Disconnect(s, o), o))
  }

  function Released(s: State, o: nat): State
    requires CanRelease(s, o)
  {
    if s.queries[o].floating then UnrefQuery(Disconnect(s, o), o) else s
  }

  /** The callback of `o` has returned: what can be done. */
  ghost predicate CanReturn(s: State, o: nat) {
    CanRelease(s, o) && UnrefQuery.requires(Released(s, o), o) && UnrefQuery(Released(s, o), o).nRef >= 1
  }

  /** `complete_query` after the callback, and the end of `sd_resolve_process`. */
  function Return(s: State): State
    requires Base(s) && s.current.Some?
  {
    ReturnDefined(s);
    var o := s.current.value;
    UnrefResolver(UnrefQuery(Released(s.(current := None), o), o))
  }

  lemma {:induction false} QuietUnref(s: State, o: nat)
    requires UnrefQuery.requires(Quiet(s), o)
    ensures UnrefQuery.requires(s, o) && UnrefQuery(Quiet(s), o) == Quiet(UnrefQuery(s, o))
  {
  }

  lemma {:induction false} QuietReleased(s: State, o: nat)
    requires CanRelease(Quiet(s), o)
    ensures CanRelease(s, o) && Released(Quiet(s), o) == Quiet(Released(s, o))
  {
    if s.queries[o].floating {
      var d := Disconnect(s, o);
      assert Disconnect(Quiet(s), o) == Quiet(d);
      hide Disconnect;
      QuietUnref(d, o);
    }
  }

  /** What follows a callback is defined, whatever is in flight. */
  lemma {:induction false} ReturnDefined(s: State)
    requires Base(s) && s.current.Some?
    ensures var o, s1 := s.current.value, s.(current := None);
      CanReturn(s1, o) && Inv(Quiet(UnrefResolver(UnrefQuery(Released(s1, o), o))))
  {
    QuietIsFine(s);
    hide Base, InvX, UnrefQuery, Disconnect, CanRelease, Released, UnrefResolver;
    ReturnKeeps(Quiet(s));
    var o, s1 := s.current.value, s.(current := None);
    assert Quiet(s).(current := None) == Quiet(s1);
    QuietReleased(s1, o);
    QuietUnref(Released(s1, o), o);
    QuietUnrefResolver(UnrefQuery(Released(s1, o), o));
  }

  lemma {:induction false} QuietUnrefResolver(s: State)
    requires s.nRef >= 1
    ensures UnrefResolver(Quiet(s)) == Quiet(UnrefResolver(s))
  {
  }

  lemma {:induction false} ReturnRefs(s: State)
    requires RefInv(s, 0, 0) && s.current.Some?
    ensures RefInv(s.(current := None), s.current.value, 1)
  {
    var t, o := s.(current := None), s.current.value;
    forall p | p in t.queries ensures t.queries[p].refs == Owed(t, p) + (if p == o then 1 else 0) {
      assert s.queries[p].refs == Owed(s, p);
    }
  }

  lemma {:induction false} SameSlots(s: State, t: State)
    requires t.table == s.table && t.queries == s.queries
    ensures DoneSlots(t) == DoneSlots(s) && FixedSlots(t) == FixedSlots(s)
  {
  }

  lemma {:induction false} ReturnStarts(s: State)
    requires Inv(s) && s.current.Some?
    ensures var t, o := s.(current := None), s.current.value;
      InvX(t, o, 1, 1) && !t.freed && o in t.queries && t.queries[o].live
  {
    hide FlightInv, NoAlias, CallInv, WorkerInv, DoneSlots, FixedSlots, SlotOf;
    var t := s.(current := None);
    SameSlots(s, t);
    assert s.current.value in s.queries && s.queries[s.current.value].live;
    hide RefInv;
    ReturnRefs(s);
    ShrinkKeeps(s, t);
  }

  lemma {:induction false} FloatingRefs(s: State, o: nat)
    requires RefInv(s, o, 1) && o in s.queries && s.queries[o].live && s.queries[o].floating
    ensures s.queries[o].refs >= 2
  {
    assert s.queries[o].refs == Owed(s, o) + 1;
  }

  /** The floating query whose callback returned is disconnected and loses one reference. */
  lemma {:induction false} ReleaseKeeps(s: State, o: nat)
    requires InvX(s, o, 1, 1) && !s.freed && s.current == None && o in s.queries && s.queries[o].live
    ensures CanRelease(s, o) && InvX(Released(s, o), o, 1, 1) && o in Released(s, o).queries
    ensures Released(s, o).current == None
  {
    hide FlightInv, NoAlias, CallInv, WorkerInv, TableInv, CountInv, SlotOf, FixedSlots, RefInv, OwnRefInv;
    if s.queries[o].floating {
      FloatingRefs(s, o);
      DisconnectKeeps(s, o, 1, 1);
      UnrefQueryKeeps(Disconnect(s, o), o, 2, 1);
    }
  }

  lemma {:induction false} ReturnKeeps(s: State)
    requires Inv(s) && s.current.Some?
    ensures var o, s1 := s.current.value, s.(current := None);
      CanReturn(s1, o) && Inv(UnrefResolver(UnrefQuery(Released(s1, o), o)))
  {
    hide FlightInv, NoAlias, CallInv, WorkerInv, TableInv, CountInv, SlotOf, FixedSlots, RefInv, OwnRefInv, Released, CanRelease;
    var o := s.current.value;
    ReturnStarts(s);
    var s1 := s.(current := None);
    ReleaseKeeps(s1, o);
    var s2 := Released(s1, o);
    UnrefQueryKeeps(s2, o, 1, 1);
    var s3 := UnrefQuery(s2, o);
    if s2.queries[o].refs > 1 { NoExtra(s3, o, 0, 1); }
    UnrefGoesOn(s2, o);
    UnrefResolverKeeps(s3, 1);
  }

  lemma {:induction false} UnrefGoesOn(s: State, o: nat)
    requires UnrefQuery.requires(s, o) && OwnRefInv(s, 1) && OwnRefInv(UnrefQuery(s, o), 1)
    ensures !UnrefQuery(s, o).freed && UnrefQuery(s, o).nRef >= 1
  {
    hide UnrefQuery;
  }
}
