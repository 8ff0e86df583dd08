/** Every run of the resolver. */
module ResolverRuns {
  import opened Wrappers
  import opened Resolver
  import opened ResolverSteps

  /** One step of the main thread or of a worker. */
  datatype Step =
    // sd_resolve_getaddrinfo, sd_resolve_getnameinfo: how many threads could be
    // started, and whether the request was sent
    | Issue(floating: bool, kind: Kind, ask: nat, threads: nat, sent: bool)
    | RefQuery(query: nat)
    | UnrefQueryStep(query: nat)
    | RefResolver
    | UnrefResolverStep
    | Process  // sd_resolve_process, up to the callback
    | CallbackReturns
    | WorkerTakes
    | WorkerReplies(msg: Msg)
    | WorkerFails(msg: Msg)
    | WorkerQuits

  /** The program may call into a resolver it references, or from a callback. */
  predicate Usable(s: State) {
    !s.freed && (s.heldResolver > 0 || s.current.Some?)
  }

  predicate Enabled(s: State, step: Step) {
    match step
    case Issue(_, _, _, _, _) => Usable(s)
    case RefQuery(o) => o in s.queries && (Held(s, o) > 0 || s.current == Some(o))
    case UnrefQueryStep(o) => Held(s, o) > 0
    case RefResolver => Usable(s)
    case UnrefResolverStep => s.heldResolver > 0
    case Process => !s.freed && s.current == None && s.responses != []
    case CallbackReturns => s.current.Some?
    case WorkerTakes => s.requests != [] && |s.working| < s.nWorkers
    case WorkerReplies(m) => m in s.working
    case WorkerFails(m) => m in s.working
    case WorkerQuits => s.nWorkers > 0
  }

  function Clamp(x: nat, low: nat, high: nat): nat {
    if x < low then low else if x > high then high else x
  }

  /** Threads wanted for one more query. */
  function WantedWorkers(s: State): nat {
    var n := Clamp(s.nOutstanding + 1, WORKERS_MIN, WORKERS_MAX);
    if s.nWorkers < n then n else s.nWorkers
  }

  function WithThreads(s: State, threads: nat): State {
    s.(nWorkers := if s.nWorkers + threads < WantedWorkers(s) then s.nWorkers + threads else WantedWorkers(s))
  }

  /** A query is allocated: there is a slot, and the threads wanted are there. */
  predicate Allocates(s: State, threads: nat) {
    s.nQueries < QUERIES_MAX && WithThreads(s, threads).nWorkers >= WantedWorkers(s)
  }

  function IssueQuery(s: State, floating: bool, kind: Kind, ask: nat, threads: nat, sent: bool): State
    requires Base(s) && Usable(s)
  {
    if s.nQueries >= QUERIES_MAX then s
    else
      var w := WithThreads(s, threads);
      if w.nWorkers < WantedWorkers(s) then w
      else
        IssueDefined(s, threads, floating, kind);
        var a := Allocate(w, floating, kind);
        if sent then Send(a, s.objects, ask) else UnrefQuery(a, s.objects)
  }

  lemma {:induction false} IssueDefined(s: State, threads: nat, floating: bool, kind: Kind)
    requires Base(s) && Usable(s) && s.nQueries < QUERIES_MAX
    ensures FreeWithin(s.table, s.issued, QUERIES_MAX)
    ensures var w := WithThreads(s, threads);
      s.objects in Allocate(w, floating, kind).queries && UnrefQuery.requires(Allocate(w, floating, kind), s.objects)
  {
    hide TableInv, CountInv, RefInv, FixedSlots, SlotOf, FreeWithin;
    TableHasRoom(s);
    SameMain(s, WithThreads(s, threads));
    UnsentKeeps(WithThreads(s, threads), floating, kind);
  }

  lemma {:induction false} ThreadsKeep(s: State, threads: nat)
    requires Inv(s)
    ensures Inv(WithThreads(s, threads))
  {
    hide FlightInv, NoAlias, CallInv, TableInv, CountInv, RefInv, OwnRefInv, SlotOf;
    var t := WithThreads(s, threads);
    assert InFlight(t) == InFlight(s);
    SameMain(s, t);
    SameFlight(s, t);
  }

  /** A request that could not be sent: the new query is released at once, and
      only the ids have moved on. */
  lemma {:induction false} UnsentKeeps(s: State, floating: bool, kind: Kind)
    requires TableInv(s) && CountInv(s) && RefInv(s, 0, 0) && FreeWithin(s.table, s.issued, QUERIES_MAX) && s.nRef >= 1
    ensures UnrefQuery.requires(Allocate(s, floating, kind), s.objects)
    ensures UnrefQuery(Allocate(s, floating, kind), s.objects) == s.(issued := NextId(s) + 1, objects := s.objects + 1)
  {
    hide RefInv, TableInv, CountInv, FreeWithin;
    assert s.objects !in s.queries by { ObjectsFresh(s); }
    SlotOfId(NextId(s));
    hide SlotOf;
    var o := s.objects;
    var a := Allocate(s, floating, kind);
    assert a.queries - {o} == s.queries;
    assert a.table - {SlotOf(NextId(s))} == s.table;
    assert a.queries[o := a.queries[o].(live := false)] - {o} == s.queries;
  }

  lemma {:induction false} ObjectsFresh(s: State)
    requires RefInv(s, 0, 0)
    ensures s.objects !in s.queries
  {
  }

  lemma {:induction false} SkipObject(s: State, issued: nat)
    requires Inv(s)
    ensures Inv(s.(issued := issued, objects := s.objects + 1))
  {
    hide SlotOf, TableInv, CountInv, OwnRefInv, InFlight;
    var t := s.(issued := issued, objects := s.objects + 1);
    assert TableInv(t) && CountInv(t) && OwnRefInv(t, 0) by { SkipTable(s, t); }
    assert InFlight(t) == InFlight(s) by { SkipFlight(s, t); }
    forall o | o in t.queries ensures Owed(t, o) == Owed(s, o) {}
    hide Owed;
  }

  lemma {:induction false} SkipTable(s: State, t: State)
    requires TableInv(s) && CountInv(s) && OwnRefInv(s, 0) && t == s.(issued := t.issued, objects := t.objects)
    ensures TableInv(t) && CountInv(t) && OwnRefInv(t, 0)
  {
    assert DoneSlots(t) == DoneSlots(s) && FixedSlots(t) == FixedSlots(s);
  }

  lemma {:induction false} SkipFlight(s: State, t: State)
    requires t == s.(issued := t.issued, objects := t.objects)
    ensures InFlight(t) == InFlight(s)
  {
  }

  lemma {:induction false} IssueKeeps(s: State, floating: bool, kind: Kind, ask: nat, threads: nat, sent: bool)
    requires Inv(s) && Usable(s)
    requires sent && Allocates(s, threads) ==> FreeWithin(s.table, s.issued, QUERIES_MAX) && FreshId(s)
    ensures Inv(IssueQuery(s, floating, kind, ask, threads, sent))
  {
    var w := WithThreads(s, threads);
    ThreadsKeep(s, threads);
    assert InFlight(w) == InFlight(s);
    hide FlightInv, NoAlias, CallInv, WorkerInv, TableInv, CountInv, RefInv, FixedSlots, SlotOf, FreeWithin, InFlight;
    if Allocates(s, threads) {
      IssueDefined(s, threads, floating, kind);
      if sent {
        AllocateKeeps(w, floating, kind);
        AllocatedFresh(w, floating, kind);
        SendKeeps(Allocate(w, floating, kind), s.objects, ask);
      } else {
        UnsentKeeps(w, floating, kind);
        SkipObject(w, NextId(w) + 1);
      }
    }
  }

  lemma {:induction false} AllocatedFresh(s: State, floating: bool, kind: Kind)
    requires Inv(s) && FreeWithin(s.table, s.issued, QUERIES_MAX)
    ensures var t, o := Allocate(s, floating, kind), s.objects;
      && Held(t, o) == 0
      && (forall m :: m in InFlight(t) ==> m.origin != o)
      && (forall i :: 0 <= i < |t.calls| ==> t.calls[i].query != o)
  {
    hide SlotOf, TableInv, CountInv, OwnRefInv, NoAlias;
    assert InFlight(Allocate(s, floating, kind)) == InFlight(s);
    hide InFlight;
  }

  // ----- references held by the program -----

  function RefQueryBy(s: State, o: nat): State
    requires o in s.queries
  {
    s.(queries := s.queries[o := s.queries[o].(refs := s.queries[o].refs + 1)], held := s.held[o := Held(s, o) + 1])
  }

  lemma {:induction false} RefQueryKeeps(s: State, o: nat)
    requires Inv(s) && o in s.queries
    ensures Inv(RefQueryBy(s, o))
  {
    hide FlightInv, NoAlias, CallInv, WorkerInv, TableInv, CountInv, RefInv, FixedSlots, SlotOf;
    var t := RefQueryBy(s, o);
    ShrinkKeeps(s, t);
    RefQueryRefs(s, o);
    RefQueryTable(s, o);
  }

  lemma {:induction false} RefQueryRefs(s: State, o: nat)
    requires RefInv(s, 0, 0) && o in s.queries
    ensures RefInv(RefQueryBy(s, o), 0, 0)
  {
    var t := RefQueryBy(s, o);
    forall p | p in t.queries ensures t.queries[p].refs == Owed(t, p) {
      assert s.queries[p].refs == Owed(s, p);
    }
  }

  lemma {:induction false} RefQueryTable(s: State, o: nat)
    requires TableInv(s) && CountInv(s) && o in s.queries
    ensures var t := RefQueryBy(s, o); TableInv(t) && CountInv(t) && FixedSlots(t) == FixedSlots(s)
  {
    assert DoneSlots(RefQueryBy(s, o)) == DoneSlots(s);
  }

  function GiveUpQuery(s: State, o: nat): State
    requires Held(s, o) > 0
  {
    s.(held := s.held[o := Held(s, o) - 1])
  }

  lemma {:induction false} GiveUpRefs(s: State, o: nat)
    requires RefInv(s, 0, 0) && Held(s, o) > 0
    ensures o in s.queries && RefInv(GiveUpQuery(s, o), o, 1)
    ensures s.current == Some(o) ==> s.queries[o].refs > 1
  {
    var t := GiveUpQuery(s, o);
    forall p | p in t.queries ensures t.queries[p].refs == Owed(t, p) + (if p == o then 1 else 0) {
      assert s.queries[p].refs == Owed(s, p);
    }
  }

  lemma {:induction false} GiveUpKeeps(s: State, o: nat)
    requires Inv(s) && Held(s, o) > 0
    ensures var t := GiveUpQuery(s, o); o in t.queries && UnrefQuery.requires(t, o) && Inv(UnrefQuery(t, o))
  {
    hide FlightInv, NoAlias, CallInv, WorkerInv, TableInv, CountInv, RefInv, FixedSlots, SlotOf, Owed;
    var t := GiveUpQuery(s, o);
    GiveUpRefs(s, o);
    ShrinkKeeps(s, t);
    GiveUpTable(s, o);
    UnrefQueryKeeps(t, o, 1, 0);
    if t.queries[o].refs > 1 { NoExtra(UnrefQuery(t, o), o, 0, 0); }
  }

  lemma {:induction false} GiveUpTable(s: State, o: nat)
    requires TableInv(s) && CountInv(s) && Held(s, o) > 0
    ensures var t := GiveUpQuery(s, o); TableInv(t) && CountInv(t) && FixedSlots(t) == FixedSlots(s)
  {
    assert DoneSlots(GiveUpQuery(s, o)) == DoneSlots(s);
  }

  lemma {:induction false} HoldResolver(s: State, held: nat, y: nat, nRef: nat)
    requires Inv(s) && !s.freed && nRef == s.nRef - s.heldResolver + held + y && nRef >= 1
    ensures InvX(s.(heldResolver := held, nRef := nRef), 0, 0, y)
  {
    hide FlightInv, NoAlias, CallInv, WorkerInv, TableInv, CountInv, RefInv, FixedSlots, SlotOf;
    var t := s.(heldResolver := held, nRef := nRef);
    ShrinkKeeps(s, t);
    HoldTable(s, t);
    HoldRefs(s, t);
  }

  lemma {:induction false} HoldTable(s: State, t: State)
    requires TableInv(s) && CountInv(s) && t == s.(heldResolver := t.heldResolver, nRef := t.nRef)
    ensures TableInv(t) && CountInv(t) && FixedSlots(t) == FixedSlots(s)
  {
    assert DoneSlots(t) == DoneSlots(s);
  }

  lemma {:induction false} HoldRefs(s: State, t: State)
    requires RefInv(s, 0, 0) && t == s.(heldResolver := t.heldResolver, nRef := t.nRef)
    ensures RefInv(t, 0, 0)
  {
    forall o | o in t.queries ensures Owed(t, o) == Owed(s, o) {}
  }

  function GiveUpResolver(s: State): State
    requires s.heldResolver > 0 && s.nRef >= 1
  {
    UnrefResolver(s.(heldResolver := s.heldResolver - 1))
  }

  lemma {:induction false} GiveUpResolverKeeps(s: State)
    requires Inv(s) && s.heldResolver > 0
    ensures !s.freed && s.nRef >= 1 && Inv(GiveUpResolver(s))
  {
    hide FlightInv, NoAlias, CallInv, WorkerInv, TableInv, CountInv, RefInv, FixedSlots, SlotOf;
    HoldResolver(s, s.heldResolver - 1, 1, s.nRef);
    UnrefResolverKeeps(s.(heldResolver := s.heldResolver - 1, nRef := s.nRef), 1);
  }

  // ----- the workers -----

  function Take(s: State): State
    requires s.requests != []
  {
    s.(requests := s.requests[1..], working := s.working + multiset{s.requests[0]})
  }

  function Reply(s: State, m: Msg): State {
    s.(working := s.working - multiset{m}, responses := s.responses + [Answer(m)])
  }

  /** The worker gives up without an answer; the request is lost. */
  function Fail(s: State, m: Msg): State {
    s.(working := s.working - multiset{m}, responses := s.responses + [Died])
  }

  function Quit(s: State): State {
    s.(responses := s.responses + [Died])
  }

  lemma {:induction false} AnswersAppend(p: seq<Packet>, x: Packet)
    ensures Answers(p + [x]) == Answers(p) + match x case Answer(m) => multiset{m} case Died => multiset{}
  {
    if p == [] {
      assert p + [x] == [x];
      assert [x][1..] == [];
    } else {
      AnswersAppend(p[1..], x);
      assert (p + [x])[1..] == p[1..] + [x];
    }
  }

  lemma {:induction false} WorkerMoves(s: State, t: State)
    requires Inv(s) && InFlight(t) == InFlight(s) && |t.working| <= s.nWorkers
    requires t == s.(requests := t.requests, working := t.working, responses := t.responses)
    ensures Inv(t)
  {
    hide FlightInv, NoAlias, CallInv, TableInv, CountInv, RefInv, OwnRefInv, SlotOf, InFlight;
    SameMain(s, t);
    SameFlight(s, t);
  }

  lemma {:induction false} TakeInFlight(s: State)
    requires s.requests != []
    ensures InFlight(Take(s)) == InFlight(s)
  {
    assert s.requests == [s.requests[0]] + s.requests[1..];
  }

  lemma {:induction false} ReplyInFlight(s: State, m: Msg)
    requires m in s.working
    ensures InFlight(Reply(s, m)) == InFlight(s)
  {
    AnswersAppend(s.responses, Answer(m));
    assert s.working == s.working - multiset{m} + multiset{m};
  }

  lemma {:induction false} FailInFlight(s: State, m: Msg)
    requires m in s.working
    ensures InFlight(Fail(s, m)) == InFlight(s) - multiset{m}
  {
    AnswersAppend(s.responses, Died);
  }

  lemma {:induction false} QuitInFlight(s: State)
    ensures InFlight(Quit(s)) == InFlight(s)
  {
    AnswersAppend(s.responses, Died);
  }

  lemma {:induction false} FailKeeps(s: State, m: Msg)
    requires Inv(s) && m in s.working
    ensures Inv(Fail(s, m))
  {
    hide FlightInv, NoAlias, CallInv, TableInv, CountInv, RefInv, OwnRefInv, SlotOf;
    FailInFlight(s, m);
    FailFlight(s, Fail(s, m), m);
    SameMain(s, Fail(s, m));
  }

  lemma {:induction false} FailFlight(s: State, t: State, m: Msg)
    requires FlightInv(s) && NoAlias(s) && CallInv(s) && m in InFlight(s) && InFlight(t) == InFlight(s) - multiset{m}
    requires t.queries == s.queries && t.calls == s.calls && t.objects == s.objects && t.nOutstanding == s.nOutstanding
    ensures FlightInv(t) && NoAlias(t) && CallInv(t)
  {
    hide InFlight;
    assert forall m' :: m' in InFlight(t) ==> m' in InFlight(s) && InFlight(t)[m'] <= InFlight(s)[m'];
  }

  // ----- whole runs -----

  /** Giving up a reference is defined, whatever is in flight. */
  lemma {:induction false} GiveUpDefined(s: State, o: nat)
    requires Base(s) && Held(s, o) > 0
    ensures UnrefQuery.requires(GiveUpQuery(s, o), o) && Inv(Quiet(UnrefQuery(GiveUpQuery(s, o), o)))
  {
    QuietIsFine(s);
    hide Base, InvX, UnrefQuery;
    GiveUpKeeps(Quiet(s), o);
    assert GiveUpQuery(Quiet(s), o) == Quiet(GiveUpQuery(s, o));
    QuietUnref(GiveUpQuery(s, o), o);
  }

  /** A step on any state whose table, counts and references are in order. */
  function TryEffect(s: State, step: Step): Turn
    requires Base(s) && Enabled(s, step)
  {
    match step
    case Issue(floating, kind, ask, threads, sent) => Goes(IssueQuery(s, floating, kind, ask, threads, sent))
    case RefQuery(o) => Goes(RefQueryBy(s, o))
    case UnrefQueryStep(o) => GiveUpDefined(s, o); Goes(UnrefQuery(GiveUpQuery(s, o), o))
    case RefResolver => Goes(s.(heldResolver := s.heldResolver + 1, nRef := s.nRef + 1))
    case UnrefResolverStep => Goes(GiveUpResolver(s))
    case Process => TryReceive(s)
    case CallbackReturns => Goes(Return(s))
    case WorkerTakes => Goes(Take(s))
    case WorkerReplies(m) => Goes(Reply(s, m))
    case WorkerFails(m) => Goes(Fail(s, m))
    case WorkerQuits => Goes(Quit(s))
  }

  /** While the invariant holds every step goes on. */
  function Effect(s: State, step: Step): State
    requires Inv(s) && Enabled(s, step)
  {
    if step == Process then Receive(s) else TryEffect(s, step).next
  }

  lemma {:induction false} EffectGoes(s: State, step: Step)
    requires Inv(s) && Enabled(s, step)
    ensures Base(s) && TryEffect(s, step) == Goes(Effect(s, step))
  {
    hide InvX, Base, IssueQuery, UnrefQuery, Return, TryReceive;
    InvMeansBase(s);
    if step.Process? { ReceiveGoes(s); }
  }

  /** The step does not give a new query an id that is still in flight. */
  ghost predicate FreshStep(s: State, step: Step)
    requires Inv(s) && Enabled(s, step)
  {
    step.Issue? && step.sent && Allocates(s, step.threads) ==> FreeWithin(s.table, s.issued, QUERIES_MAX) && FreshId(s)
  }

  lemma {:induction false} StepKeepsInv(s: State, step: Step)
    requires Inv(s) && Enabled(s, step) && FreshStep(s, step)
    ensures Inv(Effect(s, step))
  {
    hide FlightInv, NoAlias, CallInv, TableInv, CountInv, RefInv, OwnRefInv, SlotOf, FreeWithin, FreshId, InFlight;
    match step
    case Issue(floating, kind, ask, threads, sent) =>
      IssueKeeps(s, floating, kind, ask, threads, sent);
    case RefQuery(o) => RefQueryKeeps(s, o);
    case UnrefQueryStep(o) => GiveUpKeeps(s, o);
    case RefResolver => UsableRef(s); HoldResolver(s, s.heldResolver + 1, 0, s.nRef + 1);
    case UnrefResolverStep => GiveUpResolverKeeps(s);
    case Process => ReceiveKeeps(s);
    case CallbackReturns => ReturnKeeps(s);
    case WorkerTakes => TakeInFlight(s); WorkerMoves(s, Take(s));
    case WorkerReplies(m) => ReplyInFlight(s, m); WorkerMoves(s, Reply(s, m));
    case WorkerFails(m) => FailKeeps(s, m);
    case WorkerQuits => QuitInFlight(s); WorkerMoves(s, Quit(s));
  }

  lemma {:induction false} UsableRef(s: State)
    requires Inv(s) && Usable(s)
    ensures s.nRef >= s.heldResolver
  {
  }

  /** Ids in flight were given out before. */
  ghost predicate IdInv(s: State) {
    forall m :: m in InFlight(s) ==> m.id < s.issued
  }

  /** The messages and the ids stay as they are. */
  ghost predicate SameMessages(s: State, t: State) {
    t.requests == s.requests && t.working == s.working && t.responses == s.responses && t.issued == s.issued
  }

  lemma {:induction false} UnrefSameMessages(s: State, o: nat)
    requires UnrefQuery.requires(s, o)
    ensures SameMessages(s, UnrefQuery(s, o))
  {
  }

  lemma {:induction false} ReturnSameMessages(s: State)
    requires Base(s) && s.current.Some?
    ensures SameMessages(s, Return(s))
  {
    hide Base;
    ReturnDefined(s);
    var o, s1 := s.current.value, s.(current := None);
    if s1.queries[o].floating { UnrefSameMessages(Disconnect(s1, o), o); }
    UnrefSameMessages(Released(s1, o), o);
    hide UnrefQuery;
  }

  lemma {:induction false} ReceiveMessages(s: State)
    requires s.responses != [] && TryReceive(s).Goes?
    ensures var t := TryReceive(s).next;
      t.requests == s.requests && t.working == s.working && t.issued == s.issued && t.responses == s.responses[1..]
  {
    hide Lookup;
  }

  lemma {:induction false} SameMessagesInFlight(s: State, t: State)
    requires SameMessages(s, t)
    ensures InFlight(t) == InFlight(s)
  {
  }

  lemma {:induction false} OnlyIssueSends(s: State, step: Step)
    requires Inv(s) && Enabled(s, step) && !step.Issue?
    ensures InFlight(Effect(s, step)) <= InFlight(s) && Effect(s, step).issued == s.issued
  {
    hide FlightInv, NoAlias, CallInv, WorkerInv, TableInv, CountInv, RefInv, OwnRefInv, SlotOf, UnrefQuery, Return, TryReceive, InFlight;
    match step
    case RefQuery(o) => SameMessagesInFlight(s, RefQueryBy(s, o));
    case UnrefQueryStep(o) =>
      GiveUpKeeps(s, o);
      UnrefSameMessages(GiveUpQuery(s, o), o);
      SameMessagesInFlight(s, Effect(s, step));
    case RefResolver => SameMessagesInFlight(s, Effect(s, step));
    case UnrefResolverStep => SameMessagesInFlight(s, Effect(s, step));
    case Process => ReceiveGoes(s); ReceiveMessages(s); ReceivedInFlight(s, Receive(s));
    case CallbackReturns => InvMeansBase(s); ReturnSameMessages(s); SameMessagesInFlight(s, Return(s));
    case WorkerTakes => TakeInFlight(s);
    case WorkerReplies(m) => ReplyInFlight(s, m);
    case WorkerFails(m) => FailInFlight(s, m);
    case WorkerQuits => QuitInFlight(s);
  }

  lemma {:induction false} ReceivedInFlight(s: State, t: State)
    requires s.responses != [] && t.requests == s.requests && t.working == s.working && t.responses == s.responses[1..]
    ensures InFlight(t) <= InFlight(s)
  {
  }

  /** As long as the 2^32 ids are not used up, a new id is never in flight. */
  lemma {:induction false} IssueStaysFresh(s: State, step: Step)
    requires Inv(s) && IdInv(s) && Enabled(s, step) && step.Issue? && Effect(s, step).issued <= ID_RANGE
    ensures FreshStep(s, step) && IdInv(Effect(s, step))
  {
    hide FlightInv, NoAlias, CallInv, WorkerInv, TableInv, CountInv, RefInv, SlotOf, InFlight, FreeWithin;
    var w := WithThreads(s, step.threads);
    SameMessagesInFlight(s, w);
    if Allocates(s, step.threads) {
      InvMeansBase(s);
      IssueDefined(s, step.threads, step.floating, step.kind);
      ThreadsKeep(s, step.threads);
      UnsentKeeps(w, step.floating, step.kind);
      if step.sent {
        var a := Allocate(w, step.floating, step.kind);
        SendInFlight(a, s.objects, step.ask);
        AllocateInFlight(w, step.floating, step.kind);
        assert InFlight(a) == InFlight(s);
        assert forall m :: m in InFlight(s) ==> m.id < s.issued <= NextId(s) < ID_RANGE;
      } else {
        SkipFlight(w, Effect(s, step));
      }
    }
  }

  lemma {:induction false} AllocateInFlight(s: State, floating: bool, kind: Kind)
    requires FreeWithin(s.table, s.issued, QUERIES_MAX)
    ensures InFlight(Allocate(s, floating, kind)) == InFlight(s)
  {
  }

  /** A run from the fresh resolver. The effect of a step is defined where the
      invariant holds, which is proved below of every state. */
  ghost predicate IsRun(states: seq<State>, steps: seq<Step>) {
    |states| == |steps| + 1 && states[0] == Init() &&
    forall i :: 0 <= i < |steps| && Inv(states[i]) ==>
      Enabled(states[i], steps[i]) && states[i + 1] == Effect(states[i], steps[i])
  }

  lemma {:induction false} InitIsFine()
    ensures Inv(Init()) && IdInv(Init())
  {
    assert DoneSlots(Init()) == {} && FixedSlots(Init()) == {};
    assert InFlight(Init()) == multiset{};
  }

  /** Every state of every run that has used at most 2^32 ids is fine. */
  lemma {:induction false} EveryRunIsFine(states: seq<State>, steps: seq<Step>, i: nat)
    requires IsRun(states, steps) && i < |states|
    requires forall j :: 0 <= j < |states| ==> states[j].issued <= ID_RANGE
    ensures Inv(states[i]) && IdInv(states[i])
  {
    hide Inv, IdInv, Effect, FreshStep;
    if i == 0 {
      InitIsFine();
    } else {
      EveryRunIsFine(states, steps, i - 1);
      assert states[i - 1 + 1] == Effect(states[i - 1], steps[i - 1]);
      StepIsFine(states[i - 1], steps[i - 1]);
    }
  }

  lemma {:induction false} StepIsFine(s: State, step: Step)
    requires Inv(s) && IdInv(s) && Enabled(s, step) && Effect(s, step).issued <= ID_RANGE
    ensures Inv(Effect(s, step)) && IdInv(Effect(s, step))
  {
    hide InvX, InFlight, Effect;
    if step.Issue? {
      IssueStaysFresh(s, step);
    } else {
      OnlyIssueSends(s, step);
      assert FreshStep(s, step);
    }
    StepKeepsInv(s, step);
  }

  /** In every run each query's callback runs at most once, and only with the
      answer to the request of that same query. */
  lemma {:induction false} CallbacksRunOnce(states: seq<State>, steps: seq<Step>, i: nat)
    requires IsRun(states, steps) && i < |states|
    requires forall j :: 0 <= j < |states| ==> states[j].issued <= ID_RANGE
    ensures var c := states[i].calls;
      && (forall a :: 0 <= a < |c| ==> c[a].answered.origin == c[a].query)
      && (forall a, b :: 0 <= a < b < |c| ==> c[a].query != c[b].query)
  {
    hide Effect;
    EveryRunIsFine(states, steps, i);
  }

  ghost function LiveQueries(s: State): set<nat> {
    set o | o in s.queries && s.queries[o].live
  }

  ghost function DoneQueries(s: State): set<nat> {
    set o | o in s.queries && s.queries[o].live && s.queries[o].done
  }

  lemma {:induction false} SameSize(table: map<nat, nat>, slots: set<nat>, objects: set<nat>)
    requires forall i :: i in slots ==> i in table && table[i] in objects
    requires forall i, j :: i in slots && j in slots && table[i] == table[j] ==> i == j
    requires forall o :: o in objects ==> exists i :: i in slots && table[i] == o
    ensures |slots| == |objects|
    decreases |slots|
  {
    if slots == {} {
      assert objects == {};
    } else {
      var i :| i in slots;
      SameSize(table, slots - {i}, objects - {table[i]});
    }
  }

  /** In every reachable state the two counters are the numbers of live queries
      and of those whose callback has been started. */
  lemma {:induction false} CountsAreExact(states: seq<State>, steps: seq<Step>, i: nat)
    requires IsRun(states, steps) && i < |states|
    requires forall j :: 0 <= j < |states| ==> states[j].issued <= ID_RANGE
    ensures states[i].nQueries == |LiveQueries(states[i])| <= QUERIES_MAX && states[i].nDone == |DoneQueries(states[i])|
  {
    hide Effect, LiveQueries, DoneQueries, TableInv, CountInv;
    EveryRunIsFine(states, steps, i);
    hide IsRun;
    CountsMatch(states[i]);
  }

  lemma {:induction false} CountsMatch(s: State)
    requires TableInv(s) && CountInv(s)
    ensures s.nQueries == |LiveQueries(s)| <= QUERIES_MAX && s.nDone == |DoneQueries(s)|
  {
    TableIsOneToOne(s);
    hide SlotOf, TableInv;
    SameSize(s.table, s.table.Keys, LiveQueries(s));
    SameSize(s.table, DoneSlots(s), DoneQueries(s));
    assert |s.table.Keys| == |s.table|;
    KeysBelow(s.table.Keys, QUERIES_MAX);
  }

  lemma {:induction false} TableIsOneToOne(s: State)
    requires TableInv(s)
    ensures forall i :: i in s.table ==> i < QUERIES_MAX && s.table[i] in s.queries && s.queries[s.table[i]].live
    ensures forall i, j :: i in s.table && j in s.table && s.table[i] == s.table[j] ==> i == j
    ensures forall o :: o in s.queries && s.queries[o].live ==> exists i :: i in s.table && s.table[i] == o
  {
    hide SlotOf;
    forall o | o in s.queries && s.queries[o].live ensures exists i :: i in s.table && s.table[i] == o {
      assert SlotOf(s.queries[o].id) in s.table;
    }
  }

  lemma {:induction false} KeysBelow(keys: set<nat>, n: nat)
    requires forall i :: i in keys ==> i < n
    ensures |keys| <= n
    decreases n
  {
    if n > 0 {
      KeysBelow(keys - {n - 1}, n - 1);
    } else {
      assert keys == {};
    }
  }

  /** The answer to a query that was released reaches no callback. */
  lemma {:induction false} ReleasedAnswersAreDropped(s: State)
    requires Inv(s) && Enabled(s, Process) && s.responses[0].Answer?
    requires var o := s.responses[0].msg.origin; o !in s.queries || !s.queries[o].live
    ensures Effect(s, Process).calls == s.calls && Effect(s, Process).queries == s.queries
  {
    hide FlightInv, NoAlias, CallInv, WorkerInv, TableInv, CountInv, RefInv, OwnRefInv, SlotOf, Lookup;
    AcceptFlight(s);
    LookupAfterAccept(s);
  }

  /** ... and the answer to a live one reaches its callback, at once. */
  lemma {:induction false} LiveAnswersAreDelivered(s: State)
    requires Inv(s) && Enabled(s, Process) && s.responses[0].Answer?
    requires var o := s.responses[0].msg.origin; o in s.queries && s.queries[o].live
    ensures var m := s.responses[0].msg;
      Effect(s, Process).calls == s.calls + [Call(m.origin, m)] && Effect(s, Process).current == Some(m.origin)
  {
    hide FlightInv, NoAlias, CallInv, WorkerInv, TableInv, CountInv, RefInv, OwnRefInv, SlotOf, Lookup;
    AcceptFlight(s);
    LookupAfterAccept(s);
  }

  /** Sending a query keeps answers and live queries apart exactly when its id is
      not in flight: after 2^32 ids this is no longer certain. */
  lemma {:induction false} FreshIdIsExact(s: State, floating: bool, kind: Kind, ask: nat)
    requires Inv(s) && !s.freed && FreeWithin(s.table, s.issued, QUERIES_MAX)
    ensures NoAlias(Send(Allocate(s, floating, kind), s.objects, ask)) <==> FreshId(s)
  {
    var a, o := Allocate(s, floating, kind), s.objects;
    AllocateInFlight(s, floating, kind);
    SendInFlight(a, o, ask);
    if FreshId(s) {
      AllocateKeeps(s, floating, kind);
      SendNoAlias(a, o, ask);
    } else {
      hide InFlight, SlotOf, TableInv, CountInv, RefInv, CallInv, OwnRefInv, FreeWithin;
      var m :| m in InFlight(s) && m.id == NextId(s) % ID_RANGE;
      var t := Send(a, o, ask);
      assert m in InFlight(t) && t.queries[o].live && t.queries[o].id == m.id && o != m.origin;
    }
  }
}
