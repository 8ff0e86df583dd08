/** What becomes of a query once its callback has returned. */
module ResolverReturns {
  import opened Wrappers
  import opened Resolver
  import opened ResolverSteps
  import opened ResolverRuns
  import opened ResolverAliases

  // ----- one return -----

  /** The current query is done and referenced by the program, by the resolver if it
      floats, and by `complete_query`. */
  lemma {:induction false} CurrentRefs(s: State)
    requires Base(s) && s.current.Some?
    ensures !s.freed && s.current.value in s.queries
    ensures var o, q := s.current.value, s.queries[s.current.value];
      q.live && q.done && q.refs == Held(s, o) + (if q.floating then 1 else 0) + 1
  {
    hide TableInv, CountInv;
    assert s.queries[s.current.value].refs == Owed(s, s.current.value);
  }

  /** Every other query is as before, unless the resolver is freed. */
  ghost predicate OthersStay(s: State, t: State, o: nat) {
    !t.freed ==> forall p :: p != o ==> (p in t.queries <==> p in s.queries) && (p in s.queries ==> t.queries[p] == s.queries[p])
  }

  /** The query `o` gives up its place in the table, its object stays if it is held. */
  ghost predicate GivenUp(s: State, t: State, o: nat, held: nat) {
    (o in t.queries <==> held > 0) && (o in t.queries ==> !t.queries[o].live) && OthersStay(s, t, o) &&
    t.nQueries == if t.freed then 0 else s.nQueries - 1
  }

  /** A floating query is disconnected and loses two references. */
  lemma {:induction false} FloatingGivenUp(s: State, o: nat, held: nat)
    requires CanReturn(s, o) && !s.freed && s.queries[o].live && s.queries[o].floating && s.queries[o].refs == held + 2
    ensures var t := UnrefQuery(Released(s, o), o);
      !t.freed && GivenUp(s, t, o, held) && t.nRef == s.nRef && t.current == s.current
  {
    hide SlotOf, UnrefResolver;
    var d := Disconnect(s, o);
    assert Released(s, o) == d.(queries := d.queries[o := d.queries[o].(refs := held + 1)]);
  }

  /** Another query stays if it is held, and goes with its last reference otherwise. */
  lemma {:induction false} FixedReturned(s: State, o: nat, held: nat)
    requires CanReturn(s, o) && !s.freed && s.queries[o].live && !s.queries[o].floating && s.queries[o].refs == held + 1
    ensures var t := UnrefQuery(s, o);
      && t.current == s.current
      && if held > 0 then t == s.(queries := s.queries[o := s.queries[o].(refs := held)]) else GivenUp(s, t, o, 0)
  {
    hide SlotOf;
  }

  /** A query that references the resolver keeps it from being freed by one return. */
  lemma {:induction false} FixedHolds(s: State)
    requires Base(s) && s.current.Some? && !s.queries[s.current.value].floating
    ensures s.nRef >= 2
  {
    hide CountInv;
    var i := SlotOf(s.queries[s.current.value].id);
    assert i in FixedSlots(s);
    assert |FixedSlots(s)| > 0;
  }

  lemma {:induction false} ResolverGivenUp(s: State, t: State, o: nat, held: nat)
    requires GivenUp(s, t, o, held) && !s.freed && t.nRef >= 1
    ensures GivenUp(s, UnrefResolver(t), o, held) && UnrefResolver(t).current == t.current
  {
  }

  lemma {:induction false} ReturnFloating(s: State)
    requires Base(s) && s.current.Some? && s.queries[s.current.value].floating
    ensures Return(s).current == None && GivenUp(s.(current := None), Return(s), s.current.value, Held(s, s.current.value))
  {
    hide Base, Released, UnrefQuery, CanRelease, GivenUp, UnrefResolver;
    CurrentRefs(s);
    ReturnDefined(s);
    var o, s1 := s.current.value, s.(current := None);
    var s3 := UnrefQuery(Released(s1, o), o);
    FloatingGivenUp(s1, o, Held(s, o));
    ResolverGivenUp(s1, s3, o, Held(s, o));
  }

  lemma {:induction false} ReturnFixed(s: State)
    requires Base(s) && s.current.Some? && !s.queries[s.current.value].floating
    ensures var o, t := s.current.value, Return(s);
      && t.current == None
      && if Held(s, o) == 0 then GivenUp(s.(current := None), t, o, 0)
         else !t.freed && t.nQueries == s.nQueries && o in t.queries && t.queries[o].live && OthersStay(s, t, o)
  {
    hide Base, Released, UnrefQuery, CanRelease, GivenUp;
    CurrentRefs(s);
    ReturnDefined(s);
    var o, s1 := s.current.value, s.(current := None);
    FixedHolds(s);
    ReleasedFixed(s1, o);
    FixedReturned(s1, o, Held(s, o));
    if Held(s, o) == 0 { hide UnrefResolver; ResolverGivenUp(s1, UnrefQuery(s1, o), o, 0); }
  }

  /** When the callback returns, a floating query, and one that the program has given
      up, leave the table; any other stays live. Nothing else changes, unless the
      resolver goes with its last reference. */
  lemma {:induction false} ReturnExact(s: State)
    requires Base(s) && s.current.Some?
    ensures var o, q, t := s.current.value, s.queries[s.current.value], Return(s);
      && t.current == None
      && if q.floating || Held(s, o) == 0 then GivenUp(s, t, o, Held(s, o))
         else !t.freed && t.nQueries == s.nQueries && o in t.queries && t.queries[o].live && OthersStay(s, t, o)
  {
    hide Base, Return;
    CurrentRefs(s);
    if s.queries[s.current.value].floating { ReturnFloating(s); } else { ReturnFixed(s); }
  }

  lemma {:induction false} ReleasedFixed(s: State, o: nat)
    requires CanRelease(s, o) && !s.queries[o].floating
    ensures Released(s, o) == s
  {
  }

  // ----- over whole runs -----

  /** The only floating query that is done is the one whose callback runs. */
  ghost predicate FloatsAreGone(s: State) {
    forall o :: o in s.queries && s.queries[o].live && s.queries[o].floating && s.queries[o].done ==> s.current == Some(o)
  }

  lemma {:induction false} ShrinksKeepFloats(s: State, t: State)
    requires FloatsAreGone(s) && Shrinks(s, t) && t.current == s.current
    ensures FloatsAreGone(t)
  {
  }

  lemma {:induction false} UnrefCurrent(s: State, o: nat)
    requires UnrefQuery.requires(s, o)
    ensures UnrefQuery(s, o).current == s.current
  {
  }

  lemma {:induction false} ReturnKeepsFloats(s: State)
    requires Base(s) && s.current.Some? && FloatsAreGone(s)
    ensures FloatsAreGone(Return(s))
  {
    hide Base, Return;
    CurrentRefs(s);
    ReturnExact(s);
    ReturnShrinks(s);
  }

  lemma {:induction false} IssueKeepsFloats(s: State, floating: bool, kind: Kind, ask: nat, threads: nat, sent: bool)
    requires Base(s) && Usable(s) && FloatsAreGone(s)
    ensures FloatsAreGone(IssueQuery(s, floating, kind, ask, threads, sent))
  {
    hide Base, FreeWithin, UnrefQuery;
    var w := WithThreads(s, threads);
    if s.nQueries < QUERIES_MAX && w.nWorkers >= WantedWorkers(s) {
      IssueDefined(s, threads, floating, kind);
      AllocatedId(w, floating, kind);
      var a := Allocate(w, floating, kind);
      assert FloatsAreGone(a);
      if !sent {
        UnrefShrinks(a, s.objects);
        UnrefCurrent(a, s.objects);
        ShrinksKeepFloats(a, UnrefQuery(a, s.objects));
      }
    }
  }

  lemma {:induction false} UnrefKeepsFloats(s: State, o: nat)
    requires Base(s) && Held(s, o) > 0 && FloatsAreGone(s)
    ensures UnrefQuery.requires(GiveUpQuery(s, o), o) && FloatsAreGone(UnrefQuery(GiveUpQuery(s, o), o))
  {
    hide Base, UnrefQuery;
    GiveUpDefined(s, o);
    var g := GiveUpQuery(s, o);
    UnrefShrinks(g, o);
    UnrefCurrent(g, o);
    ShrinksKeepFloats(g, UnrefQuery(g, o));
  }

  lemma {:induction false} GiveUpKeepsFloats(s: State)
    requires s.heldResolver > 0 && s.nRef >= 1 && FloatsAreGone(s)
    ensures FloatsAreGone(GiveUpResolver(s))
  {
  }

  lemma {:induction false} StepKeepsFloats(s: State, step: Step)
    requires Base(s) && Enabled(s, step) && TryEffect(s, step).Goes? && FloatsAreGone(s)
    ensures FloatsAreGone(TryEffect(s, step).next)
  {
    hide Base, Return, IssueQuery, UnrefQuery, GiveUpResolver, SlotOf;
    match step
    case Issue(floating, kind, ask, threads, sent) => IssueKeepsFloats(s, floating, kind, ask, threads, sent);
    case UnrefQueryStep(o) => UnrefKeepsFloats(s, o);
    case UnrefResolverStep => GiveUpKeepsBase(s); GiveUpKeepsFloats(s);
    case CallbackReturns => ReturnKeepsFloats(s);
    case _ =>
  }

  /** In every run from the fresh resolver, however many ids it uses: as long as no
      callback runs, no floating query is both live and done. */
  lemma {:induction false} RunLeavesNoFloats(states: seq<State>, steps: seq<Step>, i: nat)
    requires Follows(Init(), states, steps) && i <= |steps|
    ensures FloatsAreGone(states[i])
    ensures states[i].current == None ==>
      forall o :: o in states[i].queries && states[i].queries[o].live && states[i].queries[o].done ==> !states[i].queries[o].floating
  {
    hide Base, Enabled, TryEffect;
    if i > 0 {
      var j := i - 1;
      RunLeavesNoFloats(states, steps, j);
      assert TryEffect(states[j], steps[j]) == Goes(states[j + 1]);
      StepKeepsFloats(states[j], steps[j]);
    }
  }

  // ----- what is outstanding -----

  /** Requests that were lost because a worker gave up. */
  function Lost(steps: seq<Step>): nat {
    if steps == [] then 0 else Lost(steps[..|steps| - 1]) + if steps[|steps| - 1].WorkerFails? then 1 else 0
  }

  lemma {:induction false} IssueOutstanding(s: State, floating: bool, kind: Kind, ask: nat, threads: nat, sent: bool)
    requires Base(s) && Usable(s)
    ensures var t := IssueQuery(s, floating, kind, ask, threads, sent);
      t.nOutstanding - |InFlight(t)| == s.nOutstanding - |InFlight(s)|
  {
    hide Base, FreeWithin, UnrefQuery, InFlight, Allocate;
    var w := WithThreads(s, threads);
    ThreadsAge(s, threads);
    if s.nQueries < QUERIES_MAX && w.nWorkers >= WantedWorkers(s) {
      IssueDefined(s, threads, floating, kind);
      var a := Allocate(w, floating, kind);
      AllocateInFlight(w, floating, kind);
      assert a.nOutstanding == s.nOutstanding by { AllocateOutstanding(w, floating, kind); }
      if sent {
        SendInFlight(a, s.objects, ask);
      } else {
        UnrefShrinks(a, s.objects);
        UnrefSameMessages(a, s.objects);
        SameMessagesInFlight(a, UnrefQuery(a, s.objects));
      }
    }
  }

  lemma {:induction false} AllocateOutstanding(s: State, floating: bool, kind: Kind)
    requires FreeWithin(s.table, s.issued, QUERIES_MAX)
    ensures Allocate(s, floating, kind).nOutstanding == s.nOutstanding
  {
  }

  lemma {:induction false} ReceiveOutstanding(s: State)
    requires s.responses != [] && TryReceive(s).Goes?
    ensures var t := TryReceive(s).next; t.nOutstanding - |InFlight(t)| == s.nOutstanding - |InFlight(s)|
  {
    hide Lookup;
    var t := TryReceive(s).next;
    ReceiveMessages(s);
    assert Answers(s.responses) ==
      (match s.responses[0] case Answer(m) => multiset{m} case Died => multiset{}) + Answers(t.responses);
  }

  lemma {:induction false} ReturnOutstanding(s: State)
    requires Base(s) && s.current.Some?
    ensures Return(s).nOutstanding == s.nOutstanding && InFlight(Return(s)) == InFlight(s)
  {
    hide Base, Return;
    ReturnShrinks(s);
    ReturnSameMessages(s);
    SameMessagesInFlight(s, Return(s));
  }

  lemma {:induction false} UnrefOutstanding(s: State, o: nat)
    requires Base(s) && Held(s, o) > 0
    ensures UnrefQuery.requires(GiveUpQuery(s, o), o)
    ensures var t := UnrefQuery(GiveUpQuery(s, o), o); t.nOutstanding == s.nOutstanding && InFlight(t) == InFlight(s)
  {
    hide Base, UnrefQuery;
    GiveUpAges(s, o);
    UnrefShrinks(GiveUpQuery(s, o), o);
  }

  lemma {:induction false} GiveUpOutstanding(s: State)
    requires s.heldResolver > 0 && s.nRef >= 1
    ensures GiveUpResolver(s).nOutstanding == s.nOutstanding && InFlight(GiveUpResolver(s)) == InFlight(s)
  {
  }

  lemma {:induction false} WorkerOutstanding(s: State, step: Step)
    requires Base(s) && Enabled(s, step) && WorkerStep(step)
    ensures var t := TryEffect(s, step).next;
      t.nOutstanding == s.nOutstanding && |InFlight(t)| == |InFlight(s)| - if step.WorkerFails? then 1 else 0
  {
    hide Base, InFlight;
    match step
    case WorkerTakes => TakeInFlight(s);
    case WorkerReplies(m) => ReplyInFlight(s, m);
    case WorkerFails(m) => FailInFlight(s, m); WorkingInFlight(s, m);
    case WorkerQuits => QuitInFlight(s);
  }

  lemma {:induction false} WorkingInFlight(s: State, m: Msg)
    requires m in s.working
    ensures m in InFlight(s)
  {
  }

  lemma {:induction false} StepOutstanding(s: State, step: Step)
    requires Base(s) && Enabled(s, step) && TryEffect(s, step).Goes?
    ensures var t := TryEffect(s, step).next;
      t.nOutstanding - |InFlight(t)| == s.nOutstanding - |InFlight(s)| + if step.WorkerFails? then 1 else 0
  {
    hide Base, Return, IssueQuery, UnrefQuery, GiveUpResolver, TryReceive, InFlight;
    if WorkerStep(step) {
      WorkerOutstanding(s, step);
    } else if step.RefQuery? || step.RefResolver? {
      SameMessagesInFlight(s, TryEffect(s, step).next);
    } else {
      match step
      case Issue(floating, kind, ask, threads, sent) => IssueOutstanding(s, floating, kind, ask, threads, sent);
      case UnrefQueryStep(o) => UnrefOutstanding(s, o);
      case UnrefResolverStep => GiveUpKeepsBase(s); GiveUpOutstanding(s);
      case CallbackReturns => ReturnOutstanding(s);
      case Process => ReceiveOutstanding(s);
      case _ =>
    }
  }

  /** In every run n_outstanding is exactly what is in flight and what was lost. */
  lemma {:induction false} OutstandingIsExact(states: seq<State>, steps: seq<Step>, i: nat)
    requires Follows(Init(), states, steps) && i <= |steps|
    ensures states[i].nOutstanding == |InFlight(states[i])| + Lost(steps[..i])
  {
    hide Base, Enabled, TryEffect;
    if i > 0 {
      var j := i - 1;
      OutstandingIsExact(states, steps, j);
      assert TryEffect(states[j], steps[j]) == Goes(states[j + 1]);
      StepOutstanding(states[j], steps[j]);
      assert steps[..i][..j] == steps[..j];
    }
  }

  /** A query is only allocated with a worker for every request that is outstanding,
      the new one included, or with all 16; and no more are started. */
  lemma {:induction false} WorkersSuffice(s: State, threads: nat)
    requires Allocates(s, threads) && s.nWorkers <= WORKERS_MAX
    ensures var n := WithThreads(s, threads).nWorkers;
      && (n == 16 || s.nOutstanding < n) && s.nWorkers <= n <= 16
      && (n > s.nWorkers ==> n == 1 || n <= s.nOutstanding + 1)
  {
  }
}
