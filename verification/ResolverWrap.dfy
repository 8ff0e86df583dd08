/** A run in which the ids come round after a small part of 2^32 queries. */
module ResolverWrap {
  import opened Wrappers
  import opened Resolver
  import opened ResolverSteps
  import opened ResolverRuns
  import opened ResolverAliases

  function Issues(steps: seq<Step>): nat {
    if steps == [] then 0 else Issues(steps[..|steps| - 1]) + if steps[|steps| - 1].Issue? then 1 else 0
  }

  /** Some run from the fresh resolver ends in `s` after this many query calls. */
  ghost predicate Reached(s: State, queries: nat) {
    exists states, steps ::
      IsRun(states, steps) && |states| == |steps| + 1 && states[|steps|] == s && Issues(steps) == queries
  }

  ghost predicate At(s: State, queries: nat) {
    Reached(s, queries) && Inv(s) && IdInv(s)
  }

  lemma {:induction false} StartsAtInit()
    ensures At(Init(), 0)
  {
    InitIsFine();
    hide Inv, IdInv, Init;
    var states, steps: seq<Step> := [Init()], [];
    assert IsRun(states, steps) && states[|steps|] == Init();
  }

  lemma {:induction false} RunExtends(states: seq<State>, steps: seq<Step>, step: Step)
    requires IsRun(states, steps) && Inv(states[|steps|]) && Enabled(states[|steps|], step)
    ensures var t := Effect(states[|steps|], step);
      IsRun(states + [t], steps + [step]) && Issues(steps + [step]) == Issues(steps) + if step.Issue? then 1 else 0
  {
    hide Inv, Effect, Enabled;
    var t := Effect(states[|steps|], step);
    var states', steps' := states + [t], steps + [step];
    assert steps'[..|steps|] == steps;
    forall i | 0 <= i < |steps'| && Inv(states'[i])
      ensures Enabled(states'[i], steps'[i]) && states'[i + 1] == Effect(states'[i], steps'[i])
    {
      if i < |steps| { assert states'[i] == states[i] && states'[i + 1] == states[i + 1] && steps'[i] == steps[i]; }
    }
  }

  lemma {:induction false} Extend(s: State, queries: nat, step: Step)
    requires At(s, queries) && Enabled(s, step) && Effect(s, step).issued <= ID_RANGE
    ensures At(Effect(s, step), queries + if step.Issue? then 1 else 0)
  {
    hide Inv, IdInv, Effect, Enabled, Issues, IsRun;
    StepIsFine(s, step);
    var states, steps :| IsRun(states, steps) && |states| == |steps| + 1 && states[|steps|] == s && Issues(steps) == queries;
    RunExtends(states, steps, step);
    var states', steps' := states + [Effect(s, step)], steps + [step];
    assert states'[|steps'|] == Effect(s, step);
  }

  // ----- what the three kinds of steps do -----

  lemma {:induction false} NextIdIs(s: State, n: nat)
    requires FreeWithin(s.table, s.issued, QUERIES_MAX) && s.issued <= n && SlotOf(n) !in s.table
    requires forall j: nat {:trigger SlotOf(j)} :: s.issued <= j < n ==> SlotOf(j) in s.table
    ensures NextId(s) == n
  {
  }

  const QUERY := Issue(false, AddrInfo, 0, 16, true)

  lemma {:induction false} AlwaysAllocates(s: State)
    requires s.nQueries < QUERIES_MAX
    ensures Allocates(s, 16)
  {
  }

  /** The program holds the resolver and no callback runs. */
  predicate Idle(s: State) {
    !s.freed && s.current == None && s.heldResolver > 0
  }

  lemma {:induction false} QueryEffect(s: State, n: nat)
    requires Inv(s) && Idle(s) && s.nQueries < QUERIES_MAX && s.issued <= n && SlotOf(n) !in s.table
    requires forall j: nat {:trigger SlotOf(j)} :: s.issued <= j < n ==> SlotOf(j) in s.table
    ensures Enabled(s, QUERY)
    ensures var t := Effect(s, QUERY);
      && Idle(t) && t.table == s.table[SlotOf(n) := s.objects] && t.issued == n + 1 && t.nWorkers >= 1
      && t.working == s.working && t.requests == s.requests + [Msg(n % ID_RANGE, AddrInfo, s.objects, 0)]
      && s.objects in t.queries && t.queries[s.objects] == Query(1, true, AddrInfo, false, false, n % ID_RANGE)
      && Held(t, s.objects) == 1
  {
    hide InvX, Base;
    InvMeansBase(s);
    AlwaysAllocates(s);
    IssueDefined(s, 16, false, AddrInfo);
    var w := WithThreads(s, 16);
    NextIdIs(w, n);
    SlotOfId(n);
    hide FreeWithin, SlotOf;
  }

  lemma {:induction false} ReleaseEffect(s: State, o: nat)
    requires Inv(s) && Idle(s) && o in s.queries && s.queries[o].live && !s.queries[o].floating
    requires s.queries[o].refs == 1 && Held(s, o) == 1
    ensures Enabled(s, UnrefQueryStep(o))
    ensures var t := Effect(s, UnrefQueryStep(o));
      Idle(t) && t.table == s.table - {SlotOf(s.queries[o].id)} && t.issued == s.issued && t.working == s.working
  {
    hide InvX, Base, SlotOf;
    InvMeansBase(s);
    var t := Effect(s, UnrefQueryStep(o));
    StepKeepsBase(s, UnrefQueryStep(o));
    HeldIsNotFreed(t);
    GiveUpDefined(s, o);
  }

  // ----- the run -----

  const STUCK := Msg(0, AddrInfo, 0, 0)

  /** The first query is taken up by a worker that does not answer, and released. */
  lemma {:induction false} FirstReleased() returns (s: State)
    ensures At(s, 1) && Idle(s) && STUCK in s.working && s.table == map[] && s.issued == 1
  {
    hide InvX, IdInv, Reached, Effect;
    StartsAtInit();
    var s0 := Init();
    QueryEffect(s0, 0);
    Extend(s0, 0, QUERY);
    var s1 := Effect(s0, QUERY);
    assert s1.table - {SlotOf(0)} == map[];
    TakeEffect(s1);
    Extend(s1, 1, WorkerTakes);
    var s2 := Effect(s1, WorkerTakes);
    ReleaseEffect(s2, 0);
    Extend(s2, 1, UnrefQueryStep(0));
    s := Effect(s2, UnrefQueryStep(0));
  }

  lemma {:induction false} TakeEffect(s: State)
    requires Inv(s) && Enabled(s, WorkerTakes)
    ensures Effect(s, WorkerTakes) == Take(s)
  {
    hide InvX;
  }

  /** Slots 1 to `k` are taken. */
  ghost predicate Filled(s: State, k: nat) {
    forall i :: i in s.table <==> 0 < i <= k
  }

  lemma {:induction false} FilledCount(s: State, k: nat)
    requires Inv(s) && Filled(s, k)
    ensures s.nQueries == k
  {
    hide TableInv, RefInv, OwnRefInv, FlightInv, NoAlias, CallInv, WorkerInv;
    assert s.table.Keys == Slots(k);
    assert |s.table| == |s.table.Keys|;
    CountSlots(k);
  }

  ghost function Slots(k: nat): (r: set<nat>)
    ensures forall i :: i in r <==> 0 < i <= k
  {
    if k == 0 then {} else Slots(k - 1) + {k}
  }

  lemma {:induction false} CountSlots(k: nat)
    ensures |Slots(k)| == k
  {
    if k == 0 {
      assert Slots(0) == {};
    } else {
      CountSlots(k - 1);
      assert Slots(k) == Slots(k - 1) + {k};
    }
  }

  /** 255 queries that the program keeps. */
  lemma {:induction false} Fill(k: nat) returns (s: State)
    requires k < QUERIES_MAX
    ensures At(s, k + 1) && Idle(s) && STUCK in s.working && Filled(s, k) && s.issued == k + 1
  {
    hide InvX, IdInv, Reached, Effect;
    if k == 0 {
      s := FirstReleased();
    } else {
      var r := Fill(k - 1);
      FilledCount(r, k - 1);
      QueryEffect(r, k);
      Extend(r, k, QUERY);
      s := Effect(r, QUERY);
    }
  }

  /** The ids have been round `k` times 256, and the next one that is free is in slot 0. */
  ghost predicate Full(s: State, k: nat) {
    Idle(s) && STUCK in s.working && Filled(s, QUERIES_MAX - 1) && QUERIES_MAX * k < s.issued <= QUERIES_MAX * (k + 1)
  }

  lemma {:induction false} FullNext(s: State, k: nat)
    requires Full(s, k)
    ensures var n := QUERIES_MAX * (k + 1);
      && SlotOf(n) == 0 && SlotOf(n) !in s.table && s.issued <= n
      && forall j: nat {:trigger SlotOf(j)} :: s.issued <= j < n ==> SlotOf(j) in s.table
  {
    forall j: nat | s.issued <= j < QUERIES_MAX * (k + 1) ensures SlotOf(j) in s.table {
      assert SlotOf(j) == j - QUERIES_MAX * k;
    }
  }

  /** One more query is issued in slot 0 and released: 256 ids are used up. */
  lemma {:induction false} RoundTrip(s: State, k: nat) returns (t: State)
    requires At(s, QUERIES_MAX + k) && Full(s, k) && QUERIES_MAX * (k + 1) < ID_RANGE
    ensures At(t, QUERIES_MAX + k + 1) && Full(t, k + 1)
  {
    hide InvX, IdInv, Reached, Effect;
    var n, o := QUERIES_MAX * (k + 1), s.objects;
    FullNext(s, k);
    FilledCount(s, QUERIES_MAX - 1);
    QueryEffect(s, n);
    Extend(s, QUERIES_MAX + k, QUERY);
    var r := Effect(s, QUERY);
    SlotOfId(n);
    hide SlotOf;
    ReleaseEffect(r, o);
    Extend(r, QUERIES_MAX + k + 1, UnrefQueryStep(o));
    t := Effect(r, UnrefQueryStep(o));
  }

  lemma {:induction false} FullReached(k: nat) returns (s: State)
    requires QUERIES_MAX * k < ID_RANGE
    ensures At(s, QUERIES_MAX + k) && Full(s, k)
  {
    hide At;
    if k == 0 {
      s := Fill(QUERIES_MAX - 1);
    } else {
      s := FullReached(k - 1);
      s := RoundTrip(s, k - 1);
    }
  }

  const ROUNDS: nat := 0xff_ffff

  /** After 2^24 + 255 queries, far fewer than 2^32, the callback of the next one
      can run with the answer to the first. */
  lemma {:induction false} WrongAfterFewQueries() returns (s: State)
    ensures Reached(s, 0x100_00ff) && Inv(s) && Usable(s) && Allocates(s, 16) && Base(s)
    ensures CanGoWrong(IssueQuery(s, false, AddrInfo, 0, 16, true), s.objects)
  {
    hide InvX, IdInv, Reached, Base, CanGoWrong, IssueQuery;
    s := FullReached(ROUNDS);
    FullNext(s, ROUNDS);
    FilledCount(s, QUERIES_MAX - 1);
    AlwaysAllocates(s);
    GoesWrongIffAliased(s, false, AddrInfo, 0, 16);
    NextIdIs(s, ID_RANGE);
    assert STUCK in InFlight(s);
    assert Aliased(s, AddrInfo);
  }
}
