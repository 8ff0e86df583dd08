/** What happens when ids come round: the resolver without the promise that
    answers and live queries are apart. */
module ResolverAliases {
  import opened Wrappers
  import opened Resolver
  import opened ResolverSteps
  import opened ResolverRuns

  // ----- every step keeps the table, the counts and the references -----

  lemma {:induction false} QuietBack(t: State)
    requires Inv(Quiet(t))
    ensures Base(t)
  {
    hide Base, InvX;
    InvMeansBase(Quiet(t));
    CoreKeepsBase(Quiet(t), t);
  }

  lemma {:induction false} IssueKeepsBase(s: State, floating: bool, kind: Kind, ask: nat, threads: nat, sent: bool)
    requires Base(s) && Usable(s)
    ensures Base(IssueQuery(s, floating, kind, ask, threads, sent))
  {
    hide Base, InvX;
    var q := Quiet(s);
    QuietIsFine(s);
    InvMeansBase(q);
    if s.nQueries < QUERIES_MAX {
      IssueDefined(s, threads, floating, kind);
      assert InFlight(q) == multiset{};
      IssueKeeps(q, floating, kind, ask, threads, sent);
      IssueCore(s, floating, kind, ask, threads, sent);
      InvMeansBase(IssueQuery(q, floating, kind, ask, threads, sent));
      CoreKeepsBase(IssueQuery(q, floating, kind, ask, threads, sent), IssueQuery(s, floating, kind, ask, threads, sent));
    }
  }

  lemma {:induction false} IssueCore(s: State, floating: bool, kind: Kind, ask: nat, threads: nat, sent: bool)
    requires Base(s) && Base(Quiet(s)) && Usable(s) && s.nQueries < QUERIES_MAX
    ensures SameCore(IssueQuery(Quiet(s), floating, kind, ask, threads, sent), IssueQuery(s, floating, kind, ask, threads, sent))
  {
    hide Base, SlotOf, FreeWithin, UnrefQuery;
    IssueDefined(s, threads, floating, kind);
    IssueDefined(Quiet(s), threads, floating, kind);
    var a := Allocate(WithThreads(s, threads), floating, kind);
    assert Allocate(WithThreads(Quiet(s), threads), floating, kind) == Quiet(a);
    if !sent { QuietUnref(a, s.objects); }
  }

  /** An answer is delivered to some query that is not done. */
  lemma {:induction false} StartKeepsBase(s: State, o: nat, m: Msg)
    requires Base(s) && !s.freed && s.current == None && o in s.queries && s.queries[o].live && !s.queries[o].done
    ensures Base(StartCallback(s, o, m))
  {
    hide Base, InvX, TableInv, RefInv, CountInv, OwnRefInv;
    var own := Msg(0, s.queries[o].kind, o, 0);
    QuietIsFine(s);
    assert InFlight(Quiet(s)) == multiset{};
    StartKeeps(Quiet(s), o, own);
    InvMeansBase(StartCallback(Quiet(s), o, own));
    CoreKeepsBase(StartCallback(Quiet(s), o, own), StartCallback(s, o, m));
  }

  lemma {:induction false} FoundIsLive(s: State, id: nat)
    requires Base(s)
    ensures Lookup(s, id).Some? ==> Lookup(s, id).value in s.queries && s.queries[Lookup(s, id).value].live
  {
    hide SlotOf;
  }

  lemma {:induction false} ReceiveKeepsBase(s: State)
    requires Base(s) && Enabled(s, Process) && TryReceive(s).Goes?
    ensures Base(TryReceive(s).next)
  {
    hide Base;
    if s.responses[0].Died? {
      CoreKeepsBase(s, TryReceive(s).next);
    } else {
      var t := Accept(s);
      CoreKeepsBase(s, t);
      FoundIsLive(t, s.responses[0].msg.id);
      var r := Lookup(t, s.responses[0].msg.id);
      hide Lookup;
      if r.Some? && TryReceive(s).next != t {
        StartKeepsBase(t, r.value, s.responses[0].msg);
      }
    }
  }

  /** Every step that does not abort keeps table, counts and references in order. */
  lemma {:induction false} StepKeepsBase(s: State, step: Step)
    requires Base(s) && Enabled(s, step) && TryEffect(s, step).Goes?
    ensures Base(TryEffect(s, step).next)
  {
    hide Base, InvX, UnrefQuery, IssueQuery, TryReceive, GiveUpResolver, Return, RefQueryBy, Take, Reply, Fail, Quit;
    match step
    case Issue(floating, kind, ask, threads, sent) => IssueKeepsBase(s, floating, kind, ask, threads, sent);
    case RefQuery(o) => RefQueryKeepsBase(s, o);
    case UnrefQueryStep(o) => GiveUpDefined(s, o); QuietBack(UnrefQuery(GiveUpQuery(s, o), o));
    case RefResolver => RefKeepsBase(s);
    case UnrefResolverStep => GiveUpKeepsBase(s);
    case Process => ReceiveKeepsBase(s);
    case CallbackReturns => ReturnKeepsBase(s);
    case WorkerTakes => WorkersKeepBase(s, step);
    case WorkerReplies(m) => WorkersKeepBase(s, step);
    case WorkerFails(m) => WorkersKeepBase(s, step);
    case WorkerQuits => WorkersKeepBase(s, step);
  }

  predicate WorkerStep(step: Step) {
    step.WorkerTakes? || step.WorkerReplies? || step.WorkerFails? || step.WorkerQuits?
  }

  lemma {:induction false} WorkersKeepBase(s: State, step: Step)
    requires Base(s) && Enabled(s, step) && WorkerStep(step)
    ensures Base(TryEffect(s, step).next) && SameCore(s, TryEffect(s, step).next)
  {
    hide Base;
    CoreKeepsBase(s, TryEffect(s, step).next);
  }

  lemma {:induction false} RefQueryKeepsBase(s: State, o: nat)
    requires Base(s) && o in s.queries
    ensures Base(RefQueryBy(s, o))
  {
    hide Base, InvX;
    QuietIsFine(s);
    RefQueryKeeps(Quiet(s), o);
    assert RefQueryBy(Quiet(s), o) == Quiet(RefQueryBy(s, o));
    QuietBack(RefQueryBy(s, o));
  }

  lemma {:induction false} GiveUpKeepsBase(s: State)
    requires Base(s) && s.heldResolver > 0
    ensures s.nRef >= 1 && Base(GiveUpResolver(s))
  {
    hide Base, InvX, GiveUpResolver;
    QuietIsFine(s);
    GiveUpResolverKeeps(Quiet(s));
    QuietGiveUp(s);
    QuietBack(GiveUpResolver(s));
  }

  lemma {:induction false} RefKeepsBase(s: State)
    requires Base(s) && Usable(s)
    ensures Base(s.(heldResolver := s.heldResolver + 1, nRef := s.nRef + 1))
  {
    hide Base, InvX;
    var q, t := Quiet(s), s.(heldResolver := s.heldResolver + 1, nRef := s.nRef + 1);
    QuietIsFine(s);
    UsableRef(q);
    HoldResolver(q, s.heldResolver + 1, 0, s.nRef + 1);
    assert q.(heldResolver := s.heldResolver + 1, nRef := s.nRef + 1) == Quiet(t);
    QuietBack(t);
  }

  lemma {:induction false} QuietGiveUp(s: State)
    requires s.heldResolver > 0 && s.nRef >= 1
    ensures GiveUpResolver(Quiet(s)) == Quiet(GiveUpResolver(s))
  {
    QuietUnrefResolver(s.(heldResolver := s.heldResolver - 1));
    hide UnrefResolver;
  }

  lemma {:induction false} ReturnKeepsBase(s: State)
    requires Base(s) && s.current.Some?
    ensures Base(Return(s))
  {
    hide Base, InvX, UnrefQuery, UnrefResolver, Released;
    ReturnDefined(s);
    QuietBack(Return(s));
  }

  // ----- runs without the promise -----

  /** A run from `s` in which no assertion fails. */
  ghost predicate Follows(s: State, states: seq<State>, steps: seq<Step>) {
    |states| == |steps| + 1 && states[0] == s &&
    forall i :: 0 <= i < |steps| ==>
      Base(states[i]) && Enabled(states[i], steps[i]) && TryEffect(states[i], steps[i]) == Goes(states[i + 1])
  }

  ghost predicate Leads(s: State, t: State) {
    exists states, steps :: Follows(s, states, steps) && states[|steps|] == t
  }

  /** The callback of `o` was run with the answer to another query. */
  ghost predicate WrongCall(t: State, o: nat) {
    exists i :: 0 <= i < |t.calls| && t.calls[i].query == o && t.calls[i].answered.origin != o
  }

  ghost predicate CanGoWrong(s: State, o: nat) {
    exists t :: Leads(s, t) && WrongCall(t, o)
  }

  // ----- a query is only ever answered by what was in flight when it was sent -----

  /** Objects are neither recycled nor brought back to life. */
  ghost predicate Ages(s: State, t: State) {
    s.objects <= t.objects &&
    forall o :: o < s.objects && o in t.queries ==>
      o in s.queries && t.queries[o].id == s.queries[o].id && t.queries[o].kind == s.queries[o].kind &&
      (t.queries[o].live ==> s.queries[o].live)
  }

  lemma {:induction false} ShrinksAges(s: State, t: State)
    requires Shrinks(s, t)
    ensures Ages(s, t) && t.calls == s.calls
  {
  }

  lemma {:induction false} ShrinksOn(s: State, t: State, u: State)
    requires Shrinks(s, t) && Shrinks(t, u)
    ensures Shrinks(s, u)
  {
  }

  lemma {:induction false} UnrefResolverShrinks(s: State)
    requires s.nRef >= 1
    ensures Shrinks(s, UnrefResolver(s))
  {
  }

  lemma {:induction false} UnrefShrinks(s: State, o: nat)
    requires UnrefQuery.requires(s, o)
    ensures Shrinks(s, UnrefQuery(s, o))
  {
    hide UnrefResolver, SlotOf;
    var q := s.queries[o];
    if q.refs == 1 && q.live {
      var u := Forgotten(s, o);
      assert Shrinks(s, u);
      if !q.floating {
        hide Shrinks;
        UnrefResolverShrinks(u);
        ShrinksOn(s, u, UnrefResolver(u));
      }
    }
  }

  /** The query is disconnected and its memory released. */
  function Forgotten(s: State, o: nat): State
    requires o in s.queries && s.nQueries > 0 && (s.queries[o].done ==> s.nDone > 0)
  {
    var t := Disconnect(s, o);
    t.(queries := t.queries - {o})
  }

  lemma {:induction false} ReleaseShrinks(s: State, o: nat)
    requires CanRelease(s, o)
    ensures Shrinks(s, Released(s, o))
  {
    hide UnrefQuery;
    if s.queries[o].floating {
      var d := Disconnect(s, o);
      UnrefShrinks(d, o);
      assert Shrinks(s, d);
      hide Shrinks, Disconnect;
      ShrinksOn(s, d, UnrefQuery(d, o));
    }
  }

  lemma {:induction false} ReturnShrinks(s: State)
    requires Base(s) && s.current.Some?
    ensures Shrinks(s, Return(s))
  {
    hide Base, UnrefQuery, UnrefResolver, Released, CanRelease;
    ReturnDefined(s);
    var o, s1 := s.current.value, s.(current := None);
    assert Shrinks(s, s1);
    hide Shrinks;
    var s2 := Released(s1, o);
    var s3 := UnrefQuery(s2, o);
    ReleaseShrinks(s1, o);
    UnrefShrinks(s2, o);
    UnrefResolverShrinks(s3);
    ShrinksOn(s, s1, s2);
    ShrinksOn(s, s2, s3);
    ShrinksOn(s, s3, UnrefResolver(s3));
  }

  lemma {:induction false} UnrefAges(s: State, o: nat)
    requires UnrefQuery.requires(s, o)
    ensures Ages(s, UnrefQuery(s, o)) && UnrefQuery(s, o).calls == s.calls
  {
    UnrefShrinks(s, o);
    ShrinksAges(s, UnrefQuery(s, o));
    hide UnrefQuery, Shrinks, Ages;
  }

  lemma {:induction false} AgesOn(s: State, t: State, u: State)
    requires Ages(s, t) && Ages(t, u)
    ensures Ages(s, u)
  {
  }

  lemma {:induction false} ReturnAges(s: State)
    requires Base(s) && s.current.Some?
    ensures Ages(s, Return(s)) && Return(s).calls == s.calls
  {
    hide Base, Return, Shrinks;
    ReturnShrinks(s);
    ShrinksAges(s, Return(s));
  }

  lemma {:induction false} GiveUpAges(s: State, o: nat)
    requires Base(s) && Held(s, o) > 0
    ensures UnrefQuery.requires(GiveUpQuery(s, o), o)
    ensures var t := UnrefQuery(GiveUpQuery(s, o), o); Ages(s, t) && t.calls == s.calls && InFlight(t) == InFlight(s)
  {
    hide Base, UnrefQuery, InFlight;
    GiveUpDefined(s, o);
    var g := GiveUpQuery(s, o);
    UnrefAges(g, o);
    UnrefSameMessages(g, o);
    SameMessagesInFlight(s, UnrefQuery(g, o));
  }

  lemma {:induction false} WorkerAges(s: State, step: Step)
    requires Base(s) && Enabled(s, step) && WorkerStep(step)
    ensures var t := TryEffect(s, step).next;
      Ages(s, t) && t.calls == s.calls && InFlight(t) <= InFlight(s)
  {
    hide Base, InFlight;
    match step
    case WorkerTakes => TakeInFlight(s);
    case WorkerReplies(m) => ReplyInFlight(s, m);
    case WorkerFails(m) => FailInFlight(s, m);
    case WorkerQuits => QuitInFlight(s);
  }

  lemma {:induction false} RefAges(s: State, step: Step)
    requires Base(s) && Enabled(s, step) && (step.RefQuery? || step.RefResolver? || step.UnrefResolverStep?)
    ensures var t := TryEffect(s, step).next;
      Ages(s, t) && t.calls == s.calls && InFlight(t) == InFlight(s)
  {
    hide Base, InFlight, UnrefResolver;
    if step.UnrefResolverStep? {
      GiveUpKeepsBase(s);
      UnrefResolverIds(s);
      var g := s.(heldResolver := s.heldResolver - 1);
      UnrefResolverShrinks(g);
      ShrinksAges(g, UnrefResolver(g));
    }
    SameMessagesInFlight(s, TryEffect(s, step).next);
  }

  lemma {:induction false} UnrefResolverIds(s: State)
    requires s.nRef >= 1 && s.heldResolver > 0
    ensures GiveUpResolver(s).issued == s.issued
  {
  }

  /** Steps that send nothing and deliver nothing. */
  lemma {:induction false} OtherStepAges(s: State, step: Step)
    requires Base(s) && Enabled(s, step) && !step.Issue? && !step.Process?
    ensures var t := TryEffect(s, step).next;
      Ages(s, t) && t.calls == s.calls && InFlight(t) <= InFlight(s)
  {
    hide Base, Return, UnrefQuery, InFlight, Ages;
    if WorkerStep(step) {
      WorkerAges(s, step);
    } else if step.UnrefQueryStep? {
      GiveUpAges(s, step.query);
    } else if step.CallbackReturns? {
      ReturnAges(s);
      ReturnSameMessages(s);
      SameMessagesInFlight(s, Return(s));
    } else {
      RefAges(s, step);
    }
  }

  /** While a query is live, no other gets its id. */
  lemma {:induction false} LiveIdIsTaken(s: State, o: nat)
    requires TableInv(s) && FreeWithin(s.table, s.issued, QUERIES_MAX) && o in s.queries && s.queries[o].live
    ensures s.queries[o].id != NextId(s) % ID_RANGE
  {
    SlotOfId(NextId(s));
  }

  lemma {:induction false} AllocateAges(s: State, floating: bool, kind: Kind)
    requires FreeWithin(s.table, s.issued, QUERIES_MAX)
    ensures Ages(s, Allocate(s, floating, kind)) && Allocate(s, floating, kind).calls == s.calls
  {
    hide SlotOf, FreeWithin;
  }

  lemma {:induction false} SendAges(s: State, o: nat, ask: nat)
    requires o in s.queries
    ensures Ages(s, Send(s, o, ask)) && Send(s, o, ask).calls == s.calls
  {
  }

  lemma {:induction false} ThreadsAge(s: State, threads: nat)
    requires Base(s)
    ensures var w := WithThreads(s, threads); Ages(s, s) && Ages(s, w) && InFlight(w) == InFlight(s) && TableInv(w)
  {
    hide CountInv, RefInv, OwnRefInv, SlotOf;
  }

  /** What a query call sends carries the id of no live query. */
  lemma {:induction false} IssueSends(s: State, floating: bool, kind: Kind, ask: nat, threads: nat, sent: bool, o: nat)
    requires Base(s) && Usable(s)
    ensures var t := IssueQuery(s, floating, kind, ask, threads, sent);
      && Ages(s, t) && t.calls == s.calls
      && (o in s.queries && s.queries[o].live ==>
            forall m :: m in InFlight(t) && m.id == s.queries[o].id ==> m in InFlight(s))
  {
    hide Base, FreeWithin, UnrefQuery, Ages, InFlight, Allocate, TableInv;
    var w := WithThreads(s, threads);
    ThreadsAge(s, threads);
    if s.nQueries < QUERIES_MAX && w.nWorkers >= WantedWorkers(s) {
      IssueDefined(s, threads, floating, kind);
      var a := Allocate(w, floating, kind);
      AllocateAges(w, floating, kind);
      AllocateInFlight(w, floating, kind);
      AgesOn(s, w, a);
      if o in s.queries && s.queries[o].live { LiveIdIsTaken(w, o); }
      if sent {
        SendAges(a, s.objects, ask);
        AgesOn(s, a, Send(a, s.objects, ask));
        SendInFlight(a, s.objects, ask);
        AllocatedId(w, floating, kind);
      } else {
        UnrefAges(a, s.objects);
        AgesOn(s, a, UnrefQuery(a, s.objects));
        UnrefSameMessages(a, s.objects);
        SameMessagesInFlight(a, UnrefQuery(a, s.objects));
      }
      hide Send;
    }
  }

  lemma {:induction false} AllocatedId(s: State, floating: bool, kind: Kind)
    requires FreeWithin(s.table, s.issued, QUERIES_MAX)
    ensures var a := Allocate(s, floating, kind);
      s.objects in a.queries && a.queries[s.objects] == Query(1, true, kind, false, floating, NextId(s) % ID_RANGE)
  {
  }

  /** The query that sent `own`, and only what was in flight before it, carry its id. */
  ghost predicate Traced(before: multiset<Msg>, own: Msg, t: State) {
    var o := own.origin;
    o < t.objects &&
    (o in t.queries ==> t.queries[o].id == own.id && t.queries[o].kind == own.kind) &&
    (o in t.queries && t.queries[o].live ==> forall x :: x in InFlight(t) && x.id == own.id ==> x == own || x in before) &&
    forall i :: 0 <= i < |t.calls| && t.calls[i].query == o ==>
      var x := t.calls[i].answered; x.id == own.id && x.kind == own.kind && (x == own || x in before)
  }

  lemma {:induction false} HeadIsInFlight(s: State)
    requires s.responses != [] && s.responses[0].Answer?
    ensures s.responses[0].msg in InFlight(s) && s.responses[0].msg in s.working + Answers(s.responses)
  {
    assert s.responses[0].msg in Answers(s.responses);
  }

  /** A packet is read: a live query with the id and the kind of the answer is called. */
  lemma {:induction false} ProcessCalls(s: State)
    requires Base(s) && Enabled(s, Process) && TryReceive(s).Goes?
    ensures var t := TryReceive(s).next;
      && Ages(s, t) && InFlight(t) <= InFlight(s)
      && (t.calls == s.calls ||
          exists c: Call :: t.calls == s.calls + [c] && c.answered in InFlight(s) && c.query in s.queries &&
            s.queries[c.query].live && s.queries[c.query].id == c.answered.id && s.queries[c.query].kind == c.answered.kind)
  {
    hide Base, InFlight;
    var t := TryReceive(s).next;
    ReceiveMessages(s);
    ReceivedInFlight(s, t);
    if s.responses[0].Answer? {
      var m := s.responses[0].msg;
      HeadIsInFlight(s);
      CoreKeepsBase(s, Accept(s));
      FoundIsLive(Accept(s), m.id);
      if t.calls != s.calls {
        var c := Call(Lookup(Accept(s), m.id).value, m);
        assert t.calls == s.calls + [c];
      }
    }
  }

  lemma {:induction false} ProcessTraced(before: multiset<Msg>, own: Msg, s: State)
    requires Base(s) && Enabled(s, Process) && TryReceive(s).Goes? && Traced(before, own, s)
    ensures Traced(before, own, TryReceive(s).next)
  {
    hide Base, InFlight, TryReceive;
    ProcessCalls(s);
  }

  lemma {:induction false} StepTraced(before: multiset<Msg>, own: Msg, s: State, step: Step)
    requires Base(s) && Enabled(s, step) && TryEffect(s, step).Goes? && Traced(before, own, s)
    ensures Traced(before, own, TryEffect(s, step).next)
  {
    hide Base, InFlight, IssueQuery, TryReceive, UnrefQuery, Return;
    if step.Process? {
      ProcessTraced(before, own, s);
    } else if step.Issue? {
      IssueSends(s, step.floating, step.kind, step.ask, step.threads, step.sent, own.origin);
    } else {
      OtherStepAges(s, step);
    }
  }

  lemma {:induction false} RunTraced(before: multiset<Msg>, own: Msg, s: State, states: seq<State>, steps: seq<Step>, i: nat)
    requires Follows(s, states, steps) && Traced(before, own, s) && i <= |steps|
    ensures Traced(before, own, states[i])
  {
    hide Base, Enabled, TryEffect, Traced;
    if i > 0 {
      var j := i - 1;
      RunTraced(before, own, s, states, steps, j);
      assert TryEffect(states[j], steps[j]) == Goes(states[j + 1]);
      StepTraced(before, own, states[j], steps[j]);
    }
  }

  /** Some message in flight carries the id that the next query gets, and its kind. */
  ghost predicate Aliased(s: State, kind: Kind)
    requires FreeWithin(s.table, s.issued, QUERIES_MAX)
  {
    exists m :: m in InFlight(s) && m.id == NextId(s) % ID_RANGE && m.kind == kind
  }

  lemma {:induction false} SentIsTraced(s: State, floating: bool, kind: Kind, ask: nat)
    requires Inv(s) && FreeWithin(s.table, s.issued, QUERIES_MAX)
    ensures var own := Msg(NextId(s) % ID_RANGE, kind, s.objects, ask);
      Traced(InFlight(s), own, Send(Allocate(s, floating, kind), s.objects, ask))
  {
    hide TableInv, CountInv, RefInv, OwnRefInv, FlightInv, NoAlias, WorkerInv;
    assert forall i :: 0 <= i < |s.calls| ==> s.calls[i].query < s.objects;
    hide CallInv, SlotOf, FreeWithin;
    var a := Allocate(s, floating, kind);
    SendInFlight(a, s.objects, ask);
    AllocateInFlight(s, floating, kind);
    hide InFlight;
  }

  /** Only an aliased query can go wrong, in whatever goes on afterwards. */
  lemma {:induction false} WrongOnlyIfAliased(s: State, floating: bool, kind: Kind, ask: nat)
    requires Inv(s) && FreeWithin(s.table, s.issued, QUERIES_MAX)
    requires CanGoWrong(Send(Allocate(s, floating, kind), s.objects, ask), s.objects)
    ensures Aliased(s, kind)
  {
    hide Inv, Base, Enabled, TryEffect, SlotOf, FreeWithin, InFlight;
    var o := s.objects;
    var t, own := Send(Allocate(s, floating, kind), o, ask), Msg(NextId(s) % ID_RANGE, kind, o, ask);
    SentIsTraced(s, floating, kind, ask);
    var u :| Leads(t, u) && WrongCall(u, o);
    var states, steps :| Follows(t, states, steps) && states[|steps|] == u;
    RunTraced(InFlight(s), own, t, states, steps, |steps|);
  }

  // ----- an aliased query can go wrong -----

  /** Everything but the resolver itself and the query that is given up stays. */
  ghost predicate Spares(s: State, t: State, o: nat) {
    t.heldResolver == s.heldResolver && t.current == s.current && (s.freed ==> t.freed) &&
    (!t.freed && o in s.queries ==> o in t.queries && t.queries[o] == s.queries[o])
  }

  lemma {:induction false} SparesOn(s: State, t: State, u: State, o: nat)
    requires Spares(s, t, o) && Spares(t, u, o)
    ensures Spares(s, u, o)
  {
  }

  lemma {:induction false} UnrefSpares(s: State, q: nat, o: nat)
    requires UnrefQuery.requires(s, q) && q != o
    ensures Spares(s, UnrefQuery(s, q), o)
  {
  }

  lemma {:induction false} UnrefResolverSpares(s: State, o: nat)
    requires s.nRef >= 1
    ensures Spares(s, UnrefResolver(s), o)
  {
  }

  lemma {:induction false} ReleaseSpares(s: State, q: nat, o: nat)
    requires CanRelease(s, q) && q != o
    ensures Spares(s, Released(s, q), o)
  {
    hide UnrefQuery;
    if s.queries[q].floating {
      var d := Disconnect(s, q);
      UnrefSpares(d, q, o);
      assert Spares(s, d, o);
      hide Spares, Disconnect;
      SparesOn(s, d, UnrefQuery(d, q), o);
    }
  }

  /** Returning from another callback leaves a query alone while the program holds
      the resolver. */
  lemma {:induction false} ReturnSpares(s: State, o: nat)
    requires Base(s) && s.current.Some? && s.current.value != o && s.heldResolver > 0 && o in s.queries
    ensures var t := Return(s);
      !t.freed && t.heldResolver == s.heldResolver && o in t.queries && t.queries[o] == s.queries[o] && t.current == None
  {
    hide Base, UnrefQuery, UnrefResolver, Released, CanRelease;
    ReturnKeepsBase(s);
    HeldIsNotFreed(Return(s));
    ReturnDefined(s);
    var q, s1 := s.current.value, s.(current := None);
    var s2 := Released(s1, q);
    var s3 := UnrefQuery(s2, q);
    ReleaseSpares(s1, q, o);
    UnrefSpares(s2, q, o);
    UnrefResolverSpares(s3, o);
    SparesOn(s1, s2, s3, o);
    SparesOn(s1, s3, UnrefResolver(s3), o);
  }

  lemma {:induction false} HeldIsNotFreed(s: State)
    requires Base(s)
    ensures s.heldResolver > 0 ==> !s.freed
  {
  }

  /** Answers and live queries are apart, but for the query `o`. */
  ghost predicate ApartBut(s: State, o: nat) {
    forall m, p :: m in InFlight(s) && p in s.queries && p != o && s.queries[p].live && s.queries[p].id == m.id ==> p == m.origin
  }

  ghost predicate Pending(own: Msg, s: State) {
    var o := own.origin;
    o in s.queries && s.queries[o].live && !s.queries[o].done && s.queries[o].id == own.id && s.queries[o].kind == own.kind &&
    s.requests != [] && s.requests[|s.requests| - 1] == own
  }

  /** The query that sent `own` waits; its request is the last in the queue. */
  ghost predicate Waits(own: Msg, s: State) {
    Base(s) && FlightInv(s) && WorkerInv(s) && ApartBut(s, own.origin) && s.heldResolver > 0 && s.nWorkers > 0 && Pending(own, s)
  }

  lemma {:induction false} OwnIsQueued(own: Msg, s: State, x: Msg)
    requires FlightInv(s) && Pending(own, s) && x in s.working + Answers(s.responses)
    ensures x in InFlight(s) && x.origin != own.origin
  {
    assert own in multiset(s.requests);
    assert InFlight(s) == multiset(s.requests) + (s.working + Answers(s.responses));
    assert InFlight(s)[own] == 1;
  }

  lemma {:induction false} ShrinksFlight(s: State, t: State, o: nat)
    requires FlightInv(s) && ApartBut(s, o) && WorkerInv(s) && Shrinks(s, t)
    ensures FlightInv(t) && ApartBut(t, o) && WorkerInv(t)
  {
    assert InFlight(t) == InFlight(s);
    hide InFlight;
  }

  lemma {:induction false} CurrentIsDone(s: State)
    requires Base(s) && s.current.Some?
    ensures s.current.value in s.queries && s.queries[s.current.value].done
  {
  }

  lemma {:induction false} WaitsReturn(own: Msg, s: State)
    requires Waits(own, s) && s.current.Some?
    ensures Waits(own, Return(s)) && Return(s).current == None && Shrinks(s, Return(s))
  {
    hide Base, FlightInv, ApartBut, WorkerInv, Return;
    CurrentIsDone(s);
    ReturnKeepsBase(s);
    ReturnShrinks(s);
    ReturnSpares(s, own.origin);
    ShrinksFlight(s, Return(s), own.origin);
  }

  /** A worker moves a message on. */
  lemma {:induction false} WaitsWorker(own: Msg, s: State, t: State)
    requires Waits(own, s) && SameCore(s, t) && t.calls == s.calls && t.nOutstanding == s.nOutstanding && InFlight(t) == InFlight(s)
    requires |t.working| <= t.nWorkers && t.requests != [] && t.requests[|t.requests| - 1] == own
    ensures Waits(own, t)
  {
    hide Base, InFlight;
    CoreKeepsBase(s, t);
  }

  lemma {:induction false} AcceptKeepsFlight(s: State, o: nat)
    requires s.responses != [] && s.responses[0].Answer? && FlightInv(s) && ApartBut(s, o)
    ensures s.nOutstanding > 0
    ensures var t, x := Accept(s), s.responses[0].msg;
      && FlightInv(t) && ApartBut(t, o) && x in InFlight(s) && InFlight(t) == InFlight(s) - multiset{x}
      && forall m :: m in InFlight(t) ==> m in InFlight(s) && m.origin != x.origin
  {
    HeadInFlight(s);
    hide InFlight;
    var t, x := Accept(s), s.responses[0].msg;
    assert InFlight(s)[x] == 1;
    assert forall m :: m in InFlight(t) ==> m in InFlight(s) && m != x && InFlight(t)[m] == InFlight(s)[m];
  }

  lemma {:induction false} StartKeepsFlight(s: State, q: nat, x: Msg, o: nat)
    requires FlightInv(s) && ApartBut(s, o) && WorkerInv(s) && q in s.queries && !s.queries[q].done
    requires forall m :: m in InFlight(s) ==> m.origin != q
    ensures var t := StartCallback(s, q, x); FlightInv(t) && ApartBut(t, o) && WorkerInv(t)
  {
    assert InFlight(StartCallback(s, q, x)) == InFlight(s);
    hide InFlight;
  }

  lemma {:induction false} WaitsDied(own: Msg, s: State)
    requires Waits(own, s) && s.responses != [] && s.responses[0].Died?
    ensures TryReceive(s).Goes? && Waits(own, TryReceive(s).next)
  {
    hide Base;
    var t := TryReceive(s).next;
    assert InFlight(t) == InFlight(s);
    CoreKeepsBase(s, t);
    hide InFlight;
  }

  /** The next answer is dropped, or reaches a query, which is its own or the one that waits. */
  lemma {:induction false} WaitsAnswer(own: Msg, s: State)
    requires Waits(own, s) && s.current == None && s.responses != [] && s.responses[0].Answer?
    ensures TryReceive(s).Goes?
    ensures var t, x := TryReceive(s).next, s.responses[0].msg;
      if x.id == own.id && x.kind == own.kind then WrongCall(t, own.origin)
      else Waits(own, t) && InFlight(t) == InFlight(s) - multiset{x}
  {
    hide Base, FlightInv, ApartBut, InFlight, Lookup, Answers;
    var o, x := own.origin, s.responses[0].msg;
    HeadIsInFlight(s);
    OwnIsQueued(own, s, x);
    AcceptKeepsFlight(s, o);
    var a := Accept(s);
    CoreKeepsBase(s, a);
    LookupWaits(own, s, x);
    HeldIsNotFreed(s);
    var r := Lookup(a, x.id);
    if r.Some? && s.queries[r.value].kind == x.kind {
      DeliverWaits(own, a, r.value, x);
    }
  }

  lemma {:induction false} DeliverWaits(own: Msg, s: State, q: nat, x: Msg)
    requires Waits(own, s) && !s.freed && s.current == None && q in s.queries && s.queries[q].live && !s.queries[q].done
    requires x.origin != own.origin && forall m :: m in InFlight(s) && q != own.origin ==> m.origin != q
    ensures var t := StartCallback(s, q, x);
      && InFlight(t) == InFlight(s)
      && if q == own.origin then WrongCall(t, q) else Waits(own, t)
  {
    hide Base, FlightInv, ApartBut, InFlight;
    var t := StartCallback(s, q, x);
    StartSameFlight(s, q, x);
    if q == own.origin {
      assert t.calls[|s.calls|] == Call(q, x);
    } else {
      StartKeepsBase(s, q, x);
      StartKeepsFlight(s, q, x, own.origin);
    }
  }

  lemma {:induction false} StartSameFlight(s: State, q: nat, x: Msg)
    requires q in s.queries && !s.queries[q].done
    ensures InFlight(StartCallback(s, q, x)) == InFlight(s)
  {
  }

  /** The query found for an answer in flight: the waiting one under its id, else the sender. */
  lemma {:induction false} LookupWaits(own: Msg, s: State, x: Msg)
    requires Waits(own, s) && x in InFlight(s) && x.origin != own.origin && s.responses != [] && s.nOutstanding > 0
    ensures var r := Lookup(Accept(s), x.id);
      if x.id == own.id then r == Some(own.origin)
      else r.Some? ==> r.value != own.origin && r.value == x.origin && r.value in s.queries && s.queries[r.value].live &&
                       !s.queries[r.value].done && s.queries[r.value].kind == x.kind
  {
    hide SlotOf, InFlight, CountInv, RefInv, OwnRefInv, WorkerInv;
  }

  lemma {:induction false} WrongNow(s: State, o: nat)
    requires WrongCall(s, o)
    ensures CanGoWrong(s, o)
  {
    var states, steps: seq<Step> := [s], [];
    assert Follows(s, states, steps) && states[|steps|] == s;
  }

  lemma {:induction false} WrongLater(s: State, step: Step, t: State, o: nat)
    requires Base(s) && Enabled(s, step) && TryEffect(s, step) == Goes(t) && CanGoWrong(t, o)
    ensures CanGoWrong(s, o)
  {
    hide Base, Enabled, TryEffect, WrongCall;
    var u :| Leads(t, u) && WrongCall(u, o);
    var states, steps :| Follows(t, states, steps) && states[|steps|] == u;
    var states', steps' := [s] + states, [step] + steps;
    forall i | 0 <= i < |steps'|
      ensures Base(states'[i]) && Enabled(states'[i], steps'[i]) && TryEffect(states'[i], steps'[i]) == Goes(states'[i + 1])
    {
      if i > 0 {
        var j := i - 1;
        assert TryEffect(states[j], steps[j]) == Goes(states[j + 1]);
      }
    }
    assert Follows(s, states', steps') && states'[|steps'|] == u;
  }

  /** The workers answer everything before the request of the waiting query, and
      the answers are read, until one is taken for its own. */
  lemma {:induction false} GoesWrong(own: Msg, m: Msg, s: State)
    requires Waits(own, s) && m in InFlight(s) && m.origin != own.origin && m.id == own.id && m.kind == own.kind
    ensures CanGoWrong(s, own.origin)
    decreases |s.requests|, |s.working|, |s.responses|, if s.current.Some? then 2 else 1
  {
    hide Base, FlightInv, ApartBut, InFlight, Answers, CanGoWrong, TryReceive, Return, WrongCall;
    HeldIsNotFreed(s);
    if s.current.Some? {
      WaitsReturn(own, s);
      var t := Return(s);
      SameMessagesInFlight(s, t) by { ReturnSameMessages(s); }
      GoesWrong(own, m, t);
      WrongLater(s, CallbackReturns, t, own.origin);
    } else if s.responses != [] {
      GoesWrongReading(own, m, s);
    } else if |s.working| > 0 {
      var x :| x in s.working;
      var t := Reply(s, x);
      ReplyInFlight(s, x);
      WaitsWorker(own, s, t);
      GoesWrong(own, m, t);
      WrongLater(s, WorkerReplies(x), t, own.origin);
    } else {
      MustBeQueued(own, m, s);
      var t := Take(s);
      TakeInFlight(s);
      WaitsWorker(own, s, t);
      GoesWrong(own, m, t);
      WrongLater(s, WorkerTakes, t, own.origin);
    }
  }

  lemma {:induction false} MustBeQueued(own: Msg, m: Msg, s: State)
    requires Pending(own, s) && m in InFlight(s) && m != own && s.working == multiset{} && s.responses == []
    ensures |s.requests| > 1
  {
    assert m in s.requests;
  }

  lemma {:induction false} GoesWrongReading(own: Msg, m: Msg, s: State)
    requires Waits(own, s) && m in InFlight(s) && m.origin != own.origin && m.id == own.id && m.kind == own.kind
    requires s.current == None && s.responses != []
    ensures CanGoWrong(s, own.origin)
    decreases |s.requests|, |s.working|, |s.responses|, 0
  {
    hide Base, FlightInv, ApartBut, InFlight, Answers, CanGoWrong, TryReceive, Return, WrongCall;
    HeldIsNotFreed(s);
    if s.responses[0].Died? {
      WaitsDied(own, s);
      SameFlightDied(s);
    } else {
      WaitsAnswer(own, s);
    }
    var t := TryReceive(s).next;
    ReceiveMessages(s);
    if s.responses[0].Answer? && s.responses[0].msg.id == own.id && s.responses[0].msg.kind == own.kind {
      WrongNow(t, own.origin);
    } else {
      GoesWrong(own, m, t);
    }
    WrongLater(s, Process, t, own.origin);
  }

  lemma {:induction false} SameFlightDied(s: State)
    requires s.responses != [] && s.responses[0].Died?
    ensures InFlight(TryReceive(s).next) == InFlight(s)
  {
  }

  lemma {:induction false} AllocateKeepsFlight(s: State, floating: bool, kind: Kind)
    requires FlightInv(s) && NoAlias(s) && FreeWithin(s.table, s.issued, QUERIES_MAX)
    ensures var a := Allocate(s, floating, kind);
      && FlightInv(a) && ApartBut(a, s.objects) && InFlight(a) == InFlight(s)
      && forall m :: m in InFlight(a) ==> m.origin != s.objects
  {
    hide SlotOf, FreeWithin;
    AllocateInFlight(s, floating, kind);
    hide InFlight;
  }

  lemma {:induction false} SendKeepsApart(s: State, o: nat, ask: nat)
    requires o in s.queries && s.queries[o].live && ApartBut(s, o) && TableInv(s)
    ensures ApartBut(Send(s, o, ask), o)
  {
    SendInFlight(s, o, ask);
    var t, own := Send(s, o, ask), SentMsg(s, o, ask);
    hide InFlight, SlotOf;
    forall p | p in s.queries && p != o && s.queries[p].live ensures s.queries[p].id != s.queries[o].id {
      assert s.table[SlotOf(s.queries[p].id)] == p && s.table[SlotOf(s.queries[o].id)] == o;
    }
  }

  /** A query that was sent waits, once the program holds the resolver. */
  lemma {:induction false} SentWaits(s: State, floating: bool, kind: Kind, ask: nat)
    requires FlightInv(s) && NoAlias(s) && WorkerInv(s) && FreeWithin(s.table, s.issued, QUERIES_MAX)
    requires TableInv(Allocate(s, floating, kind))
    ensures var t := Send(Allocate(s, floating, kind), s.objects, ask);
      var own := Msg(NextId(s) % ID_RANGE, kind, s.objects, ask);
      FlightInv(t) && WorkerInv(t) && ApartBut(t, s.objects) && Pending(own, t)
  {
    hide FlightInv, InFlight, ApartBut, NoAlias, FreeWithin, SlotOf, TableInv;
    var a, o := Allocate(s, floating, kind), s.objects;
    AllocateKeepsFlight(s, floating, kind);
    AllocatedId(s, floating, kind);
    SendFlight(a, o, ask);
    SendKeepsApart(a, o, ask);
  }

  lemma {:induction false} HoldWaits(own: Msg, t: State)
    requires Base(t) && Usable(t) && FlightInv(t) && WorkerInv(t) && ApartBut(t, own.origin) && Pending(own, t) && t.nWorkers > 0
    ensures var u := t.(heldResolver := t.heldResolver + 1, nRef := t.nRef + 1); Waits(own, u) && InFlight(u) == InFlight(t)
  {
    hide Base, InFlight;
    var u := t.(heldResolver := t.heldResolver + 1, nRef := t.nRef + 1);
    SameMessagesInFlight(t, u);
    RefKeepsBase(t);
  }

  lemma {:induction false} AllocatedTable(s: State, floating: bool, kind: Kind)
    requires Inv(s) && FreeWithin(s.table, s.issued, QUERIES_MAX)
    ensures TableInv(Allocate(s, floating, kind))
  {
    assert s.objects !in s.queries;
    hide FlightInv, NoAlias, CallInv, WorkerInv, RefInv, OwnRefInv, FreeWithin;
    AllocateTable(s, floating, kind);
  }

  lemma {:induction false} OriginIsOld(s: State, m: Msg)
    requires FlightInv(s) && m in InFlight(s)
    ensures m.origin < s.objects
  {
  }

  lemma {:induction false} WrongIfAliased(s: State, floating: bool, kind: Kind, ask: nat)
    requires Inv(s) && s.nWorkers > 0 && FreeWithin(s.table, s.issued, QUERIES_MAX) && Aliased(s, kind)
    requires var t := Send(Allocate(s, floating, kind), s.objects, ask); Base(t) && Usable(t)
    ensures CanGoWrong(Send(Allocate(s, floating, kind), s.objects, ask), s.objects)
  {
    hide TableInv, CountInv, RefInv, OwnRefInv, NoAlias, CallInv, FlightInv, WorkerInv, Base, ApartBut, InFlight, FreeWithin, SlotOf;
    hide CanGoWrong, Waits, Pending;
    var o := s.objects;
    var t, own := Send(Allocate(s, floating, kind), o, ask), Msg(NextId(s) % ID_RANGE, kind, o, ask);
    var m :| m in InFlight(s) && m.id == own.id && m.kind == kind;
    OriginIsOld(s, m);
    AllocatedTable(s, floating, kind);
    SentWaits(s, floating, kind, ask);
    SendInFlight(Allocate(s, floating, kind), o, ask);
    AllocateInFlight(s, floating, kind);
    HoldWaits(own, t);
    var u := t.(heldResolver := t.heldResolver + 1, nRef := t.nRef + 1);
    GoesWrong(own, m, u);
    WrongLater(t, RefResolver, u, o);
  }

  /** Issuing a query can lead to its callback being run with the answer to another
      one exactly if a message in flight carries the id it gets, and its kind. */
  lemma {:induction false} GoesWrongIffAliased(s: State, floating: bool, kind: Kind, ask: nat, threads: nat)
    requires Inv(s) && Usable(s) && Allocates(s, threads)
    ensures Base(s) && FreeWithin(s.table, s.issued, QUERIES_MAX)
    ensures CanGoWrong(IssueQuery(s, floating, kind, ask, threads, true), s.objects) <==> Aliased(s, kind)
  {
    hide InvX, Base, FreeWithin, InFlight, CanGoWrong, Allocate, Send;
    InvMeansBase(s);
    var w := WithThreads(s, threads);
    ThreadsKeep(s, threads);
    ThreadsAge(s, threads);
    IssueDefined(s, threads, floating, kind);
    IssueKeepsBase(s, floating, kind, ask, threads, true);
    if Aliased(s, kind) {
      SentUsable(w, floating, kind, ask);
      WrongIfAliased(w, floating, kind, ask);
    }
    if CanGoWrong(IssueQuery(s, floating, kind, ask, threads, true), s.objects) {
      WrongOnlyIfAliased(w, floating, kind, ask);
    }
  }

  lemma {:induction false} SentUsable(s: State, floating: bool, kind: Kind, ask: nat)
    requires Usable(s) && FreeWithin(s.table, s.issued, QUERIES_MAX)
    ensures Usable(Send(Allocate(s, floating, kind), s.objects, ask))
  {
  }
}
