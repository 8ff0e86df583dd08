/** Connecting and disconnecting the network under the rate limiter. Results of
    system calls, TLS and the journal, and clock readings, are parameters. */
module Managers {
  import opened RateLimiting

  datatype Protocol = Udp | Tcp | Dtls | Tls

  /** What `journal_monitor_listen` meets: the journal cannot be opened, or not
      watched, or not sought to the cursor, or all is well. */
  datatype Listen = Listens | OpenFails | WatchFails | SeekFails

  /** One pass through `manager_connect`. */
  datatype Round = Round(ts: Usec, linkOpens: bool, timerAdded: bool, listen: Listen)

  datatype Verdict =
    | Resolving    // 0: a lookup of the server is under way
    | Listening    // 0: connected
    | Delayed      // 0: too many attempts, the retry timer is set
    | NoTimer      // the retry timer could not be set
    | NoJournal    // connected, but the journal cannot be read
    | Unfinished   // the list of rounds is used up

  datatype Net = Net(
    protocol: Protocol,
    resolving: bool,
    resolveQuery: bool,
    socketOpen: bool,
    connected: bool,
    dtlsUp: bool,
    tlsUp: bool,
    retryTimer: bool,
    journalOpen: bool,
    journalWatched: bool,
    limit: Limit)

  predicate LinkUp(n: Net) {
    match n.protocol
    case Dtls => n.dtlsUp
    case Tls => n.tlsUp
    case _ => n.socketOpen && n.connected
  }

  predicate LinkDown(n: Net) {
    !n.socketOpen && !n.connected && !n.dtlsUp && !n.tlsUp
  }

  /** What holds between events. */
  predicate Consistent(n: Net) {
    (LinkUp(n) || LinkDown(n)) &&
    (n.dtlsUp ==> n.protocol.Dtls?) && (n.tlsUp ==> n.protocol.Tls?) &&
    (n.socketOpen || n.connected ==> n.protocol.Udp? || n.protocol.Tcp?) &&
    (n.journalOpen ==> LinkUp(n)) && (n.journalWatched ==> n.journalOpen) &&
    (n.retryTimer ==> LinkDown(n)) &&
    (n.resolving ==> LinkDown(n) && !n.retryTimer)
  }

  function Disconnected(n: Net): Net {
    n.(resolveQuery := false, socketOpen := false, connected := false, dtlsUp := false, tlsUp := false,
       journalOpen := false, journalWatched := false)
  }

  function Opened(n: Net): Net {
    match n.protocol
    case Dtls => n.(dtlsUp := true)
    case Tls => n.(tlsUp := true)
    case _ => n.(socketOpen := true, connected := true)
  }

  function Listened(n: Net, listen: Listen): Net {
    n.(journalOpen := !listen.OpenFails?, journalWatched := listen.SeekFails? || listen.Listens?)
  }

  datatype Outcome = Outcome(net: Net, verdict: Verdict, calls: seq<Call>, attempts: nat)

  function Connect(n: Net, env: seq<Round>): Outcome
    decreases |env|
  {
    if n.resolving then Outcome(n, Resolving, [], 0)
    else if env == [] then Outcome(n, Unfinished, [], 0)
    else
      var now, off := env[0], Disconnected(n).(retryTimer := false, limit := Next(n.limit, env[0].ts));
      if !IsBelow(n.limit, now.ts) then
        Outcome(off.(retryTimer := now.timerAdded), if now.timerAdded then Delayed else NoTimer, [Call(now.ts, false)], 0)
      else if now.linkOpens then
        Outcome(Listened(Opened(off), now.listen), if now.listen.Listens? then Listening else NoJournal, [Call(now.ts, true)], 1)
      else
        var rest := Connect(off, env[1..]);
        rest.(calls := [Call(now.ts, true)] + rest.calls, attempts := 1 + rest.attempts)
  }

  class Manager {
    const protocol: Protocol
    const ratelimit: RateLimit
    var resolving: bool
    var resolveQuery: bool
    var socketOpen: bool
    var connected: bool
    var dtlsUp: bool
    var tlsUp: bool
    var retryTimer: bool
    var journalOpen: bool
    var journalWatched: bool

    function State(): Net
      reads this, ratelimit
    {
      Net(protocol, resolving, resolveQuery, socketOpen, connected, dtlsUp, tlsUp, retryTimer, journalOpen, journalWatched,
          ratelimit.State())
    }

    /** `manager_new` and the parsing of the server's address. */
    constructor (protocol: Protocol, resolving: bool)
      ensures fresh(ratelimit)
      ensures Consistent(State()) && State().limit == Limit(10_000_000, 10, 0, 0) && State().resolving == resolving
    {
      this.protocol, this.resolving, resolveQuery := protocol, resolving, resolving;
      socketOpen, connected, dtlsUp, tlsUp := false, false, false, false;
      retryTimer, journalOpen, journalWatched := false, false, false;
      ratelimit := new RateLimit(10_000_000, 10);
    }

    method Disconnect()
      modifies this
      ensures State() == Disconnected(old(State()))
    {
      resolveQuery := false;
      socketOpen, connected := false, false;
      dtlsUp, tlsUp := false, false;
      journalWatched := false;
      journalOpen := false;
    }

    method OpenLink()
      modifies this
      ensures State() == Opened(old(State()))
    {
      match protocol
      case Dtls => dtlsUp := true;
      case Tls => tlsUp := true;
      case _ => socketOpen, connected := true, true;
    }

    method MonitorListen(listen: Listen) returns (ok: bool)
      requires !journalOpen && !journalWatched
      modifies this
      ensures State() == Listened(old(State()), listen) && ok == listen.Listens?
    {
      if listen.OpenFails? { return false; }
      journalOpen := true;
      if listen.WatchFails? { return false; }
      journalWatched := true;
      return !listen.SeekFails?;
    }

    /** `manager_connect`, which calls itself after a failed attempt. */
    method ManagerConnect(env: seq<Round>) returns (verdict: Verdict, ghost calls: seq<Call>, ghost attempts: nat)
      modifies this, ratelimit
      ensures Outcome(State(), verdict, calls, attempts) == Connect(old(State()), env)
      decreases |env|
    {
      if resolving { return Resolving, [], 0; }
      if env == [] { return Unfinished, [], 0; }
      var now := env[0];
      Disconnect();
      retryTimer := false;
      var below := ratelimit.Below(now.ts);
      if !below {
        retryTimer := now.timerAdded;
        return if now.timerAdded then Delayed else NoTimer, [Call(now.ts, false)], 0;
      }
      if !now.linkOpens {
        verdict, calls, attempts := ManagerConnect(env[1..]);
        calls, attempts := [Call(now.ts, true)] + calls, 1 + attempts;
      } else {
        OpenLink();
        var ok := MonitorListen(now.listen);
        return if ok then Listening else NoJournal, [Call(now.ts, true)], 1;
      }
    }
  }

  // ---- One call ----

  /** How a call ends. */
  predicate EndsAs(o: Outcome) {
    match o.verdict
    case Resolving => o.net.resolving
    case Listening => LinkUp(o.net) && o.net.journalWatched && !o.net.retryTimer
    case Delayed => LinkDown(o.net) && !o.net.journalOpen && o.net.retryTimer
    case NoTimer => LinkDown(o.net) && !o.net.journalOpen && !o.net.retryTimer
    case NoJournal => LinkUp(o.net) && !o.net.retryTimer
    case Unfinished => true
  }

  lemma {:induction false} ConnectEndsAs(n: Net, env: seq<Round>)
    requires Consistent(n)
    ensures EndsAs(Connect(n, env)) && Consistent(Connect(n, env).net)
    decreases |env|
  {
    if !n.resolving && env != [] {
      var off := Disconnected(n).(retryTimer := false, limit := Next(n.limit, env[0].ts));
      ConnectEndsAs(off, env[1..]);
    }
  }

  /** Attempts are what the limiter lets through. */
  lemma {:induction false} ConnectObeys(n: Net, env: seq<Round>)
    ensures var o := Connect(n, env);
            Obeys(n.limit, o.calls) && After(n.limit, o.calls) == o.net.limit && o.attempts == Allowed(o.calls)
    decreases |env|
  {
    hide IsBelow, Next;
    if !n.resolving && env != [] {
      var off := Disconnected(n).(retryTimer := false, limit := Next(n.limit, env[0].ts));
      ConnectObeys(off, env[1..]);
      assert Connect(n, env).calls[1..] == if IsBelow(n.limit, env[0].ts) && !env[0].linkOpens then Connect(off, env[1..]).calls else [];
    }
  }

  /** The calls are made at the clock readings, one after the other, and all are
      let through if the recursion does not end. */
  lemma {:induction false} ConnectTimes(n: Net, env: seq<Round>)
    ensures var o := Connect(n, env);
            |o.calls| <= |env| && (forall i :: 0 <= i < |o.calls| ==> o.calls[i].ts == env[i].ts) &&
            (o.verdict == Unfinished ==> |o.calls| == |env| && o.attempts == |env|)
    decreases |env|
  {
    hide IsBelow, Next;
    if !n.resolving && env != [] {
      var off := Disconnected(n).(retryTimer := false, limit := Next(n.limit, env[0].ts));
      ConnectTimes(off, env[1..]);
    }
  }

  predicate ClockRuns(l: Limit, env: seq<Round>) {
    (forall i :: 0 <= i < |env| ==> 0 < env[i].ts < USEC_INFINITY && l.begin <= env[i].ts) &&
    (forall i, j :: 0 <= i <= j < |env| ==> env[i].ts <= env[j].ts)
  }

  /** Within one interval the recursion makes fewer attempts than two bursts, and
      one burst at most if no window is open; and it ends. */
  lemma {:induction false} ConnectEnds(n: Net, env: seq<Round>)
    requires Configured(n.limit) && Counted(n.limit) && ClockRuns(n.limit, env)
    requires env != [] ==> env[|env| - 1].ts - env[0].ts <= n.limit.interval
    ensures Connect(n, env).attempts <= 2 * n.limit.burst - 1
    ensures n.limit.begin == 0 || (env != [] && Expired(n.limit, env[0].ts)) ==> Connect(n, env).attempts <= n.limit.burst
    ensures |env| >= 2 * n.limit.burst ==> Connect(n, env).verdict != Unfinished
    ensures |env| > n.limit.burst && (n.limit.begin == 0 || Expired(n.limit, env[0].ts)) ==> Connect(n, env).verdict != Unfinished
  {
    var o := Connect(n, env);
    ConnectTimes(n, env);
    ConnectObeys(n, env);
    hide Connect, Expired;
    assert Clocked(n.limit, o.calls);
    SpanBound(n.limit, o.calls);
    if o.calls != [] && Expired(n.limit, env[0].ts) {
      ExpiredSpan(n.limit, o.calls);
    }
  }

  lemma {:induction false} ExpiredSpan(l: Limit, calls: seq<Call>)
    requires Configured(l) && Counted(l) && Clocked(l, calls) && Obeys(l, calls)
    requires calls != [] && Expired(l, calls[0].ts) && calls[|calls| - 1].ts - calls[0].ts <= l.interval
    ensures Allowed(calls) <= l.burst
  {
    NextKeeps(l, calls);
    WindowBound(Next(l, calls[0].ts), calls[1..]);
  }

  // ---- When the recursion does not end ----

  function Times(env: seq<Round>): (times: seq<Usec>)
    ensures |times| == |env|
  {
    if env == [] then [] else [env[0].ts] + Times(env[1..])
  }

  /** The readings at the start of a list that are at most an interval after `start`. */
  function InWindow(interval: Usec, start: Usec, times: seq<Usec>): (k: nat)
    ensures k <= |times|
  {
    if times == [] || times[0] - start > interval then 0 else 1 + InWindow(interval, start, times[1..])
  }

  /** The readings are cut into windows, each starting at the first reading more than
      an interval after the start of the one before: none holds more than a burst. */
  predicate NoneOverfull(interval: Usec, burst: Uint, times: seq<Usec>)
    decreases |times|
  {
    times == [] ||
    var k := 1 + InWindow(interval, times[0], times[1..]);
    k <= burst && NoneOverfull(interval, burst, times[k..])
  }

  /** The same where a window may already be open. */
  predicate NeverOverfull(l: Limit, times: seq<Usec>) {
    var k := if l.begin == 0 then 0 else InWindow(l.interval, l.begin, times);
    (k == 0 || l.num + k <= l.burst) && NoneOverfull(l.interval, l.burst, times[k..])
  }

  lemma {:induction false} OverfullStep(l: Limit, ts: Usec, times: seq<Usec>)
    requires Configured(l) && Counted(l) && 0 < ts < USEC_INFINITY && l.begin <= ts
    ensures NeverOverfull(l, [ts] + times) <==> IsBelow(l, ts) && NeverOverfull(Next(l, ts), times)
  {
    var all := [ts] + times;
    assert all[1..] == times && all[0..] == all;
    if Expired(l, ts) {
      var k := InWindow(l.interval, ts, times);
      assert all[1 + k..] == times[k..];
    } else {
      var k := InWindow(l.interval, l.begin, times);
      assert all[1 + k..] == times[k..];
    }
  }

  /** The passes are used up and the recursion still goes on, exactly if every pass
      failed and no window of clock readings holds more than a burst. */
  lemma {:induction false} UnfinishedIff(n: Net, env: seq<Round>)
    requires !n.resolving && Configured(n.limit) && Counted(n.limit) && ClockRuns(n.limit, env)
    ensures Connect(n, env).verdict == Unfinished <==>
            (forall i :: 0 <= i < |env| ==> !env[i].linkOpens) && NeverOverfull(n.limit, Times(env))
    decreases |env|
  {
    hide NeverOverfull, IsBelow, Next;
    if env == [] {
      NothingOverfull(n.limit);
    } else {
      var now, rest := env[0], env[1..];
      var off := Disconnected(n).(retryTimer := false, limit := Next(n.limit, now.ts));
      OverfullStep(n.limit, now.ts, Times(rest));
      ClockGoesOn(n.limit, env);
      UnfinishedIff(off, rest);
      assert forall i :: 0 <= i < |rest| ==> rest[i] == env[i + 1];
      assert (forall i :: 0 <= i < |env| ==> !env[i].linkOpens) <==>
             !now.linkOpens && forall i :: 0 <= i < |rest| ==> !rest[i].linkOpens by { HeadAndTail(env); }
    }
  }

  lemma {:induction false} HeadAndTail(env: seq<Round>)
    requires env != []
    ensures (forall i :: 0 <= i < |env| ==> !env[i].linkOpens) <==>
            !env[0].linkOpens && forall i :: 0 <= i < |env[1..]| ==> !env[1..][i].linkOpens
  {
    assert env == [env[0]] + env[1..];
  }

  lemma {:induction false} NothingOverfull(l: Limit)
    ensures NeverOverfull(l, [])
  {
  }

  lemma {:induction false} ClockGoesOn(l: Limit, env: seq<Round>)
    requires env != [] && Configured(l) && Counted(l) && ClockRuns(l, env)
    ensures var m := Next(l, env[0].ts);
      Configured(m) && Counted(m) && ClockRuns(m, env[1..]) && m.interval == l.interval && m.burst == l.burst
  {
  }

  // ---- Attempts that take longer than an interval ----

  function SlowFailures(interval: Usec, from: Usec, k: nat): (env: seq<Round>)
    requires from + k * (interval + 1) < USEC_INFINITY
    ensures |env| == k
    decreases k
  {
    if k == 0 then [] else [Round(from, false, true, Listens)] + SlowFailures(interval, from + interval + 1, k - 1)
  }

  /** The limiter does not bound the recursion if every attempt takes longer than
      an interval to fail. */
  lemma {:induction false} SlowFailuresRecurse(n: Net, from: Usec, k: nat)
    requires !n.resolving && Configured(n.limit) && Expired(n.limit, from)
    requires 0 < from && from + k * (n.limit.interval + 1) < USEC_INFINITY
    ensures var o := Connect(n, SlowFailures(n.limit.interval, from, k)); o.verdict == Unfinished && o.attempts == k
    decreases k
  {
    if k > 0 {
      var off := Disconnected(n).(retryTimer := false, limit := Next(n.limit, from));
      var env := SlowFailures(n.limit.interval, from, k);
      assert env[1..] == SlowFailures(n.limit.interval, from + n.limit.interval + 1, k - 1);
      SlowFailuresRecurse(off, from + n.limit.interval + 1, k - 1);
    }
  }

  // ---- Runs ----

  /** Calls of `manager_connect` by the retry timer or a failed send, of
      `manager_disconnect` by a signal or a journal error, and the two handlers. */
  datatype Event =
    | ConnectCalled(env: seq<Round>)
    | DisconnectCalled
    | Resolved(found: bool, env: seq<Round>)
    | NetworkChanged(online: bool, env: seq<Round>)

  /** The state after some events, the calls of the limiter and the attempts in them. */
  datatype RunResult = RunResult(net: Net, calls: seq<Call>, attempts: nat)

  function Handle(n: Net, e: Event): RunResult {
    match e
    case ConnectCalled(env) => Connected(n, env)
    case DisconnectCalled => RunResult(Disconnected(n), [], 0)
    case Resolved(found, env) => Connected(n.(resolveQuery := false, resolving := n.resolving && !found), env)
    case NetworkChanged(online, env) =>
      if n.socketOpen && !online then RunResult(Disconnected(n), [], 0)
      else if !n.socketOpen && online then Connected(n, env)
      else RunResult(n, [], 0)
  }

  function Connected(n: Net, env: seq<Round>): RunResult {
    var o := Connect(n, env);
    RunResult(o.net, o.calls, o.attempts)
  }

  function Run(n: Net, events: seq<Event>): RunResult {
    if events == [] then RunResult(n, [], 0)
    else
      var before := Run(n, events[..|events| - 1]);
      var o := Handle(before.net, events[|events| - 1]);
      RunResult(o.net, before.calls + o.calls, before.attempts + o.attempts)
  }

  lemma {:induction false} HandleKeeps(n: Net, e: Event)
    requires Consistent(n)
    ensures Consistent(Handle(n, e).net)
    ensures var o := Handle(n, e);
            Obeys(n.limit, o.calls) && After(n.limit, o.calls) == o.net.limit && o.attempts == Allowed(o.calls)
  {
    hide Connect;
    match e
    case ConnectCalled(env) => ConnectEndsAs(n, env); ConnectObeys(n, env);
    case DisconnectCalled =>
    case Resolved(found, env) =>
      var m := n.(resolveQuery := false, resolving := n.resolving && !found);
      ConnectEndsAs(m, env);
      ConnectObeys(m, env);
    case NetworkChanged(online, env) => ConnectEndsAs(n, env); ConnectObeys(n, env);
  }

  /** After every run the link, the journal, the timer and the lookup fit together. */
  lemma {:induction false} RunKeeps(n: Net, events: seq<Event>)
    requires Consistent(n)
    ensures var r := Run(n, events);
            Consistent(r.net) && Obeys(n.limit, r.calls) && After(n.limit, r.calls) == r.net.limit &&
            r.attempts == Allowed(r.calls)
    decreases |events|
  {
    hide Handle, Consistent, Obeys, After;
    if events == [] {
      NoCalls(n.limit);
    } else {
      var init := events[..|events| - 1];
      var before := Run(n, init);
      var o := Handle(before.net, events[|events| - 1]);
      RunKeeps(n, init);
      HandleKeeps(before.net, events[|events| - 1]);
      ObeysAppends(n.limit, before.calls, o.calls);
      AllowedAppends(before.calls, o.calls);
    }
  }

  lemma {:induction false} NoCalls(l: Limit)
    ensures Obeys(l, []) && After(l, []) == l
  {
  }

  /** Over every run, fewer attempts to connect than two bursts are made in any
      span of one interval. */
  lemma {:induction false} RunAttempts(n: Net, events: seq<Event>, i: nat, j: nat)
    requires Consistent(n) && Configured(n.limit) && Counted(n.limit)
    requires var calls := Run(n, events).calls;
             Clocked(n.limit, calls) && i <= j < |calls| && calls[j].ts - calls[i].ts <= n.limit.interval
    ensures Allowed(Run(n, events).calls[i..j + 1]) <= 2 * n.limit.burst - 1
  {
    hide Run, Clocked, Obeys, Allowed;
    RunKeeps(n, events);
    AnySpan(n.limit, Run(n, events).calls, i, j);
  }

  // ---- The handlers ----

  /** Disconnecting leaves no link, no journal and no lookup; the timer and the
      limiter are left alone. */
  lemma {:induction false} DisconnectedIsDown(n: Net)
    ensures var t := Disconnected(n);
      && LinkDown(t) && !LinkUp(t) && !t.journalOpen && !t.journalWatched && !t.resolveQuery
      && t.retryTimer == n.retryTimer && t.limit == n.limit && t.resolving == n.resolving && t.protocol == n.protocol
  {
  }

  /** When the network is gone no socket is open, and nothing is attempted. */
  lemma {:induction false} NetworkGone(n: Net, env: seq<Round>)
    requires Consistent(n)
    ensures var r := Handle(n, NetworkChanged(false, env));
      && !r.net.socketOpen && !r.net.connected && r.calls == [] && r.attempts == 0 && r.net.limit == n.limit
      && (n.socketOpen ==> LinkDown(r.net) && !r.net.journalOpen)
  {
  }

  /** When it is back while no socket is open, the limiter is asked, and if it agrees
      a connection is attempted, unless a lookup is under way. */
  lemma {:induction false} NetworkBack(n: Net, env: seq<Round>)
    requires !n.socketOpen && !n.resolving && env != []
    ensures var r := Handle(n, NetworkChanged(true, env));
      && r.calls != [] && r.calls[0] == Call(env[0].ts, IsBelow(n.limit, env[0].ts))
      && (IsBelow(n.limit, env[0].ts) ==> r.attempts > 0)
  {
    hide IsBelow, Next;
  }

  /** A name that is found is used at once; one that is not leaves the manager waiting
      for a lookup that has ended. */
  lemma {:induction false} LookupEnds(n: Net, found: bool, env: seq<Round>)
    requires n.resolving
    ensures var r := Handle(n, Resolved(found, env));
      && !(r.net.resolving && r.net.resolveQuery)
      && if found then !r.net.resolving && (env != [] ==> r.calls != [])
         else r.net == n.(resolveQuery := false) && r.calls == []
  {
    hide IsBelow, Next;
    if found { ConnectResolves(n.(resolveQuery := false, resolving := false), env); }
  }

  lemma {:induction false} ConnectResolves(n: Net, env: seq<Round>)
    requires !n.resolving
    ensures !Connect(n, env).net.resolving && (env != [] ==> Connect(n, env).calls != [])
    decreases |env|
  {
    hide IsBelow, Next;
    if env != [] {
      ConnectResolves(Disconnected(n).(retryTimer := false, limit := Next(n.limit, env[0].ts)), env[1..]);
    }
  }
}
