/** Rate limiting by time windows. The clock is a parameter. */
module RateLimiting {
  const UINT_MAX: nat := 0xffff_ffff
  const USEC_INFINITY: nat := 0xffff_ffff_ffff_ffff

  type Uint = n: nat | n <= UINT_MAX
  type Usec = t: nat | t <= USEC_INFINITY

  function UsecAdd(a: Usec, b: Usec): Usec {
    if a > USEC_INFINITY - b then USEC_INFINITY else a + b
  }

  function UsecSubUnsigned(timestamp: Usec, delta: Usec): Usec {
    if timestamp == USEC_INFINITY then USEC_INFINITY
    else if timestamp < delta then 0
    else timestamp - delta
  }

  datatype Limit = Limit(interval: Usec, burst: Uint, num: Uint, begin: Usec)

  predicate Configured(l: Limit) {
    l.interval > 0 && l.burst > 0
  }

  /** A call at `ts` starts a new window. */
  predicate Expired(l: Limit, ts: Usec) {
    l.begin <= 0 || UsecSubUnsigned(ts, l.begin) > l.interval
  }

  function Next(l: Limit, ts: Usec): Limit {
    if !Configured(l) then l
    else if Expired(l, ts) then l.(begin := ts, num := 1)
    else if l.num == UINT_MAX then l
    else l.(num := l.num + 1)
  }

  predicate IsBelow(l: Limit, ts: Usec) {
    !Configured(l) || Expired(l, ts) || (l.num != UINT_MAX && l.num + 1 <= l.burst)
  }

  function NumDropped(l: Limit): Uint {
    if l.num == UINT_MAX then UINT_MAX else if l.num > l.burst then l.num - l.burst else 0
  }

  function End(l: Limit): Usec {
    if l.begin == 0 then 0 else UsecAdd(l.begin, l.interval)
  }

  class RateLimit {
    var interval: Usec
    var burst: Uint
    var num: Uint
    var begin: Usec

    function State(): Limit
      reads this
    {
      Limit(interval, burst, num, begin)
    }

    constructor (interval: Usec, burst: Uint)
      ensures State() == Limit(interval, burst, 0, 0)
    {
      this.interval, this.burst, num, begin := interval, burst, 0, 0;
    }

    /** `ratelimit_below` at clock reading `ts`. */
    method Below(ts: Usec) returns (below: bool)
      modifies this
      ensures State() == Next(old(State()), ts)
      ensures below == IsBelow(old(State()), ts)
    {
      if !(interval > 0 && burst > 0) { return true; }
      if begin <= 0 || UsecSubUnsigned(ts, begin) > interval {
        begin, num := ts, 1;
        return true;
      }
      if num == UINT_MAX { return false; }
      num := num + 1;
      return num <= burst;
    }
  }

  // ---- Sequences of calls ----

  datatype Call = Call(ts: Usec, allowed: bool)

  /** The calls are answered as the limiter does. */
  predicate Obeys(l: Limit, calls: seq<Call>)
    decreases |calls|
  {
    calls == [] || (calls[0].allowed == IsBelow(l, calls[0].ts) && Obeys(Next(l, calls[0].ts), calls[1..]))
  }

  function After(l: Limit, calls: seq<Call>): Limit
    decreases |calls|
  {
    if calls == [] then l else After(Next(l, calls[0].ts), calls[1..])
  }

  function Allowed(calls: seq<Call>): (n: nat)
    ensures n <= |calls|
  {
    if calls == [] then 0 else (if calls[0].allowed then 1 else 0) + Allowed(calls[1..])
  }

  /** The clock never goes back, does not show 0 and is not infinite. */
  predicate Clocked(l: Limit, calls: seq<Call>) {
    (forall i :: 0 <= i < |calls| ==> 0 < calls[i].ts < USEC_INFINITY && l.begin <= calls[i].ts) &&
    (forall i, j :: 0 <= i <= j < |calls| ==> calls[i].ts <= calls[j].ts)
  }

  /** Every window has counted the call that started it. */
  predicate Counted(l: Limit) {
    l.begin > 0 ==> l.num > 0
  }

  lemma {:induction false} NextKeeps(l: Limit, calls: seq<Call>)
    requires calls != [] && Counted(l) && Clocked(l, calls)
    ensures var m := Next(l, calls[0].ts);
            Counted(m) && Clocked(m, calls[1..]) && m.interval == l.interval && m.burst == l.burst
  {
  }

  lemma {:induction false} ObeysAppends(l: Limit, a: seq<Call>, b: seq<Call>)
    ensures Obeys(l, a + b) <==> Obeys(l, a) && Obeys(After(l, a), b)
    ensures After(l, a + b) == After(After(l, a), b)
    decreases |a|
  {
    if a == [] {
      assert a + b == b;
    } else {
      assert (a + b)[1..] == a[1..] + b;
      ObeysAppends(Next(l, a[0].ts), a[1..], b);
    }
  }

  lemma {:induction false} AfterKeeps(l: Limit, a: seq<Call>, b: seq<Call>)
    requires Counted(l) && Clocked(l, a + b)
    ensures var m := After(l, a);
            Counted(m) && Clocked(m, b) && m.interval == l.interval && m.burst == l.burst
    decreases |a|
  {
    if a == [] {
      assert a + b == b;
    } else {
      assert (a + b)[1..] == a[1..] + b;
      NextKeeps(l, a + b);
      AfterKeeps(Next(l, a[0].ts), a[1..], b);
    }
  }

  /** Inside one window, what is left of the burst bounds the calls let through. */
  lemma {:induction false} WindowBound(l: Limit, calls: seq<Call>)
    requires Configured(l) && Counted(l) && l.begin > 0
    requires Clocked(l, calls) && Obeys(l, calls)
    requires forall i :: 0 <= i < |calls| ==> calls[i].ts - l.begin <= l.interval
    ensures Allowed(calls) <= if l.num <= l.burst then l.burst - l.num else 0
    decreases |calls|
  {
    if calls != [] {
      NextKeeps(l, calls);
      WindowBound(Next(l, calls[0].ts), calls[1..]);
    }
  }

  /** In a span of one interval at most one window starts. */
  lemma {:induction false} SpanBound(l: Limit, calls: seq<Call>)
    requires Configured(l) && Counted(l) && Clocked(l, calls) && Obeys(l, calls)
    requires calls != [] ==> calls[|calls| - 1].ts - calls[0].ts <= l.interval
    ensures Allowed(calls) <= l.burst + if 0 < l.num <= l.burst then l.burst - l.num else 0
    ensures l.begin == 0 ==> Allowed(calls) <= l.burst
    decreases |calls|
  {
    if calls != [] {
      var m := Next(l, calls[0].ts);
      NextKeeps(l, calls);
      if Expired(l, calls[0].ts) {
        WindowBound(m, calls[1..]);
      } else {
        SpanBound(m, calls[1..]);
      }
    }
  }

  lemma {:induction false} ClockedStarts(l: Limit, a: seq<Call>, b: seq<Call>)
    requires Clocked(l, a + b)
    ensures Clocked(l, a)
  {
    assert forall i :: 0 <= i < |a| ==> a[i] == (a + b)[i];
  }

  lemma {:induction false} InnerSpan(l: Limit, a: seq<Call>, b: seq<Call>, c: seq<Call>)
    requires Configured(l) && Counted(l) && Clocked(l, a + (b + c)) && Obeys(l, a + (b + c))
    requires b != [] && b[|b| - 1].ts - b[0].ts <= l.interval
    ensures Allowed(b) <= 2 * l.burst - 1
  {
    hide Obeys, After, Allowed, Clocked;
    ObeysAppends(l, a, b + c);
    AfterKeeps(l, a, b + c);
    var m := After(l, a);
    ObeysAppends(m, b, c);
    ClockedStarts(m, b, c);
    SpanBound(m, b);
  }

  /** Whatever happened before, fewer than twice the burst are let through in any
      span of one interval. */
  lemma {:induction false} AnySpan(l: Limit, calls: seq<Call>, i: nat, j: nat)
    requires Configured(l) && Counted(l) && Clocked(l, calls) && Obeys(l, calls)
    requires i <= j < |calls| && calls[j].ts - calls[i].ts <= l.interval
    ensures Allowed(calls[i..j + 1]) <= 2 * l.burst - 1
  {
    hide Obeys, Allowed, Clocked;
    var a, b, c := calls[..i], calls[i..j + 1], calls[j + 1..];
    assert calls == a + (b + c);
    InnerSpan(l, a, b, c);
  }

  /** In one window exactly the first `burst` calls are let through, and the rest
      is what `ratelimit_num_dropped` reports. */
  lemma {:induction false} WindowIsExact(l: Limit, calls: seq<Call>)
    requires Configured(l) && Clocked(l, calls) && Obeys(l, calls)
    requires calls != [] && Expired(l, calls[0].ts)
    requires calls[|calls| - 1].ts - calls[0].ts <= l.interval
    ensures forall k :: 0 <= k < |calls| ==> (calls[k].allowed <==> k < l.burst)
    ensures |calls| < UINT_MAX ==> NumDropped(After(l, calls)) == if |calls| > l.burst then |calls| - l.burst else 0
  {
    var m := Next(l, calls[0].ts);
    NextKeeps(l.(num := 1), calls);
    WindowCounts(m, calls[1..]);
  }

  lemma {:induction false} WindowCounts(l: Limit, calls: seq<Call>)
    requires Configured(l) && Counted(l) && l.begin > 0 && Clocked(l, calls) && Obeys(l, calls)
    requires forall i :: 0 <= i < |calls| ==> calls[i].ts - l.begin <= l.interval
    ensures forall k :: 0 <= k < |calls| ==> (calls[k].allowed <==> l.num + k < l.burst)
    ensures After(l, calls) == l.(num := if l.num + |calls| > UINT_MAX then UINT_MAX else l.num + |calls|)
    decreases |calls|
  {
    if calls != [] {
      NextKeeps(l, calls);
      WindowCounts(Next(l, calls[0].ts), calls[1..]);
    }
  }

  /** `ratelimit_end` is the last moment of the window. */
  lemma {:induction false} EndIsExact(l: Limit, ts: Usec)
    requires l.begin <= ts < USEC_INFINITY
    ensures !Expired(l, ts) <==> l.begin > 0 && ts <= End(l)
    ensures l.begin > 0 ==> (UsecSubUnsigned(End(l), ts) > 0 ==> !Expired(l, ts))
  {
  }

  // ---- The bound is sharp ----

  function Repeat(n: nat, ts: Usec): (calls: seq<Call>)
    ensures |calls| == n && forall i :: 0 <= i < n ==> calls[i] == Call(ts, true)
  {
    if n == 0 then [] else [Call(ts, true)] + Repeat(n - 1, ts)
  }

  lemma {:induction false} RepeatIsAllowed(l: Limit, n: nat, ts: Usec)
    requires Configured(l) && l.begin > 0 && !Expired(l, ts) && l.num + n <= l.burst
    ensures Obeys(l, Repeat(n, ts)) && Allowed(Repeat(n, ts)) == n
    ensures After(l, Repeat(n, ts)) == l.(num := l.num + n)
    decreases n
  {
    if n > 0 {
      RepeatIsAllowed(Next(l, ts), n - 1, ts);
      assert Repeat(n, ts)[1..] == Repeat(n - 1, ts);
    }
  }

  lemma {:induction false} AllowedAppends(a: seq<Call>, b: seq<Call>)
    ensures Allowed(a + b) == Allowed(a) + Allowed(b)
  {
    if a == [] {
      assert a + b == b;
    } else {
      assert (a + b)[1..] == a[1..] + b;
      AllowedAppends(a[1..], b);
    }
  }

  /** One call, then the rest of the burst at the end of the window, then a whole
      burst one microsecond later. */
  function Crowded(interval: Usec, burst: Uint): seq<Call>
    requires interval + 2 < USEC_INFINITY && burst > 0
  {
    [Call(1, true)] + (Repeat(burst - 1, interval + 1) + ([Call(interval + 2, true)] + Repeat(burst - 1, interval + 2)))
  }

  lemma {:induction false} CrowdedIsAllowed(interval: Usec, burst: Uint)
    requires 0 < interval && interval + 2 < USEC_INFINITY && burst > 0
    ensures Obeys(Limit(interval, burst, 0, 0), Crowded(interval, burst))
    ensures Allowed(Crowded(interval, burst)[1..]) == 2 * burst - 1
  {
    var a, b := Repeat(burst - 1, interval + 1), Repeat(burst - 1, interval + 2);
    var c := [Call(interval + 2, true)] + b;
    var first, full, second := Limit(interval, burst, 1, 1), Limit(interval, burst, burst, 1), Limit(interval, burst, 1, interval + 2);
    RepeatIsAllowed(first, burst - 1, interval + 1);
    RepeatIsAllowed(second, burst - 1, interval + 2);
    hide Repeat;
    assert c[1..] == b;
    assert Obeys(full, c) && Allowed(c) == burst;
    ObeysAppends(first, a, c);
    AllowedAppends(a, c);
    assert Crowded(interval, burst)[1..] == a + c;
  }

  lemma {:induction false} BoundIsSharp(interval: Usec, burst: Uint)
    requires 0 < interval && interval + 2 < USEC_INFINITY && burst > 0
    ensures var l, calls := Limit(interval, burst, 0, 0), Crowded(interval, burst);
            Clocked(l, calls) && Obeys(l, calls) && |calls| == 2 * burst &&
            calls[2 * burst - 1].ts - calls[1].ts <= interval && Allowed(calls[1..]) == 2 * burst - 1
  {
    hide Obeys, Allowed;
    CrowdedIsAllowed(interval, burst);
  }
}
