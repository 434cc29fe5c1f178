/** The circuit breaker of panel calls (circuit_breaker.py). Times are in seconds. */
module CircuitBreaker {
  import opened Prelude

  datatype State = Closed | Open | HalfOpen

  datatype Config = Config(failMax: int, resetTimeout: real, successThreshold: int)

  predicate ValidConfig(cfg: Config) {
    cfg.failMax >= 1 && cfg.resetTimeout >= 0.0 && cfg.successThreshold >= 1
  }

  datatype Status = Status(state: State, failures: int, successes: int, openedAt: Option<real>)

  const FRESH := Status(Closed, 0, 0, None)

  function Recovered(cfg: Config, b: Status, now: real): Status {
    if b.state == Open && b.openedAt.Some? && now - b.openedAt.value >= cfg.resetTimeout
    then b.(state := HalfOpen, successes := 0, openedAt := None) else b
  }

  function Succeeded(cfg: Config, b: Status): Status {
    if b.state != HalfOpen then b.(failures := 0)
    else if b.successes + 1 >= cfg.successThreshold then b.(failures := 0, state := Closed, successes := 0)
    else b.(failures := 0, successes := b.successes + 1)
  }

  function Failed(cfg: Config, b: Status, now: real): Status {
    if b.state == HalfOpen then b.(state := Open, openedAt := Some(now), successes := 0)
    else if b.failures + 1 >= cfg.failMax
    then Status(Open, b.failures + 1, 0, Some(now))
    else b.(failures := b.failures + 1, successes := 0)
  }

  // ---------------------------------------------------------------- overlapping calls

  datatype Event =
    | Begin(now: real) | Succeed | Fail(now: real)
    | Peek(now: real) | ForceHalfOpen | ForceClose | ForceOpen(now: real)

  /** Calls that entered `fn` and have not returned. */
  datatype System = System(b: Status, inFlight: nat)

  function Step(cfg: Config, s: System, e: Event): System {
    match e
    case Begin(now) =>
      var b := Recovered(cfg, s.b, now);
      System(b, if b.state == Open then s.inFlight else s.inFlight + 1)
    case Succeed => if s.inFlight == 0 then s else System(Succeeded(cfg, s.b), s.inFlight - 1)
    case Fail(now) => if s.inFlight == 0 then s else System(Failed(cfg, s.b, now), s.inFlight - 1)
    case Peek(now) => s.(b := Recovered(cfg, s.b, now))
    case ForceHalfOpen => s.(b := s.b.(state := HalfOpen, successes := 0))
    case ForceClose => s.(b := FRESH)
    case ForceOpen(now) => s.(b := s.b.(state := Open, openedAt := Some(now), successes := 0))
  }

  function StepAll(cfg: Config, s: System, es: seq<Event>): System {
    if es == [] then s else Step(cfg, StepAll(cfg, s, es[..|es| - 1]), es[|es| - 1])
  }

  ghost predicate Consistent(cfg: Config, b: Status) {
    && 0 <= b.failures && 0 <= b.successes
    && (b.state == Closed ==> b.failures < cfg.failMax)
    && (b.state == HalfOpen ==> b.successes < cfg.successThreshold)
    && (b.state == Open ==> b.openedAt.Some?)
  }

  /** In every state reachable by any interleaving of overlapping calls and forced transitions the
      counters are below their thresholds and an open breaker knows when it opened. */
  lemma {:induction false} AlwaysConsistent(cfg: Config, es: seq<Event>)
    requires ValidConfig(cfg)
    ensures Consistent(cfg, StepAll(cfg, System(FRESH, 0), es).b)
  {
    if es != [] {
      AlwaysConsistent(cfg, es[..|es| - 1]);
    }
  }

  lemma {:induction false} StepAllInTwo(cfg: Config, s: System, a: seq<Event>, b: seq<Event>)
    ensures StepAll(cfg, s, a + b) == StepAll(cfg, StepAll(cfg, s, a), b)
  {
    if b == [] {
      assert a + b == a;
    } else {
      StepAllInTwo(cfg, s, a, b[..|b| - 1]);
      assert (a + b)[..|a + b| - 1] == a + b[..|b| - 1];
    }
  }

  function Begins(n: nat, now: real): seq<Event> {
    seq(n, _ => Begin(now))
  }

  function Fails(n: nat, now: real): seq<Event> {
    seq(n, _ => Fail(now))
  }

  /** A breaker that is not open limits nothing: as many overlapping calls as wish to enter `fn` do, also in
      half-open. */
  lemma {:induction false} HalfOpenAdmitsEveryCall(cfg: Config, s: System, now: real, n: nat)
    requires s.b.state != Open
    ensures StepAll(cfg, s, Begins(n, now)) == s.(inFlight := s.inFlight + n)
  {
    if n > 0 {
      assert Begins(n, now)[..n - 1] == Begins(n - 1, now);
      HalfOpenAdmitsEveryCall(cfg, s, now, n - 1);
    }
  }

  lemma {:induction false} FailuresOpen(cfg: Config, m: nat)
    requires ValidConfig(cfg) && m <= cfg.failMax
    ensures StepAll(cfg, System(FRESH, cfg.failMax), Fails(m, 0.0))
         == System(if m < cfg.failMax then FRESH.(failures := m) else Status(Open, m, 0, Some(0.0)), cfg.failMax - m)
  {
    if m > 0 {
      assert Fails(m, 0.0)[..m - 1] == Fails(m - 1, 0.0);
      FailuresOpen(cfg, m - 1);
    }
  }

  /** From a fresh breaker: fail_max failures open it, and once the timeout has passed any number of overlapping
      calls is in `fn` at the same moment. */
  lemma HalfOpenCrowd(cfg: Config, n: nat)
    requires ValidConfig(cfg) && n >= 1
    ensures var es := Begins(cfg.failMax, 0.0) + Fails(cfg.failMax, 0.0) + Begins(n, cfg.resetTimeout);
            var end := StepAll(cfg, System(FRESH, 0), es);
            end.b.state == HalfOpen && end.inFlight == n
  {
    var start := System(FRESH, 0);
    var m, r := cfg.failMax, cfg.resetTimeout;
    HalfOpenAdmitsEveryCall(cfg, start, 0.0, m);
    FailuresOpen(cfg, m);
    StepAllInTwo(cfg, start, Begins(m, 0.0), Fails(m, 0.0));
    StepAllInTwo(cfg, start, Begins(m, 0.0) + Fails(m, 0.0), Begins(n, r));
    FirstBegin(cfg, System(Status(Open, m, 0, Some(0.0)), 0), r, n);
  }

  /** The first call after the timeout turns the breaker half-open for all of them. */
  lemma {:induction false} FirstBegin(cfg: Config, s: System, now: real, n: nat)
    requires n >= 1 && Recovered(cfg, s.b, now).state == HalfOpen
    ensures StepAll(cfg, s, Begins(n, now)) == System(Recovered(cfg, s.b, now), s.inFlight + n)
  {
    var earlier := Begins(n, now)[..n - 1];
    if n == 1 {
      assert earlier == [];
    } else {
      assert earlier == Begins(n - 1, now);
      FirstBegin(cfg, s, now, n - 1);
    }
  }

  function Succeeds(n: nat): seq<Event> {
    seq(n, _ => Succeed)
  }

  /** Of the calls in a half-open breaker exactly `success_threshold` must succeed to close it, and it then counts
      no failures. */
  lemma {:induction false} SuccessesClose(cfg: Config, s: System, n: nat)
    requires ValidConfig(cfg) && s.b.state == HalfOpen && s.b.successes == 0 && n <= s.inFlight
    ensures var end := StepAll(cfg, s, Succeeds(n));
            && end.inFlight == s.inFlight - n
            && end.b.state == (if n >= cfg.successThreshold then Closed else HalfOpen)
            && end.b.successes == (if n >= cfg.successThreshold then 0 else n)
            && (n > 0 ==> end.b.failures == 0)
  {
    if n > 0 {
      assert Succeeds(n)[..n - 1] == Succeeds(n - 1);
      SuccessesClose(cfg, s, n - 1);
    }
  }

  /** One failure among them opens it again for a whole timeout: a call enters an open breaker if and only if
      `reset_timeout` has passed since it opened. */
  lemma OneFailureReopens(cfg: Config, s: System, failedAt: real, now: real)
    requires s.b.state == HalfOpen && s.inFlight > 0
    ensures var reopened := Step(cfg, s, Fail(failedAt));
            && reopened.b.state == Open && reopened.inFlight == s.inFlight - 1
            && Step(cfg, reopened, Begin(now)).inFlight
               == reopened.inFlight + if now - failedAt >= cfg.resetTimeout then 1 else 0
  {
  }

  // ---------------------------------------------------------------- exactly when half-open means one call

  /** Never more than k calls are in `fn` at the same time. */
  ghost predicate AtMostInFlight(cfg: Config, s: System, es: seq<Event>, k: nat) {
    StepAll(cfg, s, es).inFlight <= k && (es != [] ==> AtMostInFlight(cfg, s, es[..|es| - 1], k))
  }

  /** Calls that entered `fn` since the breaker last turned half-open; 0 if it is not half-open. */
  function PhaseEntries(cfg: Config, s: System, es: seq<Event>): nat {
    if es == [] || StepAll(cfg, s, es).b.state != HalfOpen then 0 else
      var prefix, e := es[..|es| - 1], es[|es| - 1];
      PhaseEntries(cfg, s, prefix) + (if e.Begin? then 1 else 0)
  }

  lemma Snoc(cfg: Config, s: System, es: seq<Event>, e: Event, k: nat)
    ensures StepAll(cfg, s, es + [e]) == Step(cfg, StepAll(cfg, s, es), e)
    ensures AtMostInFlight(cfg, s, es + [e], k) <==>
              AtMostInFlight(cfg, s, es, k) && Step(cfg, StepAll(cfg, s, es), e).inFlight <= k
    ensures PhaseEntries(cfg, s, es + [e])
         == if Step(cfg, StepAll(cfg, s, es), e).b.state != HalfOpen then 0
            else PhaseEntries(cfg, s, es) + (if e.Begin? then 1 else 0)
  {
    assert (es + [e])[..|es|] == es;
  }

  /** n calls one after another, all failing at once. */
  function FailingCalls(n: nat): seq<Event> {
    if n == 0 then [] else FailingCalls(n - 1) + [Begin(0.0)] + [Fail(0.0)]
  }

  lemma {:induction false} FailingCallsOpen(cfg: Config, n: nat, k: nat)
    requires ValidConfig(cfg) && n <= cfg.failMax && k >= 1
    ensures var start, es := System(FRESH, 0), FailingCalls(n);
            && AtMostInFlight(cfg, start, es, k) && PhaseEntries(cfg, start, es) == 0
            && StepAll(cfg, start, es)
               == System(if n < cfg.failMax then FRESH.(failures := n) else Status(Open, n, 0, Some(0.0)), 0)
  {
    if n > 0 {
      FailingCallsOpen(cfg, n - 1, k);
      Snoc(cfg, System(FRESH, 0), FailingCalls(n - 1), Begin(0.0), k);
      Snoc(cfg, System(FRESH, 0), FailingCalls(n - 1) + [Begin(0.0)], Fail(0.0), k);
    }
  }

  /** The calls fail one after another until the breaker opens, and one enters when the timeout has passed. */
  function Probed(cfg: Config): seq<Event>
    requires ValidConfig(cfg)
  {
    FailingCalls(cfg.failMax) + [Begin(cfg.resetTimeout)]
  }

  lemma ProbeEnters(cfg: Config, k: nat)
    requires ValidConfig(cfg) && k >= 1
    ensures var start := System(FRESH, 0);
            && AtMostInFlight(cfg, start, Probed(cfg), k) && PhaseEntries(cfg, start, Probed(cfg)) == 1
            && StepAll(cfg, start, Probed(cfg)) == System(Status(HalfOpen, cfg.failMax, 0, None), 1)
  {
    FailingCallsOpen(cfg, cfg.failMax, k);
    Snoc(cfg, System(FRESH, 0), FailingCalls(cfg.failMax), Begin(cfg.resetTimeout), k);
  }

  /** A half-open breaker never has more than one call in `fn` if and only if the callers never let calls
      overlap. */
  lemma HalfOpenHoldsOneIff(cfg: Config, k: nat)
    requires ValidConfig(cfg)
    ensures (forall es: seq<Event> | AtMostInFlight(cfg, System(FRESH, 0), es, k) ::
               StepAll(cfg, System(FRESH, 0), es).b.state == HalfOpen ==> StepAll(cfg, System(FRESH, 0), es).inFlight <= 1)
            <==> k <= 1
  {
    if k > 1 {
      var start, es := System(FRESH, 0), Probed(cfg) + [Begin(cfg.resetTimeout)];
      ProbeEnters(cfg, k);
      Snoc(cfg, start, Probed(cfg), Begin(cfg.resetTimeout), k);
      assert AtMostInFlight(cfg, start, es, k) && StepAll(cfg, start, es).inFlight == 2;
    }
  }

  lemma {:induction false} OneEntry(cfg: Config, es: seq<Event>, k: nat)
    requires ValidConfig(cfg) && AtMostInFlight(cfg, System(FRESH, 0), es, k)
    requires k == 0 || (k == 1 && cfg.successThreshold == 1)
    ensures PhaseEntries(cfg, System(FRESH, 0), es) <= StepAll(cfg, System(FRESH, 0), es).inFlight <= k
  {
    if es != [] {
      OneEntry(cfg, es[..|es| - 1], k);
      AlwaysConsistent(cfg, es[..|es| - 1]);
    }
  }

  /** At most one call enters each time the breaker turns half-open if and only if calls never overlap and one
      success closes it; with a higher threshold it admits one call after another. */
  lemma OneEntryPerPhaseIff(cfg: Config, k: nat)
    requires ValidConfig(cfg)
    ensures (forall es: seq<Event> | AtMostInFlight(cfg, System(FRESH, 0), es, k) ::
               PhaseEntries(cfg, System(FRESH, 0), es) <= 1)
            <==> k == 0 || (k == 1 && cfg.successThreshold == 1)
  {
    var start := System(FRESH, 0);
    if k == 0 || (k == 1 && cfg.successThreshold == 1) {
      forall es: seq<Event> | AtMostInFlight(cfg, start, es, k) ensures PhaseEntries(cfg, start, es) <= 1 {
        OneEntry(cfg, es, k);
      }
    } else {
      SecondEntry(cfg, k);
    }
  }

  lemma SecondEntry(cfg: Config, k: nat)
    requires ValidConfig(cfg) && k >= 1 && (k >= 2 || cfg.successThreshold >= 2)
    ensures exists es: seq<Event> ::
              AtMostInFlight(cfg, System(FRESH, 0), es, k) && PhaseEntries(cfg, System(FRESH, 0), es) == 2
  {
    var start, again := System(FRESH, 0), Begin(cfg.resetTimeout);
    ProbeEnters(cfg, k);
    var es := Probed(cfg);
    if cfg.successThreshold >= 2 {
      Snoc(cfg, start, es, Succeed, k);
      es := es + [Succeed];
    }
    Snoc(cfg, start, es, again, k);
    assert AtMostInFlight(cfg, start, es + [again], k) && PhaseEntries(cfg, start, es + [again]) == 2;
  }

  // ---------------------------------------------------------------- calls one after another

  datatype Call = Call(start: real, end: real, ok: bool)

  predicate Reaches(cfg: Config, b: Status, c: Call) {
    Recovered(cfg, b, c.start).state != Open
  }

  function AfterCall(cfg: Config, b: Status, c: Call): Status {
    var r := Recovered(cfg, b, c.start);
    if r.state == Open then r
    else if c.ok then Succeeded(cfg, r) else Failed(cfg, r, c.end)
  }

  /** Calls of `cs` that reach `fn`. */
  function Reached(cfg: Config, b: Status, cs: seq<Call>): nat
    decreases cs
  {
    if cs == [] then 0
    else (if Reaches(cfg, b, cs[0]) then 1 else 0) + Reached(cfg, AfterCall(cfg, b, cs[0]), cs[1..])
  }

  /** One call ends before the next begins, and all begin between `from` and `until`. */
  predicate Sequential(cs: seq<Call>, from: real, until: real) {
    cs != [] ==> from <= cs[0].start <= cs[0].end && cs[0].start <= until && Sequential(cs[1..], cs[0].end, until)
  }

  predicate AllFail(cs: seq<Call>) {
    forall i | 0 <= i < |cs| :: !cs[i].ok
  }

  /** One reset timeout for every call that reaches `fn`. */
  function TimeSpent(cfg: Config, b: Status, cs: seq<Call>): real
    decreases cs
  {
    if cs == [] then 0.0
    else (if Reaches(cfg, b, cs[0]) then cfg.resetTimeout else 0.0) + TimeSpent(cfg, AfterCall(cfg, b, cs[0]), cs[1..])
  }

  /** n reset timeouts. */
  function Timeouts(n: nat, r: real): real {
    if n == 0 then 0.0 else r + Timeouts(n - 1, r)
  }

  lemma {:induction false} TimeoutsIsProduct(n: nat, r: real)
    requires r >= 0.0
    ensures Timeouts(n, r) == n as real * r && Timeouts(n, r) >= 0.0
  {
    if n > 0 {
      TimeoutsIsProduct(n - 1, r);
      SplitProduct(n - 1, 1, r);
    }
  }

  lemma {:induction false} TimeSpentIsCount(cfg: Config, b: Status, cs: seq<Call>)
    ensures TimeSpent(cfg, b, cs) == Timeouts(Reached(cfg, b, cs), cfg.resetTimeout)
    decreases cs
  {
    if cs != [] {
      TimeSpentIsCount(cfg, AfterCall(cfg, b, cs[0]), cs[1..]);
    }
  }

  /** The same bound in products. */
  lemma AsProducts(n: nat, left: nat, r: real, d: real)
    requires r >= 0.0 && Timeouts(n, r) <= Timeouts(left, r) + d
    ensures n as real * r <= left as real * r + d
  {
    TimeoutsIsProduct(n, r);
    TimeoutsIsProduct(left, r);
  }

  lemma SplitProduct(n: int, m: int, r: real)
    ensures (n + m) as real * r == n as real * r + m as real * r
  {
  }

  lemma {:induction false} OpenTime(cfg: Config, b: Status, cs: seq<Call>, until: real)
    requires ValidConfig(cfg) && b.state == Open && b.openedAt.Some?
    requires Sequential(cs, b.openedAt.value, until) && AllFail(cs) && b.openedAt.value <= until
    ensures TimeSpent(cfg, b, cs) <= until - b.openedAt.value
    decreases cs
  {
    if cs != [] {
      assert forall i | 0 <= i < |cs[1..]| :: cs[1..][i] == cs[i + 1];
      var after := AfterCall(cfg, b, cs[0]);
      if Reaches(cfg, b, cs[0]) {
        if cs[0].end <= until {
          OpenTime(cfg, after, cs[1..], until);
        } else {
          assert cs[1..] == [];
        }
      } else {
        SequentialFrom(cs[1..], cs[0].end, b.openedAt.value, until);
        OpenTime(cfg, b, cs[1..], until);
      }
    }
  }

  /** During an outage an open breaker lets through at most one call per reset timeout. */
  lemma OpenBound(cfg: Config, b: Status, cs: seq<Call>, until: real)
    requires ValidConfig(cfg) && b.state == Open && b.openedAt.Some?
    requires Sequential(cs, b.openedAt.value, until) && AllFail(cs) && b.openedAt.value <= until
    ensures Reached(cfg, b, cs) as real * cfg.resetTimeout <= until - b.openedAt.value
  {
    OpenTime(cfg, b, cs, until);
    TimeSpentIsCount(cfg, b, cs);
    AsProducts(Reached(cfg, b, cs), 0, cfg.resetTimeout, until - b.openedAt.value);
  }

  lemma SequentialFrom(cs: seq<Call>, from: real, earlier: real, until: real)
    requires Sequential(cs, from, until) && earlier <= from
    ensures Sequential(cs, earlier, until)
  {
  }

  /** In whole calls: at most floor(D / reset_timeout) within D seconds of opening. */
  lemma OpenBoundFloor(cfg: Config, b: Status, cs: seq<Call>, d: real)
    requires ValidConfig(cfg) && cfg.resetTimeout > 0.0 && b.state == Open && b.openedAt.Some? && d >= 0.0
    requires Sequential(cs, b.openedAt.value, b.openedAt.value + d) && AllFail(cs)
    ensures Reached(cfg, b, cs) <= (d / cfg.resetTimeout).Floor
  {
    OpenBound(cfg, b, cs, b.openedAt.value + d);
    Divide(Reached(cfg, b, cs) as real, cfg.resetTimeout, d);
  }

  lemma Divide(n: real, r: real, d: real)
    requires r > 0.0 && n * r <= d
    ensures n <= d / r
  {
    var q := d / r;
    assert q * r == d;
    assert (n - q) * r == n * r - q * r;
    if n > q {
      PositiveProduct(n - q, r);
    }
  }

  lemma PositiveProduct(a: real, b: real)
    requires a > 0.0 && b > 0.0
    ensures a * b > 0.0
  {
  }

  lemma {:induction false} OutageTime(cfg: Config, b: Status, cs: seq<Call>, from: real, until: real)
    requires ValidConfig(cfg) && b.state == Closed && 0 <= b.failures < cfg.failMax
    requires Sequential(cs, from, until) && AllFail(cs) && from <= until
    ensures TimeSpent(cfg, b, cs) <= Timeouts(cfg.failMax - b.failures, cfg.resetTimeout) + (until - from)
    decreases cs
  {
    TimeoutsIsProduct(cfg.failMax - b.failures, cfg.resetTimeout);
    TimeoutsIsProduct(cfg.failMax - b.failures - 1, cfg.resetTimeout);
    if cs != [] {
      assert forall i | 0 <= i < |cs[1..]| :: cs[1..][i] == cs[i + 1];
      var after := AfterCall(cfg, b, cs[0]);
      if cs[0].end > until {
        assert cs[1..] == [];
      } else if after.state == Open {
        OpenTime(cfg, after, cs[1..], until);
      } else {
        OutageTime(cfg, after, cs[1..], cs[0].end, until);
      }
    }
  }

  /** From a closed breaker an outage costs at most the failures left until it opens, and then one call
      per reset timeout. */
  lemma OutageBound(cfg: Config, b: Status, cs: seq<Call>, from: real, until: real)
    requires ValidConfig(cfg) && b.state == Closed && 0 <= b.failures < cfg.failMax
    requires Sequential(cs, from, until) && AllFail(cs) && from <= until
    ensures Timeouts(Reached(cfg, b, cs), cfg.resetTimeout)
            <= Timeouts(cfg.failMax - b.failures, cfg.resetTimeout) + (until - from)
  {
    OutageTime(cfg, b, cs, from, until);
    TimeSpentIsCount(cfg, b, cs);
  }

  /** The same in whole calls: the failures left and floor(D / reset_timeout) more. */
  lemma OutageBoundFloor(cfg: Config, b: Status, cs: seq<Call>, from: real, d: real)
    requires ValidConfig(cfg) && cfg.resetTimeout > 0.0 && b.state == Closed && 0 <= b.failures < cfg.failMax
    requires Sequential(cs, from, from + d) && AllFail(cs) && d >= 0.0
    ensures Reached(cfg, b, cs) <= cfg.failMax - b.failures + (d / cfg.resetTimeout).Floor
  {
    var n, left := Reached(cfg, b, cs), cfg.failMax - b.failures;
    OutageBound(cfg, b, cs, from, from + d);
    if n > left {
      TimeoutsRest(n, left, cfg.resetTimeout);
      WithinFloor(n - left, cfg.resetTimeout, d);
    } else {
      WithinFloor(0, cfg.resetTimeout, d);
    }
  }

  lemma {:induction false} TimeoutsRest(n: nat, left: nat, r: real)
    requires n >= left
    ensures Timeouts(n, r) == Timeouts(left, r) + Timeouts(n - left, r)
  {
    if n > left {
      TimeoutsRest(n - 1, left, r);
    }
  }

  lemma WithinFloor(n: nat, r: real, d: real)
    requires r > 0.0 && d >= 0.0 && Timeouts(n, r) <= d
    ensures n <= (d / r).Floor
  {
    AsProducts(n, 0, r, d);
    Divide(n as real, r, d);
  }

  // ---------------------------------------------------------------- an outage with overlapping calls

  /** Nothing succeeds and nobody forces a state; the clock never goes back and ends at `clock`. */
  ghost predicate Outage(es: seq<Event>, from: real, clock: real) {
    from <= clock &&
    (es != [] ==>
      var e := es[|es| - 1];
      (e.Begin? || e.Fail? || e.Peek?) && e.now <= clock && Outage(es[..|es| - 1], from, e.now))
  }

  /** Calls that entered `fn`. */
  function Entered(cfg: Config, s: System, es: seq<Event>): nat {
    if es == [] then 0 else
      var before, e := StepAll(cfg, s, es[..|es| - 1]), es[|es| - 1];
      Entered(cfg, s, es[..|es| - 1]) + (if e.Begin? && Recovered(cfg, before.b, e.now).state != Open then 1 else 0)
  }

  /** How often the breaker turned half-open. */
  function Phases(cfg: Config, s: System, es: seq<Event>): nat {
    if es == [] then 0 else
      var before, after := StepAll(cfg, s, es[..|es| - 1]), StepAll(cfg, s, es);
      Phases(cfg, s, es[..|es| - 1]) + (if before.b.state == Open && after.b.state == HalfOpen then 1 else 0)
  }

  /** k calls for every phase. */
  function Batches(k: nat, phases: nat): nat {
    if phases == 0 then 0 else k + Batches(k, phases - 1)
  }

  lemma {:induction false} BatchesBound(k: nat, phases: nat, limit: nat)
    requires phases <= limit
    ensures Batches(k, phases) <= k * limit
  {
    if phases > 0 {
      BatchesBound(k, phases - 1, limit - 1);
      assert k * (limit - 1) + k == k * limit;
    } else {
      assert k * limit >= 0;
    }
  }

  /** Every phase costs a timeout since the opening, and lets in at most as many calls as can be in flight. */
  ghost predicate Paid(cfg: Config, s: System, start: real, clock: real, k: nat, phases: nat, entered: nat) {
    match s.b.state
    case Closed => false
    case Open =>
      && s.b.openedAt.Some? && s.b.openedAt.value <= clock
      && Timeouts(phases, cfg.resetTimeout) <= s.b.openedAt.value - start && entered <= Batches(k, phases)
    case HalfOpen =>
      && phases >= 1 && Timeouts(phases, cfg.resetTimeout) <= clock - start
      && entered + k <= Batches(k, phases) + s.inFlight
  }

  lemma {:induction false} AlwaysPaid(cfg: Config, s: System, es: seq<Event>, clock: real, k: nat)
    requires ValidConfig(cfg) && s.b.state == Open && s.b.openedAt.Some?
    requires Outage(es, s.b.openedAt.value, clock) && AtMostInFlight(cfg, s, es, k)
    ensures Paid(cfg, StepAll(cfg, s, es), s.b.openedAt.value, clock, k, Phases(cfg, s, es), Entered(cfg, s, es))
  {
    if es != [] {
      AlwaysPaid(cfg, s, es[..|es| - 1], es[|es| - 1].now, k);
    }
  }

  /** During an outage with at most k calls in flight, however they overlap, at most k * floor(D / reset_timeout)
      of them enter `fn` within D seconds of opening. */
  lemma OverlapBound(cfg: Config, s: System, es: seq<Event>, d: real, k: nat)
    requires ValidConfig(cfg) && cfg.resetTimeout > 0.0 && s.b.state == Open && s.b.openedAt.Some?
    requires Outage(es, s.b.openedAt.value, s.b.openedAt.value + d) && AtMostInFlight(cfg, s, es, k)
    ensures Entered(cfg, s, es) <= k * (d / cfg.resetTimeout).Floor
  {
    var phases := Phases(cfg, s, es);
    AlwaysPaid(cfg, s, es, s.b.openedAt.value + d, k);
    WithinFloor(phases, cfg.resetTimeout, d);
    BatchesBound(k, phases, (d / cfg.resetTimeout).Floor);
  }

  // ---------------------------------------------------------------- when it opens

  function AfterCalls(cfg: Config, b: Status, cs: seq<Call>): Status {
    if cs == [] then b else AfterCall(cfg, AfterCalls(cfg, b, cs[..|cs| - 1]), cs[|cs| - 1])
  }

  /** Unbroken run of failures at the end, among the calls that reached `fn`. */
  function FailureRun(cfg: Config, cs: seq<Call>): nat {
    if cs == [] then 0 else
      var prefix, last := cs[..|cs| - 1], cs[|cs| - 1];
      if !Reaches(cfg, AfterCalls(cfg, FRESH, prefix), last) then FailureRun(cfg, prefix)
      else if last.ok then 0 else FailureRun(cfg, prefix) + 1
  }

  /** A closed breaker opens on a call if and only if that call completes a run of fail_max failures. */
  lemma {:induction false} OpensOnRunOfFailures(cfg: Config, cs: seq<Call>)
    requires ValidConfig(cfg)
    ensures var b := AfterCalls(cfg, FRESH, cs);
            && b.state == Closed ==> b.failures == FailureRun(cfg, cs) < cfg.failMax
    ensures cs != [] && AfterCalls(cfg, FRESH, cs[..|cs| - 1]).state == Closed ==>
              (AfterCalls(cfg, FRESH, cs).state == Open <==> FailureRun(cfg, cs) >= cfg.failMax)
  {
    if cs != [] {
      OpensOnRunOfFailures(cfg, cs[..|cs| - 1]);
    }
  }

  // ---------------------------------------------------------------- the class

  /** None where the constructor raises ValueError. */
  method MakeBreaker(failMax: int, resetTimeout: real, successThreshold: int) returns (r: Option<Breaker>)
    ensures r.None? <==> failMax < 1 || resetTimeout < 0.0 || successThreshold < 1
    ensures r.Some? ==> fresh(r.value) && r.value.View() == FRESH
    ensures r.Some? ==> r.value.cfg == Config(failMax, resetTimeout, successThreshold) && ValidConfig(r.value.cfg)
  {
    if failMax < 1 || resetTimeout < 0.0 || successThreshold < 1 {
      return None;
    }
    var breaker := new Breaker(Config(failMax, resetTimeout, successThreshold));
    r := Some(breaker);
  }

  class Breaker {
    const cfg: Config
    var state: State
    var failures: int
    var successes: int
    var openedAt: Option<real>

    ghost function View(): Status
      reads this
    {
      Status(state, failures, successes, openedAt)
    }

    constructor (cfg: Config)
      requires ValidConfig(cfg)
      ensures this.cfg == cfg && View() == FRESH
    {
      this.cfg := cfg;
      state, failures, successes, openedAt := Closed, 0, 0, None;
    }

    method MaybeRecoverFromOpen(now: real)
      modifies this
      ensures View() == Recovered(cfg, old(View()), now)
    {
      if state != Open || openedAt.None? {
        return;
      }
      if now - openedAt.value >= cfg.resetTimeout {
        state, successes, openedAt := HalfOpen, 0, None;
      }
    }

    method OnSuccess()
      modifies this
      ensures View() == Succeeded(cfg, old(View()))
    {
      failures := 0;
      if state == HalfOpen {
        successes := successes + 1;
        if successes >= cfg.successThreshold {
          state, successes := Closed, 0;
        }
      }
    }

    method OnFailure(now: real)
      modifies this
      ensures View() == Failed(cfg, old(View()), now)
    {
      if state == HalfOpen {
        state, openedAt, successes := Open, Some(now), 0;
        return;
      }
      failures := failures + 1;
      successes := 0;
      if failures >= cfg.failMax {
        state, openedAt := Open, Some(now);
      }
    }

    /** Reading the state may itself promote an open breaker. */
    method CurrentState(now: real) returns (s: State)
      modifies this
      ensures View() == Step(cfg, System(old(View()), 0), Peek(now)).b && s == state
    {
      MaybeRecoverFromOpen(now);
      s := state;
    }

    method ForceHalfOpen()
      modifies this
      ensures View() == Step(cfg, System(old(View()), 0), Event.ForceHalfOpen).b
    {
      state, successes := HalfOpen, 0;
    }

    method Close()
      modifies this
      ensures View() == Step(cfg, System(old(View()), 0), ForceClose).b
    {
      state, failures, successes, openedAt := Closed, 0, 0, None;
    }

    method ForceOpen(now: real)
      modifies this
      ensures View() == Step(cfg, System(old(View()), 0), Event.ForceOpen(now)).b
    {
      state, openedAt, successes := Open, Some(now), 0;
    }

    /** A call that nothing interrupts; `ok` and `end` are how and when `fn` ends. */
    method CallAsync(start: real, end: real, ok: bool) returns (reached: bool)
      modifies this
      ensures reached == Reaches(cfg, old(View()), Call(start, end, ok))
      ensures View() == AfterCall(cfg, old(View()), Call(start, end, ok))
    {
      MaybeRecoverFromOpen(start);
      if state == Open {
        return false;
      }
      if ok {
        OnSuccess();
      } else {
        OnFailure(end);
      }
      reached := true;
    }
  }
}
