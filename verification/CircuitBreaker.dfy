/**
 The circuit breaker, as an object and over whole runs of concurrent requests: requests
 are admitted or refused, complete later in any order with success or failure, and the
 breaker may be reset by hand at any time.  Time never goes back.
 */
module CircuitBreaker {

  datatype Phase = Closed | Open | HalfOpen

  /** Configuration after `NewCircuitBreaker` has filled in defaults. */
  datatype Config = Config(threshold: int, timeout: int, maxProbes: int)

  function WithDefaults(c: Config): (r: Config)
    ensures Sensible(r) && (Sensible(c) ==> r == c)
    ensures c.threshold <= 0 ==> r.threshold == 5
    ensures c.timeout <= 0 ==> r.timeout == 30 * 1_000_000_000
    ensures c.maxProbes <= 0 ==> r.maxProbes == 1
  {
    Config(if c.threshold <= 0 then 5 else c.threshold,
           if c.timeout <= 0 then 30_000_000_000 else c.timeout,
           if c.maxProbes <= 0 then 1 else c.maxProbes)
  }

  predicate Sensible(c: Config) { c.threshold > 0 && c.timeout > 0 && c.maxProbes > 0 }

  datatype Breaker = Breaker(phase: Phase, failures: nat, lastFailure: int, probes: nat)

  const INITIAL := Breaker(Closed, 0, 0, 0)

  /** `beforeRequest` (circuitbreaker.go:105-129): the new state and whether it admits. */
  function Before(c: Config, b: Breaker, now: int): (Breaker, bool) {
    match b.phase
    case Closed => (b, true)
    case Open => if now - b.lastFailure >= c.timeout then (b.(phase := HalfOpen, probes := 0), true) else (b, false)
    case HalfOpen => if b.probes >= c.maxProbes then (b, false) else (b.(probes := b.probes + 1), true)
  }

  /** `onSuccess` and `onFailure` (circuitbreaker.go:141-166). */
  function Done(c: Config, b: Breaker, ok: bool, now: int): Breaker {
    if ok then
      match b.phase
      case Closed => b.(failures := 0)
      case HalfOpen => b.(phase := Closed, failures := 0, probes := 0)
      case Open => b
    else
      var f := b.(lastFailure := now, failures := b.failures + 1);
      match b.phase
      case Closed => if f.failures >= c.threshold then f.(phase := Open) else f
      case HalfOpen => f.(phase := Open)
      case Open => f
  }

  function Cleared(b: Breaker): Breaker { b.(phase := Closed, failures := 0, probes := 0) }

  /** The object: fields updated under its mutex. */
  class CircuitBreaker {
    const cfg: Config
    var phase: Phase
    var consecutiveFailures: nat
    var lastFailureTime: int
    var halfOpenRequests: nat

    ghost function View(): Breaker
      reads this
    {
      Breaker(phase, consecutiveFailures, lastFailureTime, halfOpenRequests)
    }

    constructor (cfg: Config)
      ensures this.cfg == WithDefaults(cfg) && View() == INITIAL
    {
      this.cfg := WithDefaults(cfg);
      phase, consecutiveFailures, lastFailureTime, halfOpenRequests := Closed, 0, 0, 0;
    }

    method BeforeRequest(now: int) returns (admitted: bool)
      modifies this
      ensures (View(), admitted) == Before(cfg, old(View()), now)
    {
      match phase {
        case Closed => admitted := true;
        case Open =>
          admitted := now - lastFailureTime >= cfg.timeout;
          if admitted {
            phase := HalfOpen;
            halfOpenRequests := 0;
          }
        case HalfOpen =>
          admitted := halfOpenRequests < cfg.maxProbes;
          if admitted { halfOpenRequests := halfOpenRequests + 1; }
      }
    }

    method AfterRequest(ok: bool, now: int)
      modifies this
      ensures View() == Done(cfg, old(View()), ok, now)
    {
      if ok {
        match phase {
          case Closed => consecutiveFailures := 0;
          case HalfOpen => phase, consecutiveFailures, halfOpenRequests := Closed, 0, 0;
          case Open =>
        }
      } else {
        lastFailureTime := now;
        consecutiveFailures := consecutiveFailures + 1;
        match phase {
          case Closed => if consecutiveFailures >= cfg.threshold { phase := Open; }
          case HalfOpen => phase := Open;
          case Open =>
        }
      }
    }

    method Reset()
      modifies this
      ensures View() == Cleared(old(View()))
    {
      phase, consecutiveFailures, halfOpenRequests := Closed, 0, 0;
    }
  }

  // ---- Runs ----

  datatype Event =
    | Request(id: nat, now: int)
    | Complete(id: nat, ok: bool, now: int)
    | ManualReset(now: int)

  /** The breaker among its requests: who is in flight and since which half-open episode,
      how many episodes have begun, the clock, and the time of the latest failure. */
  datatype System = System(b: Breaker, inFlight: map<nat, nat>, episode: nat, clock: int,
                           latestFailure: int)

  function Start(clock: int): System { System(INITIAL, map[], 0, clock, clock) }

  predicate Enabled(s: System, e: Event) {
    match e
    case Request(id, now) => id !in s.inFlight && s.clock <= now
    case Complete(id, _, now) => id in s.inFlight && s.clock <= now
    case ManualReset(now) => s.clock <= now
  }

  predicate Admits(c: Config, s: System, e: Event) { e.Request? && Before(c, s.b, e.now).1 }

  function Step(c: Config, s: System, e: Event): System {
    match e
    case Request(id, now) =>
      var (b, admitted) := Before(c, s.b, now);
      var episode := if s.b.phase == Open && admitted then s.episode + 1 else s.episode;
      var s1 := s.(b := b, clock := now, episode := episode);
      if admitted then s1.(inFlight := s.inFlight[id := if b.phase == HalfOpen then episode else 0]) else s1
    case Complete(id, ok, now) =>
      var b := Done(c, s.b, ok, now);
      System(b, s.inFlight - {id}, s.episode, now,
             if ok then s.latestFailure else now)
    case ManualReset(now) => s.(b := Cleared(s.b), clock := now)
  }

  predicate Run(c: Config, clock: int, events: seq<Event>)
    decreases |events|, 0
  {
    events == [] ||
    (Run(c, clock, events[..|events| - 1]) && Enabled(After(c, clock, events[..|events| - 1]), events[|events| - 1]))
  }

  function After(c: Config, clock: int, events: seq<Event>): System
    requires Run(c, clock, events)
    decreases |events|, 1
  {
    if events == [] then Start(clock)
    else Step(c, After(c, clock, events[..|events| - 1]), events[|events| - 1])
  }

  /** The requests admitted in the current half-open episode and not yet complete. */
  function Probing(s: System): set<nat> { set id | id in s.inFlight && s.inFlight[id] == s.episode }

  ghost predicate Inv(c: Config, s: System) {
    && (s.b.phase == Closed <==> s.b.failures < c.threshold)
    && (s.b.phase != Closed ==> s.b.lastFailure == s.latestFailure)
    && (forall id :: id in s.inFlight ==> s.inFlight[id] <= s.episode)
    && s.latestFailure <= s.clock
    && (s.b.phase == HalfOpen ==>
          s.episode > 0 && |Probing(s)| == s.b.probes + 1 && s.b.probes <= c.maxProbes
          && s.clock >= s.latestFailure + c.timeout)
  }

  lemma RequestKeeps(c: Config, s: System, e: Event)
    requires Sensible(c) && Inv(c, s) && Enabled(s, e) && e.Request?
    ensures Inv(c, Step(c, s, e))
  {
    var s' := Step(c, s, e);
    if s'.b.phase == HalfOpen && Admits(c, s, e) {
      if s.b.phase == Open {
        assert Probing(s') == {e.id};
      } else {
        assert Probing(s') == Probing(s) + {e.id};
      }
    } else if s'.b.phase == HalfOpen {
      assert Probing(s') == Probing(s);
    }
  }

  /** Closed exactly while failures stay below the threshold, and the probes of a half-open
      episode are all still in flight. */
  lemma StepKeeps(c: Config, s: System, e: Event)
    requires Sensible(c) && Inv(c, s) && Enabled(s, e)
    ensures Inv(c, Step(c, s, e))
  {
    if e.Request? { RequestKeeps(c, s, e); }
  }

  lemma {:induction false} RunKeeps(c: Config, clock: int, events: seq<Event>)
    requires Sensible(c) && Run(c, clock, events)
    ensures Inv(c, After(c, clock, events))
    decreases |events|
  {
    if events != [] {
      var k := |events| - 1;
      RunKeeps(c, clock, events[..k]);
      StepKeeps(c, After(c, clock, events[..k]), events[k]);
    }
  }

  /** The request is in flight afterwards. */
  predicate Let(c: Config, s: System, e: Event) { e.Request? && e.id in Step(c, s, e).inFlight }

  /** Over every run exactly these requests are admitted: all while closed; once the timeout has
      passed since the latest failure while open, and that one makes the state half-open; while
      half-open, as long as at most the configured number of probes are in flight.  A refused
      request changes nothing but the clock. */
  lemma AdmittedExactly(c: Config, clock: int, events: seq<Event>, e: Event)
    requires Sensible(c) && Run(c, clock, events) && Enabled(After(c, clock, events), e) && e.Request?
    ensures var s, s' := After(c, clock, events), Step(c, After(c, clock, events), e);
            && (Let(c, s, e) <==> Admits(c, s, e))
            && (s.b.phase == Closed ==> Let(c, s, e) && s'.b == s.b)
            && (s.b.phase == Open ==>
                  (Let(c, s, e) <==> e.now >= s.latestFailure + c.timeout)
                  && s'.b.phase == (if Let(c, s, e) then HalfOpen else Open))
            && (s.b.phase == HalfOpen ==>
                  (Let(c, s, e) <==> |Probing(s)| <= c.maxProbes) && s'.b.phase == HalfOpen)
            && (!Let(c, s, e) ==> s' == s.(clock := e.now))
  {
    RunKeeps(c, clock, events);
  }

  /** The breaker cannot wedge: in every reachable half-open state the probes of this
      episode still in flight number exactly one more than the counter, so at least one
      and at most one more than configured, and any completion, late ones from before the
      episode included, leaves the half-open state. */
  lemma CannotWedge(c: Config, clock: int, events: seq<Event>, e: Event)
    requires Sensible(c) && Run(c, clock, events) && After(c, clock, events).b.phase == HalfOpen
    ensures var s := After(c, clock, events);
            && |Probing(s)| == s.b.probes + 1 && 1 <= |Probing(s)| <= c.maxProbes + 1
            && (Enabled(s, e) && e.Complete? ==> Step(c, s, e).b.phase == if e.ok then Closed else Open)
  {
    RunKeeps(c, clock, events);
  }

  lemma RunNext(c: Config, clock: int, events: seq<Event>, e: Event)
    requires Run(c, clock, events) && Enabled(After(c, clock, events), e)
    ensures Run(c, clock, events + [e]) && After(c, clock, events + [e]) == Step(c, After(c, clock, events), e)
  {
    assert (events + [e])[..|events|] == events;
  }

  /** Some requests that fail at once, one after another, up to the threshold. */
  lemma {:induction false} FailedRequests(c: Config, clock: int, k: nat) returns (events: seq<Event>)
    requires Sensible(c) && k <= c.threshold
    ensures Run(c, clock, events)
    ensures var s := After(c, clock, events);
            && s.inFlight == map[] && s.clock == clock && s.b.failures == k
            && (if k < c.threshold then s.b.phase == Closed else s.b.phase == Open && s.b.lastFailure == clock)
  {
    events := [];
    if k > 0 {
      var before := FailedRequests(c, clock, k - 1);
      RunNext(c, clock, before, Request(0, clock));
      var sent := before + [Request(0, clock)];
      RunNext(c, clock, sent, Complete(0, false, clock));
      events := sent + [Complete(0, false, clock)];
    }
  }

  /** The request that opens a half-open episode and `k` more, all admitted. */
  lemma {:induction false} ProbeRequests(c: Config, clock: int, k: nat) returns (events: seq<Event>)
    requires Sensible(c) && k <= c.maxProbes
    ensures Run(c, clock, events)
    ensures var s := After(c, clock, events);
            && s.b.phase == HalfOpen && s.b.probes == k && s.clock == clock + c.timeout
            && forall id :: id in s.inFlight ==> id <= k
  {
    var now := clock + c.timeout;
    var before: seq<Event>;
    if k == 0 {
      before := FailedRequests(c, clock, c.threshold);
    } else {
      before := ProbeRequests(c, clock, k - 1);
    }
    RunNext(c, clock, before, Request(k, now));
    events := before + [Request(k, now)];
  }

  /** The request that opens the half-open state is not counted: for every configuration some
      run has one probe more in flight than configured, so the bound above is reached. */
  lemma OneProbeUncounted(c: Config, clock: int) returns (events: seq<Event>)
    requires Sensible(c)
    ensures Run(c, clock, events) && After(c, clock, events).b.phase == HalfOpen
    ensures |Probing(After(c, clock, events))| == c.maxProbes + 1
  {
    events := ProbeRequests(c, clock, c.maxProbes);
    RunKeeps(c, clock, events);
  }

  /** Failed completions after the last successful one or the last manual reset, read off
      the events alone. */
  function TrailingFailures(events: seq<Event>): nat {
    if events == [] then 0
    else
      match events[|events| - 1]
      case Request(_, _) => TrailingFailures(events[..|events| - 1])
      case ManualReset(_) => 0
      case Complete(_, ok, _) => if ok then 0 else TrailingFailures(events[..|events| - 1]) + 1
  }

  /** While the breaker is closed its failure count is the number of trailing failures. */
  lemma {:induction false} ClosedCountsTrailing(c: Config, clock: int, events: seq<Event>)
    requires Sensible(c) && Run(c, clock, events) && After(c, clock, events).b.phase == Closed
    ensures After(c, clock, events).b.failures == TrailingFailures(events) < c.threshold
    decreases |events|
  {
    RunKeeps(c, clock, events);
    if events != [] {
      var k := |events| - 1;
      if After(c, clock, events[..k]).b.phase == Closed { ClosedCountsTrailing(c, clock, events[..k]); }
    }
  }

  /** In every run the breaker leaves the closed state exactly when a failed completion
      makes the trailing failures reach the threshold, and in every state it is closed
      exactly while its failure count is below it. */
  lemma TripsAtThreshold(c: Config, clock: int, events: seq<Event>, e: Event)
    requires Sensible(c) && Run(c, clock, events) && Enabled(After(c, clock, events), e)
    ensures var s := After(c, clock, events);
            && (s.b.phase == Closed <==> s.b.failures < c.threshold)
            && (s.b.phase == Closed ==>
                  (Step(c, s, e).b.phase != Closed <==>
                   e.Complete? && !e.ok && TrailingFailures(events) == c.threshold - 1))
  {
    RunKeeps(c, clock, events);
    if After(c, clock, events).b.phase == Closed { ClosedCountsTrailing(c, clock, events); }
  }

  // ---- The cool-down ----

  /** From a state where the breaker is open since a failure at `since`: as long as nobody
      resets it by hand, whatever completes meanwhile, no request is admitted before the
      timeout has passed. */
  ghost predicate CoolingDown(c: Config, s: System, since: int) {
    s.latestFailure >= since && (s.b.phase == Open || s.clock >= since + c.timeout)
  }

  lemma CoolDownStep(c: Config, s: System, e: Event, since: int)
    requires Sensible(c) && Inv(c, s) && Enabled(s, e) && !e.ManualReset? && CoolingDown(c, s, since)
    ensures CoolingDown(c, Step(c, s, e), since)
    ensures Admits(c, s, e) ==> e.now >= since + c.timeout
  {
  }

  lemma {:induction false} CoolDownHolds(c: Config, clock: int, events: seq<Event>, i: nat, j: nat)
    requires Sensible(c) && Run(c, clock, events) && i <= j <= |events|
    requires RunPrefix(c, clock, events, i) && RunPrefix(c, clock, events, j)
    requires After(c, clock, events[..i]).b.phase == Open
    requires forall k :: i <= k < j ==> !events[k].ManualReset?
    ensures CoolingDown(c, After(c, clock, events[..j]), After(c, clock, events[..i]).latestFailure)
    decreases j - i
  {
    if i < j {
      PrefixRuns(c, clock, events, j - 1);
      CoolDownHolds(c, clock, events, i, j - 1);
      RunKeeps(c, clock, events[..j - 1]);
      assert events[..j][..j - 1] == events[..j - 1];
      CoolDownStep(c, After(c, clock, events[..j - 1]), events[j - 1], After(c, clock, events[..i]).latestFailure);
    }
  }

  ghost predicate RunPrefix(c: Config, clock: int, events: seq<Event>, k: nat)
    requires k <= |events|
  {
    Run(c, clock, events[..k])
  }

  lemma {:induction false} PrefixRuns(c: Config, clock: int, events: seq<Event>, k: nat)
    requires Run(c, clock, events) && k <= |events|
    ensures Run(c, clock, events[..k])
    decreases |events| - k
  {
    if k == |events| {
      assert events[..k] == events;
    } else {
      PrefixRuns(c, clock, events, k + 1);
      assert events[..k + 1][..k] == events[..k];
    }
  }

  /** Over whole runs: if the breaker is open after event `i` and nobody resets it before
      event `j`, a request admitted at `j` comes at least the timeout after the latest
      failure known at `i`, and an open breaker that admits does so only after the timeout
      since the very latest failure. */
  lemma NoAdmissionBeforeTimeout(c: Config, clock: int, events: seq<Event>, i: nat, j: nat)
    requires Sensible(c) && Run(c, clock, events) && i <= j < |events|
    requires RunPrefix(c, clock, events, i) && RunPrefix(c, clock, events, j)
    requires After(c, clock, events[..i]).b.phase == Open
    requires forall k :: i <= k < j ==> !events[k].ManualReset?
    requires Admits(c, After(c, clock, events[..j]), events[j])
    ensures events[j].now >= After(c, clock, events[..i]).latestFailure + c.timeout
    ensures After(c, clock, events[..j]).b.phase == Open ==>
              events[j].now >= After(c, clock, events[..j]).latestFailure + c.timeout
  {
    CoolDownHolds(c, clock, events, i, j);
    RunKeeps(c, clock, events[..j]);
    PrefixRuns(c, clock, events, j + 1);
    assert events[..j + 1][..j] == events[..j];
    CoolDownStep(c, After(c, clock, events[..j]), events[j], After(c, clock, events[..i]).latestFailure);
  }
}
