/**
 The token-bucket rate limiter with its background cleanup.  Times and token counts are
 real numbers; the clock never goes back.
 */
module RateLimit {

  datatype Bucket = Bucket(tokens: real, lastCheck: real)
  type Buckets = map<string, Bucket>

  /** A refill window and the tokens gained under a limit over a stretch of time. */
  datatype Policy = Policy(window: real, gain: (int, real) -> real)

  /** The source's policy: tokens flow in at `limit / window`. */
  function Continuous(window: real): Policy
    requires window > 0.0
  {
    Policy(window, (limit: int, elapsed: real) requires window > 0.0 => elapsed * (limit as real / window))
  }

  function Min(a: real, b: real): real { if a <= b then a else b }

  /** The bucket's content after refilling up to `now`. */
  function Refilled(p: Policy, b: Bucket, limit: int, now: real): real {
    Min(b.tokens + p.gain(limit, now - b.lastCheck), limit as real)
  }

  /** One bucket under `Allow` (ratelimit.go:53-68). */
  function Taken(p: Policy, b: Bucket, limit: int, now: real): (Bucket, bool) {
    var tokens := Refilled(p, b, limit, now);
    if tokens < 1.0 then (Bucket(tokens, now), false) else (Bucket(tokens - 1.0, now), true)
  }

  /** `Allow` (ratelimit.go:39-69); an absent bucket starts full and always allows. */
  function Allowed(p: Policy, entries: Buckets, key: string, limit: int, now: real): (Buckets, bool) {
    if key !in entries then (entries[key := Bucket((limit - 1) as real, now)], true)
    else
      var (b, ok) := Taken(p, entries[key], limit, now);
      (entries[key := b], ok)
  }

  predicate Stale(window: real, b: Bucket, now: real) { b.lastCheck < now - 2.0 * window }

  /** One pass of the cleanup loop (ratelimit.go:82-91). */
  function Cleaned(window: real, entries: Buckets, now: real): Buckets {
    map k | k in entries && !Stale(window, entries[k], now) :: entries[k]
  }

  class Limiter {
    const window: real
    var entries: Buckets

    constructor (window: real)
      ensures this.window == window && entries == map[]
    {
      this.window, entries := window, map[];
    }

    method Allow(key: string, limit: int, now: real) returns (ok: bool)
      requires window > 0.0
      modifies this
      ensures (entries, ok) == Allowed(Continuous(window), old(entries), key, limit, now)
    {
      if key !in entries {
        entries := entries[key := Bucket((limit - 1) as real, now)];
        return true;
      }
      var e := entries[key];
      var elapsed := now - e.lastCheck;
      var rate := limit as real / window;
      var tokens := e.tokens + elapsed * rate;
      if tokens > limit as real { tokens := limit as real; }
      if tokens < 1.0 {
        entries := entries[key := Bucket(tokens, now)];
        return false;
      }
      entries := entries[key := Bucket(tokens - 1.0, now)];
      ok := true;
    }

    method Reset(key: string)
      modifies this
      ensures entries == old(entries) - {key}
    {
      entries := entries - {key};
    }

    method CleanupPass(now: real)
      modifies this
      ensures entries == Cleaned(window, old(entries), now)
    {
      var cutoff := now - 2.0 * window;
      var rest := entries.Keys;
      while rest != {}
        invariant rest <= old(entries).Keys
        invariant entries
               == map k | k in old(entries) && (k in rest || !Stale(window, old(entries)[k], now)) :: old(entries)[k]
        decreases rest
      {
        var key :| key in rest;
        if entries[key].lastCheck < cutoff {
          entries := entries - {key};
        }
        rest := rest - {key};
      }
    }
  }

  // ---- What the proofs use of a policy ----

  ghost predicate Splits(p: Policy, limit: int, x: real, y: real, z: real) {
    p.gain(limit, z - x) == p.gain(limit, y - x) + p.gain(limit, z - y)
  }

  ghost predicate GainOK(p: Policy, limit: int, t: real) {
    && (t >= 0.0 ==> p.gain(limit, t) >= 0.0)
    && (t > 2.0 * p.window ==> p.gain(limit, t) >= limit as real)
  }

  /** Gains add up over time, are never negative, and two windows more than fill a bucket. */
  ghost predicate Lawful(p: Policy) {
    && (forall l, x, y, z :: Splits(p, l, x, y, z))
    && (forall l, t :: l >= 1 ==> GainOK(p, l, t))
  }

  lemma ContinuousIsLawful(window: real)
    requires window > 0.0
    ensures Lawful(Continuous(window))
  {
    var p := Continuous(window);
    forall l: int, x: real, y: real, z: real ensures Splits(p, l, x, y, z) {
      Distribute(y - x, z - y, l as real / window);
      assert (y - x) + (z - y) == z - x;
    }
    forall l: int, t: real | l >= 1 ensures GainOK(p, l, t) {
      RateFacts(t, l as real, window);
    }
  }

  lemma Distribute(a: real, b: real, r: real)
    ensures (a + b) * r == a * r + b * r
  {
  }

  lemma Product(x: real, y: real)
    requires x >= 0.0 && y >= 0.0
    ensures x * y >= 0.0
  {
  }

  lemma RateFacts(t: real, limit: real, window: real)
    requires window > 0.0 && limit > 0.0
    ensures t >= 0.0 ==> t * (limit / window) >= 0.0
    ensures t > 2.0 * window ==> t * (limit / window) >= limit
  {
    var rate := limit / window;
    assert rate * window == limit;
    assert rate >= 0.0 by { if rate < 0.0 { Product(-rate, window); } }
    if t >= 0.0 { Product(t, rate); }
    if t > 2.0 * window {
      Product(t - window, rate);
      Distribute(t - window, window, rate);
    }
  }

  lemma SplitAt(p: Policy, limit: int, x: real, y: real, z: real)
    requires Lawful(p)
    ensures p.gain(limit, z - x) == p.gain(limit, y - x) + p.gain(limit, z - y)
  {
    assert Splits(p, limit, x, y, z);
  }

  lemma NoTimeNoGain(p: Policy, limit: int)
    requires Lawful(p)
    ensures p.gain(limit, 0.0) == 0.0
  {
    assert Splits(p, limit, 0.0, 0.0, 0.0);
  }

  // ---- Runs ----

  datatype Event = Call(key: string, limit: int, now: real) | Cleanup(now: real)

  function Next(p: Policy, before: Buckets, e: Event): Buckets {
    match e
    case Call(k, l, t) => Allowed(p, before, k, l, t).0
    case Cleanup(t) => Cleaned(p.window, before, t)
  }

  function EntriesAfter(p: Policy, events: seq<Event>): Buckets {
    if events == [] then map[]
    else Next(p, EntriesAfter(p, events[..|events| - 1]), events[|events| - 1])
  }

  /** The answer to a call after some events. */
  predicate Answer(p: Policy, before: seq<Event>, e: Event) {
    e.Call? && Allowed(p, EntriesAfter(p, before), e.key, e.limit, e.now).1
  }

  ghost predicate Monotone(events: seq<Event>) {
    forall i, j :: 0 <= i < j < |events| ==> events[i].now <= events[j].now
  }

  ghost predicate UpTo(events: seq<Event>, now: real) {
    forall i :: 0 <= i < |events| ==> events[i].now <= now
  }

  /** All calls of the key have a limit of at least one; those of others may have any. */
  ghost predicate PositiveLimits(events: seq<Event>, key: string) {
    forall i :: 0 <= i < |events| && events[i].Call? && events[i].key == key ==> events[i].limit >= 1
  }

  // ---- Tokens stay in bounds ----

  lemma RefillBounds(p: Policy, b: Bucket, limit: int, now: real)
    requires Lawful(p) && limit >= 1 && b.tokens >= 0.0 && b.lastCheck <= now
    ensures 0.0 <= Refilled(p, b, limit, now) <= limit as real
  {
    assert GainOK(p, limit, now - b.lastCheck);
  }

  ghost predicate Sane(entries: Buckets, key: string, now: real) {
    key in entries ==> entries[key].tokens >= 0.0 && entries[key].lastCheck <= now
  }

  lemma {:induction false} AlwaysSane(p: Policy, events: seq<Event>, key: string, now: real)
    requires Lawful(p) && Monotone(events) && PositiveLimits(events, key) && UpTo(events, now)
    ensures Sane(EntriesAfter(p, events), key, now)
  {
    if events != [] {
      var n := |events| - 1;
      AlwaysSane(p, events[..n], key, events[n].now);
      var before := EntriesAfter(p, events[..n]);
      if events[n].Call? && events[n].key == key && key in before {
        RefillBounds(p, before[key], events[n].limit, events[n].now);
      }
    }
  }

  // ---- Cleanup is unobservable ----

  function WithoutCleanups(events: seq<Event>): seq<Event> {
    if events == [] then []
    else
      var n := |events| - 1;
      WithoutCleanups(events[..n]) + if events[n].Call? then [events[n]] else []
  }

  /** The key's bucket is the same in both tables, or is missing from the cleaned one and
      stale by `now` in the other. */
  ghost predicate Tidied(p: Policy, clean: Buckets, full: Buckets, key: string, now: real) {
    && (key in clean ==> key in full && clean[key] == full[key])
    && (key in full && key !in clean ==> Stale(p.window, full[key], now) && full[key].tokens >= 0.0)
  }

  /** A stale bucket has filled up again, so with a limit of at least one it answers, and is
      left, exactly like a bucket that is not there; with a smaller limit it refuses while
      an absent bucket allows. */
  lemma StaleLikeAbsent(p: Policy, b: Bucket, limit: int, now: real)
    requires Lawful(p) && Stale(p.window, b, now) && b.tokens >= 0.0
    ensures limit >= 1 <==> Taken(p, b, limit, now).1
    ensures limit >= 1 ==> Taken(p, b, limit, now) == (Bucket((limit - 1) as real, now), true)
  {
    if limit >= 1 { assert GainOK(p, limit, now - b.lastCheck); }
  }

  lemma TidiedCall(p: Policy, clean: Buckets, full: Buckets, key: string, limit: int, now: real)
    requires Lawful(p) && limit >= 1 && Tidied(p, clean, full, key, now)
    ensures Allowed(p, clean, key, limit, now).1 == Allowed(p, full, key, limit, now).1
    ensures Tidied(p, Allowed(p, clean, key, limit, now).0, Allowed(p, full, key, limit, now).0, key, now)
  {
    if key in full && key !in clean { StaleLikeAbsent(p, full[key], limit, now); }
  }

  /** What remains without the passes is a run of the same kind. */
  lemma {:induction false} RestIsRun(events: seq<Event>, key: string, now: real)
    requires Monotone(events) && PositiveLimits(events, key) && UpTo(events, now)
    ensures var rest := WithoutCleanups(events); Monotone(rest) && PositiveLimits(rest, key) && UpTo(rest, now)
    decreases |events|
  {
    if events != [] {
      var n := |events| - 1;
      RestIsRun(events[..n], key, events[n].now);
    }
  }

  /** One event: the cleaned table takes it, the other only if it is a call. */
  lemma TidiedStep(p: Policy, clean: Buckets, full: Buckets, key: string, e: Event)
    requires Lawful(p) && Tidied(p, clean, full, key, e.now) && Sane(full, key, e.now)
    requires e.Call? && e.key == key ==> e.limit >= 1
    ensures Tidied(p, Next(p, clean, e), if e.Call? then Next(p, full, e) else full, key, e.now)
  {
    if e.Call? && e.key == key { TidiedCall(p, clean, full, key, e.limit, e.now); }
  }

  lemma {:induction false} TidiedRun(p: Policy, events: seq<Event>, key: string, now: real)
    requires Lawful(p) && Monotone(events) && PositiveLimits(events, key) && UpTo(events, now)
    ensures Tidied(p, EntriesAfter(p, events), EntriesAfter(p, WithoutCleanups(events)), key, now)
    decreases |events|
  {
    if events != [] {
      var n := |events| - 1;
      var e := events[n];
      TidiedRun(p, events[..n], key, e.now);
      RestIsRun(events[..n], key, e.now);
      var rest := WithoutCleanups(events[..n]);
      AlwaysSane(p, rest, key, e.now);
      TidiedStep(p, EntriesAfter(p, events[..n]), EntriesAfter(p, rest), key, e);
      assert (rest + [e])[..|rest|] == rest && rest + [] == rest;
      StillTidied(p, EntriesAfter(p, events), EntriesAfter(p, WithoutCleanups(events)), key, e.now, now);
    }
  }

  lemma StillTidied(p: Policy, clean: Buckets, full: Buckets, key: string, t: real, now: real)
    requires Tidied(p, clean, full, key, t) && t <= now
    ensures Tidied(p, clean, full, key, now)
  {
  }

  /** Any number of cleanup passes at any times change no answer to a key whose limits are at
      least one, whatever other keys do. */
  lemma CleanupUnobservable(window: real, events: seq<Event>, e: Event)
    requires window > 0.0 && Monotone(events) && UpTo(events, e.now)
    requires e.Call? && e.limit >= 1 && PositiveLimits(events, e.key)
    ensures Answer(Continuous(window), events, e) == Answer(Continuous(window), WithoutCleanups(events), e)
  {
    ContinuousIsLawful(window);
    TidiedAnswer(Continuous(window), events, e);
  }

  lemma TidiedAnswer(p: Policy, events: seq<Event>, e: Event)
    requires Lawful(p) && Monotone(events) && UpTo(events, e.now)
    requires e.Call? && e.limit >= 1 && PositiveLimits(events, e.key)
    ensures Answer(p, events, e) == Answer(p, WithoutCleanups(events), e)
  {
    TidiedRun(p, events, e.key, e.now);
    TidiedCall(p, EntriesAfter(p, events), EntriesAfter(p, WithoutCleanups(events)), e.key, e.limit, e.now);
  }

  /** With a limit below one cleanup shows: the first call is allowed, the next refused, and
      after a cleanup pass the key is allowed again. */
  lemma CleanupShowsBelowOne(p: Policy, key: string, limit: int, now: real, later: real)
    requires limit < 1 && later > now + 2.0 * p.window
    ensures var first := Allowed(p, map[], key, limit, now);
            && first.1
            && !Allowed(p, first.0, key, limit, later).1
            && Allowed(p, Cleaned(p.window, first.0, later), key, limit, later).1
  {
    var first := Allowed(p, map[], key, limit, now);
    assert first.0[key] == Bucket((limit - 1) as real, now);
  }

  // ---- The bound ----

  /** Calls of `key` among the events from `i` on that were allowed. */
  function AllowedCount(p: Policy, events: seq<Event>, key: string, i: nat): nat
    decreases |events|
  {
    if |events| <= i then 0
    else
      var n := |events| - 1;
      AllowedCount(p, events[..n], key, i)
      + if events[n].Call? && events[n].key == key && Answer(p, events[..n], events[n]) then 1 else 0
  }

  ghost predicate ConstantLimit(events: seq<Event>, key: string, limit: int) {
    forall i :: 0 <= i < |events| && events[i].Call? && events[i].key == key ==> events[i].limit == limit
  }

  /** What the key could spend at `now`: a bucket refilled, or a full one when absent. */
  function Effective(p: Policy, entries: Buckets, key: string, limit: int, now: real): real {
    if key in entries then Refilled(p, entries[key], limit, now) else limit as real
  }

  lemma EffectiveGrows(p: Policy, entries: Buckets, key: string, limit: int, now: real, later: real)
    requires Lawful(p) && limit >= 1 && now <= later
    ensures Effective(p, entries, key, limit, later)
         <= Effective(p, entries, key, limit, now) + p.gain(limit, later - now)
  {
    assert GainOK(p, limit, later - now);
    if key in entries { SplitAt(p, limit, entries[key].lastCheck, now, later); }
  }

  /** A call moves its token from the bucket to the count; nothing else moves. */
  lemma EffectiveAfterCall(p: Policy, entries: Buckets, key: string, limit: int, e: Event)
    requires Lawful(p) && limit >= 1 && e.Call? && (e.key == key ==> e.limit == limit)
    ensures var (after, ok) := Allowed(p, entries, e.key, e.limit, e.now);
            Effective(p, after, key, limit, e.now)
            == Effective(p, entries, key, limit, e.now) - if e.key == key && ok then 1.0 else 0.0
  {
    NoTimeNoGain(p, limit);
  }

  lemma EffectiveAfterCleanup(p: Policy, entries: Buckets, key: string, limit: int, now: real)
    requires Lawful(p) && limit >= 1 && Sane(entries, key, now)
    ensures Effective(p, Cleaned(p.window, entries, now), key, limit, now) == Effective(p, entries, key, limit, now)
  {
    if key in entries { assert GainOK(p, limit, now - entries[key].lastCheck); }
  }

  /** Spent plus spendable never exceeds a full bucket plus what the interval refilled. */
  lemma {:induction false} SpentAndSpendable(p: Policy, events: seq<Event>, key: string, limit: int, i: nat,
                                             start: real, now: real)
    requires Lawful(p) && limit >= 1
    requires Monotone(events) && ConstantLimit(events, key, limit) && UpTo(events, now)
    requires start <= now && forall j :: i <= j < |events| ==> start <= events[j].now
    ensures AllowedCount(p, events, key, i) as real + Effective(p, EntriesAfter(p, events), key, limit, now)
         <= limit as real + p.gain(limit, now - start)
    decreases |events|
  {
    if |events| <= i {
      assert GainOK(p, limit, now - start);
    } else {
      var n := |events| - 1;
      var e := events[n];
      var before := EntriesAfter(p, events[..n]);
      SpentAndSpendable(p, events[..n], key, limit, i, start, e.now);
      AlwaysSane(p, events[..n], key, e.now);
      EventMoves(p, before, key, limit, e);
      EffectiveGrows(p, EntriesAfter(p, events), key, limit, e.now, now);
      SplitAt(p, limit, start, e.now, now);
    }
  }

  /** One event moves at most a token of the key from the bucket to the count. */
  lemma EventMoves(p: Policy, before: Buckets, key: string, limit: int, e: Event)
    requires Lawful(p) && limit >= 1 && Sane(before, key, e.now)
    requires e.Call? && e.key == key ==> e.limit == limit
    ensures var spent := e.Call? && e.key == key && Allowed(p, before, e.key, e.limit, e.now).1;
            Effective(p, Next(p, before, e), key, limit, e.now)
            == Effective(p, before, key, limit, e.now) - if spent then 1.0 else 0.0
  {
    if e.Call? {
      EffectiveAfterCall(p, before, key, limit, e);
    } else {
      EffectiveAfterCleanup(p, before, key, limit, e.now);
    }
  }

  /** In every such run the bucket holds between 0 and L tokens. */
  lemma {:induction false} TokensInBounds(p: Policy, events: seq<Event>, key: string, limit: int, now: real)
    requires Lawful(p) && limit >= 1
    requires Monotone(events) && ConstantLimit(events, key, limit) && UpTo(events, now)
    ensures var entries := EntriesAfter(p, events);
            key in entries ==> 0.0 <= entries[key].tokens <= limit as real
    decreases |events|
  {
    AlwaysSane(p, events, key, now);
    if events != [] {
      TokensInBounds(p, events[..|events| - 1], key, limit, events[|events| - 1].now);
    }
  }

  lemma AllowedWithin(p: Policy, events: seq<Event>, key: string, limit: int, i: nat, start: real, now: real)
    requires Lawful(p) && limit >= 1
    requires Monotone(events) && ConstantLimit(events, key, limit) && UpTo(events, now)
    requires start <= now && forall j :: i <= j < |events| ==> start <= events[j].now
    ensures AllowedCount(p, events, key, i) as real <= limit as real + p.gain(limit, now - start)
  {
    SpentAndSpendable(p, events, key, limit, i, start, now);
    AlwaysSane(p, events, key, now);
    var entries := EntriesAfter(p, events);
    if key in entries { RefillBounds(p, entries[key], limit, now); }
  }

  /** The token-bucket bound: for a key with a constant limit L, over every run of calls of
      any keys and of cleanup passes, and over every interval from `start` to `now`, at most
      L + T * (L / window) calls are allowed. */
  lemma AtMostLimitPlusRefill(window: real, events: seq<Event>, key: string, limit: int, i: nat, start: real, now: real)
    requires window > 0.0 && limit >= 1
    requires Monotone(events) && ConstantLimit(events, key, limit) && UpTo(events, now)
    requires start <= now && forall j :: i <= j < |events| ==> start <= events[j].now
    ensures AllowedCount(Continuous(window), events, key, i) as real
         <= limit as real + (now - start) * (limit as real / window)
  {
    ContinuousIsLawful(window);
    AllowedWithin(Continuous(window), events, key, limit, i, start, now);
  }

  // ---- The limiter is a token bucket ----

  /** What a bucket that held `found` has left after a call. */
  function Left(found: real): real { if found >= 1.0 then found - 1.0 else found }

  /** What flows in over a stretch of time. */
  function Inflow(window: real, limit: int, t: real): real
    requires window > 0.0
  {
    t * (limit as real / window)
  }

  /** The textbook bucket of one key, without tables, other keys or cleanup: full at first, one
      token less after a call that finds a whole token, refilled at `limit` per window up to the
      limit. */
  function Spendable(window: real, limit: int, events: seq<Event>, key: string, now: real): real
    requires window > 0.0
  {
    if events == [] then limit as real
    else
      var n := |events| - 1;
      var e := events[n];
      if e.Call? && e.key == key then
        Min(Left(Spendable(window, limit, events[..n], key, e.now)) + Inflow(window, limit, now - e.now), limit as real)
      else Spendable(window, limit, events[..n], key, now)
  }

  /** The same with any policy's gain. */
  function Holding(p: Policy, limit: int, events: seq<Event>, key: string, now: real): real {
    if events == [] then limit as real
    else
      var n := |events| - 1;
      var e := events[n];
      if e.Call? && e.key == key then
        Min(Left(Holding(p, limit, events[..n], key, e.now)) + p.gain(limit, now - e.now), limit as real)
      else Holding(p, limit, events[..n], key, now)
  }

  lemma {:induction false} HoldingIsSpendable(window: real, p: Policy, limit: int, events: seq<Event>, key: string,
                                              now: real)
    requires window > 0.0 && forall t :: p.gain(limit, t) == Inflow(window, limit, t)
    ensures Holding(p, limit, events, key, now) == Spendable(window, limit, events, key, now)
    decreases |events|
  {
    if events != [] {
      var n := |events| - 1;
      var e := events[n];
      HoldingIsSpendable(window, p, limit, events[..n], key, if e.Call? && e.key == key then e.now else now);
    }
  }

  lemma ContinuousGain(window: real, limit: int, t: real)
    requires window > 0.0
    ensures Continuous(window).gain(limit, t) == Inflow(window, limit, t)
  {
  }

  lemma CleanedStill(p: Policy, entries: Buckets, key: string, limit: int, t: real, now: real)
    requires Lawful(p) && limit >= 1 && t <= now && Sane(entries, key, t)
    ensures Effective(p, Cleaned(p.window, entries, t), key, limit, now) == Effective(p, entries, key, limit, now)
  {
    if key in entries { assert GainOK(p, limit, now - entries[key].lastCheck); }
  }

  lemma CalledNow(p: Policy, entries: Buckets, key: string, limit: int, t: real, now: real)
    requires limit >= 1
    ensures var found := Effective(p, entries, key, limit, t);
            && Allowed(p, entries, key, limit, t).1 == (found >= 1.0)
            && Effective(p, Allowed(p, entries, key, limit, t).0, key, limit, now)
               == Min(Left(found) + p.gain(limit, now - t), limit as real)
  {
  }

  lemma {:induction false} EffectiveIsHolding(p: Policy, events: seq<Event>, key: string, limit: int, now: real)
    requires Lawful(p) && limit >= 1
    requires Monotone(events) && ConstantLimit(events, key, limit) && UpTo(events, now)
    ensures Effective(p, EntriesAfter(p, events), key, limit, now) == Holding(p, limit, events, key, now)
    decreases |events|
  {
    if events != [] {
      var n := |events| - 1;
      var e, before := events[n], EntriesAfter(p, events[..n]);
      if e.Call? && e.key == key {
        EffectiveIsHolding(p, events[..n], key, limit, e.now);
        CalledNow(p, before, key, limit, e.now, now);
      } else {
        EffectiveIsHolding(p, events[..n], key, limit, now);
        AlwaysSane(p, events[..n], key, e.now);
        if e.Cleanup? { CleanedStill(p, before, key, limit, e.now, now); }
      }
    }
  }

  lemma AllowedWhenHolding(p: Policy, events: seq<Event>, key: string, limit: int, now: real)
    requires Lawful(p) && limit >= 1
    requires Monotone(events) && ConstantLimit(events, key, limit) && UpTo(events, now)
    ensures Answer(p, events, Call(key, limit, now)) <==> Holding(p, limit, events, key, now) >= 1.0
  {
    EffectiveIsHolding(p, events, key, limit, now);
    CalledNow(p, EntriesAfter(p, events), key, limit, now, now);
  }

  /** Over every run of calls of any keys and cleanup passes: a call of a key with a constant
      limit of at least one is allowed if and only if the textbook bucket holds a token. */
  lemma LimiterIsTokenBucket(window: real, events: seq<Event>, key: string, limit: int, now: real)
    requires window > 0.0 && limit >= 1
    requires Monotone(events) && ConstantLimit(events, key, limit) && UpTo(events, now)
    ensures Answer(Continuous(window), events, Call(key, limit, now)) <==>
            Spendable(window, limit, events, key, now) >= 1.0
  {
    ContinuousIsLawful(window);
    AllowedWhenHolding(Continuous(window), events, key, limit, now);
    forall t { ContinuousGain(window, limit, t); }
    HoldingIsSpendable(window, Continuous(window), limit, events, key, now);
  }

  ghost predicate NoCalls(events: seq<Event>, key: string) {
    forall i :: 0 <= i < |events| && events[i].Call? ==> events[i].key != key
  }

  lemma {:induction false} OthersIdle(p: Policy, limit: int, before: seq<Event>, mid: seq<Event>, key: string,
                                      now: real)
    requires NoCalls(mid, key)
    ensures Holding(p, limit, before + mid, key, now) == Holding(p, limit, before, key, now)
    decreases |mid|
  {
    if mid == [] {
      assert before + mid == before;
    } else {
      var n := |mid| - 1;
      OthersIdle(p, limit, before, mid[..n], key, now);
      assert (before + mid)[..|before + mid| - 1] == before + mid[..n];
    }
  }

  lemma {:induction false} NeverNegative(p: Policy, limit: int, events: seq<Event>, key: string, now: real)
    requires Lawful(p) && limit >= 1 && Monotone(events) && UpTo(events, now)
    ensures Holding(p, limit, events, key, now) >= 0.0
    decreases |events|
  {
    if events != [] {
      var n := |events| - 1;
      NeverNegative(p, limit, events[..n], key, events[n].now);
      NeverNegative(p, limit, events[..n], key, now);
      assert GainOK(p, limit, now - events[n].now);
    }
  }

  lemma PausedHolds(p: Policy, limit: int, before: seq<Event>, t: real, mid: seq<Event>, key: string, now: real)
    requires Lawful(p) && limit >= 1 && NoCalls(mid, key) && Monotone(before) && UpTo(before, t)
    requires p.gain(limit, now - t) >= 1.0
    ensures Holding(p, limit, before + [Call(key, limit, t)] + mid, key, now) >= 1.0
  {
    var called := before + [Call(key, limit, t)];
    assert called[..|before|] == before;
    OthersIdle(p, limit, called, mid, key, now);
    NeverNegative(p, limit, before, key, t);
  }

  lemma RunBefore(before: seq<Event>, e: Event, mid: seq<Event>)
    requires Monotone(before + [e] + mid)
    ensures Monotone(before) && UpTo(before, e.now)
  {
    var events := before + [e] + mid;
    assert forall i :: 0 <= i < |before| ==> before[i] == events[i];
    assert events[|before|] == e;
  }

  /** No call of the key for the time of one token, and the next is allowed. */
  lemma PausedIsAllowed(window: real, before: seq<Event>, t: real, mid: seq<Event>, key: string, limit: int, now: real)
    requires window > 0.0 && limit >= 1 && NoCalls(mid, key)
    requires var events := before + [Call(key, limit, t)] + mid;
             Monotone(events) && ConstantLimit(events, key, limit) && UpTo(events, now)
    requires now - t >= window / limit as real
    ensures Answer(Continuous(window), before + [Call(key, limit, t)] + mid, Call(key, limit, now))
  {
    RunBefore(before, Call(key, limit, t), mid);
    ContinuousIsLawful(window);
    OneToken(window, limit as real, now - t);
    PausedHolds(Continuous(window), limit, before, t, mid, key, now);
    AllowedWhenHolding(Continuous(window), before + [Call(key, limit, t)] + mid, key, limit, now);
  }

  lemma OneToken(window: real, limit: real, t: real)
    requires window > 0.0 && limit > 0.0 && t >= window / limit
    ensures t * (limit / window) >= 1.0
  {
    var rate, turn := limit / window, window / limit;
    assert rate * window == limit && turn * limit == window;
    assert rate > 0.0 by { if rate <= 0.0 { Product(-rate, window); } }
    assert (turn * rate - 1.0) * window == 0.0;
    assert turn * rate == 1.0;
    Product(t - turn, rate);
  }

  function Burst(key: string, limit: int, t: real, k: nat): (r: seq<Event>)
    ensures |r| == k && forall i :: 0 <= i < k ==> r[i] == Call(key, limit, t)
  {
    seq(k, _ => Call(key, limit, t))
  }

  lemma {:induction false} BurstLeaves(p: Policy, key: string, limit: int, t: real, k: nat)
    requires Lawful(p) && limit >= 1
    ensures Holding(p, limit, Burst(key, limit, t, k), key, t) == if k < limit then (limit - k) as real else 0.0
  {
    NoTimeNoGain(p, limit);
    if k > 0 {
      BurstLeaves(p, key, limit, t, k - 1);
      assert Burst(key, limit, t, k)[..k - 1] == Burst(key, limit, t, k - 1);
    }
  }

  /** Of calls of a new key at one time exactly the first `limit` are allowed. */
  lemma BurstExact(window: real, key: string, limit: int, t: real, k: nat)
    requires window > 0.0 && limit >= 1
    ensures Answer(Continuous(window), Burst(key, limit, t, k), Call(key, limit, t)) <==> k < limit
  {
    ContinuousIsLawful(window);
    BurstLeaves(Continuous(window), key, limit, t, k);
    AllowedWhenHolding(Continuous(window), Burst(key, limit, t, k), key, limit, t);
  }

  // ---- What cleanup removes ----

  /** When the key was last called; nothing when it never was. */
  function LastCall(events: seq<Event>, key: string): seq<real> {
    if events == [] then []
    else
      var n := |events| - 1;
      if events[n].Call? && events[n].key == key then [events[n].now] else LastCall(events[..n], key)
  }

  lemma {:induction false} LastChecked(p: Policy, events: seq<Event>, key: string)
    ensures var entries := EntriesAfter(p, events); key in entries ==> LastCall(events, key) == [entries[key].lastCheck]
  {
    if events != [] { LastChecked(p, events[..|events| - 1], key); }
  }

  /** A pass after any run removes exactly the buckets of keys not called for two windows. */
  lemma CleanupRemovesExactly(p: Policy, events: seq<Event>, now: real, key: string)
    ensures var before, after := EntriesAfter(p, events), EntriesAfter(p, events + [Cleanup(now)]);
            key in after <==>
            key in before && LastCall(events, key) != [] && now - LastCall(events, key)[0] <= 2.0 * p.window
  {
    LastChecked(p, events, key);
    assert (events + [Cleanup(now)])[..|events|] == events;
  }
}
