/**
 The batch collector: events are appended to a shared buffer, a flush swaps the buffer
 out, publishes it, and on failure puts it back in front and cuts the overflow.  Flushes
 run concurrently with tracking and with each other; each step is one critical section
 or the outcome of one publish.
 */
module BatchCollector {

  function BatchSize(configured: int): (n: nat)
    ensures n > 0 && (configured > 0 ==> n == configured) && (configured <= 0 ==> n == 100)
  {
    if configured <= 0 then 100 else configured
  }

  /** The object: its shared buffer and the three critical sections on it. */
  class Collector<E> {
    const batchSize: nat
    var buffer: seq<E>

    constructor (configured: int)
      ensures batchSize == BatchSize(configured) && buffer == []
    {
      batchSize, buffer := BatchSize(configured), [];
    }

    /** `Track` (batch.go:73-77), reporting whether a flush is to be started. */
    method Track(e: E) returns (shouldFlush: bool)
      modifies this
      ensures buffer == old(buffer) + [e] && shouldFlush == (|buffer| >= batchSize)
    {
      buffer := buffer + [e];
      shouldFlush := |buffer| >= batchSize;
    }

    /** The first half of `flush` (batch.go:99-106). */
    method TakeBatch() returns (batch: seq<E>)
      modifies this
      ensures batch == old(buffer) && buffer == []
    {
      batch := buffer;
      buffer := [];
    }

    /** Putting a failed batch back (batch.go:114-121): what is cut is the newest end. */
    method Requeue(batch: seq<E>) returns (dropped: seq<E>)
      modifies this
      ensures buffer + dropped == batch + old(buffer)
      ensures |buffer| <= 3 * batchSize && (dropped != [] ==> |buffer| == 3 * batchSize)
    {
      buffer := batch + buffer;
      dropped := [];
      if |buffer| > batchSize * 3 {
        dropped := buffer[batchSize * 3..];
        buffer := buffer[..batchSize * 3];
      }
    }
  }

  // ---- Runs ----

  /** A batch being published, and whether the ticker's goroutine took it. */
  datatype Batch<E> = Batch(events: seq<E>, ticker: bool)

  /** One ticker flushes when it is not flushing already; a `Track` that finds the buffer
      full starts one more flush, which takes its batch some time later.  Batches in
      flight are numbered from the oldest. */
  datatype Step<E> = Track(event: E) | TickerTake | StartedTake | Succeed(batch: nat) | Fail(batch: nat)

  datatype State<E> = State(tracked: seq<E>, buffer: seq<E>, started: nat, inFlight: seq<Batch<E>>,
                            published: seq<E>, dropped: seq<E>)

  function Start<E>(): State<E> { State([], [], 0, [], [], []) }

  predicate TickerBusy<E>(inFlight: seq<Batch<E>>) { exists i :: 0 <= i < |inFlight| && inFlight[i].ticker }

  predicate Enabled<E>(s: State<E>, step: Step<E>) {
    match step
    case Track(_) => true
    case TickerTake => !TickerBusy(s.inFlight)
    case StartedTake => s.started > 0
    case Succeed(i) => i < |s.inFlight|
    case Fail(i) => i < |s.inFlight|
  }

  function Keep<E>(n: nat, s: seq<E>): seq<E> { if |s| > n then s[..n] else s }

  function Cut<E>(n: nat, s: seq<E>): seq<E> { if |s| > n then s[n..] else [] }

  function Without<T>(s: seq<T>, i: nat): seq<T>
    requires i < |s|
  {
    s[..i] + s[i + 1..]
  }

  /** The first half of a flush; an empty buffer is left alone. */
  function Taken<E>(s: State<E>, ticker: bool): State<E> {
    if s.buffer == [] then s else s.(inFlight := s.inFlight + [Batch(s.buffer, ticker)], buffer := [])
  }

  function Apply<E>(batchSize: nat, s: State<E>, step: Step<E>): State<E>
    requires Enabled(s, step)
  {
    match step
    case Track(e) =>
      s.(tracked := s.tracked + [e], buffer := s.buffer + [e],
         started := s.started + if |s.buffer| + 1 >= batchSize then 1 else 0)
    case TickerTake => Taken(s, true)
    case StartedTake => Taken(s.(started := s.started - 1), false)
    case Succeed(i) =>
      s.(published := s.published + s.inFlight[i].events, inFlight := Without(s.inFlight, i))
    case Fail(i) =>
      var back := s.inFlight[i].events + s.buffer;
      s.(buffer := Keep(3 * batchSize, back), dropped := s.dropped + Cut(3 * batchSize, back),
         inFlight := Without(s.inFlight, i))
  }

  predicate Run<E>(batchSize: nat, steps: seq<Step<E>>)
    decreases |steps|, 0
  {
    steps == [] ||
    (Run(batchSize, steps[..|steps| - 1]) && Enabled(After(batchSize, steps[..|steps| - 1]), steps[|steps| - 1]))
  }

  function After<E>(batchSize: nat, steps: seq<Step<E>>): State<E>
    requires Run(batchSize, steps)
    decreases |steps|, 1
  {
    if steps == [] then Start() else Apply(batchSize, After(batchSize, steps[..|steps| - 1]), steps[|steps| - 1])
  }

  // ---- Conservation ----

  /** All events of the batches being published, oldest batch first. */
  function Flying<E>(batches: seq<Batch<E>>): seq<E> {
    if batches == [] then [] else Flying(batches[..|batches| - 1]) + batches[|batches| - 1].events
  }

  lemma {:induction false} FlyingJoin<E>(a: seq<Batch<E>>, b: seq<Batch<E>>)
    ensures Flying(a + b) == Flying(a) + Flying(b)
    decreases |b|
  {
    if b == [] {
      assert a + b == a;
    } else {
      var rest := b[..|b| - 1];
      FlyingJoin(a, rest);
      assert b == rest + [b[|rest|]];
      FlyingJoinNext(a, rest, b[|rest|]);
    }
  }

  lemma FlyingJoinNext<E>(a: seq<Batch<E>>, b: seq<Batch<E>>, next: Batch<E>)
    requires Flying(a + b) == Flying(a) + Flying(b)
    ensures Flying(a + (b + [next])) == Flying(a) + Flying(b + [next])
  {
    Associative(a, b, [next]);
    FlyingNext(a + b, next);
    FlyingNext(b, next);
    Associative(Flying(a), Flying(b), next.events);
  }

  lemma Associative<T>(a: seq<T>, b: seq<T>, c: seq<T>)
    ensures a + (b + c) == a + b + c
  {
  }

  lemma FlyingNext<E>(batches: seq<Batch<E>>, b: Batch<E>)
    ensures Flying(batches + [b]) == Flying(batches) + b.events
  {
    assert (batches + [b])[..|batches|] == batches;
  }

  lemma FlyingOne<E>(b: Batch<E>)
    ensures Flying([b]) == b.events
  {
    assert [b][..0] == [];
  }

  /** The batches before, at and after place `i`. */
  lemma {:induction false} FlyingAt<E>(batches: seq<Batch<E>>, i: nat)
    requires i < |batches|
    ensures Flying(batches) == Flying(batches[..i]) + batches[i].events + Flying(batches[i + 1..])
    ensures Flying(Without(batches, i)) == Flying(batches[..i]) + Flying(batches[i + 1..])
  {
    FlyingParts(batches, batches[..i], batches[i], batches[i + 1..]);
  }

  lemma FlyingParts<E>(all: seq<Batch<E>>, a: seq<Batch<E>>, b: Batch<E>, c: seq<Batch<E>>)
    requires all == a + [b] + c
    ensures Flying(all) == Flying(a) + b.events + Flying(c)
    ensures Flying(a + c) == Flying(a) + Flying(c)
  {
    FlyingJoin(a + [b], c);
    FlyingJoin(a, [b]);
    FlyingOne(b);
    FlyingJoin(a, c);
  }

  /** Everything not dropped, in the order in which it would be published if batches went
      out oldest first. */
  function Line<E>(s: State<E>): seq<E> { s.published + Flying(s.inFlight) + s.buffer }

  lemma TakenKeepsLine<E>(s: State<E>, ticker: bool)
    ensures Line(Taken(s, ticker)) == Line(s)
  {
    FlyingJoin(s.inFlight, [Batch(s.buffer, ticker)]);
    FlyingOne(Batch(s.buffer, ticker));
  }

  lemma TrackedLine<E>(batchSize: nat, s: State<E>, e: E)
    ensures Line(Apply(batchSize, s, Track(e))) == Line(s) + [e]
  {
  }

  ghost predicate Conserved<E>(s: State<E>) {
    multiset(s.tracked) == multiset(Line(s)) + multiset(s.dropped)
  }

  lemma SucceedConserves<E>(batchSize: nat, s: State<E>, i: nat)
    requires Conserved(s) && Enabled(s, Succeed(i))
    ensures Conserved(Apply(batchSize, s, Succeed(i)))
  {
    FlyingAt(s.inFlight, i);
  }

  lemma CutRejoins<E>(n: nat, s: seq<E>)
    ensures Keep(n, s) + Cut(n, s) == s
  {
  }

  lemma FailConserves<E>(batchSize: nat, s: State<E>, i: nat)
    requires Conserved(s) && Enabled(s, Fail(i))
    ensures Conserved(Apply(batchSize, s, Fail(i)))
  {
    FlyingAt(s.inFlight, i);
    var batch := s.inFlight[i].events;
    var kept, cut := Keep(3 * batchSize, batch + s.buffer), Cut(3 * batchSize, batch + s.buffer);
    CutRejoins(3 * batchSize, batch + s.buffer);
    Rearranged(s.published, Flying(s.inFlight[..i]), batch, Flying(s.inFlight[i + 1..]), s.buffer, kept, cut,
               s.dropped);
  }

  lemma Rearranged<E>(published: seq<E>, older: seq<E>, batch: seq<E>, newer: seq<E>, buffer: seq<E>,
                      kept: seq<E>, cut: seq<E>, dropped: seq<E>)
    requires kept + cut == batch + buffer
    ensures multiset(published + (older + batch + newer) + buffer) + multiset(dropped)
         == multiset(published + (older + newer) + kept) + multiset(dropped + cut)
  {
    assert multiset(kept) + multiset(cut) == multiset(kept + cut) == multiset(batch) + multiset(buffer);
    forall e ensures multiset(published + (older + batch + newer) + buffer)[e] + multiset(dropped)[e]
                  == multiset(published + (older + newer) + kept)[e] + multiset(dropped + cut)[e] {
      assert (multiset(kept) + multiset(cut))[e] == (multiset(batch) + multiset(buffer))[e];
    }
  }

  lemma StepConserves<E>(batchSize: nat, s: State<E>, step: Step<E>)
    requires Conserved(s) && Enabled(s, step)
    ensures Conserved(Apply(batchSize, s, step))
  {
    match step
    case Track(e) => TrackedLine(batchSize, s, e);
    case TickerTake => TakenKeepsLine(s, true);
    case StartedTake => TakenKeepsLine(s.(started := s.started - 1), false);
    case Succeed(i) => SucceedConserves(batchSize, s, i);
    case Fail(i) => FailConserves(batchSize, s, i);
  }

  /** Under every interleaving each tracked event is, as often as it was tracked, in exactly
      one of published, in flight, buffered or dropped. */
  lemma {:induction false} NothingLostOrDoubled<E>(batchSize: nat, steps: seq<Step<E>>)
    requires Run(batchSize, steps)
    ensures Conserved(After(batchSize, steps))
    decreases |steps|
  {
    if steps != [] {
      var k := |steps| - 1;
      NothingLostOrDoubled(batchSize, steps[..k]);
      StepConserves(batchSize, After(batchSize, steps[..k]), steps[k]);
    }
  }

  /** A failed flush leaves at most three batches buffered, drops only what does not fit,
      and what it drops is newer than what it keeps. */
  lemma FailedFlushBound<E>(batchSize: nat, s: State<E>, i: nat)
    requires Enabled(s, Fail(i))
    ensures var s' := Apply(batchSize, s, Fail(i));
            && |s'.buffer| <= 3 * batchSize
            && s.inFlight[i].events + s.buffer == s'.buffer + s'.dropped[|s.dropped|..]
            && (s'.dropped != s.dropped ==> |s'.buffer| == 3 * batchSize)
  {
    var back := s.inFlight[i].events + s.buffer;
    CutRejoins(3 * batchSize, back);
    assert (s.dropped + Cut(3 * batchSize, back))[|s.dropped|..] == Cut(3 * batchSize, back);
  }

  // ---- Order ----

  ghost predicate Subsequence<E>(a: seq<E>, b: seq<E>)
    decreases |b|
  {
    a == [] ||
    (b != [] && (Subsequence(a, b[..|b| - 1])
                 || (a[|a| - 1] == b[|b| - 1] && Subsequence(a[..|a| - 1], b[..|b| - 1]))))
  }

  lemma SubsequenceAppend<E>(a: seq<E>, b: seq<E>, e: E)
    requires Subsequence(a, b)
    ensures Subsequence(a + [e], b + [e])
  {
    assert (a + [e])[..|a|] == a && (b + [e])[..|b|] == b;
  }

  lemma {:induction false} SubsequencePrefix<E>(a: seq<E>, b: seq<E>, n: nat)
    requires Subsequence(a, b) && n <= |a|
    ensures Subsequence(a[..n], b)
    decreases |b|
  {
    if n == |a| {
      assert a[..n] == a;
    } else if a != [] {
      var k := |b| - 1;
      if Subsequence(a, b[..k]) {
        SubsequencePrefix(a, b[..k], n);
      } else {
        SubsequencePrefix(a[..|a| - 1], b[..k], n);
        assert a[..|a| - 1][..n] == a[..n];
      }
    }
  }

  ghost predicate Before<E>(s: seq<E>, x: E, y: E) {
    exists i, j :: 0 <= i < j < |s| && s[i] == x && s[j] == y
  }

  lemma BeforeAcross<E>(a: seq<E>, b: seq<E>, x: E, y: E)
    requires x in a && y in b
    ensures Before(a + b, x, y)
  {
    var i :| 0 <= i < |a| && a[i] == x;
    var j :| 0 <= j < |b| && b[j] == y;
    assert (a + b)[i] == x && (a + b)[|a| + j] == y;
  }

  lemma {:induction false} SubsequenceHas<E>(a: seq<E>, b: seq<E>, x: E)
    requires Subsequence(a, b) && x in a
    ensures x in b
    decreases |b|
  {
    var k := |b| - 1;
    if Subsequence(a, b[..k]) {
      SubsequenceHas(a, b[..k], x);
    } else if x != a[|a| - 1] {
      SubsequenceHas(a[..|a| - 1], b[..k], x);
    }
  }

  /** A subsequence keeps the order. */
  lemma {:induction false} SubsequenceOrder<E>(a: seq<E>, b: seq<E>, x: E, y: E)
    requires Subsequence(a, b) && Before(a, x, y)
    ensures Before(b, x, y)
    decreases |b|
  {
    var i, j :| 0 <= i < j < |a| && a[i] == x && a[j] == y;
    var k, n := |b| - 1, |a| - 1;
    assert b == b[..k] + [b[k]];
    if Subsequence(a, b[..k]) {
      SubsequenceOrder(a, b[..k], x, y);
      BeforeGrows(b[..k], [b[k]], x, y);
    } else if j < n {
      assert a[..n][i] == x && a[..n][j] == y;
      SubsequenceOrder(a[..n], b[..k], x, y);
      BeforeGrows(b[..k], [b[k]], x, y);
    } else {
      assert a[..n][i] == x;
      SubsequenceHas(a[..n], b[..k], x);
      BeforeAcross(b[..k], [b[k]], x, y);
    }
  }

  lemma BeforeGrows<E>(a: seq<E>, b: seq<E>, x: E, y: E)
    requires Before(a, x, y)
    ensures Before(a + b, x, y)
  {
    var i, j :| 0 <= i < j < |a| && a[i] == x && a[j] == y;
    assert (a + b)[i] == x && (a + b)[j] == y;
  }

  ghost predicate Distinct<E>(s: seq<E>) { forall i, j :: 0 <= i < j < |s| ==> s[i] != s[j] }

  lemma NotBothWays<E>(b: seq<E>, x: E, y: E)
    requires Distinct(b) && Before(b, x, y)
    ensures !Before(b, y, x)
  {
  }

  /** Of two arrangements of distinct events that disagree about two of them, one is not in
      order. */
  lemma DisagreementShows<E>(a: seq<E>, a': seq<E>, b: seq<E>, x: E, y: E)
    requires Distinct(b) && Subsequence(a, b) && Before(a, x, y) && Before(a', y, x)
    ensures !Subsequence(a', b)
  {
    SubsequenceOrder(a, b, x, y);
    if Subsequence(a', b) {
      SubsequenceOrder(a', b, y, x);
      NotBothWays(b, x, y);
    }
  }

  /** Published, in-flight and buffered events stand in the order they were tracked. */
  ghost predicate InOrder<E>(s: State<E>) { Subsequence(Line(s), s.tracked) }

  /** Batches are never empty. */
  ghost predicate NoEmptyBatch<E>(inFlight: seq<Batch<E>>) {
    forall i :: 0 <= i < |inFlight| ==> inFlight[i].events != []
  }

  /** Only the oldest batch is published, only the newest put back. */
  predicate Orderly<E>(s: State<E>, step: Step<E>) {
    && (step.Succeed? ==> step.batch == 0)
    && (step.Fail? ==> step.batch == |s.inFlight| - 1)
  }

  lemma OrderlySuccess<E>(batchSize: nat, s: State<E>)
    requires InOrder(s) && s.inFlight != []
    ensures InOrder(Apply(batchSize, s, Succeed(0)))
  {
    FlyingAt(s.inFlight, 0);
    assert Flying(s.inFlight[..0]) == [];
    var first, rest := s.inFlight[0].events, Flying(s.inFlight[1..]);
    SameLine(s.published, first, rest, s.buffer);
  }

  lemma SameLine<E>(published: seq<E>, first: seq<E>, rest: seq<E>, buffer: seq<E>)
    ensures published + ([] + first + rest) + buffer == (published + first) + ([] + rest) + buffer
  {
  }

  lemma OrderlyFailure<E>(batchSize: nat, s: State<E>)
    requires InOrder(s) && s.inFlight != []
    ensures InOrder(Apply(batchSize, s, Fail(|s.inFlight| - 1)))
  {
    var k := |s.inFlight| - 1;
    var older, batch := s.inFlight[..k], s.inFlight[k].events;
    assert Without(s.inFlight, k) == older;
    KeptPrefix(s.published + Flying(older), batch + s.buffer, 3 * batchSize, s.tracked, Line(s));
  }

  lemma KeptPrefix<E>(pre: seq<E>, back: seq<E>, n: nat, tracked: seq<E>, line: seq<E>)
    requires line == pre + back && Subsequence(line, tracked)
    ensures Subsequence(pre + Keep(n, back), tracked)
  {
    var k := |pre| + |Keep(n, back)|;
    assert pre + Keep(n, back) == line[..k];
    SubsequencePrefix(line, tracked, k);
  }

  lemma OrderlyStep<E>(batchSize: nat, s: State<E>, step: Step<E>)
    requires InOrder(s) && Enabled(s, step) && Orderly(s, step)
    ensures InOrder(Apply(batchSize, s, step))
  {
    match step
    case Track(e) =>
      SubsequenceAppend(Line(s), s.tracked, e);
      TrackedLine(batchSize, s, e);
    case TickerTake => TakenKeepsLine(s, true);
    case StartedTake => TakenKeepsLine(s.(started := s.started - 1), false);
    case Succeed(_) => OrderlySuccess(batchSize, s);
    case Fail(_) => OrderlyFailure(batchSize, s);
  }

  /** Putting `batch` before `older`, when it stood behind, shows. */
  lemma Overtaken<E>(pre: seq<E>, older: seq<E>, batch: seq<E>, rest: seq<E>, line': seq<E>, tracked: seq<E>)
    requires Distinct(tracked) && Subsequence(pre + older + batch + rest, tracked) && older != [] && batch != []
    requires line' == pre + batch + older + rest
    ensures !Subsequence(line', tracked)
  {
    var x, y := older[0], batch[0];
    BeforeAcross(pre + older, batch, x, y);
    BeforeGrows(pre + older + batch, rest, x, y);
    BeforeAcross(pre + batch, older, y, x);
    BeforeGrows(pre + batch + older, rest, y, x);
    DisagreementShows(pre + older + batch + rest, line', tracked, x, y);
  }

  lemma OlderNotEmpty<E>(batches: seq<Batch<E>>)
    requires NoEmptyBatch(batches) && batches != []
    ensures Flying(batches) != []
  {
  }

  lemma OvertakingSuccess<E>(batchSize: nat, s: State<E>, i: nat)
    requires InOrder(s) && Distinct(s.tracked) && NoEmptyBatch(s.inFlight) && 0 < i < |s.inFlight|
    ensures !InOrder(Apply(batchSize, s, Succeed(i)))
  {
    FlyingAt(s.inFlight, i);
    OlderNotEmpty(s.inFlight[..i]);
    var older, batch, newer := Flying(s.inFlight[..i]), s.inFlight[i].events, Flying(s.inFlight[i + 1..]);
    Regroup(s.published, older, batch, newer, s.buffer);
    Overtaken(s.published, older, batch, newer + s.buffer, s.published + batch + (older + newer) + s.buffer, s.tracked);
  }

  lemma Regroup<E>(pre: seq<E>, older: seq<E>, batch: seq<E>, newer: seq<E>, buffer: seq<E>)
    ensures pre + (older + batch + newer) + buffer == pre + older + batch + (newer + buffer)
    ensures pre + batch + (older + newer) + buffer == pre + batch + older + (newer + buffer)
  {
  }

  lemma OvertakenFailure<E>(batchSize: nat, s: State<E>, i: nat)
    requires InOrder(s) && Distinct(s.tracked) && NoEmptyBatch(s.inFlight) && i < |s.inFlight| - 1 && batchSize > 0
    ensures !InOrder(Apply(batchSize, s, Fail(i)))
  {
    OlderNotEmpty(s.inFlight[i + 1..]);
    var older, batch, newer := Flying(s.inFlight[..i]), s.inFlight[i].events, Flying(s.inFlight[i + 1..]);
    var kept := Keep(3 * batchSize, batch + s.buffer);
    KeptFirst(3 * batchSize, batch, s.buffer);
    FailedLine(batchSize, s, i);
    PutBackBehind(s.published, older, batch, newer, s.buffer, kept, s.tracked);
  }

  lemma KeptFirst<E>(n: nat, batch: seq<E>, buffer: seq<E>)
    requires n > 0 && batch != []
    ensures Keep(n, batch + buffer) != [] && Keep(n, batch + buffer)[0] == batch[0]
  {
  }

  lemma FailedLine<E>(batchSize: nat, s: State<E>, i: nat)
    requires i < |s.inFlight|
    ensures var older, batch, newer := Flying(s.inFlight[..i]), s.inFlight[i].events, Flying(s.inFlight[i + 1..]);
            && Line(s) == s.published + (older + batch + newer) + s.buffer
            && Line(Apply(batchSize, s, Fail(i)))
               == s.published + (older + newer) + Keep(3 * batchSize, batch + s.buffer)
  {
    FlyingAt(s.inFlight, i);
  }

  /** Putting `batch` back behind newer batches shows by its first event. */
  lemma PutBackBehind<E>(pre: seq<E>, older: seq<E>, batch: seq<E>, newer: seq<E>, buffer: seq<E>, kept: seq<E>,
                         tracked: seq<E>)
    requires Distinct(tracked) && Subsequence(pre + (older + batch + newer) + buffer, tracked)
    requires batch != [] && newer != [] && kept != [] && kept[0] == batch[0]
    ensures !Subsequence(pre + (older + newer) + kept, tracked)
  {
    var x, y := batch[0], newer[0];
    Regroup(pre, older, batch, newer, buffer);
    BeforeAcross(pre + older + batch, newer + buffer, x, y);
    assert pre + (older + newer) + kept == pre + older + newer + kept;
    BeforeAcross(pre + older + newer, kept, y, x);
    DisagreementShows(pre + (older + batch + newer) + buffer, pre + (older + newer) + kept, tracked, x, y);
  }

  /** One step, from a state in order over distinct events, keeps the order if and only if
      it is orderly. */
  lemma StepOrder<E>(batchSize: nat, s: State<E>, step: Step<E>)
    requires InOrder(s) && Enabled(s, step) && Distinct(s.tracked) && NoEmptyBatch(s.inFlight) && batchSize > 0
    ensures InOrder(Apply(batchSize, s, step)) <==> Orderly(s, step)
  {
    if Orderly(s, step) {
      OrderlyStep(batchSize, s, step);
    } else if step.Succeed? {
      OvertakingSuccess(batchSize, s, step.batch);
    } else {
      OvertakenFailure(batchSize, s, step.batch);
    }
  }

  lemma {:induction false} BatchesNotEmpty<E>(batchSize: nat, steps: seq<Step<E>>)
    requires Run(batchSize, steps)
    ensures NoEmptyBatch(After(batchSize, steps).inFlight)
    decreases |steps|
  {
    if steps != [] { BatchesNotEmpty(batchSize, steps[..|steps| - 1]); }
  }

  /** In order after every step so far. */
  ghost predicate AlwaysInOrder<E>(batchSize: nat, steps: seq<Step<E>>)
    requires Run(batchSize, steps)
    decreases |steps|
  {
    steps == [] || (AlwaysInOrder(batchSize, steps[..|steps| - 1]) && InOrder(After(batchSize, steps)))
  }

  ghost predicate AlwaysOrderly<E>(batchSize: nat, steps: seq<Step<E>>)
    requires Run(batchSize, steps)
    decreases |steps|
  {
    steps == [] ||
    var k := |steps| - 1;
    AlwaysOrderly(batchSize, steps[..k]) && Orderly(After(batchSize, steps[..k]), steps[k])
  }

  lemma {:induction false} OrderlyRunInOrder<E>(batchSize: nat, steps: seq<Step<E>>)
    requires Run(batchSize, steps) && AlwaysOrderly(batchSize, steps)
    ensures AlwaysInOrder(batchSize, steps) && InOrder(After(batchSize, steps))
    decreases |steps|
  {
    if steps != [] {
      var k := |steps| - 1;
      OrderlyRunInOrder(batchSize, steps[..k]);
      OrderlyStep(batchSize, After(batchSize, steps[..k]), steps[k]);
    }
  }

  /** Over distinct events, a run is in order throughout if and only if every success is of
      the oldest batch in flight and every failure of the newest. */
  lemma {:induction false} OrderIffOrderly<E>(batchSize: nat, steps: seq<Step<E>>)
    requires Run(batchSize, steps) && batchSize > 0 && Distinct(After(batchSize, steps).tracked)
    ensures AlwaysInOrder(batchSize, steps) <==> AlwaysOrderly(batchSize, steps)
    decreases |steps|
  {
    if AlwaysOrderly(batchSize, steps) {
      OrderlyRunInOrder(batchSize, steps);
    } else {
      var k := |steps| - 1;
      var s := After(batchSize, steps[..k]);
      assert s.tracked <= After(batchSize, steps).tracked;
      OrderIffOrderly(batchSize, steps[..k]);
      if AlwaysInOrder(batchSize, steps) {
        OrderlyRunInOrder(batchSize, steps[..k]);
        BatchesNotEmpty(batchSize, steps[..k]);
        StepOrder(batchSize, s, steps[k]);
      }
    }
  }

  /** At no time are two batches being published. */
  ghost predicate OneAtATime<E>(batchSize: nat, steps: seq<Step<E>>)
    requires Run(batchSize, steps)
    decreases |steps|
  {
    steps == [] ||
    (OneAtATime(batchSize, steps[..|steps| - 1]) && |After(batchSize, steps).inFlight| <= 1)
  }

  /** With one flusher at a time the order is kept, for any events. */
  lemma {:induction false} OneAtATimeOrderly<E>(batchSize: nat, steps: seq<Step<E>>)
    requires Run(batchSize, steps) && OneAtATime(batchSize, steps)
    ensures AlwaysOrderly(batchSize, steps) && |After(batchSize, steps).inFlight| <= 1
    decreases |steps|
  {
    if steps != [] { OneAtATimeOrderly(batchSize, steps[..|steps| - 1]); }
  }

  lemma OrderKept<E>(batchSize: nat, steps: seq<Step<E>>)
    requires Run(batchSize, steps) && OneAtATime(batchSize, steps)
    ensures InOrder(After(batchSize, steps))
  {
    OneAtATimeOrderly(batchSize, steps);
    OrderlyRunInOrder(batchSize, steps);
  }

  /** The ticker alone never has two batches in flight: as long as no flush started by a
      full buffer has gone ahead, batches go out one at a time. */
  lemma {:induction false} TickerAlone<E>(batchSize: nat, steps: seq<Step<E>>)
    requires Run(batchSize, steps) && StartedTake !in steps
    ensures OneAtATime(batchSize, steps) && TickersOnly(After(batchSize, steps).inFlight)
    decreases |steps|
  {
    if steps != [] {
      var k := |steps| - 1;
      TickerAlone(batchSize, steps[..k]);
      assert steps[k] in steps;
      TickerStep(batchSize, After(batchSize, steps[..k]), steps[k]);
    }
  }

  ghost predicate TickersOnly<E>(inFlight: seq<Batch<E>>) {
    |inFlight| <= 1 && forall i :: 0 <= i < |inFlight| ==> inFlight[i].ticker
  }

  lemma TickerStep<E>(batchSize: nat, s: State<E>, step: Step<E>)
    requires Enabled(s, step) && step != StartedTake && TickersOnly(s.inFlight)
    ensures TickersOnly(Apply(batchSize, s, step).inFlight)
  {
    if s.inFlight != [] { assert s.inFlight[0].ticker; }
  }

  // ---- When flushes start ----

  /** Over every run a tracked event starts a flush if and only if it leaves the buffer full,
      be it that a failed batch has come back meanwhile. */
  lemma FullBufferStarts<E>(batchSize: nat, steps: seq<Step<E>>, e: E)
    requires Run(batchSize, steps)
    ensures Run(batchSize, steps + [Step.Track(e)])
    ensures var s, s' := After(batchSize, steps), After(batchSize, steps + [Step.Track(e)]);
            && (|s'.buffer| >= batchSize <==> s'.started == s.started + 1)
            && (|s'.buffer| < batchSize <==> s'.started == s.started)
            && s'.inFlight == s.inFlight && s'.buffer == s.buffer + [e]
  {
    RunNext(batchSize, steps, Step.Track(e));
  }

  // ---- Overlapping flushes ----

  lemma RunNext<E>(batchSize: nat, steps: seq<Step<E>>, step: Step<E>)
    requires Run(batchSize, steps) && Enabled(After(batchSize, steps), step)
    ensures Run(batchSize, steps + [step])
    ensures After(batchSize, steps + [step]) == Apply(batchSize, After(batchSize, steps), step)
  {
    assert (steps + [step])[..|steps|] == steps;
  }

  /** Tracking up to one batch of events into an empty buffer; the last of a full batch
      starts a flush. */
  lemma {:induction false} TrackAll<E>(batchSize: nat, steps: seq<Step<E>>, es: seq<E>) returns (r: seq<Step<E>>)
    requires Run(batchSize, steps) && After(batchSize, steps).buffer == [] && |es| <= batchSize && batchSize > 0
    ensures Run(batchSize, r)
    ensures var s := After(batchSize, steps);
            After(batchSize, r) == s.(tracked := s.tracked + es, buffer := es,
                                      started := s.started + if |es| == batchSize then 1 else 0)
    decreases |es|
  {
    var s := After(batchSize, steps);
    if es == [] {
      r := steps;
      assert s.tracked + es == s.tracked;
    } else {
      var k := |es| - 1;
      var r0 := TrackAll(batchSize, steps, es[..k]);
      RunNext(batchSize, r0, Track(es[k]));
      r := r0 + [Track(es[k])];
      assert es == es[..k] + [es[k]];
      assert s.tracked + es[..k] + [es[k]] == s.tracked + es;
    }
  }

  /** A full buffer filled and taken by the flush it started. */
  lemma FillAndTake<E>(batchSize: nat, steps: seq<Step<E>>, es: seq<E>) returns (r: seq<Step<E>>)
    requires Run(batchSize, steps) && |es| == batchSize > 0
    requires After(batchSize, steps).buffer == [] && After(batchSize, steps).started == 0
    ensures Run(batchSize, r)
    ensures var s := After(batchSize, steps);
            After(batchSize, r) == s.(tracked := s.tracked + es, inFlight := s.inFlight + [Batch(es, false)])
  {
    var r0 := TrackAll(batchSize, steps, es);
    RunNext(batchSize, r0, StartedTake);
    r := r0 + [StartedTake];
  }

  /** One more event, taken by the ticker. */
  lemma TickNext<E>(batchSize: nat, steps: seq<Step<E>>, e: E) returns (r: seq<Step<E>>)
    requires Run(batchSize, steps) && batchSize > 1
    requires var s := After(batchSize, steps); s.buffer == [] && !TickerBusy(s.inFlight)
    ensures Run(batchSize, r)
    ensures var s := After(batchSize, steps);
            After(batchSize, r) == s.(tracked := s.tracked + [e], inFlight := s.inFlight + [Batch([e], true)])
  {
    var s := After(batchSize, steps);
    RunNext(batchSize, steps, Step.Track(e));
    var r0 := steps + [Step.Track(e)];
    assert s.buffer + [e] == [e];
    RunNext(batchSize, r0, TickerTake);
    r := r0 + [TickerTake];
  }

  /** Of two batches in flight the second is published first. */
  lemma SecondFirst<E>(batchSize: nat, steps: seq<Step<E>>, x: Batch<E>, y: Batch<E>) returns (r: seq<Step<E>>)
    requires Run(batchSize, steps)
    requires After(batchSize, steps).inFlight == [x, y] && After(batchSize, steps).published == []
    ensures Run(batchSize, r)
    ensures After(batchSize, r).tracked == After(batchSize, steps).tracked
    ensures After(batchSize, r).published == y.events + x.events
  {
    RunNext(batchSize, steps, Succeed(1));
    var r0 := steps + [Succeed(1)];
    assert Without([x, y], 1) == [x];
    RunNext(batchSize, r0, Succeed(0));
    r := r0 + [Succeed(0)];
  }

  /** For every batch size and any two full batches of events: the flushes that the two full
      buffers start can overlap, and the later one can publish first. */
  lemma OverlapReorders<E>(batchSize: nat, a: seq<E>, b: seq<E>) returns (steps: seq<Step<E>>)
    requires |a| == |b| == batchSize > 0
    ensures Run(batchSize, steps)
    ensures After(batchSize, steps).tracked == a + b && After(batchSize, steps).published == b + a
  {
    var s1 := FillAndTake(batchSize, [], a);
    var s2 := FillAndTake(batchSize, s1, b);
    var none: seq<E> := [];
    assert none + a == a;
    steps := SecondFirst(batchSize, s2, Batch(a, false), Batch(b, false));
  }

  /** The ticker can overtake as well: a full batch is still under way when the ticker takes
      the next event and publishes it first. */
  lemma TickerOvertakes<E>(batchSize: nat, a: seq<E>, e: E) returns (steps: seq<Step<E>>)
    requires |a| == batchSize > 1
    ensures Run(batchSize, steps)
    ensures After(batchSize, steps).tracked == a + [e] && After(batchSize, steps).published == [e] + a
  {
    var s1 := FillAndTake(batchSize, [], a);
    var none: seq<E> := [];
    assert none + a == a;
    var s2 := TickNext(batchSize, s1, e);
    steps := SecondFirst(batchSize, s2, Batch(a, false), Batch([e], true));
  }
}
