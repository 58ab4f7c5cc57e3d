/**
 Where documents live: the publisher's shard assignment, the router's engines, and the
 consumer that routes a delivered event before indexing it.  Delivery is at least once
 and in any order.
 */
module Placement {
  import opened Ordering
  import opened Memory
  import opened Segment
  import opened EngineSpec
  import opened History
  import Tokenizer

  const TOTAL_SHARDS: nat := 8
  const UINT64: nat := 0x1_0000_0000_0000_0000

  // ---- assignShard ----

  function BigEndian(b: bytes): nat {
    if b == [] then 0 else 256 * BigEndian(b[..|b| - 1]) + b[|b| - 1]
  }

  function FirstEight(hash: bytes): (r: bytes)
    ensures r <= hash && |r| == if |hash| < 8 then |hash| else 8
  {
    if |hash| < 8 then hash else hash[..8]
  }

  lemma {:induction false} BigEndianFits(b: bytes)
    ensures BigEndian(b) < Pow256(|b|)
  {
    if b != [] { BigEndianFits(b[..|b| - 1]); }
  }

  /** Read in base 256 the number's digits are the bytes, the first one leading. */
  lemma {:induction false} BigEndianDigits(b: bytes, i: nat)
    requires i < |b|
    ensures Pow256(|b| - 1 - i) > 0 && (BigEndian(b) / Pow256(|b| - 1 - i)) % 256 == b[i]
    decreases |b|
  {
    var n := |b| - 1;
    var q := BigEndian(b[..n]);
    if i < n {
      BigEndianDigits(b[..n], i);
      DropDigit(q, b[n], Pow256(n - 1 - i));
    }
  }

  lemma DropDigit(q: nat, r: nat, p: nat)
    requires r < 256 && p > 0
    ensures (256 * q + r) / (256 * p) == q / p
  {
    var u, v := q / p, q % p;
    assert 256 * q + r == (256 * p) * u + (256 * v + r);
    assert 256 * v + r < 256 * p;
    QuotientIs(256 * q + r, 256 * p, u, 256 * v + r);
  }

  lemma QuotientIs(x: nat, m: nat, u: nat, r: nat)
    requires m > 0 && x == m * u + r && r < m
    ensures x / m == u
  {
    RemainderIs(x, m, u, r);
    assert m * (x / m) == m * u;
    SameFactor(m, x / m, u);
  }

  lemma SameFactor(m: nat, a: nat, b: nat)
    requires m > 0 && m * a == m * b
    ensures a == b
  {
    if a < b { Product(m, b - a); }
    if b < a { Product(m, a - b); }
  }

  /** The 64-bit accumulator loop.  The shift leaves the low byte clear, so `|` adds; the
      top byte would be cut off by 64 bits, and never is within eight rounds. */
  method AssignShard(hash: bytes, numShards: nat) returns (shard: nat)
    requires numShards > 0
    ensures shard == BigEndian(FirstEight(hash)) % numShards
    ensures shard < numShards
    ensures numShards == 8 && |hash| >= 8 ==> shard == hash[7] % 8
  {
    WidthBounds();
    var acc := 0;
    var i := 0;
    while i < 8 && i < |hash|
      invariant 0 <= i <= 8 && i <= |hash|
      invariant acc == BigEndian(hash[..i]) < Pow256(i)
    {
      assert hash[..i + 1][..i] == hash[..i];
      PowBound(i + 1);
      BigEndianFits(hash[..i + 1]);
      acc := (acc * 256) % UINT64 + hash[i];
      i := i + 1;
    }
    assert hash[..i] == FirstEight(hash);
    if numShards == 8 && |hash| >= 8 { LastByteDecides(hash[..8]); }
    shard := acc % numShards;
  }

  lemma PowBound(k: nat)
    requires k <= 8
    ensures Pow256(k) <= UINT64
    decreases 8 - k
  {
    if k < 8 { PowBound(k + 1); } else { WidthBounds(); }
  }

  lemma LastByteDecides(b: bytes)
    requires |b| > 0
    ensures BigEndian(b) % 8 == b[|b| - 1] % 8
  {
    var q := BigEndian(b[..|b| - 1]);
    assert BigEndian(b) == 8 * (32 * q) + b[|b| - 1];
  }

  /** Content hashes are printed in lower-case hexadecimal, so the eighth byte is one of
      sixteen digits, and these do not spread evenly: shard 1 takes three digits, shard 7
      one, every other shard two. */
  lemma HexDigitsPerShard(c: byte)
    requires '0' as int <= c <= '9' as int || 'a' as int <= c <= 'f' as int
    ensures c % 8 == 1 <==> c in {'1' as int, '9' as int, 'a' as int}
    ensures c % 8 == 7 <==> c == '7' as int
    ensures c % 8 == 0 <==> c in {'0' as int, '8' as int}
    ensures c % 8 == 2 <==> c in {'2' as int, 'b' as int}
    ensures c % 8 == 3 <==> c in {'3' as int, 'c' as int}
    ensures c % 8 == 4 <==> c in {'4' as int, 'd' as int}
    ensures c % 8 == 5 <==> c in {'5' as int, 'e' as int}
    ensures c % 8 == 6 <==> c in {'6' as int, 'f' as int}
  {
  }

  // ---- Delivered events ----

  datatype IngestEvent = IngestEvent(docID: string, title: string, body: string, shardID: int)

  function Text(e: IngestEvent): string { e.title + " " + e.body }

  /** What reaches the router: a delivery, or a flush of some shard's engine. */
  datatype Arrival = Deliver(event: IngestEvent, io: FlushIO) | FlushShard(shard: int, io: FlushIO)

  /** `HandleMessageSharded` and `FlushAll` on the router's engines: an event for an
      unknown shard is refused, every other one is indexed by its shard's engine alone. */
  ghost function Handled(c: Codec, maxSize: int, engines: seq<State>, a: Arrival): (r: seq<State>)
    ensures |r| == |engines|
  {
    var i := ShardOf(a);
    if 0 <= i < |engines| then engines[i := Step(c, maxSize, engines[i], EventOf(a))] else engines
  }

  function ShardOf(a: Arrival): int {
    match a
    case Deliver(e, _) => e.shardID
    case FlushShard(i, _) => i
  }

  /** What the arrival is to the engine it is for. */
  function EventOf(a: Arrival): Event {
    match a
    case Deliver(e, io) => IndexDoc(e.docID, Text(e), io)
    case FlushShard(_, io) => FlushNow(io)
  }

  function NewEngines(n: nat): seq<State> { seq(n, _ => EMPTY) }

  ghost function Routed(c: Codec, maxSize: int, n: nat, arrivals: seq<Arrival>): (r: seq<State>)
    ensures |r| == n
  {
    if arrivals == [] then NewEngines(n)
    else
      var k := |arrivals| - 1;
      Handled(c, maxSize, Routed(c, maxSize, n, arrivals[..k]), arrivals[k])
  }

  /** What one shard's engine gets to see of the arrivals. */
  function EventsFor(arrivals: seq<Arrival>, shard: int): seq<Event> {
    if arrivals == [] then []
    else
      var k := |arrivals| - 1;
      EventsFor(arrivals[..k], shard) + EventsOf(arrivals[k], shard)
  }

  function EventsOf(a: Arrival, shard: int): seq<Event> { if ShardOf(a) == shard then [EventOf(a)] else [] }

  /** Routing isolates shards: each engine is exactly where a run of its own events
      would have brought it. */
  lemma {:induction false} RoutingIsolates(c: Codec, maxSize: int, n: nat, arrivals: seq<Arrival>, i: nat)
    requires i < n
    ensures Routed(c, maxSize, n, arrivals)[i] == Run(c, maxSize, EventsFor(arrivals, i))
    decreases |arrivals|
  {
    if arrivals != [] {
      var k := |arrivals| - 1;
      RoutingIsolates(c, maxSize, n, arrivals[..k], i);
      HandledOne(c, maxSize, Routed(c, maxSize, n, arrivals[..k]), arrivals[k], EventsFor(arrivals[..k], i), i);
    }
  }

  /** One arrival, seen from shard `i`. */
  lemma HandledOne(c: Codec, maxSize: int, engines: seq<State>, a: Arrival, before: seq<Event>, i: nat)
    requires i < |engines| && engines[i] == Run(c, maxSize, before)
    ensures Handled(c, maxSize, engines, a)[i] == Run(c, maxSize, before + EventsOf(a, i))
  {
    HandledAt(c, maxSize, engines, a, i);
    if EventsOf(a, i) == [] {
      assert before + EventsOf(a, i) == before;
    } else {
      RunNext(c, maxSize, before, EventsOf(a, i)[0]);
    }
  }

  lemma HandledAt(c: Codec, maxSize: int, engines: seq<State>, a: Arrival, i: nat)
    requires i < |engines|
    ensures Handled(c, maxSize, engines, a)[i]
         == if EventsOf(a, i) == [] then engines[i] else Step(c, maxSize, engines[i], EventsOf(a, i)[0])
  {
  }

  lemma RunNext(c: Codec, maxSize: int, events: seq<Event>, e: Event)
    ensures Run(c, maxSize, events + [e]) == Step(c, maxSize, Run(c, maxSize, events), e)
  {
    assert (events + [e])[..|events|] == events;
  }

  // ---- Each document in one shard ----

  datatype Placed = Placed(doc: Doc, shard: int)

  function PlacedOf(arrivals: seq<Arrival>): seq<Placed> {
    if arrivals == [] then []
    else
      var k := |arrivals| - 1;
      PlacedOf(arrivals[..k]) + PlacedBy(arrivals[k])
  }

  function PlacedBy(a: Arrival): seq<Placed> {
    match a
    case Deliver(e, _) => [Placed(Doc(e.docID, Tokenizer.TermsOf(Text(e))), e.shardID)]
    case FlushShard(_, _) => []
  }

  function InShards(placed: seq<Placed>, shards: set<int>): seq<Doc> {
    if placed == [] then []
    else
      var k := |placed| - 1;
      InShards(placed[..k], shards) + if placed[k].shard in shards then [placed[k].doc] else []
  }

  lemma {:induction false} DeliveredToShard(arrivals: seq<Arrival>, i: int)
    ensures Delivered(EventsFor(arrivals, i)) == InShards(PlacedOf(arrivals), {i})
    decreases |arrivals|
  {
    if arrivals != [] {
      var k := |arrivals| - 1;
      DeliveredToShard(arrivals[..k], i);
      DeliveredNext(EventsFor(arrivals[..k], i), arrivals[k], i);
      InShardNext(PlacedOf(arrivals[..k]), arrivals[k], i);
    }
  }

  /** The document an arrival brings to a shard, if any. */
  function DocsFor(a: Arrival, shard: int): seq<Doc> {
    if a.Deliver? && a.event.shardID == shard then [Doc(a.event.docID, Tokenizer.TermsOf(Text(a.event)))] else []
  }

  lemma DeliveredNext(before: seq<Event>, a: Arrival, i: int)
    ensures Delivered(before + EventsOf(a, i)) == Delivered(before) + DocsFor(a, i)
  {
    if ShardOf(a) == i {
      assert (before + [EventOf(a)])[..|before|] == before;
    } else {
      assert before + EventsOf(a, i) == before;
    }
  }

  lemma InShardNext(before: seq<Placed>, a: Arrival, i: int)
    ensures InShards(before + PlacedBy(a), {i}) == InShards(before, {i}) + DocsFor(a, i)
  {
    if a.Deliver? {
      assert (before + PlacedBy(a))[..|before|] == before;
    } else {
      assert before + PlacedBy(a) == before;
    }
  }

  /** The primary key: one published event per document id. */
  ghost predicate UniqueIds(published: set<IngestEvent>) {
    forall e, f :: e in published && f in published && e.docID == f.docID ==> e == f
  }

  /** Any order, any number of times, possibly never. */
  ghost predicate DeliversOnly(arrivals: seq<Arrival>, published: set<IngestEvent>) {
    forall i :: 0 <= i < |arrivals| && arrivals[i].Deliver? ==> arrivals[i].event in published
  }

  ghost predicate PlacedFrom(placed: seq<Placed>, published: set<IngestEvent>) {
    forall p :: p in placed ==>
      exists e :: e in published && p == Placed(Doc(e.docID, Tokenizer.TermsOf(Text(e))), e.shardID)
  }

  lemma {:induction false} PlacedArePublished(arrivals: seq<Arrival>, published: set<IngestEvent>)
    requires DeliversOnly(arrivals, published)
    ensures PlacedFrom(PlacedOf(arrivals), published)
    decreases |arrivals|
  {
    if arrivals != [] {
      var k := |arrivals| - 1;
      PlacedArePublished(arrivals[..k], published);
      forall p | p in PlacedOf(arrivals)
        ensures exists e :: e in published && p == Placed(Doc(e.docID, Tokenizer.TermsOf(Text(e))), e.shardID)
      {
        if p !in PlacedOf(arrivals[..k]) { assert arrivals[k].event in published; }
      }
    }
  }

  /** One id, one content, one shard. */
  ghost predicate Functional(placed: seq<Placed>) {
    forall p, q :: p in placed && q in placed && p.doc.id == q.doc.id ==> p == q
  }

  lemma PlacedFunctional(placed: seq<Placed>, published: set<IngestEvent>)
    requires PlacedFrom(placed, published) && UniqueIds(published)
    ensures Functional(placed)
  {
    forall p, q | p in placed && q in placed && p.doc.id == q.doc.id ensures p == q {
      var e :| e in published && p == Placed(Doc(e.docID, Tokenizer.TermsOf(Text(e))), e.shardID);
      var f :| f in published && q == Placed(Doc(f.docID, Tokenizer.TermsOf(Text(f))), f.shardID);
      assert e == f;
    }
  }

  lemma {:induction false} InShardsExact(placed: seq<Placed>, shards: set<int>)
    ensures forall d :: d in InShards(placed, shards) <==> exists p :: p in placed && p.doc == d && p.shard in shards
  {
    if placed != [] {
      var k := |placed| - 1;
      InShardsExact(placed[..k], shards);
      forall d ensures d in InShards(placed, shards) <==> exists p :: p in placed && p.doc == d && p.shard in shards {
        InShardsNext(placed, shards, d);
      }
    }
  }

  lemma InShardsNext(placed: seq<Placed>, shards: set<int>, d: Doc)
    requires placed != []
    requires d in InShards(placed[..|placed| - 1], shards) <==>
             exists p :: p in placed[..|placed| - 1] && p.doc == d && p.shard in shards
    ensures d in InShards(placed, shards) <==> exists p :: p in placed && p.doc == d && p.shard in shards
  {
    var k := |placed| - 1;
    if exists p :: p in placed && p.doc == d && p.shard in shards {
      var p :| p in placed && p.doc == d && p.shard in shards;
      if p != placed[k] { assert p in placed[..k]; }
    }
    if d in InShards(placed[..k], shards) {
      var p :| p in placed[..k] && p.doc == d && p.shard in shards;
      assert p in placed;
    }
  }

  /** Through any redelivery order every document lives in the one shard its event names,
      and no two shards share a document id. */
  lemma OneShardPerDocument(arrivals: seq<Arrival>, published: set<IngestEvent>, i: int, j: int)
    requires DeliversOnly(arrivals, published) && UniqueIds(published) && i != j
    ensures var hi, hj := Delivered(EventsFor(arrivals, i)), Delivered(EventsFor(arrivals, j));
            && Consistent(hi)
            && forall x, y :: x in hi && y in hj ==> x.id != y.id
  {
    var placed := PlacedOf(arrivals);
    PlacedArePublished(arrivals, published);
    PlacedFunctional(placed, published);
    DeliveredToShard(arrivals, i);
    DeliveredToShard(arrivals, j);
    InShardsExact(placed, {i});
    InShardsExact(placed, {j});
    ShardsApart(placed, i, j);
  }

  lemma ShardsApart(placed: seq<Placed>, i: int, j: int)
    requires Functional(placed)
    ensures Consistent(InShards(placed, {i}))
    ensures i != j ==> forall x, y :: x in InShards(placed, {i}) && y in InShards(placed, {j}) ==> x.id != y.id
  {
    InShardsExact(placed, {i});
    InShardsExact(placed, {j});
    forall x, y | x in InShards(placed, {i}) && y in InShards(placed, {i}) && x.id == y.id ensures x == y {
      var p :| p in placed && p.doc == x && p.shard in {i};
      var q :| q in placed && q.doc == y && q.shard in {i};
    }
    forall x, y | i != j && x in InShards(placed, {i}) && y in InShards(placed, {j}) ensures x.id != y.id {
      var p :| p in placed && p.doc == x && p.shard in {i};
      var q :| q in placed && q.doc == y && q.shard in {j};
    }
  }

  /** The publisher stamps each event with the shard of its body's hash. */
  ghost predicate StampedBy(published: set<IngestEvent>, hash: string -> bytes) {
    forall e :: e in published ==> e.shardID == BigEndian(FirstEight(hash(e.body))) % TOTAL_SHARDS
  }

  /** Every stamped event is routable on a router of eight shards, and two events with the
      same body go to the same shard. */
  lemma StampedRoutable(published: set<IngestEvent>, hash: string -> bytes, e: IngestEvent, f: IngestEvent)
    requires StampedBy(published, hash) && e in published && f in published
    ensures 0 <= e.shardID < TOTAL_SHARDS
    ensures |hash(e.body)| >= 8 ==> e.shardID == hash(e.body)[7] % 8
    ensures e.body == f.body ==> e.shardID == f.shardID
  {
    if |hash(e.body)| >= 8 { LastByteDecides(hash(e.body)[..8]); }
  }
}
