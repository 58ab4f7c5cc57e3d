/**
 The search service as deployed: eight shards, documents published with the shard of their
 body's hash, one indexer and one reload-only searcher per shard.  Whatever few documents
 one thinks of can be in it: they are published, delivered to their shards, flushed and
 reloaded.
 */
module Deployment {
  import opened Ordering
  import opened Memory
  import opened Segment
  import opened EngineSpec
  import opened History
  import opened Placement
  import opened ExecutorSpec
  import opened EndToEnd
  import opened Searchers
  import Reload
  import Tokenizer

  // ---- Deployments ----

  /** Published events, the runs of the shards, and the order in which the executor walks
      them. */
  datatype Service = Service(maxSize: int, published: set<IngestEvent>, moves: seq<seq<Reload.Move>>, order: seq<int>)

  ghost predicate Serving(c: Codec, hash: string -> bytes, s: Service) {
    && UniqueIds(s.published) && StampedBy(s.published, hash)
    && |s.moves| == TOTAL_SHARDS && Runs(c, s.maxSize, s.moves) && Enumerates(s.order, TOTAL_SHARDS)
    && forall i :: 0 <= i < TOTAL_SHARDS ==> Delivering(s.moves[i], s.published, i)
  }

  /** What the executor sees of the searchers once each has reloaded everything. */
  ghost function ServiceViews(c: Codec, s: Service): seq<View>
    requires Runs(c, s.maxSize, s.moves) && Enumerates(s.order, |s.moves|)
  {
    ShardViews(c, Searcher(c, Worlds(c, s.maxSize, s.moves)), s.order)
  }

  // ---- A few documents ----

  /** A document to be: its id and its body; the title is empty. */
  datatype Note = Note(id: string, body: string)

  function DocOf(n: Note): Doc { Doc(n.id, Tokenizer.TermsOf(n.body)) }

  function DocsIn(tale: seq<Note>): (r: seq<Doc>)
    ensures |r| == |tale| && forall i :: 0 <= i < |r| ==> r[i] == DocOf(tale[i])
  {
    seq(|tale|, i requires 0 <= i < |tale| => DocOf(tale[i]))
  }

  function ShardFor(hash: string -> bytes, body: string): int { BigEndian(FirstEight(hash(body))) % TOTAL_SHARDS }

  function Published(hash: string -> bytes, n: Note): IngestEvent {
    IngestEvent(n.id, "", n.body, ShardFor(hash, n.body))
  }

  lemma EmptyTitle(n: Note, e: IngestEvent)
    requires e.title == "" && e.body == n.body
    ensures Tokenizer.TermsOf(Text(e)) == Tokenizer.TermsOf(n.body)
  {
    Tokenizer.TokenizeConcat("", n.body);
    assert Tokenizer.ToLower("") == "";
    assert Tokenizer.TermsOf("") == [];
    assert [] + Tokenizer.TermsOf(n.body) == Tokenizer.TermsOf(n.body);
  }

  /** The documents have different ids and some term each, and the segment of each alone is
      one the file system takes. */
  ghost predicate Tellable(c: Codec, tale: seq<Note>) {
    && (forall i, j :: 0 <= i < j < |tale| ==> tale[i].id != tale[j].id)
    && (forall i :: 0 <= i < |tale| ==> Writable(c, DocOf(tale[i])))
  }

  ghost predicate Writable(c: Codec, doc: Doc) {
    doc.terms != [] && |SegmentBytes(c, Snapshot(Added(map[], doc.id, doc.terms)))| < INT64
  }

  // ---- Indexing and flushing them ----

  /** Segment names as different as the numbers. */
  function SegmentName(k: nat): string { seq(k, _ => 'a') + ".spdx" }

  lemma SegmentNames(k: nat)
    ensures IsSegmentName(SegmentName(k)) && |SegmentName(k)| == k + 5
  {
    assert SegmentName(k)[k..] == ".spdx";
  }

  function Delivery(hash: string -> bytes, n: Note, k: nat): Reload.Move {
    Reload.Deliver(IndexDoc(n.id, Text(Published(hash, n)), FlushIO(SegmentName(k), Written, true)))
  }

  /** The moves of one shard: each of its documents is indexed and flushed at once. */
  function MovesOf(hash: string -> bytes, tale: seq<Note>, shard: int): seq<Reload.Move> {
    if tale == [] then []
    else
      var k := |tale| - 1;
      MovesOf(hash, tale[..k], shard)
      + if ShardFor(hash, tale[k].body) == shard then [Delivery(hash, tale[k], k)] else []
  }

  function DocsAt(hash: string -> bytes, tale: seq<Note>, shard: int): seq<Doc> {
    if tale == [] then []
    else
      var k := |tale| - 1;
      DocsAt(hash, tale[..k], shard) + if ShardFor(hash, tale[k].body) == shard then [DocOf(tale[k])] else []
  }

  /** Nothing in memory, everything delivered is flushed, and only so many names are taken. */
  ghost predicate AllFlushed(w: Reload.World, docs: seq<Doc>, names: nat) {
    && w.indexer.mem == map[] && w.indexer.size == 0 && w.hist == docs && w.flushed == docs
    && forall name :: name in w.indexer.dir ==> |name| < names + 5
  }

  /** With no threshold, a document is flushed as it is indexed. */
  lemma PersistedAlone(c: Codec, doc: Doc, io: FlushIO, dir: Directory)
    requires Lossless(c) && Writable(c, doc) && io.write.Written? && io.openOk
    ensures var out := Persisted(c, Snapshot(Added(map[], doc.id, doc.terms)), io, dir);
            out.1.Some? && io.name in out.0 && out.0 == dir[io.name := out.0[io.name]]
  {
    AloneNotEmpty(doc);
    WrittenOpens(c, io.name, Snapshot(Added(map[], doc.id, doc.terms)));
    PersistedFits(c, Snapshot(Added(map[], doc.id, doc.terms)), io, dir);
  }

  lemma AloneNotEmpty(doc: Doc)
    requires doc.terms != []
    ensures Snapshot(Added(map[], doc.id, doc.terms)) != []
  {
    var index := Added(map[], doc.id, doc.terms);
    SnapshotExact(index);
    assert doc.terms[0] in index;
  }

  lemma FlushedAtOnce(c: Codec, s: State, doc: Doc, text: string, io: FlushIO)
    requires Lossless(c) && Writable(c, doc) && io.write.Written? && io.openOk && s.mem == map[] && s.size == 0
    requires doc.terms == Tokenizer.TermsOf(text)
    ensures var s' := Step(c, 0, s, IndexDoc(doc.id, text, io));
            && s'.mem == map[] && s'.size == 0 && io.name in s'.dir && s'.dir == s.dir[io.name := s'.dir[io.name]]
  {
    AddedSizeGrows(doc.id, doc.terms);
    PersistedAlone(c, doc, io, s.dir);
    StepFlushes(c, s, doc, text, io);
    AttachedAlone(Recorded(s, doc.id, doc.terms), Persisted(c, Snapshot(Added(map[], doc.id, doc.terms)), io, s.dir));
  }

  lemma StepFlushes(c: Codec, s: State, doc: Doc, text: string, io: FlushIO)
    requires s.mem == map[] && s.size == 0 && doc.terms == Tokenizer.TermsOf(text) && AddedSize(doc.id, doc.terms) >= 0
    ensures Step(c, 0, s, IndexDoc(doc.id, text, io))
         == AfterPersist(Recorded(s, doc.id, doc.terms),
                         Persisted(c, Snapshot(Added(map[], doc.id, doc.terms)), io, s.dir))
  {
  }

  lemma DeliveryFlushed(c: Codec, w: Reload.World, docs: seq<Doc>, doc: Doc, text: string, k: nat)
    requires Lossless(c) && Writable(c, doc) && AllFlushed(w, docs, k) && doc.terms == Tokenizer.TermsOf(text)
    ensures var m := Reload.Deliver(IndexDoc(doc.id, text, FlushIO(SegmentName(k), Written, true)));
            Reload.FreshName(w, m) && AllFlushed(Reload.MoveOn(c, 0, w, m), docs + [doc], k + 1)
  {
    SegmentNames(k);
    FlushedAtOnce(c, w.indexer, doc, text, FlushIO(SegmentName(k), Written, true));
  }

  lemma {:induction false} ShardTold(c: Codec, hash: string -> bytes, tale: seq<Note>, shard: int)
    requires Lossless(c) && Tellable(c, tale)
    ensures Reload.Run(c, 0, MovesOf(hash, tale, shard))
    ensures AllFlushed(Reload.After(c, 0, MovesOf(hash, tale, shard)), DocsAt(hash, tale, shard), |tale|)
  {
    if tale != [] {
      var k := |tale| - 1;
      ShardTold(c, hash, tale[..k], shard);
      var moves := MovesOf(hash, tale[..k], shard);
      if ShardFor(hash, tale[k].body) == shard {
        EmptyTitle(tale[k], Published(hash, tale[k]));
        DeliveryFlushed(c, Reload.After(c, 0, moves), DocsAt(hash, tale[..k], shard), DocOf(tale[k]),
                        Text(Published(hash, tale[k])), k);
        Reload.RunNext(c, 0, moves, Delivery(hash, tale[k], k));
      } else {
        assert MovesOf(hash, tale, shard) == moves && DocsAt(hash, tale, shard) == DocsAt(hash, tale[..k], shard);
      }
    }
  }

  // ---- The service that holds them ----

  ghost function AllPublished(hash: string -> bytes, tale: seq<Note>): set<IngestEvent> {
    set n | n in tale :: Published(hash, n)
  }

  ghost function Told(hash: string -> bytes, tale: seq<Note>): Service {
    Service(0, AllPublished(hash, tale), seq(TOTAL_SHARDS, i => MovesOf(hash, tale, i)), seq(TOTAL_SHARDS, i => i))
  }

  lemma {:induction false} MovesDeliver(hash: string -> bytes, tale: seq<Note>, shard: int, published: set<IngestEvent>)
    requires forall n :: n in tale ==> Published(hash, n) in published
    ensures Delivering(MovesOf(hash, tale, shard), published, shard)
  {
    if tale != [] {
      var k := |tale| - 1;
      MovesDeliver(hash, tale[..k], shard, published);
      assert tale[k] in tale;
      assert Published(hash, tale[k]) in published;
    }
  }

  lemma {:induction false} DocsAtExact(hash: string -> bytes, tale: seq<Note>, shard: int)
    ensures forall x :: x in DocsAt(hash, tale, shard) <==>
              exists n :: n in tale && ShardFor(hash, n.body) == shard && x == DocOf(n)
  {
    if tale != [] {
      var k := |tale| - 1;
      DocsAtExact(hash, tale[..k], shard);
      forall x ensures x in DocsAt(hash, tale, shard) <==>
                       exists n :: n in tale && ShardFor(hash, n.body) == shard && x == DocOf(n)
      {
        DocsAtNext(hash, tale, k, shard, x);
      }
    }
  }

  lemma DocsAtNext(hash: string -> bytes, tale: seq<Note>, k: nat, shard: int, x: Doc)
    requires |tale| == k + 1
    requires x in DocsAt(hash, tale[..k], shard) <==>
             exists n :: n in tale[..k] && ShardFor(hash, n.body) == shard && x == DocOf(n)
    ensures x in DocsAt(hash, tale, shard)
            <==> exists n :: n in tale && ShardFor(hash, n.body) == shard && x == DocOf(n)
  {
    assert tale == tale[..k] + [tale[k]];
    assert tale[k] in tale;
  }

  lemma IdsUnique(c: Codec, hash: string -> bytes, tale: seq<Note>)
    requires Tellable(c, tale)
    ensures UniqueIds(AllPublished(hash, tale))
  {
    forall e, f | e in AllPublished(hash, tale) && f in AllPublished(hash, tale) && e.docID == f.docID ensures e == f {
      var m :| m in tale && e == Published(hash, m);
      var n :| n in tale && f == Published(hash, n);
      var i :| 0 <= i < |tale| && tale[i] == m;
      var j :| 0 <= j < |tale| && tale[j] == n;
      assert i == j;
    }
  }

  /** Any such documents are what some deployment has flushed. */
  lemma TaleIsServed(c: Codec, hash: string -> bytes, tale: seq<Note>)
    requires Lossless(c) && Tellable(c, tale)
    ensures Serving(c, hash, Told(hash, tale))
    ensures FlushedTogether(Worlds(c, 0, Told(hash, tale).moves), DocsIn(tale))
  {
    IdsUnique(c, hash, tale);
    InOrder(TOTAL_SHARDS);
    ShardsRun(c, hash, tale);
    TaleFlushed(c, hash, tale);
  }

  lemma InOrder(n: nat)
    ensures Enumerates(seq(n, i => i), n)
  {
    var order := seq(n, i => i);
    forall i ensures i in order <==> 0 <= i < n {
      if 0 <= i < n { assert order[i] == i; }
    }
  }

  lemma ShardsRun(c: Codec, hash: string -> bytes, tale: seq<Note>)
    requires Lossless(c) && Tellable(c, tale)
    ensures var s := Told(hash, tale);
            Runs(c, 0, s.moves) && forall i :: 0 <= i < TOTAL_SHARDS ==> Delivering(s.moves[i], s.published, i)
  {
    var s := Told(hash, tale);
    forall i | 0 <= i < TOTAL_SHARDS
      ensures Reload.Run(c, 0, s.moves[i]) && Delivering(s.moves[i], s.published, i)
    {
      ShardTold(c, hash, tale, i);
      MovesDeliver(hash, tale, i, s.published);
    }
  }

  lemma TaleFlushed(c: Codec, hash: string -> bytes, tale: seq<Note>)
    requires Lossless(c) && Tellable(c, tale) && Runs(c, 0, Told(hash, tale).moves)
    ensures FlushedTogether(Worlds(c, 0, Told(hash, tale).moves), DocsIn(tale))
  {
    var ws := Worlds(c, 0, Told(hash, tale).moves);
    forall i | 0 <= i < TOTAL_SHARDS ensures ws[i].flushed == DocsAt(hash, tale, i) { ShardTold(c, hash, tale, i); }
    AllTogether(hash, tale, ws);
  }

  lemma AllTogether(hash: string -> bytes, tale: seq<Note>, ws: seq<Reload.World>)
    requires |ws| == TOTAL_SHARDS && forall i :: 0 <= i < TOTAL_SHARDS ==> ws[i].flushed == DocsAt(hash, tale, i)
    ensures FlushedTogether(ws, DocsIn(tale))
  {
    forall x ensures x in DocsIn(tale) <==> exists i :: 0 <= i < |ws| && x in ws[i].flushed {
      FlushedSomewhere(hash, tale, ws, x);
    }
  }

  lemma FlushedSomewhere(hash: string -> bytes, tale: seq<Note>, ws: seq<Reload.World>, x: Doc)
    requires |ws| == TOTAL_SHARDS && forall i :: 0 <= i < TOTAL_SHARDS ==> ws[i].flushed == DocsAt(hash, tale, i)
    ensures x in DocsIn(tale) <==> exists i :: 0 <= i < |ws| && x in ws[i].flushed
  {
    if x in DocsIn(tale) {
      var j :| 0 <= j < |tale| && DocsIn(tale)[j] == x;
      assert tale[j] in tale;
      var i := ShardFor(hash, tale[j].body);
      DocsAtExact(hash, tale, i);
      assert x in ws[i].flushed;
    }
    if i :| 0 <= i < |ws| && x in ws[i].flushed {
      DocsAtExact(hash, tale, i);
      var n :| n in tale && ShardFor(hash, n.body) == i && x == DocOf(n);
      var j :| 0 <= j < |tale| && tale[j] == n;
      assert DocsIn(tale)[j] == x;
    }
  }

  // ---- The engine that indexes them ----

  function EventsIn(tale: seq<Note>): (events: seq<Event>)
    ensures |events| == |tale|
  {
    if tale == [] then []
    else
      var k := |tale| - 1;
      EventsIn(tale[..k]) + [IndexDoc(tale[k].id, tale[k].body, FlushIO("", NotCreated, false))]
  }

  lemma {:induction false} TaleDelivered(tale: seq<Note>)
    ensures Delivered(EventsIn(tale)) == DocsIn(tale)
  {
    if tale != [] {
      var k := |tale| - 1;
      TaleDelivered(tale[..k]);
      DeliveredAppend(EventsIn(tale[..k]), IndexDoc(tale[k].id, tale[k].body, FlushIO("", NotCreated, false)));
      DocsInNext(tale, k);
    }
  }

  lemma DocsInNext(tale: seq<Note>, k: nat)
    requires |tale| == k + 1
    ensures DocsIn(tale) == DocsIn(tale[..k]) + [DocOf(tale[k])]
  {
  }
}
