/**
 The engine refines its history.  A run indexes documents and flushes at arbitrary
 points, with writes and opens that may fail; whatever the timing, `Search` answers
 from the documents indexed so far.  No freshness of ids is assumed: a document that
 was delivered several times is found through every term of every version, and when
 redeliveries carry identical content the answer is exactly one posting per document
 that contains the term.
 */
module History {
  import opened Ordering
  import opened Memory
  import opened Segment
  import opened EngineSpec
  import Tokenizer

  /** A delivered document: its id and the terms of its text. */
  datatype Doc = Doc(id: string, terms: seq<string>)

  datatype Event = IndexDoc(id: string, text: string, io: FlushIO) | FlushNow(io: FlushIO)

  const EMPTY := State(map[], 0, 0, [], map[], 0, 0, map[])

  ghost function Step(c: Codec, maxSize: int, s: State, e: Event): State {
    match e
    case IndexDoc(id, text, io) => Indexed(c, maxSize, s, id, text, io)
    case FlushNow(io) => Flushed(c, s, io)
  }

  ghost function Run(c: Codec, maxSize: int, events: seq<Event>): State {
    if events == [] then EMPTY
    else Step(c, maxSize, Run(c, maxSize, events[..|events| - 1]), events[|events| - 1])
  }

  /** The documents a run delivers, in order. */
  function Delivered(events: seq<Event>): seq<Doc> {
    if events == [] then []
    else
      var n := |events| - 1;
      Delivered(events[..n]) + DeliveredBy(events[n])
  }

  // ---- What the stored postings have to do with the history ----

  /** `p` is the posting of some delivered version for term `t`. */
  ghost predicate Justified(hist: seq<Doc>, t: string, p: Posting) {
    exists doc :: doc in hist && t in doc.terms && p == PostingFor(doc.id, doc.terms, t)
  }

  ghost predicate Sound(index: Index, hist: seq<Doc>) {
    && WellFormed(index)
    && forall t, d :: t in index && d in index[t] ==> Justified(hist, t, index[t][d])
  }

  /** A reader answers every term with the listing of a memory index. */
  ghost predicate Serves(c: Codec, r: Reader, index: Index) {
    && KeySorted(DictKey, r.dict)
    && forall t :: Lookup(c, r, t) == Ok(Listing(Docs(index, t)))
  }

  /** Each reader serves a sound memory index. */
  ghost predicate Aligned(c: Codec, readers: seq<Reader>, snaps: seq<Index>, hist: seq<Doc>) {
    && |readers| == |snaps|
    && forall i :: 0 <= i < |snaps| ==>
         Sound(snaps[i], hist) && Serves(c, readers[i], snaps[i])
  }

  ghost predicate InSnaps(snaps: seq<Index>, t: string, d: string) {
    exists i :: 0 <= i < |snaps| && d in Docs(snaps[i], t)
  }

  ghost predicate Complete(mem: Index, snaps: seq<Index>, hist: seq<Doc>) {
    forall doc, t :: doc in hist && t in doc.terms ==> doc.id in Docs(mem, t) || InSnaps(snaps, t, doc.id)
  }

  ghost predicate Reflects(c: Codec, s: State, snaps: seq<Index>, hist: seq<Doc>) {
    Sound(s.mem, hist) && Aligned(c, s.readers, snaps, hist) && Complete(s.mem, snaps, hist)
  }

  // ---- Steps keep it ----

  lemma JustifiedGrows(hist: seq<Doc>, doc: Doc, t: string, p: Posting)
    requires Justified(hist, t, p)
    ensures Justified(hist + [doc], t, p)
  {
    var d :| d in hist && t in d.terms && p == PostingFor(d.id, d.terms, t);
    assert d in hist + [doc];
  }

  lemma SoundGrows(index: Index, hist: seq<Doc>, doc: Doc)
    requires Sound(index, hist)
    ensures Sound(index, hist + [doc])
  {
    forall t, d | t in index && d in index[t] ensures Justified(hist + [doc], t, index[t][d]) {
      JustifiedGrows(hist, doc, t, index[t][d]);
    }
  }

  lemma AlignedGrows(c: Codec, readers: seq<Reader>, snaps: seq<Index>, hist: seq<Doc>, doc: Doc)
    requires Aligned(c, readers, snaps, hist)
    ensures Aligned(c, readers, snaps, hist + [doc])
  {
    forall i | 0 <= i < |snaps| ensures Sound(snaps[i], hist + [doc]) {
      SoundGrows(snaps[i], hist, doc);
    }
  }

  lemma AddedSound(index: Index, hist: seq<Doc>, doc: Doc)
    requires Sound(index, hist)
    ensures Sound(Added(index, doc.id, doc.terms), hist + [doc])
  {
    var r := Added(index, doc.id, doc.terms);
    AddedWellFormed(index, doc.id, doc.terms);
    forall t, d | t in r && d in r[t] ensures Justified(hist + [doc], t, r[t][d]) {
      assert Docs(r, t) == r[t];
      if t in doc.terms && d == doc.id {
        assert doc in hist + [doc];
      } else {
        assert d in index[t] && r[t][d] == index[t][d];
        JustifiedGrows(hist, doc, t, index[t][d]);
      }
    }
  }

  /** Adding a document keeps every posting key and adds those of its own terms. */
  lemma AddedComplete(mem: Index, snaps: seq<Index>, hist: seq<Doc>, doc: Doc)
    requires WellFormed(mem) && Complete(mem, snaps, hist)
    ensures Complete(Added(mem, doc.id, doc.terms), snaps, hist + [doc])
  {
    AddedWellFormed(mem, doc.id, doc.terms);
    var r := Added(mem, doc.id, doc.terms);
    forall x, t | x in hist + [doc] && t in x.terms
      ensures x.id in Docs(r, t) || InSnaps(snaps, t, x.id)
    {
      if x in hist { assert x.id in Docs(mem, t) || InSnaps(snaps, t, x.id); }
    }
  }

  lemma RecordedReflects(c: Codec, s: State, snaps: seq<Index>, hist: seq<Doc>, doc: Doc)
    requires Reflects(c, s, snaps, hist)
    ensures Reflects(c, Recorded(s, doc.id, doc.terms), snaps, hist + [doc])
  {
    AddedSound(s.mem, hist, doc);
    AlignedGrows(c, s.readers, snaps, hist, doc);
    AddedComplete(s.mem, snaps, hist, doc);
  }

  /** Through bytes and back: the file written from a memory index serves that index. */
  lemma WrittenServes(c: Codec, r: Reader, index: Index)
    requires Lossless(c) && OpensAs(c, r, r.name, Snapshot(index))
    ensures Serves(c, r, index)
  {
    SnapshotExact(index);
    DictSorted(c, Snapshot(index));
    forall t ensures Lookup(c, r, t) == Ok(Listing(Docs(index, t))) {
      EntriesServe(c, r, Snapshot(index), index, t);
    }
  }

  lemma EntriesServe(c: Codec, r: Reader, entries: seq<TermEntry>, index: Index, t: string)
    requires Lossless(c) && OpensAs(c, r, r.name, entries)
    requires KeySorted(TermKey, entries) && Lists(TermKey, EntryMap(index), entries)
    ensures Lookup(c, r, t) == Ok(Listing(Docs(index, t)))
  {
    SegmentRoundTrip(c, r.name, entries, r, t);
    EntriesHold(entries, index, t);
    HoldsUnique(entries, t, Lookup(c, r, t).value, Listing(Docs(index, t)));
  }

  lemma EntriesHold(entries: seq<TermEntry>, index: Index, t: string)
    requires Lists(TermKey, EntryMap(index), entries)
    ensures Holds(entries, t, Listing(Docs(index, t)))
  {
    if t in index {
      assert EntryMap(index)[t] in entries;
    }
  }

  /** A reader made by a flush serves the memory index it replaces. */
  lemma PersistedServes(c: Codec, mem: Index, io: FlushIO, dir: Directory)
    requires Lossless(c) && Persisted(c, Snapshot(mem), io, dir).1.Some?
    ensures Serves(c, Persisted(c, Snapshot(mem), io, dir).1.value, mem)
  {
    WrittenOpens(c, io.name, Snapshot(mem));
    ReaderIs(c, Snapshot(mem), io, dir);
    WrittenServes(c, Persisted(c, Snapshot(mem), io, dir).1.value, mem);
  }

  lemma ReaderIs(c: Codec, snap: seq<TermEntry>, io: FlushIO, dir: Directory)
    requires Persisted(c, snap, io, dir).1.Some?
    ensures |SegmentBytes(c, snap)| < INT64
    ensures OpenReader(c, io.name, SegmentBytes(c, snap)) == Ok(Persisted(c, snap, io, dir).1.value)
  {
  }

  lemma FlushMoves(mem: Index, snaps: seq<Index>, hist: seq<Doc>)
    requires Complete(mem, snaps, hist)
    ensures Complete(map[], snaps + [mem], hist)
  {
    forall doc, t | doc in hist && t in doc.terms ensures InSnaps(snaps + [mem], t, doc.id) {
      if InSnaps(snaps, t, doc.id) {
        var i :| 0 <= i < |snaps| && doc.id in Docs(snaps[i], t);
        assert (snaps + [mem])[i] == snaps[i];
      } else {
        assert (snaps + [mem])[|snaps|] == mem;
      }
    }
  }

  lemma PersistReflects(c: Codec, s: State, snaps: seq<Index>, hist: seq<Doc>, out: (Directory, Option<Reader>))
    returns (snaps': seq<Index>)
    requires Reflects(c, s, snaps, hist)
    requires out.1.Some? ==> Serves(c, out.1.value, s.mem)
    ensures Reflects(c, AfterPersist(s, out), snaps', hist)
  {
    if out.1.None? {
      snaps' := snaps;
    } else {
      snaps' := snaps + [s.mem];
      FlushMoves(s.mem, snaps, hist);
      AttachAligned(c, s.readers, snaps, hist, out.1.value, s.mem);
    }
  }

  /** A flush that succeeds moves memory into a reader; one that fails changes nothing. */
  lemma FlushedReflects(c: Codec, s: State, snaps: seq<Index>, hist: seq<Doc>, io: FlushIO) returns (snaps': seq<Index>)
    requires Lossless(c) && Reflects(c, s, snaps, hist)
    ensures Reflects(c, Flushed(c, s, io), snaps', hist)
  {
    var out := Persisted(c, Snapshot(s.mem), io, s.dir);
    if out.1.Some? { PersistedServes(c, s.mem, io, s.dir); }
    snaps' := PersistReflects(c, s, snaps, hist, out);
  }

  lemma AttachAligned(c: Codec, readers: seq<Reader>, snaps: seq<Index>, hist: seq<Doc>, r: Reader, index: Index)
    requires Aligned(c, readers, snaps, hist) && Sound(index, hist)
    requires Serves(c, r, index)
    ensures Aligned(c, readers + [r], snaps + [index], hist)
  {
  }

  /** Every reachable engine state reflects the documents delivered so far. */
  lemma {:induction false} RunReflects(c: Codec, maxSize: int, events: seq<Event>) returns (snaps: seq<Index>)
    requires Lossless(c)
    ensures Reflects(c, Run(c, maxSize, events), snaps, Delivered(events))
    decreases |events|
  {
    if events == [] {
      snaps := [];
    } else {
      var n := |events| - 1;
      snaps := RunReflects(c, maxSize, events[..n]);
      snaps := StepReflects(c, maxSize, Run(c, maxSize, events[..n]), snaps, Delivered(events[..n]), events[n]);
    }
  }

  /** What one event delivers. */
  function DeliveredBy(e: Event): seq<Doc> {
    match e
    case IndexDoc(id, text, _) => [Doc(id, Tokenizer.TermsOf(text))]
    case FlushNow(_) => []
  }

  lemma StepReflects(c: Codec, maxSize: int, s: State, snaps: seq<Index>, hist: seq<Doc>, e: Event)
      returns (snaps': seq<Index>)
    requires Lossless(c) && Reflects(c, s, snaps, hist)
    ensures Reflects(c, Step(c, maxSize, s, e), snaps', hist + DeliveredBy(e))
  {
    match e
    case IndexDoc(id, text, io) => snaps' := IndexedReflects(c, maxSize, s, snaps, hist, id, text, io);
    case FlushNow(io) =>
      snaps' := FlushedReflects(c, s, snaps, hist, io);
      assert hist + [] == hist;
  }

  lemma IndexedReflects(c: Codec, maxSize: int, s: State, snaps: seq<Index>, hist: seq<Doc>, id: string, text: string,
                        io: FlushIO)
    returns (snaps': seq<Index>)
    requires Lossless(c) && Reflects(c, s, snaps, hist)
    ensures Reflects(c, Indexed(c, maxSize, s, id, text, io), snaps', hist + [Doc(id, Tokenizer.TermsOf(text))])
  {
    var doc := Doc(id, Tokenizer.TermsOf(text));
    RecordedReflects(c, s, snaps, hist, doc);
    snaps' := MaybeFlushedReflects(c, maxSize, Recorded(s, id, doc.terms), snaps, hist + [doc], io);
  }

  lemma MaybeFlushedReflects(c: Codec, maxSize: int, s: State, snaps: seq<Index>, hist: seq<Doc>, io: FlushIO)
    returns (snaps': seq<Index>)
    requires Lossless(c) && Reflects(c, s, snaps, hist)
    ensures Reflects(c, if s.size >= maxSize then Flushed(c, s, io) else s, snaps', hist)
  {
    snaps' := snaps;
    if s.size >= maxSize { snaps' := FlushedReflects(c, s, snaps, hist, io); }
  }

  // ---- What search then answers ----

  ghost predicate Stored(index: Index, t: string, p: Posting) {
    p.docID in Docs(index, t) && Docs(index, t)[p.docID] == p
  }

  lemma ListingStored(index: Index, t: string)
    requires WellFormed(index)
    ensures forall p :: p in Listing(Docs(index, t)) <==> Stored(index, t, p)
  {
    ListMapExact(DocKey, Docs(index, t));
  }

  ghost predicate StoredInSome(snaps: seq<Index>, t: string, p: Posting) {
    exists i :: 0 <= i < |snaps| && Stored(snaps[i], t, p)
  }

  lemma StoredInSomeNext(snaps: seq<Index>, n: nat, t: string, p: Posting)
    requires |snaps| == n + 1
    ensures StoredInSome(snaps, t, p) <==> StoredInSome(snaps[..n], t, p) || Stored(snaps[n], t, p)
  {
    if StoredInSome(snaps[..n], t, p) {
      var i :| 0 <= i < n && Stored(snaps[..n][i], t, p);
      assert Stored(snaps[i], t, p);
    }
    if StoredInSome(snaps, t, p) {
      var i :| 0 <= i < |snaps| && Stored(snaps[i], t, p);
      if i < n { assert Stored(snaps[..n][i], t, p); }
    }
  }

  lemma {:induction false} GatheredStored(c: Codec, readers: seq<Reader>, snaps: seq<Index>, hist: seq<Doc>, t: string)
    requires Aligned(c, readers, snaps, hist)
    ensures forall p :: p in Gathered(c, readers, t) <==> StoredInSome(snaps, t, p)
    decreases |readers|
  {
    if readers != [] {
      var n := |readers| - 1;
      GatheredStored(c, readers[..n], snaps[..n], hist, t);
      var found := Lookup(c, readers[n], t);
      assert Serves(c, readers[n], snaps[n]);
      assert found == Ok(Listing(Docs(snaps[n], t)));
      ListingStored(snaps[n], t);
      forall p ensures p in Gathered(c, readers, t) <==> StoredInSome(snaps, t, p) {
        StoredInSomeNext(snaps, n, t, p);
      }
    }
  }

  /** `r` is a right answer for `t`: one posting per document, sorted by id, each one the
      posting of a delivered version, and no delivered document containing `t` missing. */
  ghost predicate Answers(hist: seq<Doc>, t: string, r: PostingList) {
    && KeySorted(DocKey, r)
    && (forall p {:trigger Justified(hist, t, p)} :: p in r ==> Justified(hist, t, p))
    && (forall doc :: doc in hist && t in doc.terms ==> exists p :: p in r && p.docID == doc.id)
  }

  lemma StoredJustified(index: Index, hist: seq<Doc>, t: string, p: Posting)
    requires Sound(index, hist) && Stored(index, t, p)
    ensures Justified(hist, t, p)
  {
    assert t in index && p.docID in index[t];
  }

  /** `all` lists exactly what memory and readers store for `t`. */
  ghost predicate ListsStored(mem: Index, snaps: seq<Index>, t: string, all: PostingList) {
    forall p :: p in all <==> Stored(mem, t, p) || StoredInSome(snaps, t, p)
  }

  lemma StoredAnywhereJustified(mem: Index, snaps: seq<Index>, hist: seq<Doc>, t: string, p: Posting)
    requires Sound(mem, hist) && (forall i :: 0 <= i < |snaps| ==> Sound(snaps[i], hist))
    requires Stored(mem, t, p) || StoredInSome(snaps, t, p)
    ensures Justified(hist, t, p)
  {
    if Stored(mem, t, p) {
      StoredJustified(mem, hist, t, p);
    } else {
      var i :| 0 <= i < |snaps| && Stored(snaps[i], t, p);
      StoredJustified(snaps[i], hist, t, p);
    }
  }

  lemma DedupAnswers(mem: Index, snaps: seq<Index>, hist: seq<Doc>, t: string, all: PostingList)
    requires Sound(mem, hist) && (forall i :: 0 <= i < |snaps| ==> Sound(snaps[i], hist))
    requires Complete(mem, snaps, hist) && ListsStored(mem, snaps, t, all)
    ensures Answers(hist, t, Dedup(all))
  {
    DedupExact(all);
    var r := Dedup(all);
    forall p | p in r ensures Justified(hist, t, p) {
      assert p in all;
      StoredAnywhereJustified(mem, snaps, hist, t, p);
    }
    forall doc | doc in hist && t in doc.terms ensures exists p :: p in r && p.docID == doc.id {
      var q := FindStored(mem, snaps, t, doc.id);
      assert q in all;
    }
  }

  lemma SearchAnswers(c: Codec, s: State, snaps: seq<Index>, hist: seq<Doc>, t: string)
    requires Reflects(c, s, snaps, hist)
    ensures Answers(hist, t, SearchTerm(c, s, t))
    ensures forall x :: x in s.readers ==> KeySorted(DictKey, x.dict)
  {
    ListingStored(s.mem, t);
    GatheredStored(c, s.readers, snaps, hist, t);
    DedupAnswers(s.mem, snaps, hist, t, Listing(Docs(s.mem, t)) + Gathered(c, s.readers, t));
    forall x | x in s.readers ensures KeySorted(DictKey, x.dict) {
      var i :| 0 <= i < |s.readers| && s.readers[i] == x;
      assert Serves(c, s.readers[i], snaps[i]);
    }
  }

  lemma FindStored(mem: Index, snaps: seq<Index>, t: string, d: string) returns (p: Posting)
    requires WellFormed(mem) && forall i :: 0 <= i < |snaps| ==> WellFormed(snaps[i])
    requires d in Docs(mem, t) || InSnaps(snaps, t, d)
    ensures p.docID == d
    ensures Stored(mem, t, p) || StoredInSome(snaps, t, p)
  {
    if d in Docs(mem, t) {
      p := Docs(mem, t)[d];
    } else {
      var i :| 0 <= i < |snaps| && d in Docs(snaps[i], t);
      p := Docs(snaps[i], t)[d];
      assert Stored(snaps[i], t, p);
    }
  }

  /** For every run, whatever is delivered and however flushes fall and fail. */
  lemma EngineRefinesHistory(c: Codec, maxSize: int, events: seq<Event>, t: string)
    requires Lossless(c)
    ensures Answers(Delivered(events), t, SearchTerm(c, Run(c, maxSize, events), t))
  {
    var snaps := RunReflects(c, maxSize, events);
    SearchAnswers(c, Run(c, maxSize, events), snaps, Delivered(events), t);
  }

  // ---- Redelivery of identical content ----

  /** Documents with one id have one content. */
  ghost predicate Consistent(hist: seq<Doc>) {
    forall x, y :: x in hist && y in hist && x.id == y.id ==> x == y
  }

  /** With consistent content the answer is exactly the postings of the documents that
      contain the term. */
  lemma ConsistentAnswer(hist: seq<Doc>, t: string, r: PostingList)
    requires Consistent(hist) && Answers(hist, t, r)
    ensures forall p :: p in r <==> Justified(hist, t, p)
  {
    forall p | Justified(hist, t, p) ensures p in r {
      var doc :| doc in hist && t in doc.terms && p == PostingFor(doc.id, doc.terms, t);
      var q :| q in r && q.docID == doc.id;
      assert Justified(hist, t, q);
      var other :| other in hist && t in other.terms && q == PostingFor(other.id, other.terms, t);
      assert other == doc;
    }
  }

  /** Right answers to histories holding the same documents are the same list. */
  lemma AnswerUnique(a: seq<Doc>, b: seq<Doc>, t: string, r: PostingList, r': PostingList)
    requires Consistent(a) && (forall x :: x in a <==> x in b)
    requires Answers(a, t, r) && Answers(b, t, r')
    ensures r == r'
  {
    assert Consistent(b);
    ConsistentAnswer(a, t, r);
    ConsistentAnswer(b, t, r');
    forall p ensures p in r <==> p in r' {
      assert Justified(a, t, p) <==> Justified(b, t, p);
    }
    KeySortedUnique(DocKey, r, r');
  }

  /** Flush timing, flush failures, memory thresholds, delivery order and redelivery are
      invisible: two runs over the same documents answer every search alike. */
  lemma FlushTimingInvisible(c: Codec, maxSize: int, a: seq<Event>, maxSize': int, b: seq<Event>, term: string)
    requires Lossless(c) && Consistent(Delivered(a))
    requires forall x :: x in Delivered(a) <==> x in Delivered(b)
    ensures Search(c, Run(c, maxSize, a), term) == Search(c, Run(c, maxSize', b), term)
  {
    var ts := Tokenizer.LookupTerm(term);
    if ts != [] {
      EngineRefinesHistory(c, maxSize, a, ts[0]);
      EngineRefinesHistory(c, maxSize', b, ts[0]);
      AnswerUnique(Delivered(a), Delivered(b), ts[0],
                   SearchTerm(c, Run(c, maxSize, a), ts[0]), SearchTerm(c, Run(c, maxSize', b), ts[0]));
    }
  }

  // ---- Counters ----

  function TotalTerms(hist: seq<Doc>): nat {
    if hist == [] then 0 else TotalTerms(hist[..|hist| - 1]) + |hist[|hist| - 1].terms|
  }

  /** The length of the version of a document delivered last; 0 for one never delivered. */
  function LatestLength(hist: seq<Doc>, id: string): nat {
    if hist == [] then 0
    else
      var doc := hist[|hist| - 1];
      if doc.id == id then |doc.terms| else LatestLength(hist[..|hist| - 1], id)
  }

  /** With identical redeliveries the latest version is any version. */
  lemma {:induction false} LatestOfConsistent(hist: seq<Doc>, x: Doc)
    requires Consistent(hist) && x in hist
    ensures LatestLength(hist, x.id) == |x.terms|
  {
    var n := |hist| - 1;
    if hist[n].id == x.id {
      assert hist[n] in hist;
    } else {
      assert x in hist[..n];
      LatestOfConsistent(hist[..n], x);
    }
  }

  ghost predicate Counts(s: State, hist: seq<Doc>) {
    && s.totalDocs == |hist| && s.totalTokens == TotalTerms(hist)
    && (forall d :: d in s.docLengths <==> exists x :: x in hist && x.id == d)
    && (forall d :: DocLength(s, d) == LatestLength(hist, d))
  }

  lemma StepStatistics(c: Codec, maxSize: int, s: State, e: Event)
    ensures var s' := Step(c, maxSize, s, e);
            match e
            case IndexDoc(id, text, _) =>
              var terms := Tokenizer.TermsOf(text);
              s'.totalDocs == s.totalDocs + 1 && s'.totalTokens == s.totalTokens + |terms|
              && s'.docLengths == s.docLengths[id := |terms|]
            case FlushNow(_) =>
              s'.totalDocs == s.totalDocs && s'.totalTokens == s.totalTokens && s'.docLengths == s.docLengths
  {
  }

  /** The statistics count every delivery, and a document's length is that of its latest
      version. */
  lemma {:induction false} RunCounts(c: Codec, maxSize: int, events: seq<Event>)
    ensures Counts(Run(c, maxSize, events), Delivered(events))
    decreases |events|
  {
    if events != [] {
      var n := |events| - 1;
      RunCounts(c, maxSize, events[..n]);
      CountStep(c, maxSize, Run(c, maxSize, events[..n]), Delivered(events[..n]), events[n]);
    }
  }

  lemma CountStep(c: Codec, maxSize: int, s: State, hist: seq<Doc>, e: Event)
    requires Counts(s, hist)
    ensures Counts(Step(c, maxSize, s, e), hist + DeliveredBy(e))
  {
    StepStatistics(c, maxSize, s, e);
    match e
    case IndexDoc(id, text, _) => CountNext(s, Step(c, maxSize, s, e), hist, Doc(id, Tokenizer.TermsOf(text)));
    case FlushNow(_) =>
      assert hist + [] == hist;
      CountSame(s, Step(c, maxSize, s, e), hist);
  }

  lemma CountSame(s: State, s': State, hist: seq<Doc>)
    requires Counts(s, hist) && SameStatistics(s, s')
    ensures Counts(s', hist)
  {
    assert forall d :: DocLength(s', d) == DocLength(s, d);
  }

  lemma CountNext(s: State, s': State, hist: seq<Doc>, doc: Doc)
    requires Counts(s, hist)
    requires s'.totalDocs == s.totalDocs + 1 && s'.totalTokens == s.totalTokens + |doc.terms|
    requires s'.docLengths == s.docLengths[doc.id := |doc.terms|]
    ensures Counts(s', hist + [doc])
  {
    assert (hist + [doc])[..|hist|] == hist;
    forall d ensures DocLength(s', d) == LatestLength(hist + [doc], d) {
      assert DocLength(s, d) == LatestLength(hist, d);
    }
    forall d ensures d in s'.docLengths <==> exists x :: x in hist + [doc] && x.id == d {
      LengthKnown(s, hist, doc, d);
    }
  }

  lemma LengthKnown(s: State, hist: seq<Doc>, doc: Doc, d: string)
    requires forall d :: d in s.docLengths <==> exists x :: x in hist && x.id == d
    ensures d == doc.id || d in s.docLengths <==> exists x :: x in hist + [doc] && x.id == d
  {
    if d == doc.id { assert doc in hist + [doc]; }
    if d in s.docLengths {
      var x :| x in hist && x.id == d;
      assert x in hist + [doc];
    }
  }

  // ---- The exact answer, whatever the versions ----

  /** Per document, the posting of the last of the versions that contains the term. */
  function LastVersions(docs: seq<Doc>, t: string): map<string, Posting> {
    if docs == [] then map[]
    else
      var doc := docs[|docs| - 1];
      var before := LastVersions(docs[..|docs| - 1], t);
      if t in doc.terms then before[doc.id := PostingFor(doc.id, doc.terms, t)] else before
  }

  lemma LastVersionsNext(docs: seq<Doc>, doc: Doc, t: string)
    ensures LastVersions(docs + [doc], t)
         == if t in doc.terms
            then LastVersions(docs, t)[doc.id := PostingFor(doc.id, doc.terms, t)]
            else LastVersions(docs, t)
  {
    assert (docs + [doc])[..|docs|] == docs;
  }

  /** The reader answers from the documents of one epoch, the time between two successful
      flushes. */
  ghost predicate ServesEpoch(c: Codec, r: Reader, epoch: seq<Doc>) {
    forall t :: Lookup(c, r, t) == Ok(Listing(LastVersions(epoch, t)))
  }

  ghost predicate InMemory(mem: Index, current: seq<Doc>) {
    WellFormed(mem) && forall t :: Docs(mem, t) == LastVersions(current, t)
  }

  ghost predicate Epochal(c: Codec, s: State, epochs: seq<seq<Doc>>, current: seq<Doc>) {
    && InMemory(s.mem, current) && |s.readers| == |epochs|
    && forall i :: 0 <= i < |epochs| ==> ServesEpoch(c, s.readers[i], epochs[i])
  }

  function Joined(epochs: seq<seq<Doc>>): seq<Doc> {
    if epochs == [] then [] else Joined(epochs[..|epochs| - 1]) + epochs[|epochs| - 1]
  }

  lemma JoinedNext(epochs: seq<seq<Doc>>, epoch: seq<Doc>)
    ensures Joined(epochs + [epoch]) == Joined(epochs) + epoch
  {
    assert (epochs + [epoch])[..|epochs|] == epochs;
  }

  lemma RecordedInMemory(mem: Index, current: seq<Doc>, doc: Doc)
    requires InMemory(mem, current)
    ensures InMemory(Added(mem, doc.id, doc.terms), current + [doc])
  {
    AddedWellFormed(mem, doc.id, doc.terms);
    forall t ensures Docs(Added(mem, doc.id, doc.terms), t) == LastVersions(current + [doc], t) {
      LastVersionsNext(current, doc, t);
    }
  }

  lemma ServesMemory(c: Codec, r: Reader, mem: Index, current: seq<Doc>)
    requires Serves(c, r, mem) && InMemory(mem, current)
    ensures ServesEpoch(c, r, current)
  {
  }

  lemma PersistEpochal(c: Codec, s: State, epochs: seq<seq<Doc>>, current: seq<Doc>, out: (Directory, Option<Reader>))
    returns (epochs': seq<seq<Doc>>, current': seq<Doc>)
    requires Epochal(c, s, epochs, current) && (out.1.Some? ==> Serves(c, out.1.value, s.mem))
    ensures Epochal(c, AfterPersist(s, out), epochs', current')
            && Joined(epochs') + current' == Joined(epochs) + current
  {
    if out.1.None? {
      epochs', current' := epochs, current;
    } else {
      ServesMemory(c, out.1.value, s.mem, current);
      epochs', current' := epochs + [current], [];
      JoinedNext(epochs, current);
      assert Joined(epochs') + [] == Joined(epochs) + current;
    }
  }

  lemma FlushEpochal(c: Codec, s: State, epochs: seq<seq<Doc>>, current: seq<Doc>, io: FlushIO)
    returns (epochs': seq<seq<Doc>>, current': seq<Doc>)
    requires Lossless(c) && Epochal(c, s, epochs, current)
    ensures Epochal(c, Flushed(c, s, io), epochs', current') && Joined(epochs') + current' == Joined(epochs) + current
  {
    var out := Persisted(c, Snapshot(s.mem), io, s.dir);
    if out.1.Some? { PersistedServes(c, s.mem, io, s.dir); }
    epochs', current' := PersistEpochal(c, s, epochs, current, out);
  }

  lemma MaybeFlushEpochal(c: Codec, maxSize: int, s: State, epochs: seq<seq<Doc>>, current: seq<Doc>, io: FlushIO)
    returns (epochs': seq<seq<Doc>>, current': seq<Doc>)
    requires Lossless(c) && Epochal(c, s, epochs, current)
    ensures Epochal(c, if s.size >= maxSize then Flushed(c, s, io) else s, epochs', current')
    ensures Joined(epochs') + current' == Joined(epochs) + current
  {
    epochs', current' := epochs, current;
    if s.size >= maxSize { epochs', current' := FlushEpochal(c, s, epochs, current, io); }
  }

  lemma IndexEpochal(c: Codec, maxSize: int, s: State, epochs: seq<seq<Doc>>, current: seq<Doc>, id: string,
                     text: string, io: FlushIO)
    returns (epochs': seq<seq<Doc>>, current': seq<Doc>)
    requires Lossless(c) && Epochal(c, s, epochs, current)
    ensures Epochal(c, Indexed(c, maxSize, s, id, text, io), epochs', current')
    ensures Joined(epochs') + current' == Joined(epochs) + current + [Doc(id, Tokenizer.TermsOf(text))]
  {
    var doc := Doc(id, Tokenizer.TermsOf(text));
    RecordedInMemory(s.mem, current, doc);
    epochs', current' := MaybeFlushEpochal(c, maxSize, Recorded(s, id, doc.terms), epochs, current + [doc], io);
    assert Joined(epochs) + (current + [doc]) == Joined(epochs) + current + [doc];
  }

  lemma StepEpochal(c: Codec, maxSize: int, s: State, epochs: seq<seq<Doc>>, current: seq<Doc>, e: Event)
    returns (epochs': seq<seq<Doc>>, current': seq<Doc>)
    requires Lossless(c) && Epochal(c, s, epochs, current)
    ensures Epochal(c, Step(c, maxSize, s, e), epochs', current')
    ensures Joined(epochs') + current' == Joined(epochs) + current + DeliveredBy(e)
  {
    match e
    case IndexDoc(id, text, io) =>
      epochs', current' := IndexEpochal(c, maxSize, s, epochs, current, id, text, io);
    case FlushNow(io) =>
      epochs', current' := FlushEpochal(c, s, epochs, current, io);
      assert Joined(epochs) + current + [] == Joined(epochs) + current;
  }

  /** Every run cuts its deliveries into epochs: those flushed, and the one in memory. */
  lemma {:induction false} RunEpochal(c: Codec, maxSize: int, events: seq<Event>)
    returns (epochs: seq<seq<Doc>>, current: seq<Doc>)
    requires Lossless(c)
    ensures Epochal(c, Run(c, maxSize, events), epochs, current) && Joined(epochs) + current == Delivered(events)
    decreases |events|
  {
    if events == [] {
      epochs, current := [], [];
    } else {
      var n := |events| - 1;
      epochs, current := RunEpochal(c, maxSize, events[..n]);
      epochs, current := StepEpochal(c, maxSize, Run(c, maxSize, events[..n]), epochs, current, events[n]);
    }
  }

  /** The listings of the epochs, oldest first. */
  ghost function Listings(epochs: seq<seq<Doc>>, t: string): PostingList {
    if epochs == [] then []
    else Listings(epochs[..|epochs| - 1], t) + Listing(LastVersions(epochs[|epochs| - 1], t))
  }

  lemma {:induction false} GatheredEpochs(c: Codec, readers: seq<Reader>, epochs: seq<seq<Doc>>, t: string)
    requires |readers| == |epochs| && forall i :: 0 <= i < |epochs| ==> ServesEpoch(c, readers[i], epochs[i])
    ensures Gathered(c, readers, t) == Listings(epochs, t)
    decreases |readers|
  {
    if readers != [] {
      var n := |readers| - 1;
      GatheredEpochs(c, readers[..n], epochs[..n], t);
      assert ServesEpoch(c, readers[n], epochs[n]);
    }
  }

  /** For every run, also when a document comes again with other content: the answer is, per
      document, the first of the most frequent among the last versions of each epoch that
      contain the term, where memory comes before segments and older segments before newer. */
  lemma ExactAnswer(c: Codec, maxSize: int, events: seq<Event>, t: string)
    returns (epochs: seq<seq<Doc>>, current: seq<Doc>)
    requires Lossless(c)
    ensures Joined(epochs) + current == Delivered(events) && |epochs| == |Run(c, maxSize, events).readers|
    ensures SearchTerm(c, Run(c, maxSize, events), t) == Dedup(Listing(LastVersions(current, t)) + Listings(epochs, t))
  {
    epochs, current := RunEpochal(c, maxSize, events);
    GatheredEpochs(c, Run(c, maxSize, events).readers, epochs, t);
  }

  // ---- When memory is flushed ----

  /** Nothing goes wrong with the files of a flush. */
  predicate Behaves(io: FlushIO) { io.write.Written? && io.openOk }

  ghost predicate Fits(c: Codec, mem: Index) { |SegmentBytes(c, Snapshot(mem))| < INT64 }

  lemma PersistedFits(c: Codec, snap: seq<TermEntry>, io: FlushIO, dir: Directory)
    requires snap != [] && |SegmentBytes(c, snap)| < INT64 && io.write.Written? && io.openOk
    requires OpenReader(c, io.name, SegmentBytes(c, snap)).Ok?
    ensures var out := Persisted(c, snap, io, dir);
            out.1.Some? && io.name in out.0 && out.0 == dir[io.name := out.0[io.name]]
  {
  }

  lemma AttachedAlone(s: State, out: (Directory, Option<Reader>))
    requires out.1.Some?
    ensures var r := AfterPersist(s, out);
            r.mem == map[] && r.size == 0 && r.dir == out.0 && |r.readers| == |s.readers| + 1
  {
  }

  lemma SnapshotNotEmpty(mem: Index)
    requires mem != map[]
    ensures Snapshot(mem) != []
  {
    SnapshotExact(mem);
  }

  lemma FlushWorks(c: Codec, s: State, io: FlushIO)
    requires Lossless(c) && s.mem != map[] && Behaves(io) && Fits(c, s.mem)
    ensures var s' := Flushed(c, s, io);
            s'.mem == map[] && s'.size == 0 && |s'.readers| == |s.readers| + 1 && io.name in s'.dir
  {
    SnapshotNotEmpty(s.mem);
    WrittenOpens(c, io.name, Snapshot(s.mem));
    PersistedFits(c, Snapshot(s.mem), io, s.dir);
    AttachedAlone(s, Persisted(c, Snapshot(s.mem), io, s.dir));
  }

  lemma NoReader(c: Codec, snap: seq<TermEntry>, io: FlushIO, dir: Directory)
    requires !Behaves(io)
    ensures Persisted(c, snap, io, dir).1.None?
  {
  }

  lemma FlushFails(c: Codec, s: State, io: FlushIO)
    requires !Behaves(io)
    ensures var s' := Flushed(c, s, io); s'.mem == s.mem && s'.size == s.size && s'.readers == s.readers
  {
    NoReader(c, Snapshot(s.mem), io, s.dir);
    KeptWithoutReader(s, Persisted(c, Snapshot(s.mem), io, s.dir));
  }

  lemma KeptWithoutReader(s: State, out: (Directory, Option<Reader>))
    requires out.1.None?
    ensures var s' := AfterPersist(s, out); s'.mem == s.mem && s'.size == s.size && s'.readers == s.readers
  {
  }

  /** The size estimate after a document. */
  ghost function SizeWith(size: int, id: string, terms: seq<string>): int {
    size + SumOver(TermSet(terms), t => |t| + |id| + 64) + 8 * |terms|
  }

  lemma StepIndexes(c: Codec, maxSize: int, s: State, id: string, text: string, io: FlushIO, full: State)
    requires full == Recorded(s, id, Tokenizer.TermsOf(text))
    ensures full.size == SizeWith(s.size, id, Tokenizer.TermsOf(text))
    ensures Step(c, maxSize, s, IndexDoc(id, text, io)) == if full.size >= maxSize then Flushed(c, full, io) else full
  {
    AddedSizeIs(id, Tokenizer.TermsOf(text));
  }

  /** A document that leaves memory below the threshold is only added; one that fills it is
      flushed with everything else when the files behave, and is kept in memory when not.
      Success is reported unless a flush was due and documents are still in memory. */
  lemma FlushedWhenFull(c: Codec, maxSize: int, s: State, id: string, text: string, io: FlushIO)
    requires Lossless(c)
    ensures var terms := Tokenizer.TermsOf(text);
            var mem, size := Added(s.mem, id, terms), SizeWith(s.size, id, terms);
            var s' := Step(c, maxSize, s, IndexDoc(id, text, io));
            && (size < maxSize ==>
                  s'.mem == mem && s'.size == size && s'.readers == s.readers && s'.dir == s.dir)
            && (size >= maxSize && mem != map[] && Behaves(io) && Fits(c, mem) ==>
                  s'.mem == map[] && s'.size == 0 && |s'.readers| == |s.readers| + 1 && io.name in s'.dir)
            && (size >= maxSize && !Behaves(io) ==>
                  s'.mem == mem && s'.size == size && s'.readers == s.readers)
            && (IndexSucceeds(maxSize, s, id, text, s') <==> size < maxSize || s'.mem == map[])
  {
    var full := Recorded(s, id, Tokenizer.TermsOf(text));
    StepIndexes(c, maxSize, s, id, text, io, full);
    if !Behaves(io) {
      FlushFails(c, full, io);
    } else if full.mem != map[] && Fits(c, full.mem) {
      FlushWorks(c, full, io);
    }
  }

  ghost predicate FlushWouldWork(c: Codec, s: State, e: Event) {
    e.IndexDoc? ==> Behaves(e.io) && Fits(c, Added(s.mem, e.id, Tokenizer.TermsOf(e.text)))
  }

  /** Every flush of the run that may become due works. */
  ghost predicate FlushesWork(c: Codec, maxSize: int, events: seq<Event>) {
    events == [] ||
    (FlushesWork(c, maxSize, events[..|events| - 1])
     && FlushWouldWork(c, Run(c, maxSize, events[..|events| - 1]), events[|events| - 1]))
  }

  lemma IndexStaysBelow(c: Codec, maxSize: int, s: State, id: string, text: string, io: FlushIO)
    requires Lossless(c) && maxSize > 0 && s.size < maxSize
    requires Behaves(io) && Fits(c, Added(s.mem, id, Tokenizer.TermsOf(text)))
    ensures Step(c, maxSize, s, IndexDoc(id, text, io)).size < maxSize
  {
    var full := Recorded(s, id, Tokenizer.TermsOf(text));
    StepIndexes(c, maxSize, s, id, text, io, full);
    if full.size >= maxSize {
      AddedToMemory(s.mem, id, Tokenizer.TermsOf(text));
      FlushWorks(c, full, io);
    }
  }

  lemma FlushShrinks(c: Codec, s: State, io: FlushIO)
    ensures Flushed(c, s, io).size == s.size || Flushed(c, s, io).size == 0
  {
  }

  lemma StepStaysBelow(c: Codec, maxSize: int, s: State, e: Event)
    requires Lossless(c) && maxSize > 0 && s.size < maxSize && FlushWouldWork(c, s, e)
    ensures Step(c, maxSize, s, e).size < maxSize
  {
    match e
    case IndexDoc(id, text, io) => IndexStaysBelow(c, maxSize, s, id, text, io);
    case FlushNow(io) => FlushShrinks(c, s, io);
  }

  /** As long as files behave memory never stays at or above the threshold. */
  lemma {:induction false} MemoryStaysBelow(c: Codec, maxSize: int, events: seq<Event>)
    requires Lossless(c) && maxSize > 0 && FlushesWork(c, maxSize, events)
    ensures Run(c, maxSize, events).size < maxSize
  {
    if events != [] {
      var n := |events| - 1;
      MemoryStaysBelow(c, maxSize, events[..n]);
      StepStaysBelow(c, maxSize, Run(c, maxSize, events[..n]), events[n]);
    }
  }

  lemma AddedToMemory(mem: Index, id: string, terms: seq<string>)
    ensures terms != [] ==> Added(mem, id, terms) != map[]
    ensures forall size :: terms == [] ==> SizeWith(size, id, terms) == size
  {
    if terms != [] { assert terms[0] in Added(mem, id, terms); }
    if terms == [] { assert TermSet(terms) == {}; }
  }

  // ---- Going on from a given state ----

  ghost function RunFrom(c: Codec, maxSize: int, s: State, events: seq<Event>): State {
    if events == [] then s
    else Step(c, maxSize, RunFrom(c, maxSize, s, events[..|events| - 1]), events[|events| - 1])
  }

  /** An engine that already reflects some documents reflects them and those that follow. */
  lemma {:induction false} RunFromReflects(c: Codec, maxSize: int, s: State, snaps: seq<Index>, hist: seq<Doc>,
                                           events: seq<Event>)
    returns (snaps': seq<Index>)
    requires Lossless(c) && Reflects(c, s, snaps, hist)
    ensures Reflects(c, RunFrom(c, maxSize, s, events), snaps', hist + Delivered(events))
    decreases |events|
  {
    if events == [] {
      snaps' := snaps;
      assert hist + [] == hist;
    } else {
      var n := |events| - 1;
      var before := RunFromReflects(c, maxSize, s, snaps, hist, events[..n]);
      DeliveredLast(hist, events, n);
      snaps' := StepReflects(c, maxSize, RunFrom(c, maxSize, s, events[..n]), before, hist + Delivered(events[..n]),
                             events[n]);
    }
  }

  lemma DeliveredLast(hist: seq<Doc>, events: seq<Event>, n: nat)
    requires |events| == n + 1
    ensures hist + Delivered(events) == hist + Delivered(events[..n]) + DeliveredBy(events[n])
  {
  }

  /** An engine that has counted nothing counts what follows. */
  lemma {:induction false} RunFromCounts(c: Codec, maxSize: int, s: State, events: seq<Event>)
    requires Counts(s, [])
    ensures Counts(RunFrom(c, maxSize, s, events), Delivered(events))
    decreases |events|
  {
    if events != [] {
      var n := |events| - 1;
      RunFromCounts(c, maxSize, s, events[..n]);
      CountStep(c, maxSize, RunFrom(c, maxSize, s, events[..n]), Delivered(events[..n]), events[n]);
    }
  }

  // ---- Looking up a word ----

  /** A word stemmed once by the parser is stemmed again by the engine.  For every run and
      every word, the query term of the word finds a document if and only if the term that
      the second round gives is among the terms of some delivered version of it. */
  lemma WordFindsDocument(c: Codec, maxSize: int, events: seq<Event>, w: string, t: string, id: string)
    requires Lossless(c) && Tokenizer.LookupTerm(w) == [t]
    ensures (exists p :: p in Search(c, Run(c, maxSize, events), t) && p.docID == id) <==>
            exists doc :: doc in Delivered(events) && doc.id == id
                          && Tokenizer.LookupTerm(t) != [] && Tokenizer.LookupTerm(t)[0] in doc.terms
  {
    var found, hist := Search(c, Run(c, maxSize, events), t), Delivered(events);
    var again := Tokenizer.LookupTerm(t);
    if again != [] {
      EngineRefinesHistory(c, maxSize, events, again[0]);
      AnswersById(hist, again[0], found, id);
    }
  }

  lemma AnswersById(hist: seq<Doc>, t: string, r: PostingList, id: string)
    requires Answers(hist, t, r)
    ensures (exists p :: p in r && p.docID == id) <==> exists doc :: doc in hist && doc.id == id && t in doc.terms
  {
    if p :| p in r && p.docID == id {
      assert Justified(hist, t, p);
    }
  }

  /** So a document is found through its own word exactly when stemming twice gives a term
      it has; for a document holding nothing else, exactly when its term is fixed. */
  lemma OneWordDocument(c: Codec, maxSize: int, id: string, w: string, t: string, io: FlushIO)
    requires Lossless(c) && Tokenizer.TermsOf(w) == [t]
    ensures (exists p :: p in Search(c, Run(c, maxSize, [IndexDoc(id, w, io)]), t) && p.docID == id) <==>
            Tokenizer.LookupTerm(t) == [t]
  {
    var events := [IndexDoc(id, w, io)];
    OneDelivered(events[0]);
    WordFindsDocument(c, maxSize, events, w, t, id);
    OneDocumentHas(Delivered(events), Doc(id, [t]), id, Tokenizer.LookupTerm(t), t);
  }

  lemma DeliveredAppend(events: seq<Event>, e: Event)
    ensures Delivered(events + [e]) == Delivered(events) + DeliveredBy(e)
  {
    assert (events + [e])[..|events|] == events;
  }

  lemma OneDelivered(e: Event)
    ensures Delivered([e]) == DeliveredBy(e)
  {
    assert [e][..0] == [];
    assert Delivered([e]) == [] + DeliveredBy(e);
  }

  lemma OneDocumentHas(hist: seq<Doc>, doc: Doc, id: string, again: seq<string>, t: string)
    requires hist == [doc] && doc == Doc(id, [t]) && |again| <= 1
    ensures (exists x :: x in hist && x.id == id && again != [] && again[0] in x.terms) <==> again == [t]
  {
    assert doc in hist;
  }

  /** Re-indexing a document does not retract its old content: every version ever
      delivered keeps being found through each of its terms, whatever came later. */
  lemma EveryVersionStaysFound(c: Codec, maxSize: int, events: seq<Event>, i: nat, t: string) returns (p: Posting)
    requires Lossless(c) && i < |events| && events[i].IndexDoc?
    requires t in Tokenizer.TermsOf(events[i].text)
    ensures p in SearchTerm(c, Run(c, maxSize, events), t) && p.docID == events[i].id
  {
    var s, hist := Run(c, maxSize, events), Delivered(events);
    var doc := Doc(events[i].id, Tokenizer.TermsOf(events[i].text));
    DeliveredHas(events, i);
    EngineRefinesHistory(c, maxSize, events, t);
    p := AnswerFor(hist, t, SearchTerm(c, s, t), doc);
  }

  lemma AnswerFor(hist: seq<Doc>, t: string, r: PostingList, doc: Doc) returns (p: Posting)
    requires Answers(hist, t, r) && doc in hist && t in doc.terms
    ensures p in r && p.docID == doc.id
  {
    p :| p in r && p.docID == doc.id;
  }

  lemma {:induction false} DeliveredHas(events: seq<Event>, i: nat)
    requires i < |events| && events[i].IndexDoc?
    ensures Doc(events[i].id, Tokenizer.TermsOf(events[i].text)) in Delivered(events)
    decreases |events|
  {
    if i < |events| - 1 { DeliveredHas(events[..|events| - 1], i); }
  }
}
