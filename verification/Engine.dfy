/**
 The indexing engine: documents enter the memory index, `Flush` turns the memory index
 into a segment file with a reader, and `Search` joins memory and all readers and
 removes duplicates.  The engine is given twice: as a value that the specification
 functions transform, and as the source's object whose methods refine them.
 */
module EngineSpec {
  import opened Ordering
  import opened Memory
  import opened Segment
  import Tokenizer

  /** A directory entry of the data directory. */
  datatype Node = Folder | File(data: bytes)
  type Directory = map<string, Node>

  /** What the file system did to a write: it may fail before the temporary file exists
      or leave one behind. */
  datatype WriteOutcome = Written | NotCreated | Torn(leftover: bytes)

  /** The outside of one flush: the name taken from the clock and how the files fared. */
  datatype FlushIO = FlushIO(name: string, write: WriteOutcome, openOk: bool)

  datatype State = State(mem: Index, size: int, docCount: nat, readers: seq<Reader>,
                         docLengths: map<string, nat>, totalDocs: nat, totalTokens: nat,
                         dir: Directory)

  // ---- Flush and index ----

  /** Writing a snapshot and opening the new file: the directory afterwards, and the
      reader when both succeeded (engine.go:92-105). */
  function Persisted(c: Codec, snap: seq<TermEntry>, io: FlushIO, dir: Directory): (Directory, Option<Reader>) {
    if snap == [] || io.write.NotCreated? || |SegmentBytes(c, snap)| >= INT64 then (dir, None)
    else if io.write.Torn? then (dir[io.name + ".tmp" := File(io.write.leftover)], None)
    else
      var file := SegmentBytes(c, snap);
      var reader := OpenReader(c, io.name, file);
      (dir[io.name := File(file)], if reader.Ok? && io.openOk then Some(reader.value) else None)
  }

  /** `Flush` (engine.go:91-117): memory is cleared only after its segment is readable. */
  ghost function Flushed(c: Codec, s: State, io: FlushIO): (r: State)
    ensures SameStatistics(s, r)
  {
    AfterPersist(s, Persisted(c, Snapshot(s.mem), io, s.dir))
  }

  predicate SameStatistics(s: State, r: State) {
    r.docLengths == s.docLengths && r.totalDocs == s.totalDocs && r.totalTokens == s.totalTokens
  }

  function AfterPersist(s: State, outcome: (Directory, Option<Reader>)): (r: State)
    ensures SameStatistics(s, r)
  {
    if outcome.1.None? then s.(dir := outcome.0)
    else s.(dir := outcome.0, readers := s.readers + [outcome.1.value], mem := map[], size := 0, docCount := 0)
  }

  ghost function Recorded(s: State, id: string, terms: seq<string>): State {
    s.(docLengths := s.docLengths[id := |terms|],
       totalDocs := s.totalDocs + 1, totalTokens := s.totalTokens + |terms|,
       mem := Added(s.mem, id, terms), size := s.size + AddedSize(id, terms), docCount := s.docCount + 1)
  }

  /** `IndexDocument` (engine.go:61-87): record, add, and flush when memory is full. */
  ghost function Indexed(c: Codec, maxSize: int, s: State, id: string, text: string, io: FlushIO): (r: State)
    ensures SameStatistics(Recorded(s, id, Tokenizer.TermsOf(text)), r)
  {
    var s1 := Recorded(s, id, Tokenizer.TermsOf(text));
    if s1.size >= maxSize then Flushed(c, s1, io) else s1
  }

  /** Whether indexing reports success: no flush was due, or it has emptied memory. */
  ghost predicate IndexSucceeds(maxSize: int, s: State, id: string, text: string, after: State) {
    s.size + AddedSize(id, Tokenizer.TermsOf(text)) < maxSize || after.mem == map[]
  }

  // ---- Deduplication ----

  /** Per document the posting of highest frequency, the earliest on a tie. */
  function DedupMap(ps: PostingList): map<string, Posting> {
    if ps == [] then map[]
    else
      var n := |ps| - 1;
      var m, p := DedupMap(ps[..n]), ps[n];
      if p.docID in m && p.frequency <= m[p.docID].frequency then m else m[p.docID := p]
  }

  lemma {:induction false} DedupMapExact(ps: PostingList)
    ensures KeyedBy(DocKey, DedupMap(ps))
    ensures forall p :: p in ps ==> p.docID in DedupMap(ps) && p.frequency <= DedupMap(ps)[p.docID].frequency
    ensures forall d :: d in DedupMap(ps) ==> DedupMap(ps)[d] in ps
  {
    if ps != [] {
      var n := |ps| - 1;
      DedupMapExact(ps[..n]);
      assert ps == ps[..n] + [ps[n]];
    }
  }

  ghost function Dedup(ps: PostingList): PostingList {
    ListMap(DedupMap(ps))
  }

  /** One posting per document, sorted by id, each taken from the input. */
  lemma DedupExact(ps: PostingList)
    ensures KeySorted(DocKey, Dedup(ps))
    ensures forall p :: p in Dedup(ps) ==> p in ps
    ensures forall p :: p in ps ==> exists q :: q in Dedup(ps) && q.docID == p.docID && p.frequency <= q.frequency
  {
    var m := DedupMap(ps);
    DedupMapExact(ps);
    ListMapExact(DocKey, m);
    forall p | p in ps ensures exists q :: q in Dedup(ps) && q.docID == p.docID && p.frequency <= q.frequency {
      assert m[p.docID] in Dedup(ps);
    }
  }

  /** `ps[i]` is the first of the most frequent postings of its document. */
  ghost predicate FirstBest(ps: PostingList, i: nat)
    requires i < |ps|
  {
    forall j :: 0 <= j < |ps| && ps[j].docID == ps[i].docID ==>
      ps[j].frequency <= ps[i].frequency && (j < i ==> ps[j].frequency < ps[i].frequency)
  }

  lemma {:induction false} DedupMapFirst(ps: PostingList, d: string) returns (i: nat)
    requires d in DedupMap(ps)
    ensures i < |ps| && ps[i] == DedupMap(ps)[d] && ps[i].docID == d && FirstBest(ps, i)
  {
    var n := |ps| - 1;
    var p := ps[n];
    DedupMapExact(ps[..n]);
    if p.docID == d && !(d in DedupMap(ps[..n]) && p.frequency <= DedupMap(ps[..n])[d].frequency) {
      i := n;
      forall j | 0 <= j < n && ps[j].docID == d ensures ps[j].frequency < p.frequency { assert ps[..n][j] in ps[..n]; }
    } else {
      i := DedupMapFirst(ps[..n], d);
      forall j | 0 <= j < n ensures ps[j] == ps[..n][j] { }
    }
  }

  /** Each document keeps the first of its most frequent postings. */
  lemma DedupFirst(ps: PostingList, p: Posting) returns (i: nat)
    requires p in Dedup(ps)
    ensures i < |ps| && ps[i] == p && FirstBest(ps, i)
  {
    DedupMapExact(ps);
    ListMapExact(DocKey, DedupMap(ps));
    i := DedupMapFirst(ps, p.docID);
  }

  // ---- Search ----

  /** The readers' answers one after another; a reader that fails is skipped. */
  function Gathered(c: Codec, readers: seq<Reader>, t: string): PostingList {
    if readers == [] then []
    else
      var n := |readers| - 1;
      var found := Lookup(c, readers[n], t);
      Gathered(c, readers[..n], t) + if found.Ok? then found.value else []
  }

  /** `Engine.Search` (engine.go:121-145) for an already normalised term. */
  ghost function SearchTerm(c: Codec, s: State, t: string): PostingList {
    Dedup(Listing(Docs(s.mem, t)) + Gathered(c, s.readers, t))
  }

  /** The given string is tokenised again and only its first token is looked up. */
  ghost function Search(c: Codec, s: State, term: string): PostingList {
    var ts := Tokenizer.LookupTerm(term);
    if ts == [] then [] else SearchTerm(c, s, ts[0])
  }

  function AvgDocLength(s: State): real {
    if s.totalDocs == 0 then 0.0 else s.totalTokens as real / s.totalDocs as real
  }

  function DocLength(s: State, id: string): nat {
    if id in s.docLengths then s.docLengths[id] else 0
  }

  // ---- Reload ----

  predicate IsSegmentName(name: string) { Tokenizer.HasSuffix(name, ".spdx") }

  function KnownNames(readers: seq<Reader>): set<string> { set r | r in readers :: r.name }

  /** The reader a directory entry contributes to a scan, if any. */
  function Loadable(c: Codec, dir: Directory, known: set<string>, unreadable: set<string>, name: string): seq<Reader> {
    if name !in dir || dir[name].Folder? || !IsSegmentName(name) || name in known || name in unreadable then []
    else
      match OpenReader(c, name, dir[name].data)
      case Err(_) => []
      case Ok(r) => [r]
  }

  function Scan(c: Codec, dir: Directory, names: seq<string>, known: set<string>,
                unreadable: set<string>): seq<Reader> {
    if names == [] then []
    else
      var n := |names| - 1;
      Scan(c, dir, names[..n], known, unreadable) + Loadable(c, dir, known, unreadable, names[n])
  }

  ghost function NewReaders(c: Codec, readers: seq<Reader>, dir: Directory, unreadable: set<string>): seq<Reader> {
    Scan(c, dir, SortedKeys(dir.Keys), KnownNames(readers), unreadable)
  }

  /** `ReloadSegments` (engine.go:254-297) over a directory. */
  ghost function Reloaded(c: Codec, s: State, unreadable: set<string>): State {
    s.(readers := s.readers + NewReaders(c, s.readers, s.dir, unreadable))
  }

  /** A fresh engine after `loadExistingSegments`: readers are restored, counters are not. */
  ghost function Started(c: Codec, dir: Directory, unreadable: set<string>): State {
    Reloaded(c, State(map[], 0, 0, [], map[], 0, 0, dir), unreadable)
  }
}

/** The engine as the source's object. */
module EngineObject {
  import opened Ordering
  import opened Memory
  import opened Segment
  import opened EngineSpec
  import Tokenizer

  class Disk {
    var files: Directory
    constructor (files: Directory)
      ensures this.files == files
    {
      this.files := files;
    }
  }

  /** `deduplicatePostings` (engine.go:301-322). */
  method Deduplicate(postings: PostingList) returns (r: PostingList)
    ensures r == Dedup(postings)
  {
    if |postings| <= 1 {
      DedupOfShort(postings);
      return postings;
    }
    var seen: map<string, nat> := map[];
    var result: PostingList := [];
    for i := 0 to |postings|
      invariant Tracks(DedupMap(postings[..i]), seen, result)
    {
      var p := postings[i];
      assert postings[..i + 1][..i] == postings[..i];
      TracksNext(DedupMap(postings[..i]), seen, result, p);
      if p.docID in seen {
        var idx := seen[p.docID];
        if p.frequency > result[idx].frequency {
          result := result[idx := p];
        }
      } else {
        seen := seen[p.docID := |result|];
        result := result + [p];
      }
    }
    assert postings[..|postings|] == postings;
    DedupMapExact(postings);
    TrackedListing(DedupMap(postings), seen, result);
    r := SortByKey(DocKey, result);
  }

  /** `result` holds the values of `m`, and `seen` says where. */
  ghost predicate Tracks(m: map<string, Posting>, seen: map<string, nat>, result: PostingList) {
    && seen.Keys == m.Keys
    && (forall d :: d in seen ==> seen[d] < |result| && result[seen[d]] == m[d] && m[d].docID == d)
    && (forall k :: 0 <= k < |result| ==> result[k].docID in seen && seen[result[k].docID] == k)
  }

  /** One turn of the loop, in each of its three branches. */
  lemma TracksNext(m: map<string, Posting>, seen: map<string, nat>, result: PostingList, p: Posting)
    requires Tracks(m, seen, result)
    ensures p.docID !in seen ==> Tracks(m[p.docID := p], seen[p.docID := |result|], result + [p])
    ensures p.docID in seen ==> Tracks(m[p.docID := p], seen, result[seen[p.docID] := p])
  {
  }

  lemma TrackedListing(m: map<string, Posting>, seen: map<string, nat>, result: PostingList)
    requires KeyedBy(DocKey, m) && Tracks(m, seen, result)
    ensures SortByKey(DocKey, result) == ListMap(m)
  {
    assert DistinctKeys(DocKey, result);
    SortByKeySorted(DocKey, result);
    forall v ensures v in result <==> DocKey(v) in m && m[DocKey(v)] == v {
      if DocKey(v) in m && m[DocKey(v)] == v { assert result[seen[v.docID]] == v; }
    }
    ListMapUnique(DocKey, m, SortByKey(DocKey, result));
  }

  lemma DedupOfShort(ps: PostingList)
    requires |ps| <= 1
    ensures Dedup(ps) == ps
  {
    DedupMapExact(ps);
    if |ps| == 1 { assert DedupMap(ps) == map[ps[0].docID := ps[0]]; }
    ListMapUnique(DocKey, DedupMap(ps), ps);
  }

  /** `Recorded`, field by field. */
  lemma RecordedIs(s: State, r: State, id: string, terms: seq<string>)
    requires r.mem == Added(s.mem, id, terms) && r.size == s.size + AddedSize(id, terms) && r.docCount == s.docCount + 1
    requires r.docLengths == s.docLengths[id := |terms|] && r.totalDocs == s.totalDocs + 1
    requires r.totalTokens == s.totalTokens + |terms| && r.readers == s.readers && r.dir == s.dir
    ensures r == Recorded(s, id, terms)
  {
  }

  /** The file-system half of a flush: nothing to write, a failed write, a file that
      does not open, or a new reader. */
  method Persist(c: Codec, snapshot: seq<TermEntry>, io: FlushIO, files: Directory)
    returns (files': Directory, reader: Option<Reader>, ok: bool)
    ensures (files', reader) == Persisted(c, snapshot, io, files)
    ensures ok <==> snapshot == [] || reader.Some?
  {
    files', reader, ok := files, None, false;
    if |snapshot| == 0 { return files, None, true; }
    if io.write.NotCreated? { return; }
    var written := WriteSegment(c, snapshot);
    if written.Err? { return; }
    if io.write.Torn? {
      files' := files[io.name + ".tmp" := File(io.write.leftover)];
      return;
    }
    files' := files[io.name := File(written.value)];
    var r := OpenReader(c, io.name, written.value);
    if r.Err? || !io.openOk { return; }
    reader, ok := Some(r.value), true;
  }

  lemma GatheredNext(c: Codec, readers: seq<Reader>, i: nat, t: string)
    requires i < |readers|
    ensures Gathered(c, readers[..i + 1], t)
         == Gathered(c, readers[..i], t) + if Lookup(c, readers[i], t).Ok? then Lookup(c, readers[i], t).value else []
  {
    assert readers[..i + 1][..i] == readers[..i];
  }

  /** The reader loop of `Engine.Search`. */
  method Gather(c: Codec, readers: seq<Reader>, t: string, start: PostingList) returns (all: PostingList)
    ensures all == start + Gathered(c, readers, t)
  {
    all := start;
    for i := 0 to |readers|
      invariant all == start + Gathered(c, readers[..i], t)
    {
      GatheredNext(c, readers, i, t);
      var found := SearchReader(c, readers[i], t);
      if found.Err? { continue; }
      all := all + found.value;
    }
    assert readers[..|readers|] == readers;
  }

  class Engine {
    const codec: Codec
    const maxSize: int
    const disk: Disk
    const mem: MemoryIndex
    var readers: seq<Reader>
    var docLengths: map<string, nat>
    var totalDocs: nat
    var totalTokens: nat

    ghost predicate Valid()
      reads this, mem
    {
      mem.Valid()
    }

    ghost function View(): State
      reads this, mem, disk
    {
      State(mem.index, mem.size, mem.docCount, readers, docLengths, totalDocs, totalTokens, disk.files)
    }

    /** `NewEngine`: an empty memory index over whatever segments the directory holds. */
    constructor (codec: Codec, maxSize: int, disk: Disk, unreadable: set<string>)
      ensures Valid() && fresh(mem)
      ensures this.codec == codec && this.maxSize == maxSize && this.disk == disk
      ensures View() == Started(codec, disk.files, unreadable)
    {
      this.codec, this.maxSize, this.disk := codec, maxSize, disk;
      var m := new MemoryIndex();
      mem := m;
      readers, docLengths, totalDocs, totalTokens := [], map[], 0, 0;
      new;
      var _ := ReloadSegments(unreadable);
    }

    method IndexDocument(id: string, title: string, body: string, io: FlushIO) returns (ok: bool)
      requires Valid()
      modifies this, mem, disk
      ensures Valid()
      ensures View() == Indexed(codec, maxSize, old(View()), id, title + " " + body, io)
      ensures ok <==> IndexSucceeds(maxSize, old(View()), id, title + " " + body, View())
    {
      Record(id, title, body);
      ok := true;
      if mem.size >= maxSize {
        ok := Flush(io);
      }
    }

    /** Statistics first, then the memory index (engine.go:62-71). */
    method Record(id: string, title: string, body: string)
      requires Valid()
      modifies this, mem
      ensures Valid()
      ensures View() == Recorded(old(View()), id, Tokenizer.TermsOf(title + " " + body))
    {
      var tokens := Tokenizer.Tokenize(title + " " + body);
      Count(id, |tokens|);
      mem.AddDocument(id, title, body);
      RecordedIs(old(View()), View(), id, Tokenizer.TermsOf(title + " " + body));
    }

    method Count(id: string, length: nat)
      modifies this`docLengths, this`totalDocs, this`totalTokens
      ensures docLengths == old(docLengths)[id := length]
      ensures totalDocs == old(totalDocs) + 1 && totalTokens == old(totalTokens) + length
    {
      docLengths := docLengths[id := length];
      totalDocs := totalDocs + 1;
      totalTokens := totalTokens + length;
    }

    method Flush(io: FlushIO) returns (ok: bool)
      requires Valid()
      modifies this`readers, mem, disk
      ensures Valid()
      ensures View() == Flushed(codec, old(View()), io)
      ensures ok <==> mem.index == map[]
    {
      var snapshot := mem.TakeSnapshot();
      SnapshotExact(mem.index);
      var files, reader;
      files, reader, ok := Persist(codec, snapshot, io, disk.files);
      Attach(files, reader);
    }

    /** The second half of a flush: the reader joins before memory is cleared. */
    method Attach(files: Directory, reader: Option<Reader>)
      requires Valid()
      modifies this`readers, mem, disk
      ensures Valid()
      ensures View() == AfterPersist(old(View()), (files, reader))
    {
      disk.files := files;
      if reader.Some? {
        readers := readers + [reader.value];
        mem.Reset();
      }
    }

    method SearchPostings(term: string) returns (r: PostingList)
      requires Valid()
      ensures r == Search(codec, View(), term)
    {
      var tokens := Tokenizer.Tokenize(term);
      if |tokens| == 0 { return []; }
      var normalized := tokens[0].term;
      var all := mem.Search(normalized);
      all := Gather(codec, readers, normalized, all);
      r := Deduplicate(all);
    }

    method ReloadSegments(unreadable: set<string>) returns (count: nat)
      modifies this`readers
      ensures View() == Reloaded(codec, old(View()), unreadable)
      ensures count == |readers| - |old(readers)|
    {
      var entries := ReadDir(disk.files);
      var known := KnownNames(readers);
      var newReaders: seq<Reader> := [];
      for i := 0 to |entries|
        invariant newReaders == Scan(codec, disk.files, entries[..i], known, unreadable)
        invariant readers == old(readers)
      {
        assert entries[..i + 1][..i] == entries[..i];
        var name := entries[i];
        if disk.files[name].Folder? || !IsSegmentName(name) { continue; }
        if name in known { continue; }
        if name in unreadable { continue; }
        var reader := OpenReader(codec, name, disk.files[name].data);
        if reader.Err? { continue; }
        newReaders := newReaders + [reader.value];
      }
      assert entries[..|entries|] == entries;
      if |newReaders| > 0 {
        readers := readers + newReaders;
      }
      count := |newReaders|;
    }
  }

  /** `os.ReadDir`: the entry names in order. */
  method ReadDir(dir: Directory) returns (names: seq<string>)
    ensures names == SortedKeys(dir.Keys)
    ensures forall i :: 0 <= i < |names| ==> names[i] in dir
  {
    var all: seq<string> := [];
    var rest := dir.Keys;
    while rest != {}
      invariant rest <= dir.Keys
      invariant forall x :: x in all <==> x in dir.Keys - rest
      invariant DistinctKeys(Id, all)
      decreases rest
    {
      var x :| x in rest;
      DistinctKeysNext(Id, all, x);
      all := all + [x];
      rest := rest - {x};
    }
    SortByKeySorted(Id, all);
    names := SortByKey(Id, all);
    SortedKeysListed(dir.Keys);
    KeySortedUnique(Id, names, SortedKeys(dir.Keys));
    forall i | 0 <= i < |names| ensures names[i] in dir {
      assert names[i] in names;
    }
  }
}
