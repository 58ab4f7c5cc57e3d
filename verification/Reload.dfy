/**
 Segment hot-reload: an indexer process flushes segments into a directory and a searcher
 process that shares it scans for files it has not loaded yet.
 */
module Reload {
  import opened Ordering
  import opened Memory
  import opened Segment
  import opened EngineSpec
  import opened History
  import Tokenizer
  import Ranker
  import ExecutorSpec
  import Parser

  // ---- One scan, over any directory ----

  lemma LoadableIs(c: Codec, dir: Directory, known: set<string>, unreadable: set<string>, name: string)
    ensures |Loadable(c, dir, known, unreadable, name)| <= 1
    ensures forall r :: r in Loadable(c, dir, known, unreadable, name) ==>
              r.name == name && name in dir && IsSegmentName(name) && name !in known && name !in unreadable
              && dir[name].File? && OpenReader(c, name, dir[name].data) == Ok(r)
  {
  }

  ghost predicate Loads(c: Codec, dir: Directory, known: set<string>, unreadable: set<string>, r: Reader) {
    && r.name in dir && IsSegmentName(r.name) && r.name !in known && r.name !in unreadable
    && dir[r.name].File? && OpenReader(c, r.name, dir[r.name].data) == Ok(r)
  }

  lemma {:induction false} ScanExact(c: Codec, dir: Directory, names: seq<string>, known: set<string>,
                                     unreadable: set<string>)
    ensures forall r :: r in Scan(c, dir, names, known, unreadable) <==>
              r.name in names && Loads(c, dir, known, unreadable, r)
    decreases |names|
  {
    if names != [] {
      var n := |names| - 1;
      ScanExact(c, dir, names[..n], known, unreadable);
      forall r ensures r in Scan(c, dir, names, known, unreadable) <==>
                       r.name in names && Loads(c, dir, known, unreadable, r) {
        LoadableIs(c, dir, known, unreadable, names[n]);
        assert r.name in names <==> r.name in names[..n] || r.name == names[n];
      }
    }
  }

  ghost predicate DistinctNames(readers: seq<Reader>) {
    forall i, j :: 0 <= i < j < |readers| ==> readers[i].name != readers[j].name
  }

  lemma {:induction false} ScanDistinct(c: Codec, dir: Directory, names: seq<string>, known: set<string>,
                                        unreadable: set<string>)
    requires NoDuplicates(names)
    ensures DistinctNames(Scan(c, dir, names, known, unreadable))
    decreases |names|
  {
    if names != [] {
      var n := |names| - 1;
      ScanDistinct(c, dir, names[..n], known, unreadable);
      ScanExact(c, dir, names[..n], known, unreadable);
      LoadableIs(c, dir, known, unreadable, names[n]);
      var before, last := Scan(c, dir, names[..n], known, unreadable), Loadable(c, dir, known, unreadable, names[n]);
      forall i | 0 <= i < |before| ensures before[i].name != names[n] { assert before[i] in before; }
    }
  }

  ghost predicate InNameOrder(readers: seq<Reader>) {
    forall i, j :: 0 <= i < j < |readers| ==> Less(readers[i].name, readers[j].name)
  }

  lemma {:induction false} ScanOrdered(c: Codec, dir: Directory, names: seq<string>, known: set<string>,
                                       unreadable: set<string>)
    requires KeySorted(Id, names)
    ensures InNameOrder(Scan(c, dir, names, known, unreadable))
    decreases |names|
  {
    if names != [] {
      var n := |names| - 1;
      ScanOrdered(c, dir, names[..n], known, unreadable);
      ScanExact(c, dir, names[..n], known, unreadable);
      LoadableIs(c, dir, known, unreadable, names[n]);
      var before := Scan(c, dir, names[..n], known, unreadable);
      forall i | 0 <= i < |before| ensures Less(before[i].name, names[n]) {
        assert before[i] in before;
        var k :| 0 <= k < n && names[k] == before[i].name;
        assert Less(Id(names[k]), Id(names[n]));
      }
    }
  }

  lemma NewReadersExact(c: Codec, readers: seq<Reader>, dir: Directory, unreadable: set<string>)
    ensures forall r :: r in NewReaders(c, readers, dir, unreadable) <==>
              Loads(c, dir, KnownNames(readers), unreadable, r)
    ensures DistinctNames(NewReaders(c, readers, dir, unreadable))
    ensures InNameOrder(NewReaders(c, readers, dir, unreadable))
  {
    SortedKeysListed(dir.Keys);
    KeySortedNoDuplicates(Id, SortedKeys(dir.Keys));
    ScanExact(c, dir, SortedKeys(dir.Keys), KnownNames(readers), unreadable);
    ScanDistinct(c, dir, SortedKeys(dir.Keys), KnownNames(readers), unreadable);
    ScanOrdered(c, dir, SortedKeys(dir.Keys), KnownNames(readers), unreadable);
  }

  /** Whatever the directory holds, a reload never loads a name twice and never a temporary
      file, and a second reload of the same directory finds nothing. */
  lemma ReloadIsClean(c: Codec, s: State, unreadable: set<string>)
    requires DistinctNames(s.readers)
    ensures var s' := Reloaded(c, s, unreadable);
            && DistinctNames(s'.readers)
            && (forall r :: r in s'.readers && r !in s.readers ==>
                  IsSegmentName(r.name) && !Tokenizer.HasSuffix(r.name, ".tmp"))
            && NewReaders(c, s'.readers, s.dir, unreadable) == []
  {
    var added, s' := NewReaders(c, s.readers, s.dir, unreadable), Reloaded(c, s, unreadable);
    NewReadersExact(c, s.readers, s.dir, unreadable);
    forall i, j | 0 <= i < j < |s'.readers| ensures s'.readers[i].name != s'.readers[j].name {
      if i < |s.readers| <= j {
        assert s.readers[i] in s.readers && s'.readers[j] in added;
        assert s.readers[i].name in KnownNames(s.readers);
      }
    }
    forall r | r in added ensures !Tokenizer.HasSuffix(r.name, ".tmp") { NotTemporary(r.name); }
    NothingNew(c, s, unreadable);
  }

  lemma NotTemporary(name: string)
    requires IsSegmentName(name)
    ensures !Tokenizer.HasSuffix(name, ".tmp")
  {
    assert name[|name| - 5..][4] == 'x';
  }

  lemma TemporaryIsNoSegment(name: string)
    ensures !IsSegmentName(name + ".tmp")
  {
    var n := name + ".tmp";
    assert n[|n| - 4..] == ".tmp";
    if IsSegmentName(n) { NotTemporary(n); }
  }

  lemma NothingNew(c: Codec, s: State, unreadable: set<string>)
    ensures NewReaders(c, Reloaded(c, s, unreadable).readers, s.dir, unreadable) == []
  {
    var s' := Reloaded(c, s, unreadable);
    var again := NewReaders(c, s'.readers, s.dir, unreadable);
    NewReadersExact(c, s.readers, s.dir, unreadable);
    NewReadersExact(c, s'.readers, s.dir, unreadable);
    NamesGrow(s.readers, NewReaders(c, s.readers, s.dir, unreadable));
    NoMembers(again);
  }

  lemma NoMembers(readers: seq<Reader>)
    requires forall r :: r !in readers
    ensures readers == []
  {
    if readers != [] { SomeMember(readers); }
  }

  lemma NamesGrow(a: seq<Reader>, b: seq<Reader>)
    ensures KnownNames(a + b) == KnownNames(a) + KnownNames(b)
  {
    forall name ensures name in KnownNames(a + b) <==> name in KnownNames(a) || name in KnownNames(b) {
      if name in KnownNames(a) { var r :| r in a && r.name == name; assert r in a + b; }
      if name in KnownNames(b) { var r :| r in b && r.name == name; assert r in a + b; }
    }
  }

  /** A torn write leaves its temporary file behind; memory and readers stay, and no scan of
      the directory finds anything it would not have found before. */
  lemma TornWrite(c: Codec, s: State, io: FlushIO, unreadable: set<string>, r: Reader)
    requires s.mem != map[] && Fits(c, s.mem) && io.write.Torn?
    ensures var s' := Flushed(c, s, io);
            && s' == s.(dir := s.dir[io.name + ".tmp" := File(io.write.leftover)])
            && (io.name + ".tmp" !in s.dir ==>
                  (r in NewReaders(c, s.readers, s'.dir, unreadable) <==>
                   r in NewReaders(c, s.readers, s.dir, unreadable)))
  {
    SnapshotNotEmpty(s.mem);
    TornPersisted(c, Snapshot(s.mem), io, s.dir);
    var dir' := s.dir[io.name + ".tmp" := File(io.write.leftover)];
    NewReadersExact(c, s.readers, s.dir, unreadable);
    NewReadersExact(c, s.readers, dir', unreadable);
    TemporaryIsNoSegment(io.name);
  }

  lemma TornPersisted(c: Codec, snap: seq<TermEntry>, io: FlushIO, dir: Directory)
    requires snap != [] && |SegmentBytes(c, snap)| < INT64 && io.write.Torn?
    ensures Persisted(c, snap, io, dir) == (dir[io.name + ".tmp" := File(io.write.leftover)], None)
  {
  }

  // ---- Indexer and searcher over one directory ----

  /** The two engines, what was delivered to the indexer, the part of it that has reached a
      segment file, and the memory index each file was written from. */
  datatype World = World(indexer: State, searcher: State, hist: seq<Doc>, flushed: seq<Doc>, files: map<string, Index>)

  datatype Move = Deliver(event: Event) | Rescan(unreadable: set<string>)

  const START := World(EMPTY, EMPTY, [], [], map[])

  /** Names come from the nanosecond clock: a segment name not used before. */
  ghost predicate FreshName(w: World, m: Move) {
    m.Deliver? ==> m.event.io.name !in w.indexer.dir && IsSegmentName(m.event.io.name)
  }

  /** Memory as the event's flush, if it comes to one, would find it. */
  ghost function Ready(s: State, e: Event): State {
    match e
    case IndexDoc(id, text, _) => Recorded(s, id, Tokenizer.TermsOf(text))
    case FlushNow(_) => s
  }

  ghost function Known(hist: seq<Doc>, e: Event): seq<Doc> {
    match e
    case IndexDoc(id, text, _) => hist + [Doc(id, Tokenizer.TermsOf(text))]
    case FlushNow(_) => hist
  }

  ghost function MoveOn(c: Codec, maxSize: int, w: World, m: Move): World {
    match m
    case Deliver(e) =>
      var indexer := Step(c, maxSize, w.indexer, e);
      var hist := Known(w.hist, e);
      if e.io.name in indexer.dir
      then w.(indexer := indexer, hist := hist, flushed := hist, files := w.files[e.io.name := Ready(w.indexer, e).mem])
      else w.(indexer := indexer, hist := hist)
    case Rescan(unreadable) =>
      w.(searcher := Reloaded(c, w.searcher.(dir := w.indexer.dir), unreadable))
  }

  /** What a move adds to the delivered documents. */
  lemma MoveHistory(c: Codec, maxSize: int, w: World, m: Move)
    ensures MoveOn(c, maxSize, w, m).hist == if m.Deliver? then Known(w.hist, m.event) else w.hist
  {
  }

  ghost predicate Run(c: Codec, maxSize: int, moves: seq<Move>)
    decreases |moves|, 0
  {
    moves == [] ||
    (Run(c, maxSize, moves[..|moves| - 1]) && FreshName(After(c, maxSize, moves[..|moves| - 1]), moves[|moves| - 1]))
  }

  ghost function After(c: Codec, maxSize: int, moves: seq<Move>): World
    requires Run(c, maxSize, moves)
    decreases |moves|, 1
  {
    if moves == [] then START else MoveOn(c, maxSize, After(c, maxSize, moves[..|moves| - 1]), moves[|moves| - 1])
  }

  lemma RunNext(c: Codec, maxSize: int, moves: seq<Move>, m: Move)
    requires Run(c, maxSize, moves) && FreshName(After(c, maxSize, moves), m)
    ensures Run(c, maxSize, moves + [m])
    ensures After(c, maxSize, moves + [m]) == MoveOn(c, maxSize, After(c, maxSize, moves), m)
  {
    assert (moves + [m])[..|moves|] == moves;
  }

  // ---- What every move keeps ----

  /** The file opens, under its name, to a reader serving the index. */
  ghost predicate Opens(c: Codec, name: string, node: Node, index: Index) {
    node.File? && OpenReader(c, name, node.data).Ok? && Serves(c, OpenReader(c, name, node.data).value, index)
  }

  ghost predicate InFiles(files: map<string, Index>, t: string, d: string) {
    exists name :: name in files && d in Docs(files[name], t)
  }

  ghost predicate AllInFiles(files: map<string, Index>, hist: seq<Doc>) {
    forall doc, t :: doc in hist && t in doc.terms ==> InFiles(files, t, doc.id)
  }

  ghost predicate FilesOK(c: Codec, dir: Directory, files: map<string, Index>, flushed: seq<Doc>) {
    && (forall name :: name in files <==> name in dir && IsSegmentName(name))
    && (forall name :: name in files ==> Opens(c, name, dir[name], files[name]) && Sound(files[name], flushed))
    && AllInFiles(files, flushed)
  }

  ghost predicate SearcherOK(c: Codec, readers: seq<Reader>, files: map<string, Index>) {
    DistinctNames(readers) && forall r :: r in readers ==> r.name in files && Serves(c, r, files[r.name])
  }

  ghost predicate MemoryOK(mem: Index, files: map<string, Index>, hist: seq<Doc>) {
    && Sound(mem, hist)
    && forall doc, t :: doc in hist && t in doc.terms ==> doc.id in Docs(mem, t) || InFiles(files, t, doc.id)
  }

  ghost predicate Inv(c: Codec, w: World) {
    && FilesOK(c, w.indexer.dir, w.files, w.flushed)
    && SearcherOK(c, w.searcher.readers, w.files)
    && MemoryOK(w.indexer.mem, w.files, w.hist)
    && w.searcher.mem == map[]
  }

  /** What a flush can do to the directory: nothing, leave a temporary file, or add the segment. */
  lemma PersistedDir(c: Codec, snap: seq<TermEntry>, io: FlushIO, dir: Directory)
    requires io.name !in dir && IsSegmentName(io.name)
    ensures var out := Persisted(c, snap, io, dir);
            if io.name in out.0
            then |SegmentBytes(c, snap)| < INT64 && out.0 == dir[io.name := File(SegmentBytes(c, snap))]
            else out.1.None? && SameSegments(dir, out.0)
  {
    TemporaryIsNoSegment(io.name);
    SameWithTemporary(io.name, dir, File(if io.write.Torn? then io.write.leftover else []));
  }

  /** The two directories agree on everything a scan would look at. */
  ghost predicate SameSegments(dir: Directory, dir': Directory) {
    forall name :: IsSegmentName(name) ==> (name in dir' <==> name in dir) && (name in dir ==> dir'[name] == dir[name])
  }

  lemma SameWithTemporary(name: string, dir: Directory, node: Node)
    ensures SameSegments(dir, dir[name + ".tmp" := node])
  {
    TemporaryIsNoSegment(name);
  }

  lemma WrittenFileOpens(c: Codec, mem: Index, name: string)
    requires Lossless(c) && |SegmentBytes(c, Snapshot(mem))| < INT64
    ensures Opens(c, name, File(SegmentBytes(c, Snapshot(mem))), mem)
  {
    WrittenOpens(c, name, Snapshot(mem));
    WrittenServes(c, OpenReader(c, name, SegmentBytes(c, Snapshot(mem))).value, mem);
  }

  lemma RecordedMemory(s: State, files: map<string, Index>, hist: seq<Doc>, doc: Doc)
    requires MemoryOK(s.mem, files, hist)
    ensures MemoryOK(Recorded(s, doc.id, doc.terms).mem, files, hist + [doc])
  {
    AddedSound(s.mem, hist, doc);
    AddedWellFormed(s.mem, doc.id, doc.terms);
    var mem := Added(s.mem, doc.id, doc.terms);
    forall x, t | x in hist + [doc] && t in x.terms ensures x.id in Docs(mem, t) || InFiles(files, t, x.id) {
      if x in hist { assert x.id in Docs(s.mem, t) || InFiles(files, t, x.id); }
    }
  }

  lemma ReadyMemory(s: State, files: map<string, Index>, hist: seq<Doc>, e: Event)
    requires MemoryOK(s.mem, files, hist)
    ensures MemoryOK(Ready(s, e).mem, files, Known(hist, e))
    ensures Ready(s, e).dir == s.dir && Ready(s, e).readers == s.readers
  {
    if e.IndexDoc? { RecordedMemory(s, files, hist, Doc(e.id, Tokenizer.TermsOf(e.text))); }
  }

  /** An event either stops at the ready state or flushes it. */
  lemma StepIs(c: Codec, maxSize: int, s: State, e: Event)
    ensures Step(c, maxSize, s, e) == Ready(s, e) || Step(c, maxSize, s, e) == Flushed(c, Ready(s, e), e.io)
  {
  }

  lemma InFilesGrows(files: map<string, Index>, name: string, index: Index, t: string, d: string)
    requires name !in files && (InFiles(files, t, d) || d in Docs(index, t))
    ensures InFiles(files[name := index], t, d)
  {
    var files' := files[name := index];
    if InFiles(files, t, d) {
      var n :| n in files && d in Docs(files[n], t);
      assert n in files' && files'[n] == files[n];
    } else {
      assert name in files' && files'[name] == index;
    }
  }

  lemma {:induction false} SoundExtends(index: Index, a: seq<Doc>, b: seq<Doc>)
    requires Sound(index, a) && forall x :: x in a ==> x in b
    ensures Sound(index, b)
  {
    forall t, d | t in index && d in index[t] ensures Justified(b, t, index[t][d]) {
      assert Justified(a, t, index[t][d]);
    }
  }

  /** A new file: everything delivered so far is now in some file. */
  lemma FileAdded(c: Codec, dir: Directory, dir': Directory, files: map<string, Index>, flushed: seq<Doc>,
                  hist: seq<Doc>, name: string, mem: Index)
    requires FilesOK(c, dir, files, flushed) && MemoryOK(mem, files, hist)
    requires name !in dir && IsSegmentName(name) && (forall x :: x in flushed ==> x in hist)
    requires name in dir' && dir' == dir[name := dir'[name]] && Opens(c, name, dir'[name], mem)
    ensures FilesOK(c, dir', files[name := mem], hist)
  {
    var files' := files[name := mem];
    forall n | n in files' ensures Opens(c, n, dir'[n], files'[n]) && Sound(files'[n], hist) {
      if n != name { SoundExtends(files[n], flushed, hist); }
    }
    FileHoldsAll(files, name, mem, hist);
  }

  lemma FileHoldsAll(files: map<string, Index>, name: string, mem: Index, hist: seq<Doc>)
    requires name !in files && MemoryOK(mem, files, hist)
    ensures AllInFiles(files[name := mem], hist)
  {
    forall doc, t | doc in hist && t in doc.terms ensures InFiles(files[name := mem], t, doc.id) {
      InFilesGrows(files, name, mem, t, doc.id);
    }
  }

  lemma InFilesSuffices(mem: Index, files: map<string, Index>, hist: seq<Doc>)
    requires Sound(mem, hist) && AllInFiles(files, hist)
    ensures MemoryOK(mem, files, hist) && MemoryOK(map[], files, hist)
  {
  }

  lemma SearcherKeepsFiles(c: Codec, readers: seq<Reader>, files: map<string, Index>, name: string, mem: Index)
    requires SearcherOK(c, readers, files) && name !in files
    ensures SearcherOK(c, readers, files[name := mem])
  {
  }

  /** Only files are in the history that was delivered. */
  ghost predicate FlushedKnown(w: World) { forall x :: x in w.flushed ==> x in w.hist }

  lemma IndexKeeps(c: Codec, maxSize: int, w: World, e: Event)
    requires Lossless(c) && Inv(c, w) && FlushedKnown(w) && FreshName(w, Deliver(e))
    ensures Inv(c, MoveOn(c, maxSize, w, Deliver(e))) && FlushedKnown(MoveOn(c, maxSize, w, Deliver(e)))
  {
    var s, hist := Ready(w.indexer, e), Known(w.hist, e);
    ReadyMemory(w.indexer, w.files, w.hist, e);
    StepIs(c, maxSize, w.indexer, e);
    if Step(c, maxSize, w.indexer, e) != s {
      var snap := Snapshot(s.mem);
      PersistedDir(c, snap, e.io, s.dir);
      if e.io.name in Persisted(c, snap, e.io, s.dir).0 { WrittenFileOpens(c, s.mem, e.io.name); }
      PersistKeeps(c, w, s, hist, e.io, Persisted(c, snap, e.io, s.dir));
    }
  }

  /** The world after a flush from the ready state `s` has touched the directory. */
  ghost function Settled(w: World, s: State, hist: seq<Doc>, name: string, out: (Directory, Option<Reader>)): World {
    var indexer := AfterPersist(s, out);
    if name in out.0 then w.(indexer := indexer, hist := hist, flushed := hist, files := w.files[name := s.mem])
    else w.(indexer := indexer, hist := hist)
  }

  lemma PersistKeeps(c: Codec, w: World, s: State, hist: seq<Doc>, io: FlushIO, out: (Directory, Option<Reader>))
    requires Inv(c, w) && MemoryOK(s.mem, w.files, hist) && s.dir == w.indexer.dir
    requires io.name !in s.dir && IsSegmentName(io.name) && (forall x :: x in w.flushed ==> x in hist)
    requires if io.name in out.0
             then out.0 == s.dir[io.name := out.0[io.name]] && Opens(c, io.name, out.0[io.name], s.mem)
             else out.1.None? && SameSegments(s.dir, out.0)
    ensures Inv(c, Settled(w, s, hist, io.name, out))
  {
    if io.name in out.0 {
      FileAdded(c, s.dir, out.0, w.files, w.flushed, hist, io.name, s.mem);
      InFilesSuffices(s.mem, w.files[io.name := s.mem], hist);
      SearcherKeepsFiles(c, w.searcher.readers, w.files, io.name, s.mem);
    } else {
      SameFiles(c, s.dir, out.0, w.files, w.flushed);
    }
  }

  lemma SameFiles(c: Codec, dir: Directory, dir': Directory, files: map<string, Index>, flushed: seq<Doc>)
    requires FilesOK(c, dir, files, flushed)
    requires SameSegments(dir, dir')
    ensures FilesOK(c, dir', files, flushed)
  {
  }

  lemma ScanKeeps(c: Codec, maxSize: int, w: World, unreadable: set<string>)
    requires Inv(c, w)
    ensures Inv(c, MoveOn(c, maxSize, w, Rescan(unreadable)))
  {
    var s := w.searcher.(dir := w.indexer.dir);
    ReloadIsClean(c, s, unreadable);
    NewReadersExact(c, s.readers, s.dir, unreadable);
    var s' := Reloaded(c, s, unreadable);
    forall r | r in s'.readers ensures r.name in w.files && Serves(c, r, w.files[r.name]) {
      if r !in s.readers { assert Opens(c, r.name, s.dir[r.name], w.files[r.name]); }
    }
  }

  lemma {:induction false} RunKeeps(c: Codec, maxSize: int, moves: seq<Move>)
    requires Lossless(c) && Run(c, maxSize, moves)
    ensures Inv(c, After(c, maxSize, moves)) && FlushedKnown(After(c, maxSize, moves))
    decreases |moves|
  {
    if moves != [] {
      var k := |moves| - 1;
      RunKeeps(c, maxSize, moves[..k]);
      match moves[k]
      case Deliver(e) => IndexKeeps(c, maxSize, After(c, maxSize, moves[..k]), e);
      case Rescan(u) => ScanKeeps(c, maxSize, After(c, maxSize, moves[..k]), u);
    }
  }

  // ---- Convergence ----

  ghost predicate HasName(readers: seq<Reader>, name: string) {
    exists i :: 0 <= i < |readers| && readers[i].name == name
  }

  lemma AllLoaded(c: Codec, w: World, name: string)
    requires Inv(c, w) && name in w.files
    ensures HasName(Reloaded(c, w.searcher.(dir := w.indexer.dir), {}).readers, name)
  {
    var rs, dir := w.searcher.readers, w.indexer.dir;
    NewReadersExact(c, rs, dir, {});
    var r: Reader;
    if name in KnownNames(rs) {
      r :| r in rs && r.name == name;
    } else {
      assert Opens(c, name, dir[name], w.files[name]);
      r := OpenReader(c, name, dir[name].data).value;
      assert Loads(c, dir, KnownNames(rs), {}, r);
    }
    MemberHasName(rs + NewReaders(c, rs, dir, {}), r);
  }

  lemma MemberHasName(readers: seq<Reader>, r: Reader)
    requires r in readers
    ensures HasName(readers, r.name)
  {
  }

  ghost function SnapsOf(files: map<string, Index>, readers: seq<Reader>): (snaps: seq<Index>)
    requires forall r :: r in readers ==> r.name in files
  {
    seq(|readers|, i requires 0 <= i < |readers| => files[readers[i].name])
  }

  lemma SnapsAligned(c: Codec, dir: Directory, files: map<string, Index>, flushed: seq<Doc>, readers: seq<Reader>)
    requires FilesOK(c, dir, files, flushed) && SearcherOK(c, readers, files)
    ensures Aligned(c, readers, SnapsOf(files, readers), flushed)
  {
    forall i | 0 <= i < |readers|
      ensures Sound(files[readers[i].name], flushed) && Serves(c, readers[i], files[readers[i].name]) {
      assert readers[i] in readers;
    }
  }

  lemma SnapsComplete(files: map<string, Index>, flushed: seq<Doc>, readers: seq<Reader>)
    requires (forall r :: r in readers ==> r.name in files) && (forall name :: name in files ==> HasName(readers, name))
    requires AllInFiles(files, flushed)
    ensures Complete(map[], SnapsOf(files, readers), flushed)
  {
    var snaps := SnapsOf(files, readers);
    forall doc, t | doc in flushed && t in doc.terms ensures InSnaps(snaps, t, doc.id) {
      assert InFiles(files, t, doc.id);
      var name :| name in files && doc.id in Docs(files[name], t);
      assert HasName(readers, name);
      var i :| 0 <= i < |readers| && readers[i].name == name;
      assert doc.id in Docs(snaps[i], t);
    }
  }

  /** The searcher after a reload reflects exactly what has reached segment files. */
  lemma ReloadedReflects(c: Codec, w: World) returns (snaps: seq<Index>)
    requires Inv(c, w)
    ensures Reflects(c, Reloaded(c, w.searcher.(dir := w.indexer.dir), {}), snaps, w.flushed)
  {
    ScanKeeps(c, 0, w, {});
    var s := Reloaded(c, w.searcher.(dir := w.indexer.dir), {});
    forall name | name in w.files ensures HasName(s.readers, name) { AllLoaded(c, w, name); }
    snaps := LoadedReflects(c, s, w.indexer.dir, w.files, w.flushed);
  }

  /** A searcher that has a reader for every file reflects what is in files. */
  lemma LoadedReflects(c: Codec, s: State, dir: Directory, files: map<string, Index>, flushed: seq<Doc>)
      returns (snaps: seq<Index>)
    requires FilesOK(c, dir, files, flushed) && SearcherOK(c, s.readers, files) && s.mem == map[]
    requires forall name :: name in files ==> HasName(s.readers, name)
    ensures Reflects(c, s, snaps, flushed)
  {
    snaps := SnapsOf(files, s.readers);
    SnapsAligned(c, dir, files, flushed, s.readers);
    SnapsComplete(files, flushed, s.readers);
  }

  /** After any run of indexing, flushing with failures, and scans that may skip unreadable
      files: a scan that can read everything leaves the searcher answering every term with
      exactly the documents that have reached a segment file. */
  lemma ReloadConverges(c: Codec, maxSize: int, moves: seq<Move>, t: string)
    requires Lossless(c) && Run(c, maxSize, moves)
    ensures var w := After(c, maxSize, moves);
            Answers(w.flushed, t, SearchTerm(c, MoveOn(c, maxSize, w, Rescan({})).searcher, t))
  {
    var w := After(c, maxSize, moves);
    RunKeeps(c, maxSize, moves);
    var snaps := ReloadedReflects(c, w);
    SearchAnswers(c, Reloaded(c, w.searcher.(dir := w.indexer.dir), {}), snaps, w.flushed, t);
  }

  // ---- Restart ----

  /** After any run, an indexer that is started again over its directory and goes on: it
      answers from the documents that had reached a segment and from those that follow, and
      its statistics are those of the latter alone. */
  lemma RestartGoesOn(c: Codec, maxSize: int, moves: seq<Move>, events: seq<Event>, t: string)
    requires Lossless(c) && Run(c, maxSize, moves)
    ensures var w := After(c, maxSize, moves);
            var s := RunFrom(c, maxSize, Started(c, w.indexer.dir, {}), events);
            Answers(w.flushed + Delivered(events), t, SearchTerm(c, s, t)) && Counts(s, Delivered(events))
  {
    var w := After(c, maxSize, moves);
    var blank := w.(searcher := EMPTY);
    RunKeeps(c, maxSize, moves);
    var s0 := Started(c, w.indexer.dir, {});
    StartedIs(c, w.indexer.dir);
    var snaps := ReloadedReflects(c, blank);
    snaps := RunFromReflects(c, maxSize, s0, snaps, w.flushed, events);
    SearchAnswers(c, RunFrom(c, maxSize, s0, events), snaps, w.flushed + Delivered(events), t);
    RunFromCounts(c, maxSize, s0, events);
  }

  lemma StartedIs(c: Codec, dir: Directory)
    ensures Started(c, dir, {}) == Reloaded(c, EMPTY.(dir := dir), {}) && Counts(Started(c, dir, {}), [])
  {
  }

  /** The searcher's statistics are never restored: it counts no documents, however many
      segments it has loaded. */
  lemma {:induction false} SearcherCountsNothing(c: Codec, maxSize: int, moves: seq<Move>)
    requires Run(c, maxSize, moves)
    ensures var s := After(c, maxSize, moves).searcher;
            s.totalDocs == 0 && s.totalTokens == 0 && AvgDocLength(s) == 0.0 && s.docLengths == map[]
    decreases |moves|
  {
    if moves != [] { SearcherCountsNothing(c, maxSize, moves[..|moves| - 1]); }
  }

  lemma ZeroRanking(log: real -> real, corpus: Ranker.Corpus, m: Ranker.PerTerm, limit: int)
    requires corpus.avgDocLength == 0.0
    ensures forall x :: x in Ranker.Ranked(log, corpus, m, limit) ==> x.score == 0.0
  {
    var scores := Ranker.Scores(log, corpus, m);
    Ranker.RankedShape(scores, limit);
    forall d | d in scores ensures scores[d] == 0.0 {
      Ranker.ZeroAverageScoresZero(log, corpus, m, m.Keys, d);
    }
    assert Ranker.Round4(0.0) == 0.0;
  }

  /** So whatever it has loaded and whatever is asked, every result it returns scores zero. */
  lemma SearcherScoresZero(c: Codec, maxSize: int, moves: seq<Move>, log: real -> real, plan: Parser.QueryPlan,
                           limit: int)
    requires Run(c, maxSize, moves)
    ensures var v := ExecutorSpec.ViewOf(c, After(c, maxSize, moves).searcher);
            forall x :: x in ExecutorSpec.Executed(log, v, plan, limit).results ==> x.score == 0.0
  {
    SearcherCountsNothing(c, maxSize, moves);
    var v := ExecutorSpec.ViewOf(c, After(c, maxSize, moves).searcher);
    ZeroResults(v, log, plan, limit);
  }

  lemma ZeroResults(v: ExecutorSpec.View, log: real -> real, plan: Parser.QueryPlan, limit: int)
    requires v.totalDocs == 0
    ensures forall x :: x in ExecutorSpec.Executed(log, v, plan, limit).results ==> x.score == 0.0
  {
    var m := ExecutorSpec.Found(v.search, plan.terms);
    var docs := ExecutorSpec.Combined(plan.queryType, m) - ExecutorSpec.DocsMatching(v.search, plan.excludeTerms);
    ZeroRanking(log, ExecutorSpec.CorpusOf(v), ExecutorSpec.Filtered(m, docs), limit);
  }
}
