/**
 Flush and search as interleaved steps.  A flush takes a snapshot, writes and opens the
 segment, attaches the reader and resets memory; a search begins, reads memory and then
 copies the readers.  Any number of both overlap with additions; each step is what the
 source does under one lock.  Memory holds one posting per term and document, so adding
 a document again replaces its postings; what is followed here are versions, a posting
 together with the place it was stored at.
 */
module FlushSteps {
  import opened Memory

  /** The place of a posting. */
  datatype Slot = Slot(term: string, doc: string)

  datatype Version = Version(slot: Slot, posting: Posting)
  type Versions = set<Version>
  type Table = map<Slot, Posting>

  function All(m: Table): Versions { set x | x in m :: Version(x, m[x]) }

  function Slots(vs: Versions): set<Slot> { set v | v in vs :: v.slot }

  /** What adding `es` replaces in memory. */
  function Overwritten(m: Table, es: Table): Versions {
    set x | x in m && x in es && m[x] != es[x] :: Version(x, m[x])
  }

  /** Where a flush stands, its snapshot, and what was added since it was taken. */
  datatype Flush =
    | Snapped(taken: Table, added: Versions)
    | Opened(taken: Table, added: Versions)
    | Attached(taken: Table, added: Versions)

  /** Where a search stands, what was in the index when it began, and which versions were
      overwritten and which dropped by a reset since. */
  datatype Search =
    | Begun(present: Versions, overwritten: Versions, dropped: Versions)
    | HasMemory(present: Versions, overwritten: Versions, dropped: Versions, found: Versions)

  /** The index, the operations under way, and a record of what happened: the newest version
      of every slot, all versions ever added, those replaced in memory, those added while a
      flush was under way, and those a reset dropped. */
  datatype State = State(mem: Table, readers: seq<Table>,
                         flushes: map<nat, Flush>, searches: map<nat, Search>,
                         newest: Table, ever: Versions, superseded: Versions, risky: Versions, lost: Versions)

  const INIT := State(map[], [], map[], map[], map[], {}, {}, {}, {})

  datatype Step =
    | Add(entries: Table)
    | Snapshot(flush: nat)
    | WriteAndOpen(flush: nat, ok: bool)
    | Attach(flush: nat)
    | Reset(flush: nat)
    | Begin(search: nat)
    | ReadMemory(search: nat)
    | CopyReaders(search: nat)

  function Covered(readers: seq<Table>): Versions {
    if readers == [] then {} else Covered(readers[..|readers| - 1]) + All(readers[|readers| - 1])
  }

  /** Everything a search could find right now. */
  function Held(s: State): Versions { All(s.mem) + Covered(s.readers) }

  /** What resetting memory now would drop. */
  function Unsaved(s: State): Versions { All(s.mem) - Covered(s.readers) }

  function WithAdded(f: Flush, vs: Versions): Flush {
    match f
    case Snapped(t, a) => Snapped(t, a + vs)
    case Opened(t, a) => Opened(t, a + vs)
    case Attached(t, a) => Attached(t, a + vs)
  }

  function WithGone(q: Search, over: Versions, drop: Versions): Search {
    q.(overwritten := q.overwritten + over, dropped := q.dropped + drop)
  }

  predicate Enabled(s: State, step: Step) {
    match step
    case Add(_) => true
    case Snapshot(f) => f !in s.flushes
    case WriteAndOpen(f, _) => f in s.flushes && s.flushes[f].Snapped?
    case Attach(f) => f in s.flushes && s.flushes[f].Opened?
    case Reset(f) => f in s.flushes && s.flushes[f].Attached?
    case Begin(q) => q !in s.searches
    case ReadMemory(q) => q in s.searches && s.searches[q].Begun?
    case CopyReaders(q) => q in s.searches && s.searches[q].HasMemory?
  }

  function Apply(s: State, step: Step): State
    requires Enabled(s, step)
  {
    match step
    case Add(es) =>
      var over := Overwritten(s.mem, es);
      s.(mem := s.mem + es, newest := s.newest + es, ever := s.ever + All(es), superseded := s.superseded + over,
         flushes := map f | f in s.flushes :: WithAdded(s.flushes[f], All(es)),
         searches := map q | q in s.searches :: WithGone(s.searches[q], over, {}),
         risky := if s.flushes == map[] then s.risky else s.risky + All(es))
    case Snapshot(f) =>
      if s.mem == map[] then s else s.(flushes := s.flushes[f := Snapped(s.mem, {})])
    case WriteAndOpen(f, ok) =>
      if ok then s.(flushes := s.flushes[f := Opened(s.flushes[f].taken, s.flushes[f].added)])
      else s.(flushes := s.flushes - {f})
    case Attach(f) =>
      s.(readers := s.readers + [s.flushes[f].taken],
         flushes := s.flushes[f := Attached(s.flushes[f].taken, s.flushes[f].added)])
    case Reset(f) =>
      s.(mem := map[], flushes := s.flushes - {f}, lost := s.lost + Unsaved(s),
         searches := map q | q in s.searches :: WithGone(s.searches[q], {}, Unsaved(s)))
    case Begin(q) => s.(searches := s.searches[q := Begun(Held(s), {}, {})])
    case ReadMemory(q) =>
      var b := s.searches[q];
      s.(searches := s.searches[q := HasMemory(b.present, b.overwritten, b.dropped, All(s.mem))])
    case CopyReaders(q) => s.(searches := s.searches - {q})
  }

  /** What the search answers from when it copies the readers. */
  function Answer(s: State, q: nat): Versions
    requires Enabled(s, CopyReaders(q))
  {
    s.searches[q].found + Covered(s.readers)
  }

  /** Every step of the run is enabled where it happens. */
  predicate Run(steps: seq<Step>)
    decreases |steps|, 0
  {
    steps == [] ||
    (Run(steps[..|steps| - 1]) && Enabled(After(steps[..|steps| - 1]), steps[|steps| - 1]))
  }

  function After(steps: seq<Step>): State
    requires Run(steps)
    decreases |steps|, 1
  {
    if steps == [] then INIT else Apply(After(steps[..|steps| - 1]), steps[|steps| - 1])
  }

  // ---- What every step keeps ----

  /** A flush, against what memory has (`m`) and what readers cover (`c`). */
  ghost predicate FlushOK(m: Versions, c: Versions, ever: Versions, risky: Versions, f: Flush) {
    && m <= All(f.taken) + f.added
    && f.added <= risky
    && All(f.taken) <= ever
    && (f.Attached? ==> All(f.taken) <= c)
  }

  /** What the search has, or can still get, of what was there. */
  function Reach(m: Versions, c: Versions, q: Search): Versions {
    if q.Begun? then m + c else q.found + c
  }

  ghost predicate SearchOK(m: Versions, c: Versions, ever: Versions, lost: Versions, q: Search) {
    && q.dropped <= lost
    && q.present <= Reach(m, c, q) + q.overwritten + q.dropped
    && Slots(q.present) <= Slots(Reach(m, c, q)) + Slots(q.dropped)
    && Reach(m, c, q) <= ever
  }

  ghost predicate FlushesOK(m: Versions, c: Versions, ever: Versions, risky: Versions, flushes: map<nat, Flush>) {
    forall f :: f in flushes ==> FlushOK(m, c, ever, risky, flushes[f])
  }

  ghost predicate SearchesOK(m: Versions, c: Versions, ever: Versions, lost: Versions, searches: map<nat, Search>) {
    forall q :: q in searches ==> SearchOK(m, c, ever, lost, searches[q])
  }

  ghost predicate Inv(s: State) {
    && s.ever == Held(s) + s.superseded + s.lost
    && All(s.newest) <= Held(s) + s.lost
    && s.lost <= s.risky
    && FlushesOK(All(s.mem), Covered(s.readers), s.ever, s.risky, s.flushes)
    && SearchesOK(All(s.mem), Covered(s.readers), s.ever, s.lost, s.searches)
  }

  lemma CoveredNext(readers: seq<Table>, r: Table)
    ensures Covered(readers + [r]) == Covered(readers) + All(r)
  {
    assert (readers + [r])[..|readers|] == readers;
  }

  /** Adding to a table: nothing but what is replaced disappears, and no slot does. */
  lemma AllNext(m: Table, es: Table)
    ensures All(m + es) <= All(m) + All(es) && All(es) <= All(m + es)
    ensures All(m) <= All(m + es) + Overwritten(m, es) && Overwritten(m, es) <= All(m)
    ensures Slots(All(m)) <= Slots(All(m + es))
  {
    forall x | x in m ensures x in m + es && Version(x, (m + es)[x]) in All(m + es) {
    }
  }

  /** The newest versions after an addition are those added and, elsewhere, those before. */
  lemma NewestNext(newest: Table, mem: Table, es: Table, rest: Versions)
    requires All(newest) <= All(mem) + rest
    ensures All(newest + es) <= All(mem + es) + rest
  {
    forall x | x in newest + es
      ensures Version(x, (newest + es)[x]) in All(mem + es) + rest
    {
      if x in es {
        assert (mem + es)[x] == es[x];
      } else {
        assert Version(x, newest[x]) in All(newest);
      }
    }
  }

  lemma SlotsOfUnion(a: Versions, b: Versions)
    ensures Slots(a + b) == Slots(a) + Slots(b)
  {
  }

  lemma AddKeepsFlushes(m: Versions, m': Versions, c: Versions, ever: Versions, risky: Versions, vs: Versions,
                        flushes: map<nat, Flush>)
    requires FlushesOK(m, c, ever, risky, flushes) && m' <= m + vs
    ensures FlushesOK(m', c, ever + vs, risky + vs, map f | f in flushes :: WithAdded(flushes[f], vs))
  {
    forall f | f in flushes ensures FlushOK(m', c, ever + vs, risky + vs, WithAdded(flushes[f], vs)) {
      assert FlushOK(m, c, ever, risky, flushes[f]);
    }
  }

  lemma AddKeepsSearch(m: Versions, m': Versions, c: Versions, ever: Versions, lost: Versions, vs: Versions,
                       over: Versions, q: Search)
    requires SearchOK(m, c, ever, lost, q)
    requires m' <= m + vs && m <= m' + over && Slots(m) <= Slots(m') && m <= ever
    ensures SearchOK(m', c, ever + vs, lost, WithGone(q, over, {}))
  {
    SlotsOfUnion(m, c);
    SlotsOfUnion(m', c);
    assert q.dropped + {} == q.dropped;
  }

  lemma AddKeepsSearches(m: Versions, m': Versions, c: Versions, ever: Versions, lost: Versions, vs: Versions,
                         over: Versions, searches: map<nat, Search>)
    requires SearchesOK(m, c, ever, lost, searches)
    requires m' <= m + vs && m <= m' + over && Slots(m) <= Slots(m') && m <= ever
    ensures SearchesOK(m', c, ever + vs, lost, map q | q in searches :: WithGone(searches[q], over, {}))
  {
    forall q | q in searches ensures SearchOK(m', c, ever + vs, lost, WithGone(searches[q], over, {})) {
      AddKeepsSearch(m, m', c, ever, lost, vs, over, searches[q]);
    }
  }

  lemma AddKeepsRecord(m: Versions, m': Versions, c: Versions, ever: Versions, superseded: Versions, lost: Versions,
                       vs: Versions, over: Versions)
    requires ever == m + c + superseded + lost
    requires m' <= m + vs && vs <= m' && m <= m' + over && over <= m
    ensures ever + vs == m' + c + (superseded + over) + lost
  {
  }

  lemma AddKeeps(s: State, es: Table)
    requires Inv(s)
    ensures Inv(Apply(s, Add(es)))
  {
    AllNext(s.mem, es);
    var m, m', c, vs, over := All(s.mem), All(s.mem + es), Covered(s.readers), All(es), Overwritten(s.mem, es);
    NewestNext(s.newest, s.mem, es, c + s.lost);
    AddKeepsFlushes(m, m', c, s.ever, s.risky, vs, s.flushes);
    AddKeepsSearches(m, m', c, s.ever, s.lost, vs, over, s.searches);
    AddKeepsRecord(m, m', c, s.ever, s.superseded, s.lost, vs, over);
  }

  lemma AttachKeepsFlushes(m: Versions, c: Versions, ever: Versions, risky: Versions, flushes: map<nat, Flush>, f: nat)
    requires FlushesOK(m, c, ever, risky, flushes) && f in flushes
    ensures FlushesOK(m, c + All(flushes[f].taken), ever, risky,
                      flushes[f := Attached(flushes[f].taken, flushes[f].added)])
  {
  }

  lemma AttachKeepsSearches(m: Versions, c: Versions, ever: Versions, lost: Versions, taken: Versions,
                            searches: map<nat, Search>)
    requires SearchesOK(m, c, ever, lost, searches) && taken <= ever
    ensures SearchesOK(m, c + taken, ever, lost, searches)
  {
    forall q | q in searches ensures SearchOK(m, c + taken, ever, lost, searches[q]) {
      assert SearchOK(m, c, ever, lost, searches[q]);
      assert Reach(m, c + taken, searches[q]) == Reach(m, c, searches[q]) + taken;
      SlotsOfUnion(Reach(m, c, searches[q]), taken);
    }
  }

  lemma AttachKeeps(s: State, f: nat)
    requires Inv(s) && Enabled(s, Attach(f))
    ensures Inv(Apply(s, Attach(f)))
  {
    var taken := s.flushes[f].taken;
    CoveredNext(s.readers, taken);
    assert FlushOK(All(s.mem), Covered(s.readers), s.ever, s.risky, s.flushes[f]);
    AttachKeepsFlushes(All(s.mem), Covered(s.readers), s.ever, s.risky, s.flushes, f);
    AttachKeepsSearches(All(s.mem), Covered(s.readers), s.ever, s.lost, All(taken), s.searches);
  }

  lemma ResetKeepsSearch(m: Versions, c: Versions, ever: Versions, lost: Versions, q: Search)
    requires SearchOK(m, c, ever, lost, q)
    ensures SearchOK({}, c, ever, lost + (m - c), WithGone(q, {}, m - c))
  {
    SlotsOfUnion(c, m - c);
    SlotsOfUnion(q.dropped, m - c);
    assert c + (m - c) == m + c && {} + c == c;
    assert q.overwritten + {} == q.overwritten;
  }

  lemma ResetKeeps(s: State, f: nat)
    requires Inv(s) && Enabled(s, Reset(f))
    ensures Inv(Apply(s, Reset(f)))
  {
    var m, c := All(s.mem), Covered(s.readers);
    assert FlushOK(m, c, s.ever, s.risky, s.flushes[f]);
    assert All(map[]) == {};
    forall q | q in s.searches
      ensures SearchOK({}, c, s.ever, s.lost + Unsaved(s), WithGone(s.searches[q], {}, Unsaved(s))) {
      ResetKeepsSearch(m, c, s.ever, s.lost, s.searches[q]);
    }
  }

  lemma SearchStepKeeps(s: State, step: Step)
    requires Inv(s) && Enabled(s, step) && (step.Begin? || step.ReadMemory? || step.CopyReaders?)
    ensures Inv(Apply(s, step))
  {
  }

  lemma FlushStepKeeps(s: State, step: Step)
    requires Inv(s) && Enabled(s, step) && (step.Snapshot? || step.WriteAndOpen?)
    ensures Inv(Apply(s, step))
  {
  }

  lemma StepKeeps(s: State, step: Step)
    requires Inv(s) && Enabled(s, step)
    ensures Inv(Apply(s, step))
  {
    match step
    case Add(es) => AddKeeps(s, es);
    case Attach(f) => AttachKeeps(s, f);
    case Reset(f) => ResetKeeps(s, f);
    case Snapshot(_) => FlushStepKeeps(s, step);
    case WriteAndOpen(_, _) => FlushStepKeeps(s, step);
    case Begin(_) => SearchStepKeeps(s, step);
    case ReadMemory(_) => SearchStepKeeps(s, step);
    case CopyReaders(_) => SearchStepKeeps(s, step);
  }

  lemma {:induction false} RunKeeps(steps: seq<Step>)
    requires Run(steps)
    ensures Inv(After(steps))
    decreases |steps|
  {
    if steps != [] {
      var k := |steps| - 1;
      RunKeeps(steps[..k]);
      StepKeeps(After(steps[..k]), steps[k]);
    }
  }

  /** In every run every version ever added is still held, was replaced in memory by a later
      one, or was dropped by a reset; the newest version of a slot is held or was dropped;
      and only versions added while a flush was under way are ever dropped. */
  lemma EverythingAccountedFor(steps: seq<Step>)
    requires Run(steps)
    ensures var s := After(steps);
            s.ever == Held(s) + s.superseded + s.lost && All(s.newest) <= Held(s) + s.lost && s.lost <= s.risky
  {
    RunKeeps(steps);
  }

  /** In every run a finishing search misses no version that was in the index when it began
      except those overwritten or dropped since, misses no slot except dropped ones, and
      answers with nothing that was never added. */
  lemma SearchMissesNothing(steps: seq<Step>, q: nat)
    requires Run(steps) && Enabled(After(steps), CopyReaders(q))
    ensures var s := After(steps); var search := s.searches[q];
            && search.present <= Answer(s, q) + search.overwritten + search.dropped
            && Slots(search.present) <= Slots(Answer(s, q)) + Slots(search.dropped)
            && Answer(s, q) <= s.ever
  {
    RunKeeps(steps);
    var s := After(steps);
    assert SearchOK(All(s.mem), Covered(s.readers), s.ever, s.lost, s.searches[q]);
  }

  /** No addition falls between a flush's snapshot and its reset. */
  ghost predicate Quiet(steps: seq<Step>)
    requires Run(steps)
    decreases |steps|
  {
    steps == [] ||
    var k := |steps| - 1;
    Quiet(steps[..k]) && (steps[k].Add? ==> After(steps[..k]).flushes == map[])
  }

  lemma {:induction false} QuietNotRisky(steps: seq<Step>)
    requires Run(steps) && Quiet(steps)
    ensures After(steps).risky == {}
    decreases |steps|
  {
    if steps != [] { QuietNotRisky(steps[..|steps| - 1]); }
  }

  /** With that guard, however flushes and searches overlap, the newest version of every
      slot is held, nothing disappears but by being replaced, and a search misses no slot
      that was there when it began and no version but those replaced since. */
  lemma QuietRunsLoseNothing(steps: seq<Step>)
    requires Run(steps) && Quiet(steps)
    ensures var s := After(steps);
            && s.lost == {} && All(s.newest) <= Held(s) && s.ever == Held(s) + s.superseded
            && forall q :: q in s.searches && s.searches[q].HasMemory? ==>
                 && s.searches[q].present <= Answer(s, q) + s.searches[q].overwritten
                 && Slots(s.searches[q].present) <= Slots(Answer(s, q))
  {
    RunKeeps(steps);
    QuietNotRisky(steps);
    var s := After(steps);
    forall q | q in s.searches && s.searches[q].HasMemory?
      ensures s.searches[q].present <= Answer(s, q) + s.searches[q].overwritten
      ensures Slots(s.searches[q].present) <= Slots(Answer(s, q))
    {
      assert SearchOK(All(s.mem), Covered(s.readers), s.ever, s.lost, s.searches[q]);
      assert s.searches[q].dropped == {};
      assert Slots(s.searches[q].dropped) == {};
    }
  }

  /** Exactly what one reset drops: versions added since its flush's snapshot that memory
      still has and no reader covers.  It drops nothing if and only if there is none. */
  lemma ResetDropsExactly(steps: seq<Step>, f: nat)
    requires Run(steps) && Enabled(After(steps), Reset(f))
    ensures var s := After(steps); var s' := Apply(s, Reset(f));
            && Held(s) - Held(s') == (s.flushes[f].added * All(s.mem)) - Covered(s.readers)
            && (Held(s') == Held(s) <==> s.flushes[f].added * All(s.mem) <= Covered(s.readers))
  {
    RunKeeps(steps);
    var s := After(steps);
    assert FlushOK(All(s.mem), Covered(s.readers), s.ever, s.risky, s.flushes[f]);
    assert All(Apply(s, Reset(f)).mem) == {};
  }

  // ---- The guard is needed ----

  lemma RunNext(steps: seq<Step>, step: Step)
    requires Run(steps) && Enabled(After(steps), step)
    ensures Run(steps + [step]) && After(steps + [step]) == Apply(After(steps), step)
  {
    assert (steps + [step])[..|steps|] == steps;
  }

  function One(v: Version): Table { map[v.slot := v.posting] }

  lemma OneVersion(v: Version)
    ensures All(One(v)) == {v}
  {
    assert Version(v.slot, v.posting) == v && One(v)[v.slot] == v.posting;
    forall x | x in All(One(v)) ensures x == v { }
  }

  /** A version added between snapshot and reset is gone, although it is the newest of its
      slot: a new document, or a document indexed again with other content, whose old
      version then is what searches find. */
  lemma AddInWindowIsLost(a: Version, b: Version) returns (steps: seq<Step>)
    requires a != b
    ensures Run(steps)
    ensures var s := After(steps);
            b in All(s.newest) && b in s.ever && Held(s) == {a}
  {
    var s3 := SnapshotThenAdd(a, b);
    var readable, attached, clear := RestOfFlush(After(s3), One(a));
    RunNext(s3, WriteAndOpen(0, true));
    var s4 := s3 + [WriteAndOpen(0, true)];
    assert After(s4) == readable;
    RunNext(s4, Attach(0));
    var s5 := s4 + [Attach(0)];
    assert After(s5) == attached;
    RunNext(s5, Reset(0));
    steps := s5 + [Reset(0)];
    OneVersion(a);
  }

  lemma SnapshotThenAdd(a: Version, b: Version) returns (steps: seq<Step>)
    ensures Run(steps)
    ensures var s := After(steps);
            && 0 in s.flushes && s.flushes[0].Snapped? && s.flushes[0].taken == One(a) && s.readers == []
            && b in All(s.newest) && b in s.ever
  {
    RunNext([], Add(One(a)));
    var s1 := [] + [Add(One(a))];
    assert After(s1).mem == One(a) && After(s1).newest == One(a) && After(s1).flushes == map[];
    assert a.slot in After(s1).mem;
    RunNext(s1, Snapshot(0));
    var s2 := s1 + [Snapshot(0)];
    assert After(s2).flushes[0] == Snapped(One(a), {});
    RunNext(s2, Add(One(b)));
    steps := s2 + [Add(One(b))];
    assert (One(a) + One(b))[b.slot] == b.posting;
  }

  /** The states of the rest of a flush, from one that has a snapshot and no reader. */
  lemma RestOfFlush(s: State, taken: Table) returns (readable: State, attached: State, clear: State)
    requires 0 in s.flushes && s.flushes[0].Snapped? && s.flushes[0].taken == taken && s.readers == []
    ensures Enabled(s, WriteAndOpen(0, true)) && readable == Apply(s, WriteAndOpen(0, true))
    ensures Enabled(readable, Attach(0)) && attached == Apply(readable, Attach(0))
    ensures Enabled(attached, Reset(0)) && clear == Apply(attached, Reset(0))
    ensures Held(clear) == All(taken) && clear.ever == s.ever && clear.newest == s.newest
  {
    readable := Apply(s, WriteAndOpen(0, true));
    attached := Apply(readable, Attach(0));
    clear := Apply(attached, Reset(0));
    OnlySaved(clear, taken);
  }

  lemma OnlySaved(s: State, taken: Table)
    requires s.mem == map[] && s.readers == [] + [taken]
    ensures Held(s) == All(taken)
  {
    CoveredNext([], taken);
    assert All(s.mem) == {};
  }
}
