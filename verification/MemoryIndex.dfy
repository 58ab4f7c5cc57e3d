/**
 The in-memory inverted index: term -> document id -> posting.
 */
module Memory {
  import opened Ordering
  import Tokenizer

  datatype Posting = Posting(docID: string, frequency: nat, positions: seq<nat>)
  type PostingList = seq<Posting>
  datatype TermEntry = TermEntry(term: string, postings: PostingList)
  type Index = map<string, map<string, Posting>>

  function DocKey(p: Posting): string { p.docID }

  function TermKey(e: TermEntry): string { e.term }

  function TermSet(terms: seq<string>): set<string> { set t | t in terms }

  // ---- What a document's posting is ----

  /** Where `term` occurs among a document's terms. */
  function Positions(terms: seq<string>, term: string): seq<nat> {
    if terms == [] then []
    else
      var n := |terms| - 1;
      Positions(terms[..n], term) + if terms[n] == term then [n] else []
  }

  ghost predicate Ascending(s: seq<nat>) {
    forall i, j :: 0 <= i < j < |s| ==> s[i] < s[j]
  }

  /** Positions are exactly the places where the term stands, in ascending order. */
  lemma {:induction false} PositionsExact(terms: seq<string>, term: string)
    ensures forall i :: i in Positions(terms, term) <==> 0 <= i < |terms| && terms[i] == term
    ensures Ascending(Positions(terms, term))
  {
    if terms != [] {
      var n := |terms| - 1;
      PositionsExact(terms[..n], term);
      var before := Positions(terms[..n], term);
      assert forall i :: 0 <= i < |before| ==> before[i] in before;
    }
  }

  lemma PositionsNext(terms: seq<string>, t: string, term: string)
    ensures Positions(terms + [t], term) == Positions(terms, term) + if t == term then [|terms|] else []
  {
    assert (terms + [t])[..|terms|] == terms;
  }

  lemma {:induction false} AbsentHasNoPositions(terms: seq<string>, term: string)
    requires term !in terms
    ensures Positions(terms, term) == []
  {
    if terms != [] { AbsentHasNoPositions(terms[..|terms| - 1], term); }
  }

  function PostingFor(docID: string, terms: seq<string>, term: string): Posting {
    var ps := Positions(terms, term);
    Posting(docID, |ps|, ps)
  }

  /** The postings of one document, by term (memory_index.go:33-47). */
  function TermData(docID: string, terms: seq<string>): map<string, Posting> {
    map t | t in terms :: PostingFor(docID, terms, t)
  }

  lemma TermDataNext(docID: string, terms: seq<string>, t: string)
    ensures TermData(docID, terms + [t])
         == TermData(docID, terms)[t := PostingFor(docID, terms + [t], t)]
  {
    var a, b := TermData(docID, terms + [t]), TermData(docID, terms)[t := PostingFor(docID, terms + [t], t)];
    assert a.Keys == b.Keys;
    forall u | u in a.Keys ensures a[u] == b[u] {
      PositionsNext(terms, t, u);
    }
  }

  // ---- What a posting says about its document ----

  /** `p` counts and lists exactly the places of `term` in the document. */
  ghost predicate Records(p: Posting, docID: string, terms: seq<string>, term: string) {
    && p.docID == docID && p.frequency == multiset(terms)[term]
    && Ascending(p.positions) && (forall i :: i in p.positions <==> 0 <= i < |terms| && terms[i] == term)
  }

  lemma {:induction false} PositionsCounted(terms: seq<string>, term: string)
    ensures |Positions(terms, term)| == multiset(terms)[term]
  {
    if terms != [] {
      var n := |terms| - 1;
      PositionsCounted(terms[..n], term);
      assert terms == terms[..n] + [terms[n]];
    }
  }

  lemma {:induction false} AscendingUnique(a: seq<nat>, b: seq<nat>)
    requires Ascending(a) && Ascending(b) && forall i :: i in a <==> i in b
    ensures a == b
    decreases |a|
  {
    if a == [] {
      assert forall k :: 0 <= k < |b| ==> b[k] in b;
    } else {
      assert a[0] in b && b[|b| - 1] in a && a[|a| - 1] in b;
      var m, n := |a| - 1, |b| - 1;
      assert a[m] == b[n];
      DropGreatest(a);
      DropGreatest(b);
      AscendingUnique(a[..m], b[..n]);
      assert a == a[..m] + [a[m]] && b == b[..n] + [b[n]];
    }
  }

  lemma DropGreatest(s: seq<nat>)
    requires Ascending(s) && s != []
    ensures var n := |s| - 1; Ascending(s[..n]) && forall i :: i in s[..n] <==> i in s && i != s[n]
  {
  }

  /** A posting is the document's for the term if and only if its frequency is the number of
      occurrences and its positions are their places, ascending. */
  lemma PostingExact(p: Posting, docID: string, terms: seq<string>, term: string)
    ensures Records(p, docID, terms, term) <==> p == PostingFor(docID, terms, term)
  {
    PositionsExact(terms, term);
    PositionsCounted(terms, term);
    if Records(p, docID, terms, term) { AscendingUnique(p.positions, Positions(terms, term)); }
  }

  lemma {:induction false} SumOfZeros(keys: set<string>, f: string -> int)
    requires forall x :: x in keys ==> f(x) == 0
    ensures SumOver(keys, f) == 0
  {
    if keys != {} {
      var x :| x in keys && SumOver(keys, f) == f(x) + SumOver(keys - {x}, f);
      SumOfZeros(keys - {x}, f);
    }
  }

  // ---- The index as a value ----

  function Docs(index: Index, term: string): map<string, Posting> {
    if term in index then index[term] else map[]
  }

  /** Upserting the collected postings of the `done` terms of a document. */
  function Upserted(index: Index, docID: string, data: map<string, Posting>, done: set<string>): Index
    requires done <= data.Keys
  {
    map t | t in index.Keys + done ::
      if t in done then Docs(index, t)[docID := data[t]] else index[t]
  }

  function Added(index: Index, docID: string, terms: seq<string>): Index {
    var data := TermData(docID, terms);
    Upserted(index, docID, data, data.Keys)
  }

  lemma UpsertedNone(index: Index, docID: string, data: map<string, Posting>)
    ensures Upserted(index, docID, data, {}) == index
  {
  }

  lemma UpsertedNext(index: Index, docID: string, data: map<string, Posting>, done: set<string>, term: string)
    requires done <= data.Keys && term in data && term !in done
    ensures Docs(Upserted(index, docID, data, done), term) == Docs(index, term)
    ensures Upserted(index, docID, data, done + {term})
         == Upserted(index, docID, data, done)[term := Docs(index, term)[docID := data[term]]]
  {
  }

  /** The size estimate a posting adds, in bytes. */
  function SizeAt(docID: string, data: map<string, Posting>, t: string): int {
    |t| + |docID| + 64 + if t in data then 8 * |data[t].positions| else 0
  }

  ghost function SizeOf(docID: string, data: map<string, Posting>, done: set<string>): int {
    SumOver(done, t => SizeAt(docID, data, t))
  }

  lemma SizeOfNext(docID: string, data: map<string, Posting>, done: set<string>, term: string)
    requires term !in done
    ensures SizeOf(docID, data, done + {term}) == SizeOf(docID, data, done) + SizeAt(docID, data, term)
  {
    var f := (t: string) => SizeAt(docID, data, t);
    SumOverTake(done + {term}, f, term);
    assert done + {term} - {term} == done;
    SumOverSame(done, f, t => SizeAt(docID, data, t));
    SumOverSame(done + {term}, f, t => SizeAt(docID, data, t));
  }

  /** What adding a document with the given terms does to the size estimate. */
  ghost function AddedSize(docID: string, terms: seq<string>): int {
    var data := TermData(docID, terms);
    SizeOf(docID, data, data.Keys)
  }

  lemma {:induction false} SumOfNonNegative(keys: set<string>, f: string -> int)
    requires forall x :: x in keys ==> f(x) >= 0
    ensures SumOver(keys, f) >= 0
  {
    if keys != {} {
      var x :| x in keys && SumOver(keys, f) == f(x) + SumOver(keys - {x}, f);
      SumOfNonNegative(keys - {x}, f);
    }
  }

  /** The estimate never shrinks. */
  lemma AddedSizeGrows(docID: string, terms: seq<string>)
    ensures AddedSize(docID, terms) >= 0
  {
    var data := TermData(docID, terms);
    SumOfNonNegative(data.Keys, t => SizeAt(docID, data, t));
  }

  /** In closed form: per distinct term its bytes, the id and 64 bytes, and 8 bytes per
      occurrence. */
  lemma AddedSizeIs(docID: string, terms: seq<string>)
    ensures AddedSize(docID, terms) == SumOver(TermSet(terms), t => |t| + |docID| + 64) + 8 * |terms|
  {
    var data, keys := TermData(docID, terms), TermSet(terms);
    var f, g, h := (t: string) => |t| + |docID| + 64, (t: string) => multiset(terms)[t] as int,
                   (t: string) => SizeAt(docID, data, t);
    assert data.Keys == keys;
    forall t | t in keys ensures h(t) == f(t) + 8 * g(t) { PositionsCounted(terms, t); }
    SumOfBoth(keys, f, g, h);
    CountsSum(keys, terms);
    SumOverSame(keys, h, t => SizeAt(docID, data, t));
    SumOverSame(keys, g, t => multiset(terms)[t] as int);
    SumOverSame(keys, f, t => |t| + |docID| + 64);
  }

  lemma {:induction false} SumOfBoth(keys: set<string>, f: string -> int, g: string -> int, h: string -> int)
    requires forall x :: x in keys ==> h(x) == f(x) + 8 * g(x)
    ensures SumOver(keys, h) == SumOver(keys, f) + 8 * SumOver(keys, g)
    decreases keys
  {
    if keys != {} {
      var x :| x in keys;
      SumOverTake(keys, f, x);
      SumOverTake(keys, g, x);
      SumOverTake(keys, h, x);
      SumOfBoth(keys - {x}, f, g, h);
    }
  }

  ghost predicate WellFormed(index: Index) {
    forall t :: t in index ==>
      index[t] != map[] && KeyedBy(DocKey, index[t])
  }

  lemma AddedWellFormed(index: Index, docID: string, terms: seq<string>)
    requires WellFormed(index)
    ensures WellFormed(Added(index, docID, terms))
    ensures forall t ::
      Docs(Added(index, docID, terms), t)
      == if t in terms then Docs(index, t)[docID := PostingFor(docID, terms, t)] else Docs(index, t)
  {
    var r := Added(index, docID, terms);
    forall t: string | t in r
      ensures r[t] != map[] && KeyedBy(DocKey, r[t])
    {
      if t in terms { assert docID in r[t]; }
    }
  }

  /** What adding a document stores under one of its terms. */
  lemma AddedRecords(index: Index, docID: string, terms: seq<string>, term: string)
    requires term in terms
    ensures docID in Docs(Added(index, docID, terms), term)
    ensures Records(Docs(Added(index, docID, terms), term)[docID], docID, terms, term)
  {
    PostingExact(PostingFor(docID, terms, term), docID, terms, term);
  }

  /** Every token is counted in exactly one posting: whatever was in the index, the frequencies
      now stored for the document under its terms sum to its length. */
  lemma FrequenciesSumToLength(index: Index, docID: string, terms: seq<string>)
    ensures SumOver(TermSet(terms), t => StoredFrequency(Added(index, docID, terms), t, docID)) == |terms|
  {
    var f := (t: string) => StoredFrequency(Added(index, docID, terms), t, docID);
    var g := (t: string) => multiset(terms)[t] as int;
    forall t | t in terms ensures f(t) == g(t) {
      PostingExact(PostingFor(docID, terms, t), docID, terms, t);
    }
    SumOverSame(TermSet(terms), f, g);
    CountsSum(TermSet(terms), terms);
  }

  /** The frequency stored for a document under a term; 0 when there is none. */
  function StoredFrequency(index: Index, term: string, docID: string): int {
    if docID in Docs(index, term) then Docs(index, term)[docID].frequency else 0
  }

  lemma {:induction false} CountsSum(keys: set<string>, terms: seq<string>)
    requires TermSet(terms) <= keys
    ensures SumOver(keys, t => multiset(terms)[t] as int) == |terms|
    decreases |terms|
  {
    var f := (t: string) => multiset(terms)[t] as int;
    if terms == [] {
      SumOfZeros(keys, f);
    } else {
      var n := |terms| - 1;
      var last := terms[n];
      assert last in TermSet(terms);
      assert TermSet(terms[..n]) <= keys;
      CountsSum(keys, terms[..n]);
      var g := (t: string) => multiset(terms[..n])[t] as int;
      assert terms == terms[..n] + [last];
      SumOverTake(keys, f, last);
      SumOverTake(keys, g, last);
      SumOverSame(keys - {last}, f, g);
    }
  }

  /** The posting list of a document map: its values by document id. */
  ghost function Listing(docs: map<string, Posting>): PostingList {
    ListMap(docs)
  }

  ghost function EntryMap(index: Index): map<string, TermEntry> {
    map t | t in index :: TermEntry(t, Listing(index[t]))
  }

  /** One entry per term, in term order, with that term's posting list. */
  ghost function Snapshot(index: Index): seq<TermEntry> {
    ListMap(EntryMap(index))
  }

  lemma SnapshotExact(index: Index)
    ensures KeySorted(TermKey, Snapshot(index)) && Lists(TermKey, EntryMap(index), Snapshot(index))
    ensures |Snapshot(index)| == |index|
  {
    ListMapExact(TermKey, EntryMap(index));
    assert EntryMap(index).Keys == index.Keys;
  }

  // ---- The index as the source's object ----

  /** The values of a document map, in whatever order the map is walked, then sorted. */
  method ListDocs(docs: map<string, Posting>) returns (r: PostingList)
    requires KeyedBy(DocKey, docs)
    ensures r == Listing(docs)
  {
    var all: PostingList := [];
    var rest := docs.Keys;
    while rest != {}
      invariant rest <= docs.Keys
      invariant forall p :: p in all <==> p.docID in docs.Keys - rest && docs[p.docID] == p
      invariant DistinctKeys(DocKey, all)
      decreases rest
    {
      var d :| d in rest;
      DistinctKeysNext(DocKey, all, docs[d]);
      all := all + [docs[d]];
      rest := rest - {d};
    }
    SortByKeySorted(DocKey, all);
    r := SortByKey(DocKey, all);
    ListMapUnique(DocKey, docs, r);
  }

  /** `all` holds, once each, the entries whose terms have left `rest`. */
  ghost predicate Collected(want: map<string, TermEntry>, rest: set<string>, all: seq<TermEntry>) {
    && DistinctKeys(TermKey, all)
    && forall e :: e in all <==> e.term in want.Keys - rest && want[e.term] == e
  }

  lemma CollectedNext(want: map<string, TermEntry>, rest: set<string>, all: seq<TermEntry>, term: string)
    requires Collected(want, rest, all) && KeyedBy(TermKey, want) && term in rest && term in want
    ensures Collected(want, rest - {term}, all + [want[term]])
  {
    DistinctKeysNext(TermKey, all, want[term]);
  }

  lemma CollectedListing(want: map<string, TermEntry>, all: seq<TermEntry>)
    requires Collected(want, {}, all) && KeyedBy(TermKey, want)
    ensures SortByKey(TermKey, all) == ListMap(want)
  {
    SortByKeySorted(TermKey, all);
    ListMapUnique(TermKey, want, SortByKey(TermKey, all));
  }

  class MemoryIndex {
    var index: Index
    var docCount: nat
    var size: int

    ghost predicate Valid()
      reads this
    {
      WellFormed(index)
    }

    constructor ()
      ensures Valid() && index == map[] && docCount == 0 && size == 0
    {
      index, docCount, size := map[], 0, 0;
    }

    method AddDocument(docID: string, title: string, body: string)
      requires Valid()
      modifies this
      ensures Valid()
      ensures index == Added(old(index), docID, Tokenizer.TermsOf(title + " " + body))
      ensures docCount == old(docCount) + 1
      ensures size == old(size) + AddedSize(docID, Tokenizer.TermsOf(title + " " + body))
    {
      ghost var terms := Tokenizer.TermsOf(title + " " + body);
      var tokens := Tokenizer.Tokenize(title + " " + body);
      var termData := CollectPostings(docID, tokens, terms);
      UpsertAll(docID, termData);
      docCount := docCount + 1;
      AddedWellFormed(old(index), docID, terms);
    }

    /** The token loop: one posting per distinct term, grown occurrence by occurrence. */
    static method CollectPostings(docID: string, tokens: seq<Tokenizer.Token>, ghost terms: seq<string>)
      returns (termData: map<string, Posting>)
      requires tokens == Tokenizer.Numbered(terms, 0)
      ensures termData == TermData(docID, terms)
    {
      termData := map[];
      for i := 0 to |tokens|
        invariant termData == TermData(docID, terms[..i])
      {
        var token := tokens[i];
        ghost var seen := terms[..i];
        assert terms[..i + 1] == seen + [token.term];
        TermDataNext(docID, seen, token.term);
        PositionsNext(seen, token.term, token.term);
        if token.term !in seen { AbsentHasNoPositions(seen, token.term); }
        var p := if token.term in termData then termData[token.term] else Posting(docID, 0, []);
        termData := termData[token.term := Posting(docID, p.frequency + 1, p.positions + [token.position])];
      }
      assert terms[..|tokens|] == terms;
    }

    /** The write loop under the lock, over the collected map in any order. */
    method UpsertAll(docID: string, termData: map<string, Posting>)
      modifies this
      ensures index == Upserted(old(index), docID, termData, termData.Keys)
      ensures size == old(size) + SizeOf(docID, termData, termData.Keys)
      ensures docCount == old(docCount)
    {
      var rest := termData.Keys;
      ghost var done: set<string> := {};
      UpsertedNone(index, docID, termData);
      while rest != {}
        invariant rest <= termData.Keys && done == termData.Keys - rest
        invariant index == Upserted(old(index), docID, termData, done)
        invariant size == old(size) + SizeOf(docID, termData, done)
        invariant docCount == old(docCount)
        decreases rest
      {
        var term :| term in rest;
        UpsertedNext(old(index), docID, termData, done, term);
        SizeOfNext(docID, termData, done, term);
        Upsert(docID, term, termData[term]);
        rest := rest - {term};
        done := done + {term};
      }
      assert done == termData.Keys;
    }

    method Upsert(docID: string, term: string, posting: Posting)
      modifies this
      ensures index == old(index)[term := Docs(old(index), term)[docID := posting]]
      ensures size == old(size) + |term| + |docID| + 8 * |posting.positions| + 64
      ensures docCount == old(docCount)
    {
      if term !in index {
        index := index[term := map[]];
      }
      index := index[term := index[term][docID := posting]];
      size := size + (|term| + |docID| + |posting.positions| * 8 + 64);
    }

    method Search(term: string) returns (r: PostingList)
      requires Valid()
      ensures r == Listing(Docs(index, term))
    {
      if term !in index {
        return [];
      }
      r := ListDocs(index[term]);
    }

    method TakeSnapshot() returns (entries: seq<TermEntry>)
      requires Valid()
      ensures entries == Snapshot(index)
    {
      ghost var want := EntryMap(index);
      var all: seq<TermEntry> := [];
      var rest := index.Keys;
      while rest != {}
        invariant rest <= index.Keys
        invariant Collected(want, rest, all)
        decreases rest
      {
        var term :| term in rest;
        var postings := ListDocs(index[term]);
        CollectedNext(want, rest, all, term);
        all := all + [TermEntry(term, postings)];
        rest := rest - {term};
      }
      CollectedListing(want, all);
      entries := SortByKey(TermKey, all);
    }

    method Reset()
      modifies this
      ensures Valid() && index == map[] && docCount == 0 && size == 0
    {
      index, docCount, size := map[], 0, 0;
    }
  }
}
