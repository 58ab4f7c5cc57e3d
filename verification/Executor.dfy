/**
 Boolean execution over one engine: postings per term, intersection or union, exclusion,
 and ranking of what remains.
 */
module ExecutorSpec {
  import opened Ordering
  import opened Memory
  import opened Ranker
  import opened Parser
  import EngineSpec
  import Segment

  /** What the executor sees of an engine. */
  datatype View = View(search: string -> PostingList, docLength: string -> nat, totalDocs: nat, totalTokens: nat)

  ghost function ViewOf(c: Segment.Codec, s: EngineSpec.State): View {
    View(t => EngineSpec.Search(c, s, t), d => EngineSpec.DocLength(s, d), s.totalDocs, s.totalTokens)
  }

  function Average(v: View): real {
    if v.totalDocs == 0 then 0.0 else v.totalTokens as real / v.totalDocs as real
  }

  datatype SearchResult =
    SearchResult(query: string, totalHits: nat, results: seq<ScoredDoc>, termStats: map<string, nat>)

  /** The non-empty posting lists of the query terms. */
  function Found(search: string -> PostingList, terms: seq<string>): PerTerm {
    map t | t in terms && search(t) != [] :: search(t)
  }

  /** Documents in every list; none when there is no list. */
  function Intersection(m: PerTerm): set<string> {
    set d | d in AllDocs(m, m.Keys) && forall t :: t in m ==> d in DocSet(m[t])
  }

  function Union(m: PerTerm): set<string> { AllDocs(m, m.Keys) }

  function Combined(queryType: QueryType, m: PerTerm): set<string> {
    match queryType
    case QueryAND => Intersection(m)
    case QueryOR => Union(m)
  }

  function DocsMatching(search: string -> PostingList, excludes: seq<string>): set<string> {
    set t, p | t in excludes && p in search(t) :: p.docID
  }

  function Keep(ps: PostingList, docs: set<string>): PostingList {
    if ps == [] then []
    else
      var n := |ps| - 1;
      Keep(ps[..n], docs) + if ps[n].docID in docs then [ps[n]] else []
  }

  function Filtered(m: PerTerm, docs: set<string>): PerTerm {
    map t | t in m && Keep(m[t], docs) != [] :: Keep(m[t], docs)
  }

  /** Filtering, ranking and counting once lists and exclusions are known. */
  ghost function Hits(log: real -> real, corpus: Corpus, queryType: QueryType, m: PerTerm, excluded: set<string>,
                      limit: int)
    : (nat, seq<ScoredDoc>)
  {
    var docs := Combined(queryType, m) - excluded;
    (|docs|, Ranked(log, corpus, Filtered(m, docs), limit))
  }

  function CorpusOf(v: View): Corpus { Corpus(v.totalDocs, Average(v), v.docLength) }

  function Stats(m: PerTerm): map<string, nat> { map t | t in m :: |m[t]| }

  /** `Executor.Execute` (executor.go:40-115). */
  ghost function Executed(log: real -> real, v: View, plan: QueryPlan, limit: int): SearchResult {
    if plan.terms == [] then SearchResult(plan.rawQuery, 0, [], map[])
    else
      var m := Found(v.search, plan.terms);
      var hits := Hits(log, CorpusOf(v), plan.queryType, m, DocsMatching(v.search, plan.excludeTerms), limit);
      SearchResult(plan.rawQuery, hits.0, hits.1, Stats(m))
  }

  // ---- Boolean meaning ----

  /** `d` contains the term. */
  ghost predicate Matches(search: string -> PostingList, t: string, d: string) {
    exists p :: p in search(t) && p.docID == d
  }

  /** Candidates are the documents matching every (AND) or any (OR) query term that
      matches anything at all, and no exclude term. */
  lemma CandidatesMeaning(search: string -> PostingList, plan: QueryPlan, d: string)
    ensures var docs := Combined(plan.queryType, Found(search, plan.terms)) - DocsMatching(search, plan.excludeTerms);
            d in docs <==>
              && (exists t :: t in plan.terms && Matches(search, t, d))
              && (plan.queryType == QueryAND ==>
                    forall t :: t in plan.terms && search(t) != [] ==> Matches(search, t, d))
              && (forall t :: t in plan.excludeTerms ==> !Matches(search, t, d))
  {
    var m := Found(search, plan.terms);
    UnionMeaning(search, plan.terms, d);
    assert d in DocsMatching(search, plan.excludeTerms) <==>
           exists t :: t in plan.excludeTerms && Matches(search, t, d);
    forall t | t in m ensures d in DocSet(m[t]) <==> Matches(search, t, d) { }
  }

  lemma UnionMeaning(search: string -> PostingList, terms: seq<string>, d: string)
    ensures d in Union(Found(search, terms)) <==> exists t :: t in terms && Matches(search, t, d)
  {
    var m := Found(search, terms);
    if d in Union(m) {
      var t: string, p: Posting :| t in m && p in m[t] && p.docID == d;
      assert Matches(search, t, d);
    }
    if exists t :: t in terms && Matches(search, t, d) {
      var t :| t in terms && Matches(search, t, d);
      var p :| p in search(t) && p.docID == d;
      assert t in m && p in m[t];
    }
  }

  lemma {:induction false} KeepExact(ps: PostingList, docs: set<string>)
    ensures forall p :: p in Keep(ps, docs) <==> p in ps && p.docID in docs
  {
    if ps != [] {
      var n := |ps| - 1;
      KeepExact(ps[..n], docs);
      assert ps == ps[..n] + [ps[n]];
    }
  }

  /** Filtering to candidates loses none of them. */
  lemma FilteredDocs(m: PerTerm, docs: set<string>)
    requires docs <= AllDocs(m, m.Keys)
    ensures AllDocs(Filtered(m, docs), Filtered(m, docs).Keys) == docs
  {
    var f := Filtered(m, docs);
    forall t | t in m ensures forall p :: p in Keep(m[t], docs) <==> p in m[t] && p.docID in docs {
      KeepExact(m[t], docs);
    }
    forall d | d in docs ensures d in AllDocs(f, f.Keys) {
      var t: string, p: Posting :| t in m && p in m[t] && p.docID == d;
      assert p in Keep(m[t], docs);
      assert t in f && p in f[t];
    }
  }

  /** Every candidate is ranked: with a positive limit the result has min(limit, hits)
      entries, otherwise one per hit. */
  lemma ResultLength(log: real -> real, v: View, plan: QueryPlan, limit: int)
    ensures var r := Executed(log, v, plan, limit);
            |r.results| == if limit > 0 && limit < r.totalHits then limit else r.totalHits
  {
    if plan.terms != [] {
      HitsLength(log, CorpusOf(v), plan.queryType, Found(v.search, plan.terms),
                 DocsMatching(v.search, plan.excludeTerms), limit);
    }
  }

  lemma HitsLength(log: real -> real, corpus: Corpus, queryType: QueryType, m: PerTerm, excluded: set<string>,
                   limit: int)
    ensures var r := Hits(log, corpus, queryType, m, excluded, limit);
            |r.1| == if limit > 0 && limit < r.0 then limit else r.0
  {
    var docs := Combined(queryType, m) - excluded;
    FilteredDocs(m, docs);
    RankedLength(log, corpus, Filtered(m, docs), docs, limit);
  }

  lemma RankedLength(log: real -> real, corpus: Corpus, f: PerTerm, docs: set<string>, limit: int)
    requires AllDocs(f, f.Keys) == docs
    ensures |Ranked(log, corpus, f, limit)| == if limit > 0 && limit < |docs| then limit else |docs|
  {
    var scores := Scores(log, corpus, f);
    assert scores.Keys == docs;
    RankedShape(scores, limit);
  }

  // ---- What an answer depends on ----

  lemma {:induction false} KeepCounts(ps: PostingList, docs: set<string>)
    ensures forall p :: multiset(Keep(ps, docs))[p] == if p.docID in docs then multiset(ps)[p] else 0
  {
    if ps != [] {
      var n := |ps| - 1;
      KeepCounts(ps[..n], docs);
      assert ps == ps[..n] + [ps[n]];
    }
  }

  lemma KeepPermutation(ps: PostingList, qs: PostingList, docs: set<string>)
    requires multiset(ps) == multiset(qs)
    ensures multiset(Keep(ps, docs)) == multiset(Keep(qs, docs))
  {
    KeepCounts(ps, docs);
    KeepCounts(qs, docs);
  }

  lemma SameListsCombine(queryType: QueryType, m: PerTerm, m': PerTerm)
    requires SameLists(m, m')
    ensures Combined(queryType, m) == Combined(queryType, m')
  {
    forall t | t in m ensures DocSet(m[t]) == DocSet(m'[t]) {
      SameElements(m[t], m'[t]);
    }
    SameListsAllDocs(m, m');
  }

  lemma SameListsAllDocs(m: PerTerm, m': PerTerm)
    requires SameLists(m, m')
    ensures AllDocs(m, m.Keys) == AllDocs(m', m'.Keys)
  {
    forall t | t in m ensures forall p :: p in m[t] <==> p in m'[t] {
      SameElements(m[t], m'[t]);
    }
  }

  lemma SameListsFilter(m: PerTerm, m': PerTerm, docs: set<string>)
    requires SameLists(m, m')
    ensures SameLists(Filtered(m, docs), Filtered(m', docs))
  {
    forall t | t in m ensures multiset(Keep(m[t], docs)) == multiset(Keep(m'[t], docs))
                      ensures Keep(m[t], docs) == [] <==> Keep(m'[t], docs) == [] {
      KeepPermutation(m[t], m'[t], docs);
      SameElements(Keep(m[t], docs), Keep(m'[t], docs));
    }
  }

  /** Hits and ranking depend only on the posting lists up to order, the exclusions, and
      the statistics of the listed documents. */
  lemma HitsDependOnContent(log: real -> real, a: Corpus, b: Corpus, queryType: QueryType,
                            m: PerTerm, m': PerTerm, excluded: set<string>, limit: int)
    requires SameLists(m, m')
    requires a.totalDocs == b.totalDocs && a.avgDocLength == b.avgDocLength
    requires forall t, p :: t in m && p in m[t] ==> a.docLength(p.docID) == b.docLength(p.docID)
    ensures Hits(log, a, queryType, m, excluded, limit) == Hits(log, b, queryType, m', excluded, limit)
  {
    SameListsCombine(queryType, m, m');
    var docs := Combined(queryType, m) - excluded;
    SameListsFilter(m, m', docs);
    var f := Filtered(m, docs);
    forall t: string, p: Posting | t in f && p in f[t] ensures a.docLength(p.docID) == b.docLength(p.docID) {
      KeepExact(m[t], docs);
    }
    RankedPermutation(log, a, b, f, Filtered(m', docs), limit);
  }

  /** The answer to a plan depends on its type and on which terms it names: repeating or
      reordering terms and exclusions changes nothing but the echoed query. */
  lemma PlanOrderIrrelevant(log: real -> real, v: View, p: QueryPlan, q: QueryPlan, limit: int)
    requires p.queryType == q.queryType
    requires (forall t :: t in p.terms <==> t in q.terms) && (forall t :: t in p.excludeTerms <==> t in q.excludeTerms)
    ensures Executed(log, v, p, limit).totalHits == Executed(log, v, q, limit).totalHits
    ensures Executed(log, v, p, limit).results == Executed(log, v, q, limit).results
    ensures Executed(log, v, p, limit).termStats == Executed(log, v, q, limit).termStats
  {
    assert p.terms == [] <==> q.terms == [] by {
      if p.terms != [] { assert p.terms[0] in q.terms; }
      if q.terms != [] { assert q.terms[0] in p.terms; }
    }
    assert Found(v.search, p.terms) == Found(v.search, q.terms);
    assert DocsMatching(v.search, p.excludeTerms) == DocsMatching(v.search, q.excludeTerms);
  }

  lemma KeepNone(ps: PostingList, docs: set<string>)
    requires forall p :: p in ps ==> p.docID !in docs
    ensures Keep(ps, docs) == []
  {
    KeepExact(ps, docs);
    if Keep(ps, docs) != [] { SomeMember(Keep(ps, docs)); }
  }

  /** In an OR query, further terms all of whose documents are excluded change nothing. */
  lemma ExcludedTermsIdle(log: real -> real, corpus: Corpus, search: string -> PostingList,
                          terms: seq<string>, more: seq<string>, excluded: set<string>, limit: int)
    requires forall t :: t in terms ==> t in more
    requires forall t :: t in more && t !in terms ==> DocSet(search(t)) <= excluded
    ensures Hits(log, corpus, QueryOR, Found(search, terms), excluded, limit)
         == Hits(log, corpus, QueryOR, Found(search, more), excluded, limit)
  {
    var m, m' := Found(search, terms), Found(search, more);
    var docs, docs' := Union(m) - excluded, Union(m') - excluded;
    forall d ensures d in docs <==> d in docs' {
      UnionMeaning(search, terms, d);
      UnionMeaning(search, more, d);
    }
    assert docs == docs';
    forall t | t in m' && t !in m ensures Keep(m'[t], docs) == [] {
      forall p: Posting | p in m'[t] ensures p.docID !in docs { assert p.docID in DocSet(search(t)); }
      KeepNone(m'[t], docs);
    }
    assert Filtered(m, docs) == Filtered(m', docs);
  }

  /** A query all of whose matches are excluded has no hits, whatever else it says. */
  lemma AllExcluded(log: real -> real, corpus: Corpus, queryType: QueryType, search: string -> PostingList,
                    terms: seq<string>, excluded: set<string>, limit: int)
    requires forall t :: t in terms ==> DocSet(search(t)) <= excluded
    ensures Hits(log, corpus, queryType, Found(search, terms), excluded, limit)
            == (0, Ranked(log, corpus, map[], limit))
  {
    var m := Found(search, terms);
    forall d | d in Combined(queryType, m) ensures d in excluded {
      UnionMeaning(search, terms, d);
      var t :| t in terms && Matches(search, t, d);
      assert d in DocSet(search(t));
    }
    assert Combined(queryType, m) - excluded == {};
    forall t | t in m ensures Keep(m[t], {}) == [] { KeepNone(m[t], {}); }
    assert Filtered(m, {}) == map[];
  }

  /** One non-empty list all of whose documents are excluded leaves an AND query no hits. */
  lemma OneListExcluded(log: real -> real, corpus: Corpus, search: string -> PostingList, terms: seq<string>, t: string,
                        excluded: set<string>, limit: int)
    requires t in terms && search(t) != [] && DocSet(search(t)) <= excluded
    ensures Hits(log, corpus, QueryAND, Found(search, terms), excluded, limit) == (0, Ranked(log, corpus, map[], limit))
  {
    var m := Found(search, terms);
    assert t in m && m[t] == search(t);
    assert Combined(QueryAND, m) - excluded == {};
    forall u | u in m ensures Keep(m[u], {}) == [] { KeepNone(m[u], {}); }
    assert Filtered(m, {}) == map[];
  }

  /** In an AND query, further terms whose lists are excluded and already asked for change
      nothing. */
  lemma RepeatedTermsIdle(log: real -> real, corpus: Corpus, search: string -> PostingList,
                          terms: seq<string>, more: seq<string>, excluded: set<string>, limit: int)
    requires forall t :: t in terms ==> t in more
    requires forall t :: t in more && t !in terms && search(t) != [] ==>
               DocSet(search(t)) <= excluded && exists u :: u in terms && search(u) == search(t)
    ensures Hits(log, corpus, QueryAND, Found(search, terms), excluded, limit)
         == Hits(log, corpus, QueryAND, Found(search, more), excluded, limit)
  {
    if t :| t in more && t !in terms && search(t) != [] {
      var u :| u in terms && search(u) == search(t);
      OneListExcluded(log, corpus, search, terms, u, excluded, limit);
      OneListExcluded(log, corpus, search, more, t, excluded, limit);
    } else {
      assert Found(search, terms) == Found(search, more);
    }
  }

  lemma SameDocsMatching(search: string -> PostingList, terms: seq<string>, others: seq<string>)
    requires forall t :: t in terms <==> t in others
    ensures DocsMatching(search, terms) == DocsMatching(search, others) && Found(search, terms) == Found(search, others)
  {
  }

  lemma MatchingDocs(search: string -> PostingList, terms: seq<string>, t: string)
    requires t in terms
    ensures DocSet(search(t)) <= DocsMatching(search, terms)
  {
  }
}

/** The executor as the source's loops over an engine object. */
module ExecutorObject {
  import opened Memory
  import opened Ranker
  import opened Parser
  import opened ExecutorSpec
  import opened EngineObject
  import opened Ordering
  import EngineSpec
  import Segment

  ghost function Seen(e: Engine): View
    reads e, e.mem, e.disk
  {
    ViewOf(e.codec, e.View())
  }

  /** `intersectPostings`: start from a shortest list and strike out. */
  method Intersect(m: PerTerm) returns (candidates: set<string>)
    ensures candidates == Intersection(m)
  {
    if |m| == 0 { return {}; }
    var shortest, shortestLen := "", -1;
    var rest := m.Keys;
    while rest != {}
      invariant rest <= m.Keys
      invariant shortestLen >= -1
      invariant shortestLen == -1 ==> rest == m.Keys
      invariant shortestLen >= 0 ==> shortest in m
      decreases rest
    {
      var t :| t in rest;
      if shortestLen < 0 || |m[t]| < shortestLen {
        shortestLen, shortest := |m[t]|, t;
      }
      rest := rest - {t};
    }
    assert m.Keys != {};
    candidates := DocSet(m[shortest]);
    rest := m.Keys - {shortest};
    while rest != {}
      invariant rest <= m.Keys - {shortest}
      invariant candidates == set d | d in DocSet(m[shortest]) && forall t :: t in m.Keys - rest ==> d in DocSet(m[t])
      decreases rest
    {
      var t :| t in rest;
      var docSet := DocSet(m[t]);
      candidates := set d | d in candidates && d in docSet;
      rest := rest - {t};
    }
    assert candidates == Intersection(m);
  }

  method Unite(m: PerTerm) returns (result: set<string>)
    ensures result == Union(m)
  {
    result := {};
    var rest := m.Keys;
    while rest != {}
      invariant rest <= m.Keys
      invariant result == AllDocs(m, m.Keys - rest)
      decreases rest
    {
      var t :| t in rest;
      AllDocsNext(m, m.Keys - rest, t);
      assert m.Keys - (rest - {t}) == (m.Keys - rest) + {t};
      result := result + DocSet(m[t]);
      rest := rest - {t};
    }
    assert m.Keys - rest == m.Keys;
  }

  method KeepCandidates(ps: PostingList, docs: set<string>) returns (filtered: PostingList)
    ensures filtered == Keep(ps, docs)
  {
    filtered := [];
    for i := 0 to |ps|
      invariant filtered == Keep(ps[..i], docs)
    {
      assert ps[..i + 1][..i] == ps[..i];
      if ps[i].docID in docs { filtered := filtered + [ps[i]]; }
    }
    assert ps[..|ps|] == ps;
  }

  method FilterLists(m: PerTerm, docs: set<string>) returns (f: PerTerm)
    ensures f == Filtered(m, docs)
  {
    f := map[];
    var rest := m.Keys;
    while rest != {}
      invariant rest <= m.Keys
      invariant f == map t | t in m.Keys - rest && Keep(m[t], docs) != [] :: Keep(m[t], docs)
      decreases rest
    {
      var t :| t in rest;
      var kept := KeepCandidates(m[t], docs);
      if |kept| > 0 { f := f[t := kept]; }
      rest := rest - {t};
    }
  }

  /** Combine, exclude, filter, rank: the shared second half of both executors. */
  method Finish(log: real -> real, corpus: Corpus, queryType: QueryType, m: PerTerm, excluded: set<string>, limit: int)
    returns (totalHits: nat, results: seq<ScoredDoc>)
    ensures (totalHits, results) == Hits(log, corpus, queryType, m, excluded, limit)
  {
    var docs;
    match queryType {
      case QueryAND => docs := Intersect(m);
      case QueryOR => docs := Unite(m);
    }
    docs := docs - excluded;
    var f := FilterLists(m, docs);
    results := Rank(log, corpus, f, limit);
    totalHits := |docs|;
  }

  method Ask(e: Engine, term: string, ghost search: string -> PostingList) returns (r: PostingList)
    requires e.Valid() && search == Seen(e).search
    ensures r == search(term)
  {
    r := e.SearchPostings(term);
  }

  lemma FoundNext(search: string -> PostingList, terms: seq<string>, i: nat)
    requires i < |terms|
    ensures Found(search, terms[..i + 1])
         == if search(terms[i]) != [] then Found(search, terms[..i])[terms[i] := search(terms[i])]
            else Found(search, terms[..i])
  {
    assert terms[..i + 1] == terms[..i] + [terms[i]];
  }

  lemma DocsMatchingNext(search: string -> PostingList, terms: seq<string>, i: nat)
    requires i < |terms|
    ensures DocsMatching(search, terms[..i + 1]) == DocsMatching(search, terms[..i]) + DocSet(search(terms[i]))
  {
    assert terms[..i + 1] == terms[..i] + [terms[i]];
  }

  method CollectLists(e: Engine, terms: seq<string>, ghost search: string -> PostingList) returns (m: PerTerm)
    requires e.Valid() && search == Seen(e).search
    ensures m == Found(search, terms)
  {
    m := map[];
    for i := 0 to |terms|
      invariant m == Found(search, terms[..i])
    {
      FoundNext(search, terms, i);
      var postings := Ask(e, terms[i], search);
      if |postings| > 0 { m := m[terms[i] := postings]; }
    }
    assert terms[..|terms|] == terms;
  }

  method CollectExcluded(e: Engine, excludes: seq<string>, ghost search: string -> PostingList)
      returns (ids: set<string>)
    requires e.Valid() && search == Seen(e).search
    ensures ids == DocsMatching(search, excludes)
  {
    ids := {};
    for i := 0 to |excludes|
      invariant ids == DocsMatching(search, excludes[..i])
    {
      DocsMatchingNext(search, excludes, i);
      var postings := Ask(e, excludes[i], search);
      ids := ids + DocSet(postings);
    }
    assert excludes[..|excludes|] == excludes;
  }

  method Statistics(e: Engine) returns (corpus: Corpus)
    ensures corpus.totalDocs == Seen(e).totalDocs && corpus.avgDocLength == Average(Seen(e))
    ensures forall d :: corpus.docLength(d) == Seen(e).docLength(d)
  {
    var lengths := e.docLengths;
    var avg := if e.totalDocs == 0 then 0.0 else e.totalTokens as real / e.totalDocs as real;
    corpus := Corpus(e.totalDocs, avg, d => if d in lengths then lengths[d] else 0);
  }

  /** `Executor.Execute`. */
  method Execute(log: real -> real, e: Engine, plan: QueryPlan, limit: int) returns (r: SearchResult)
    requires e.Valid()
    ensures r == Executed(log, Seen(e), plan, limit)
  {
    if |plan.terms| == 0 { return SearchResult(plan.rawQuery, 0, [], map[]); }
    ghost var v := Seen(e);
    var m := CollectLists(e, plan.terms, v.search);
    var excluded := CollectExcluded(e, plan.excludeTerms, v.search);
    var corpus := Statistics(e);
    var hits, ranked := Finish(log, corpus, plan.queryType, m, excluded, limit);
    HitsDependOnContent(log, corpus, CorpusOf(v), plan.queryType, m, m, excluded, limit);
    r := SearchResult(plan.rawQuery, hits, ranked, Stats(m));
  }
}
