/**
 Execution over several shard engines: every shard is asked for every term, the lists
 are joined, statistics are added up, and the joined lists are combined and ranked once.
 */
module ShardedSpec {
  import opened Ordering
  import opened Memory
  import opened Ranker
  import opened Parser
  import opened ExecutorSpec

  /** The shards' lists for a term, one after another in the order they were walked. */
  function Merged(views: seq<View>, t: string): PostingList {
    if views == [] then []
    else Merged(views[..|views| - 1], t) + views[|views| - 1].search(t)
  }

  function MergedSearch(views: seq<View>): string -> PostingList { t => Merged(views, t) }

  function GlobalDocs(views: seq<View>): nat {
    if views == [] then 0 else GlobalDocs(views[..|views| - 1]) + views[|views| - 1].totalDocs
  }

  /** Token totals are rebuilt from the shards' averages. */
  function GlobalTokens(views: seq<View>): real {
    if views == [] then 0.0
    else
      var v := views[|views| - 1];
      GlobalTokens(views[..|views| - 1]) + Average(v) * v.totalDocs as real
  }

  function GlobalAverage(views: seq<View>): real {
    if GlobalDocs(views) > 0 then GlobalTokens(views) / GlobalDocs(views) as real else 0.0
  }

  /** The length recorded by the last shard that listed the document. */
  function OwnerLength(views: seq<View>, terms: seq<string>, d: string): nat {
    if views == [] then 0
    else
      var v := views[|views| - 1];
      if d in DocsMatching(v.search, terms) then v.docLength(d)
      else OwnerLength(views[..|views| - 1], terms, d)
  }

  function GlobalCorpus(views: seq<View>, terms: seq<string>): Corpus {
    Corpus(GlobalDocs(views), GlobalAverage(views), d => OwnerLength(views, terms, d))
  }

  /** `ShardedExecutor.Execute` (sharded.go:41-138). */
  ghost function ShardedExecuted(log: real -> real, views: seq<View>, plan: QueryPlan, limit: int): SearchResult {
    if plan.terms == [] then SearchResult(plan.rawQuery, 0, [], map[])
    else
      var all := plan.terms + plan.excludeTerms;
      var search := MergedSearch(views);
      var hits := Hits(log, GlobalCorpus(views, all), plan.queryType,
                       Found(search, plan.terms), DocsMatching(search, plan.excludeTerms), limit);
      SearchResult(plan.rawQuery, hits.0, hits.1, Stats(Found(search, all)))
  }

  // ---- Sharding is invisible ----

  ghost predicate ListedBy(v: View, d: string) { exists t :: Matches(v.search, t, d) }

  ghost predicate Disjoint(views: seq<View>) {
    forall i, j, d :: 0 <= i < j < |views| ==> !(ListedBy(views[i], d) && ListedBy(views[j], d))
  }

  function TokenSum(views: seq<View>): nat {
    if views == [] then 0 else TokenSum(views[..|views| - 1]) + views[|views| - 1].totalTokens
  }

  /** One engine holding what the shards hold together. */
  ghost predicate HoldsUnion(one: View, views: seq<View>) {
    && (forall t :: multiset(one.search(t)) == multiset(Merged(views, t)))
    && (forall i, d :: 0 <= i < |views| && ListedBy(views[i], d) ==> one.docLength(d) == views[i].docLength(d))
    && one.totalDocs == GlobalDocs(views) && one.totalTokens == TokenSum(views)
    && forall i :: 0 <= i < |views| ==> views[i].totalDocs == 0 ==> views[i].totalTokens == 0
  }

  lemma {:induction false} TokensRebuilt(views: seq<View>)
    requires forall i :: 0 <= i < |views| ==> views[i].totalDocs == 0 ==> views[i].totalTokens == 0
    ensures GlobalTokens(views) == TokenSum(views) as real
  {
    if views != [] {
      var v := views[|views| - 1];
      TokensRebuilt(views[..|views| - 1]);
      assert Average(v) * v.totalDocs as real == v.totalTokens as real;
    }
  }

  lemma {:induction false} NoDocsNoTokens(views: seq<View>)
    requires forall i :: 0 <= i < |views| ==> views[i].totalDocs == 0 ==> views[i].totalTokens == 0
    requires GlobalDocs(views) == 0
    ensures TokenSum(views) == 0
  {
    if views != [] { NoDocsNoTokens(views[..|views| - 1]); }
  }

  lemma AveragesAgree(one: View, views: seq<View>)
    requires HoldsUnion(one, views)
    ensures GlobalAverage(views) == Average(one)
  {
    TokensRebuilt(views);
    if GlobalDocs(views) == 0 { NoDocsNoTokens(views); }
  }

  lemma MatchingIsListed(v: View, terms: seq<string>, d: string)
    requires d in DocsMatching(v.search, terms)
    ensures ListedBy(v, d)
  {
    var t, p :| t in terms && p in v.search(t) && p.docID == d;
    assert Matches(v.search, t, d);
  }

  /** Exactly one shard lists a matching document, so the lookup finds its length. */
  lemma {:induction false} OwnerLengthIs(views: seq<View>, terms: seq<string>, t: string, p: Posting, len: nat)
    requires Disjoint(views) && t in terms && p in Merged(views, t)
    requires forall i :: 0 <= i < |views| && ListedBy(views[i], p.docID) ==> views[i].docLength(p.docID) == len
    ensures OwnerLength(views, terms, p.docID) == len
    decreases |views|
  {
    var n := |views| - 1;
    var v := views[n];
    if p.docID in DocsMatching(v.search, terms) {
      MatchingIsListed(v, terms, p.docID);
    } else {
      assert p !in v.search(t);
      forall i, j, d | 0 <= i < j < n ensures !(ListedBy(views[..n][i], d) && ListedBy(views[..n][j], d)) { }
      OwnerLengthIs(views[..n], terms, t, p, len);
    }
  }

  lemma MergedIsListed(views: seq<View>, t: string, p: Posting) returns (i: nat)
    requires p in Merged(views, t)
    ensures i < |views| && p in views[i].search(t) && ListedBy(views[i], p.docID)
    decreases |views|
  {
    var n := |views| - 1;
    if p in views[n].search(t) {
      i := n;
      assert Matches(views[n].search, t, p.docID);
    } else {
      i := MergedIsListed(views[..n], t, p);
    }
  }

  lemma SameFound(one: View, views: seq<View>, terms: seq<string>)
    requires forall t :: multiset(one.search(t)) == multiset(Merged(views, t))
    ensures SameLists(Found(MergedSearch(views), terms), Found(one.search, terms))
    ensures DocsMatching(MergedSearch(views), terms) == DocsMatching(one.search, terms)
    ensures Stats(Found(MergedSearch(views), terms)) == Stats(Found(one.search, terms))
  {
    forall t ensures |one.search(t)| == |Merged(views, t)|
             ensures forall p :: p in one.search(t) <==> p in Merged(views, t) {
      SameElements(one.search(t), Merged(views, t));
    }
  }

  lemma LengthsAgree(one: View, views: seq<View>, terms: seq<string>, t: string, p: Posting)
    requires HoldsUnion(one, views) && Disjoint(views) && t in terms && p in Merged(views, t)
    ensures OwnerLength(views, terms, p.docID) == one.docLength(p.docID)
  {
    OwnerLengthIs(views, terms, t, p, one.docLength(p.docID));
  }

  /** With disjoint shards, in whatever order they are walked, the sharded executor gives
      the hits, the ranked results and the term statistics of one engine holding the
      union; its statistics also cover the exclude terms, so the two statistics maps
      coincide exactly when every exclude term found anywhere is also a query term. */
  lemma ShardingInvisible(log: real -> real, one: View, views: seq<View>, plan: QueryPlan, limit: int)
    requires HoldsUnion(one, views) && Disjoint(views)
    ensures var s, e := ShardedExecuted(log, views, plan, limit), Executed(log, one, plan, limit);
            && s.query == e.query && s.totalHits == e.totalHits && s.results == e.results
            && (forall t :: t in plan.terms ==> (t in s.termStats <==> t in e.termStats))
            && (forall t :: t in plan.terms && t in e.termStats ==>
                  t in s.termStats && s.termStats[t] == e.termStats[t])
            && (s.termStats == e.termStats <==>
                plan.terms == [] || forall t :: t in plan.excludeTerms && one.search(t) != [] ==> t in plan.terms)
  {
    if plan.terms != [] {
      var all := plan.terms + plan.excludeTerms;
      var search := MergedSearch(views);
      SameFound(one, views, plan.terms);
      SameFound(one, views, plan.excludeTerms);
      SameFound(one, views, all);
      AveragesAgree(one, views);
      var m := Found(search, plan.terms);
      forall t: string, p: Posting | t in m && p in m[t]
        ensures OwnerLength(views, all, p.docID) == one.docLength(p.docID)
      {
        LengthsAgree(one, views, all, t, p);
      }
      HitsDependOnContent(log, GlobalCorpus(views, all), CorpusOf(one), plan.queryType,
                          m, Found(one.search, plan.terms), DocsMatching(one.search, plan.excludeTerms), limit);
      StatsAgreeIff(one, plan);
    }
  }

  lemma StatsAgreeIff(one: View, plan: QueryPlan)
    ensures var s, e := Stats(Found(one.search, plan.terms + plan.excludeTerms)), Stats(Found(one.search, plan.terms));
            && (forall t :: t in plan.terms ==> (t in s <==> t in e))
            && (forall t :: t in plan.terms && t in e ==> t in s && s[t] == e[t])
            && (s == e <==> forall t :: t in plan.excludeTerms && one.search(t) != [] ==> t in plan.terms)
  {
    var s, e := Stats(Found(one.search, plan.terms + plan.excludeTerms)), Stats(Found(one.search, plan.terms));
    if s == e {
      forall t | t in plan.excludeTerms && one.search(t) != [] ensures t in plan.terms {
        assert t in s;
      }
    }
  }

  // ---- What an answer depends on ----

  lemma {:induction false} SameOwner(views: seq<View>, terms: seq<string>, others: seq<string>, d: string)
    requires forall i :: 0 <= i < |views| ==>
               DocsMatching(views[i].search, terms) == DocsMatching(views[i].search, others)
    ensures OwnerLength(views, terms, d) == OwnerLength(views, others, d)
    decreases |views|
  {
    if views != [] { SameOwner(views[..|views| - 1], terms, others, d); }
  }

  /** Two plans that find the same lists, with the same hits among them, have the same
      sharded answer. */
  lemma ShardedFromHits(log: real -> real, views: seq<View>, p: QueryPlan, q: QueryPlan, limit: int)
    requires p.terms != [] && q.terms != []
    requires var search, all, all' := MergedSearch(views), p.terms + p.excludeTerms, q.terms + q.excludeTerms;
             && Found(search, all) == Found(search, all')
             && (forall i :: 0 <= i < |views| ==>
                   DocsMatching(views[i].search, all) == DocsMatching(views[i].search, all'))
             && Hits(log, GlobalCorpus(views, all), p.queryType, Found(search, p.terms),
                     DocsMatching(search, p.excludeTerms), limit)
             == Hits(log, GlobalCorpus(views, all), q.queryType, Found(search, q.terms),
                     DocsMatching(search, q.excludeTerms), limit)
    ensures var a, b := ShardedExecuted(log, views, p, limit), ShardedExecuted(log, views, q, limit);
            a.totalHits == b.totalHits && a.results == b.results && a.termStats == b.termStats
  {
    var search, all, all' := MergedSearch(views), p.terms + p.excludeTerms, q.terms + q.excludeTerms;
    var c, c' := GlobalCorpus(views, all), GlobalCorpus(views, all');
    var m := Found(search, q.terms);
    forall d ensures c.docLength(d) == c'.docLength(d) { SameOwner(views, all, all', d); }
    HitsDependOnContent(log, c, c', q.queryType, m, m, DocsMatching(search, q.excludeTerms), limit);
  }

  /** Plans that together name the same terms see the same lists. */
  lemma SameTermsTogether(views: seq<View>, all: seq<string>, all': seq<string>)
    requires forall t :: t in all <==> t in all'
    ensures Found(MergedSearch(views), all) == Found(MergedSearch(views), all')
    ensures forall i :: 0 <= i < |views| ==> DocsMatching(views[i].search, all) == DocsMatching(views[i].search, all')
  {
    SameDocsMatching(MergedSearch(views), all, all');
    forall i | 0 <= i < |views| ensures DocsMatching(views[i].search, all) == DocsMatching(views[i].search, all') {
      SameDocsMatching(views[i].search, all, all');
    }
  }

  /** The second plan names the same terms, or some more that both exclude: of which an OR
      query sees nothing, and neither does a query that excludes all it asks for. */
  ghost predicate Indistinct(p: QueryPlan, q: QueryPlan) {
    && p.queryType == q.queryType && p.terms != []
    && (forall t :: t in p.terms ==> t in q.terms) && (forall t :: t in q.terms ==> t in p.terms || t in p.excludeTerms)
    && (forall t :: t in p.excludeTerms <==> t in q.excludeTerms)
    && ((forall t :: t in q.terms ==> t in p.terms) || p.queryType == QueryOR
        || forall t :: t in p.terms ==> t in p.excludeTerms)
  }

  lemma SameHits(log: real -> real, corpus: Corpus, search: string -> PostingList, p: QueryPlan, q: QueryPlan,
                 limit: int)
    requires Indistinct(p, q)
    ensures Hits(log, corpus, p.queryType, Found(search, p.terms), DocsMatching(search, p.excludeTerms), limit)
         == Hits(log, corpus, q.queryType, Found(search, q.terms), DocsMatching(search, p.excludeTerms), limit)
  {
    var excluded := DocsMatching(search, p.excludeTerms);
    forall t | t in p.excludeTerms ensures DocSet(search(t)) <= excluded { MatchingDocs(search, p.excludeTerms, t); }
    if forall t :: t in q.terms ==> t in p.terms {
      SameDocsMatching(search, p.terms, q.terms);
    } else if p.queryType == QueryOR {
      ExcludedTermsIdle(log, corpus, search, p.terms, q.terms, excluded, limit);
    } else {
      AllExcluded(log, corpus, p.queryType, search, p.terms, excluded, limit);
      AllExcluded(log, corpus, p.queryType, search, q.terms, excluded, limit);
    }
  }

  /** Indistinct plans have the same sharded answer on any shards. */
  lemma IndistinctSharded(log: real -> real, views: seq<View>, p: QueryPlan, q: QueryPlan, limit: int)
    requires Indistinct(p, q)
    ensures var a, b := ShardedExecuted(log, views, p, limit), ShardedExecuted(log, views, q, limit);
            a.totalHits == b.totalHits && a.results == b.results && a.termStats == b.termStats
  {
    var search, all, all' := MergedSearch(views), p.terms + p.excludeTerms, q.terms + q.excludeTerms;
    assert q.terms != [] by { assert p.terms[0] in q.terms; }
    assert forall t :: t in all <==> t in all';
    SameTermsTogether(views, all, all');
    SameDocsMatching(search, p.excludeTerms, q.excludeTerms);
    SameHits(log, GlobalCorpus(views, all), search, p, q, limit);
    ShardedFromHits(log, views, p, q, limit);
  }
}

/** The sharded executor as the source's loops. */
module ShardedObject {
  import opened Memory
  import opened Ranker
  import opened Parser
  import opened ExecutorSpec
  import opened ExecutorObject
  import opened EngineObject
  import opened ShardedSpec

  /** What one shard reports. */
  datatype ShardResult = ShardResult(postings: PerTerm, totalDocs: nat, avgDocLen: real, docLength: string -> nat)

  ghost predicate Reports(r: ShardResult, v: View, terms: seq<string>) {
    && r.postings == Found(v.search, terms) && r.totalDocs == v.totalDocs && r.avgDocLen == Average(v)
    && forall d :: r.docLength(d) == v.docLength(d)
  }

  ghost predicate AllReport(results: seq<ShardResult>, views: seq<View>, terms: seq<string>) {
    |results| == |views| && forall i :: 0 <= i < |views| ==> Reports(results[i], views[i], terms)
  }

  lemma AllReportNext(results: seq<ShardResult>, views: seq<View>, i: nat, terms: seq<string>, r: ShardResult)
    requires i < |views| && AllReport(results, views[..i], terms) && Reports(r, views[i], terms)
    ensures AllReport(results + [r], views[..i + 1], terms)
  {
    forall j | 0 <= j < i + 1 ensures Reports((results + [r])[j], views[..i + 1][j], terms) {
      if j < i { assert views[..i + 1][j] == views[..i][j]; }
    }
  }

  /** `fanOut`: each shard fills its own slot; `Engine.Search` never fails, so no shard is
      dropped. */
  method FanOut(engines: seq<Engine>, terms: seq<string>, ghost views: seq<View>) returns (results: seq<ShardResult>)
    requires forall e :: e in engines ==> e.Valid()
    requires |views| == |engines| && forall i :: 0 <= i < |engines| ==> views[i] == Seen(engines[i])
    ensures AllReport(results, views, terms)
  {
    results := [];
    for i := 0 to |engines|
      invariant AllReport(results, views[..i], terms)
    {
      var r := QueryShard(engines[i], terms, views[i]);
      AllReportNext(results, views, i, terms, r);
      results := results + [r];
    }
    assert views[..|engines|] == views;
  }

  method QueryShard(e: Engine, terms: seq<string>, ghost v: View) returns (r: ShardResult)
    requires e.Valid() && v == Seen(e)
    ensures Reports(r, v, terms)
  {
    var postings := CollectLists(e, terms, v.search);
    var stats := Statistics(e);
    r := ShardResult(postings, stats.totalDocs, stats.avgDocLength, stats.docLength);
  }

  function ListFor(m: PerTerm, t: string): PostingList { if t in m then m[t] else [] }

  /** The inner merge loop: append each of a shard's lists, in any order. */
  method AppendLists(merged: PerTerm, postings: PerTerm) returns (r: PerTerm)
    ensures r.Keys == merged.Keys + postings.Keys
    ensures forall t :: ListFor(r, t) == ListFor(merged, t) + ListFor(postings, t)
  {
    r := merged;
    var rest := postings.Keys;
    while rest != {}
      invariant rest <= postings.Keys
      invariant r.Keys == merged.Keys + (postings.Keys - rest)
      invariant forall t :: ListFor(r, t) == ListFor(merged, t) + if t in rest then [] else ListFor(postings, t)
      decreases rest
    {
      var t :| t in rest;
      r := r[t := ListFor(r, t) + postings[t]];
      rest := rest - {t};
    }
  }

  /** The lists merged so far are those of the merged search. */
  ghost predicate MergedSoFar(views: seq<View>, terms: seq<string>, m: PerTerm) {
    m == Found(MergedSearch(views), terms)
  }

  lemma MergeNext(views: seq<View>, n: nat, terms: seq<string>, m: PerTerm, r: PerTerm)
    requires |views| == n + 1 && MergedSoFar(views[..n], terms, m)
    requires var shard := Found(views[n].search, terms);
             r.Keys == m.Keys + shard.Keys && forall t :: ListFor(r, t) == ListFor(m, t) + ListFor(shard, t)
    ensures MergedSoFar(views, terms, r)
  {
    var want := Found(MergedSearch(views), terms);
    forall t ensures ListFor(r, t) == ListFor(want, t) {
      FoundList(MergedSearch(views[..n]), terms, t);
      FoundList(views[n].search, terms, t);
      FoundList(MergedSearch(views), terms, t);
    }
    forall t ensures t in r.Keys <==> t in want.Keys {
      FoundList(MergedSearch(views[..n]), terms, t);
      FoundList(views[n].search, terms, t);
      FoundList(MergedSearch(views), terms, t);
    }
    SameByList(r, want);
  }

  lemma FoundList(search: string -> PostingList, terms: seq<string>, t: string)
    ensures ListFor(Found(search, terms), t) == if t in terms then search(t) else []
    ensures t in Found(search, terms) <==> ListFor(Found(search, terms), t) != []
  {
  }

  lemma SameByList(a: PerTerm, b: PerTerm)
    requires a.Keys == b.Keys && forall t :: ListFor(a, t) == ListFor(b, t)
    ensures a == b
  {
    forall t | t in a.Keys ensures a[t] == b[t] {
      assert ListFor(a, t) == a[t];
    }
  }

  /** The totals, joined lists and owner of every listed document after some shards. */
  method MergeAll(results: seq<ShardResult>, terms: seq<string>, ghost views: seq<View>)
    returns (m: PerTerm, docs: nat, tokens: real, owner: map<string, nat>)
    requires AllReport(results, views, terms)
    ensures MergedSoFar(views, terms, m)
    ensures docs == GlobalDocs(views) && tokens == GlobalTokens(views)
    ensures forall d :: OwnerOf(results, owner, d) == OwnerLength(views, terms, d)
  {
    m, docs, tokens, owner := map[], 0, 0.0, map[];
    for i := 0 to |results|
      invariant MergedSoFar(views[..i], terms, m)
      invariant docs == GlobalDocs(views[..i]) && tokens == GlobalTokens(views[..i])
      invariant forall d :: OwnerOf(results, owner, d) == OwnerLength(views[..i], terms, d)
    {
      var sr := results[i];
      assert views[..i + 1][..i] == views[..i];
      docs := docs + sr.totalDocs;
      tokens := tokens + sr.avgDocLen * sr.totalDocs as real;
      var r := AppendLists(m, sr.postings);
      MergeNext(views[..i + 1], i, terms, m, r);
      m := r;
      OwnerNext(results, owner, views, terms, i);
      owner := Claim(owner, sr.postings, i);
    }
    assert views[..|results|] == views;
  }

  /** A shard becomes the owner of every document it lists. */
  function Claim(owner: map<string, nat>, m: PerTerm, i: nat): map<string, nat> {
    owner + map d | d in AllDocs(m, m.Keys) :: i
  }

  function OwnerOf(results: seq<ShardResult>, owner: map<string, nat>, d: string): nat {
    if d in owner && owner[d] < |results| then results[owner[d]].docLength(d) else 0
  }

  lemma OwnerNext(results: seq<ShardResult>, owner: map<string, nat>, views: seq<View>, terms: seq<string>, i: nat)
    requires i < |results| == |views| && Reports(results[i], views[i], terms)
    requires forall d :: OwnerOf(results, owner, d) == OwnerLength(views[..i], terms, d)
    ensures var m := results[i].postings;
            forall d :: OwnerOf(results, Claim(owner, m, i), d) == OwnerLength(views[..i + 1], terms, d)
  {
    var m := results[i].postings;
    var owner' := Claim(owner, m, i);
    assert views[..i + 1][..i] == views[..i];
    ListedInFound(views[i].search, terms);
    forall d ensures OwnerOf(results, owner', d) == OwnerLength(views[..i + 1], terms, d) {
      assert OwnerOf(results, owner, d) == OwnerLength(views[..i], terms, d);
    }
  }

  lemma ListedInFound(search: string -> PostingList, terms: seq<string>)
    ensures AllDocs(Found(search, terms), Found(search, terms).Keys) == DocsMatching(search, terms)
  {
    var m := Found(search, terms);
    forall d | d in DocsMatching(search, terms) ensures d in AllDocs(m, m.Keys) {
      var t, p :| t in terms && p in search(t) && p.docID == d;
      assert t in m && p in m[t];
    }
  }

  /** `ShardedExecutor.Execute`, with the shard map in the order it is walked; `views` are
      what the engines hold. */
  method ExecuteSharded(log: real -> real, engines: seq<Engine>, plan: QueryPlan, limit: int, ghost views: seq<View>)
    returns (r: SearchResult)
    requires forall e :: e in engines ==> e.Valid()
    requires |views| == |engines| && forall i :: 0 <= i < |engines| ==> views[i] == Seen(engines[i])
    ensures r == ShardedExecuted(log, views, plan, limit)
  {
    if |plan.terms| == 0 { return SearchResult(plan.rawQuery, 0, [], map[]); }
    var results := FanOut(engines, plan.terms + plan.excludeTerms, views);
    r := FromResults(log, results, plan, limit, views);
  }

  method FromResults(log: real -> real, results: seq<ShardResult>, plan: QueryPlan, limit: int, ghost views: seq<View>)
    returns (r: SearchResult)
    requires plan.terms != [] && AllReport(results, views, plan.terms + plan.excludeTerms)
    ensures r == ShardedExecuted(log, views, plan, limit)
  {
    var all := plan.terms + plan.excludeTerms;
    var merged, docs, tokens, owner := MergeAll(results, all, views);
    var avg := if docs > 0 then tokens / docs as real else 0.0;
    var corpus := Corpus(docs, avg, d => OwnerOf(results, owner, d));
    ghost var search := MergedSearch(views);
    var excluded := set t, p: Posting | t in plan.excludeTerms && t in merged && p in merged[t] :: p.docID;
    var searchPostings := map t | t in plan.terms && t in merged :: merged[t];
    Restricted(search, all, plan.terms, plan.excludeTerms);
    assert searchPostings == Found(search, plan.terms);
    assert excluded == DocsMatching(search, plan.excludeTerms);
    var hits, ranked := Finish(log, corpus, plan.queryType, searchPostings, excluded, limit);
    HitsDependOnContent(log, corpus, GlobalCorpus(views, all), plan.queryType, searchPostings, searchPostings, excluded,
                        limit);
    r := SearchResult(plan.rawQuery, hits, ranked, Stats(merged));
  }

  lemma Restricted(search: string -> PostingList, all: seq<string>, terms: seq<string>, excludes: seq<string>)
    requires all == terms + excludes
    ensures var m := Found(search, all);
            && (map t | t in terms && t in m :: m[t]) == Found(search, terms)
            && (set t, p: Posting | t in excludes && t in m && p in m[t] :: p.docID) == DocsMatching(search, excludes)
  {
    var m := Found(search, all);
    var ids := set t, p: Posting | t in excludes && t in m && p in m[t] :: p.docID;
    forall d | d in DocsMatching(search, excludes) ensures d in ids {
      var t, p :| t in excludes && p in search(t) && p.docID == d;
      assert t in m && p in m[t];
    }
  }
}
