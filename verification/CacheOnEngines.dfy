/**
 The query cache in front of engines.  An engine tokenises the term it is asked for once
 more, so terms with the same lookup term have the same postings, and a term without one
 has none.  Up to that, this module says exactly which queries are given their own answer:
 by an engine that has indexed any documents, and by the service that is deployed.
 */
module CacheOnEngines {
  import opened Ordering
  import opened Memory
  import opened Segment
  import opened Tokenizer
  import opened Parser
  import opened History
  import opened ExecutorSpec
  import opened ShardedSpec
  import opened CacheKey
  import opened QueryCache
  import opened Deployment
  import EngineSpec
  import EndToEnd
  import Searchers
  import Ranker

  // ---- Terms as engines see them ----

  /** The term is looked up at all. */
  predicate Live(t: string) { LookupTerm(t) != [] }

  /** Some of the terms are looked up like `t`. */
  ghost predicate Alike(ts: seq<string>, t: string) { exists u :: u in ts && LookupTerm(u) == LookupTerm(t) }

  ghost predicate Twins(search: string -> PostingList, t: string, u: string) {
    LookupTerm(t) == LookupTerm(u) ==> search(t) == search(u)
  }

  /** Postings depend on the lookup term alone, and there are none without one. */
  ghost predicate ByLookup(search: string -> PostingList) {
    (forall t, u :: Twins(search, t, u)) && forall t :: !Live(t) ==> search(t) == []
  }

  /** Every engine, in whatever state. */
  lemma EngineByLookup(c: Codec, s: EngineSpec.State)
    ensures ByLookup(ViewOf(c, s).search)
  {
  }

  ghost predicate AllByLookup(views: seq<View>) { forall i :: 0 <= i < |views| ==> ByLookup(views[i].search) }

  lemma {:induction false} MergedByLookup(views: seq<View>)
    requires AllByLookup(views)
    ensures ByLookup(MergedSearch(views))
  {
    forall t, u ensures Twins(MergedSearch(views), t, u) {
      if LookupTerm(t) == LookupTerm(u) { MergedTwins(views, t, u); }
    }
    forall t | !Live(t) ensures Merged(views, t) == [] { MergedNothing(views, t); }
  }

  lemma {:induction false} MergedTwins(views: seq<View>, t: string, u: string)
    requires AllByLookup(views) && LookupTerm(t) == LookupTerm(u)
    ensures Merged(views, t) == Merged(views, u)
    decreases |views|
  {
    if views != [] {
      var n := |views| - 1;
      MergedTwins(views[..n], t, u);
      assert ByLookup(views[n].search) && Twins(views[n].search, t, u);
    }
  }

  lemma {:induction false} MergedNothing(views: seq<View>, t: string)
    requires AllByLookup(views) && !Live(t)
    ensures Merged(views, t) == []
    decreases |views|
  {
    if views != [] {
      var n := |views| - 1;
      MergedNothing(views[..n], t);
      assert ByLookup(views[n].search);
    }
  }

  lemma AlikeMatches(search: string -> PostingList, ts: seq<string>, t: string)
    requires ByLookup(search) && (!Live(t) || Alike(ts, t))
    ensures Ranker.DocSet(search(t)) <= DocsMatching(search, ts)
  {
    if Live(t) {
      var u :| u in ts && LookupTerm(u) == LookupTerm(t);
      assert Twins(search, t, u);
      MatchingDocs(search, ts, u);
    }
  }

  // ---- What of a misread query an engine notices ----

  /** The sets of a plan and of the plan its key stands for, with the misread tokens between. */
  ghost predicate Between(p: QueryPlan, k: QueryPlan, misread: seq<string>) {
    && p.queryType == k.queryType
    && (forall t :: t in k.terms <==> t in p.terms || t in misread)
    && (forall t :: t in p.excludeTerms <==> t in k.excludeTerms || t in misread)
  }

  ghost predicate AllAlike(ts: seq<string>, among: seq<string>) { forall t :: t in ts && Live(t) ==> Alike(among, t) }

  /** Every misread token that is looked up at all is excluded by the key as well, and is
      asked for too, unless the query is an OR query or excludes all it asks for. */
  ghost predicate Unnoticed(p: QueryPlan, k: QueryPlan, misread: seq<string>) {
    && AllAlike(misread, k.excludeTerms)
    && (AllAlike(misread, p.terms) || p.queryType == QueryOR || AllAlike(p.terms, p.excludeTerms))
  }

  /** The response to the query is that of its key, on engines. */
  ghost predicate Harmless(q: string) { NoComma(q) && Unnoticed(Plan(q), KeyPlan(q), MisreadIn(q)) }

  /** The whole answer is: the misread tokens that are looked up are asked for literally. */
  ghost predicate Faultless(q: string) {
    && NoComma(q) && AllAlike(MisreadIn(q), KeyPlan(q).excludeTerms)
    && forall t :: t in MisreadIn(q) && Live(t) ==> t in Plan(q).terms
  }

  lemma TolerableIsHarmless(q: string)
    ensures Tolerable(q) ==> Harmless(q)
    ensures Honest(q) ==> Faultless(q)
    ensures Faultless(q) ==> Harmless(q)
  {
    if NoComma(q) { HonestIff(q); }
  }

  lemma KeyBetween(q: string)
    ensures Between(Plan(q), KeyPlan(q), MisreadIn(q))
  {
    SetsAgainstKey(q);
    PlanAgainstKey(q);
  }

  // ---- Unnoticed misreadings ----

  lemma SameExclusions(search: string -> PostingList, p: QueryPlan, k: QueryPlan, misread: seq<string>)
    requires ByLookup(search) && Between(p, k, misread) && AllAlike(misread, k.excludeTerms)
    ensures DocsMatching(search, p.excludeTerms) == DocsMatching(search, k.excludeTerms)
    ensures forall t :: t in misread ==> Ranker.DocSet(search(t)) <= DocsMatching(search, p.excludeTerms)
  {
    var ex := DocsMatching(search, k.excludeTerms);
    forall t | t in misread ensures Ranker.DocSet(search(t)) <= ex { AlikeMatches(search, k.excludeTerms, t); }
    forall d | d in DocsMatching(search, p.excludeTerms) ensures d in ex {
      var t, post :| t in p.excludeTerms && post in search(t) && post.docID == d;
      assert d in Ranker.DocSet(search(t));
    }
  }

  lemma UnnoticedHits(log: real -> real, corpus: Ranker.Corpus, search: string -> PostingList,
                      p: QueryPlan, k: QueryPlan, misread: seq<string>, limit: int)
    requires ByLookup(search) && Between(p, k, misread) && Unnoticed(p, k, misread)
    ensures DocsMatching(search, p.excludeTerms) == DocsMatching(search, k.excludeTerms)
    ensures var ex := DocsMatching(search, p.excludeTerms);
            Hits(log, corpus, p.queryType, Found(search, p.terms), ex, limit)
            == Hits(log, corpus, k.queryType, Found(search, k.terms), ex, limit)
  {
    SameExclusions(search, p, k, misread);
    var ex := DocsMatching(search, p.excludeTerms);
    if p.queryType == QueryOR {
      ExcludedTermsIdle(log, corpus, search, p.terms, k.terms, ex, limit);
    } else if AllAlike(misread, p.terms) {
      forall t | t in k.terms && t !in p.terms && search(t) != []
        ensures exists u :: u in p.terms && search(u) == search(t)
      {
        var u :| u in p.terms && LookupTerm(u) == LookupTerm(t);
        assert Twins(search, u, t);
      }
      RepeatedTermsIdle(log, corpus, search, p.terms, k.terms, ex, limit);
    } else {
      forall t | t in k.terms ensures Ranker.DocSet(search(t)) <= ex {
        if t !in misread { AlikeMatches(search, p.excludeTerms, t); }
      }
      AllExcluded(log, corpus, p.queryType, search, p.terms, ex, limit);
      AllExcluded(log, corpus, p.queryType, search, k.terms, ex, limit);
    }
  }

  lemma UnnoticedSingle(log: real -> real, v: View, p: QueryPlan, k: QueryPlan, misread: seq<string>, l: int)
    requires ByLookup(v.search) && Between(p, k, misread) && Unnoticed(p, k, misread) && p.terms != []
    ensures SameResponse(Executed(log, v, p, l), Executed(log, v, k, l))
  {
    assert p.terms[0] in k.terms;
    UnnoticedHits(log, CorpusOf(v), v.search, p, k, misread, l);
  }

  lemma UnnoticedSharded(log: real -> real, views: seq<View>, p: QueryPlan, k: QueryPlan, misread: seq<string>, l: int)
    requires AllByLookup(views) && Between(p, k, misread) && Unnoticed(p, k, misread) && p.terms != []
    ensures SameAnswer(ShardedExecuted(log, views, p, l), ShardedExecuted(log, views, k, l))
  {
    assert p.terms[0] in k.terms;
    MergedByLookup(views);
    var all, all' := p.terms + p.excludeTerms, k.terms + k.excludeTerms;
    assert forall t :: t in all <==> t in all';
    SameTermsTogether(views, all, all');
    UnnoticedHits(log, GlobalCorpus(views, all), MergedSearch(views), p, k, misread, l);
    ShardedFromHits(log, views, p, k, l);
  }

  lemma FaultlessSingle(log: real -> real, v: View, q: string, l: int)
    requires ByLookup(v.search) && Faultless(q) && Plan(q).terms != []
    ensures SameAnswer(Executed(log, v, Plan(q), l), Executed(log, v, KeyPlan(q), l))
  {
    var p, k := Plan(q), KeyPlan(q);
    KeyBetween(q);
    assert p.terms[0] in k.terms;
    SameExclusions(v.search, p, k, MisreadIn(q));
    assert Found(v.search, p.terms) == Found(v.search, k.terms);
  }

  /** Between the query and any safe query with its key. */
  lemma HarmlessAgrees(log: real -> real, v: View, views: seq<View>, q: string)
    requires ByLookup(v.search) && AllByLookup(views) && Harmless(q) && Plan(q).terms != []
    ensures Agrees(SameResponse, Single(log, v), q) && Agrees(SameAnswer, Sharded(log, views), q)
    ensures Agrees(SameResponse, Sharded(log, views), q)
  {
    KeyBetween(q);
    forall q', l | Safe(q') && RawKey(q', l) == RawKey(q, l)
      ensures SameResponse(Executed(log, v, Plan(q), l), Executed(log, v, Plan(q'), l))
      ensures SameAnswer(ShardedExecuted(log, views, Plan(q), l), ShardedExecuted(log, views, Plan(q'), l))
    {
      PartnerPlan(q, q', l);
      SameMembers(Plan(q'), KeyPlan(q));
      UnnoticedSingle(log, v, Plan(q), Plan(q'), MisreadIn(q), l);
      UnnoticedSharded(log, views, Plan(q), Plan(q'), MisreadIn(q), l);
    }
  }

  lemma FaultlessAgrees(log: real -> real, v: View, q: string)
    requires ByLookup(v.search) && Faultless(q) && Plan(q).terms != []
    ensures Agrees(SameAnswer, Single(log, v), q)
  {
    forall q', l | Safe(q') && RawKey(q', l) == RawKey(q, l)
      ensures SameAnswer(Executed(log, v, Plan(q), l), Executed(log, v, Plan(q'), l))
    {
      PartnerPlan(q, q', l);
      SameMembers(Plan(q'), KeyPlan(q));
      FaultlessSingle(log, v, q, l);
      SingleSame(log, v, KeyPlan(q), Plan(q'), l);
    }
  }

  /** Whatever engines hold, and in whatever state they are, a harmless query is always given
      its own response. */
  lemma HarmlessServedRight(digest: string -> string, log: real -> real, v: View, views: seq<View>, q: string)
    requires Injective(digest) && ByLookup(v.search) && AllByLookup(views) && Harmless(q) && Plan(q).terms != []
    ensures AlwaysRight(SameResponse, digest, Single(log, v), q)
    ensures AlwaysRight(SameResponse, digest, Sharded(log, views), q)
    ensures AlwaysRight(SameAnswer, digest, Sharded(log, views), q)
  {
    HarmlessAgrees(log, v, views, q);
    EmptyExecutors(log, v, views);
    BothSameness();
    TrustedAlwaysRight(SameResponse, digest, Single(log, v), q);
    TrustedAlwaysRight(SameResponse, digest, Sharded(log, views), q);
    TrustedAlwaysRight(SameAnswer, digest, Sharded(log, views), q);
  }

  // ---- Terms of a plan ----

  lemma {:induction false} WalkTokens(words: seq<Word>, t: string)
    requires t in ParseWords(words).terms || t in ParseWords(words).excludes
    ensures exists w :: w in words && t in w.tokens
  {
    var n := |words| - 1;
    if t in ParseWords(words[..n]).terms || t in ParseWords(words[..n]).excludes {
      WalkTokens(words[..n], t);
      var w :| w in words[..n] && t in w.tokens;
      assert w in words;
    } else {
      assert words[n] in words && t in words[n].tokens;
    }
  }

  /** Tokenising a term of a plan gives the term it is looked up by and nothing else. */
  lemma PlanToken(q: string, t: string)
    requires t in Plan(q).terms || t in Plan(q).excludeTerms
    ensures TermsOf(t) == LookupTerm(t)
  {
    var words := ClassifyAll(QueryWords(q));
    WalkTokens(words, t);
    var w :| w in words && t in w.tokens;
    var i :| 0 <= i < |words| && words[i] == w;
    TermsAreWords(QueryWords(q)[i], t);
  }

  // ---- Documents that tell plans apart ----

  /** Some of the terms are looked up as `x`. */
  ghost predicate Names(ts: seq<string>, x: string) { exists u :: u in ts && LookupTerm(u) == [x] }

  lemma FindsMatches(v: View, hist: seq<Doc>, t: string, d: string)
    requires EndToEnd.Finds(v, hist)
    ensures Matches(v.search, t, d) <==>
            Live(t) && exists doc :: doc in hist && doc.id == d && LookupTerm(t)[0] in doc.terms
  {
    if Live(t) { AnswersById(hist, LookupTerm(t)[0], v.search(t), d); }
  }

  ghost function HitsOf(v: View, plan: QueryPlan): set<string> {
    Combined(plan.queryType, Found(v.search, plan.terms)) - DocsMatching(v.search, plan.excludeTerms)
  }

  lemma HitsCounted(log: real -> real, v: View, plan: QueryPlan, l: int)
    ensures Executed(log, v, plan, l).totalHits == |HitsOf(v, plan)|
  {
    if plan.terms == [] {
      assert Found(v.search, plan.terms) == map[];
      assert HitsOf(v, plan) == {};
    }
  }

  /** What a one-word document says to each term. */
  lemma OneMatches(v: View, x: string, t: string, d: string)
    requires EndToEnd.Finds(v, [Doc("d", [x])])
    ensures Matches(v.search, t, d) <==> LookupTerm(t) == [x] && d == "d"
  {
    var doc := Doc("d", [x]);
    FindsMatches(v, [doc], t, d);
    assert doc in [doc];
  }

  lemma MatchedIfListed(search: string -> PostingList, t: string) returns (d: string)
    requires search(t) != []
    ensures Matches(search, t, d)
  {
    d := search(t)[0].docID;
    assert search(t)[0] in search(t);
  }

  lemma OneDocumentHits(v: View, plan: QueryPlan, x: string)
    requires EndToEnd.Finds(v, [Doc("d", [x])])
    ensures HitsOf(v, plan) == if Names(plan.terms, x) && !Names(plan.excludeTerms, x) then {"d"} else {}
  {
    forall d ensures d in HitsOf(v, plan) <==> d == "d" && Names(plan.terms, x) && !Names(plan.excludeTerms, x) {
      CandidatesMeaning(v.search, plan, d);
      forall t ensures Matches(v.search, t, d) <==> LookupTerm(t) == [x] && d == "d" { OneMatches(v, x, t, d); }
      forall t | v.search(t) != [] ensures LookupTerm(t) == [x] {
        var d' := MatchedIfListed(v.search, t);
        OneMatches(v, x, t, d');
      }
    }
  }

  lemma TwoMatches(v: View, x: string, y: string, t: string, d: string)
    requires EndToEnd.Finds(v, [Doc("d", [x]), Doc("e", [y])])
    ensures Matches(v.search, t, d) <==> (LookupTerm(t) == [x] && d == "d") || (LookupTerm(t) == [y] && d == "e")
  {
    var a, b := Doc("d", [x]), Doc("e", [y]);
    FindsMatches(v, [a, b], t, d);
    assert a in [a, b] && b in [a, b];
  }

  /** An AND query that asks for `x` and excludes `y`, on two documents with one each. */
  lemma TwoDocumentsHits(v: View, plan: QueryPlan, x: string, y: string)
    requires EndToEnd.Finds(v, [Doc("d", [x]), Doc("e", [y])]) && x != y && plan.queryType == QueryAND
    requires Names(plan.terms, x) && !Names(plan.excludeTerms, x) && Names(plan.excludeTerms, y)
    ensures HitsOf(v, plan) == if Names(plan.terms, y) then {} else {"d"}
  {
    forall d ensures d in HitsOf(v, plan) <==> d == "d" && !Names(plan.terms, y) {
      CandidatesMeaning(v.search, plan, d);
      forall t ensures Matches(v.search, t, d)
                  <==> (LookupTerm(t) == [x] && d == "d") || (LookupTerm(t) == [y] && d == "e") {
        TwoMatches(v, x, y, t, d);
      }
      forall t ensures v.search(t) != [] <==> LookupTerm(t) == [x] || LookupTerm(t) == [y] { TwoListed(v, x, y, t); }
    }
  }

  lemma TwoListed(v: View, x: string, y: string, t: string)
    requires EndToEnd.Finds(v, [Doc("d", [x]), Doc("e", [y])])
    ensures v.search(t) != [] <==> LookupTerm(t) == [x] || LookupTerm(t) == [y]
  {
    TwoMatches(v, x, y, t, "d");
    TwoMatches(v, x, y, t, "e");
    if v.search(t) != [] {
      var d := MatchedIfListed(v.search, t);
      TwoMatches(v, x, y, t, d);
    }
  }

  /** Whatever answers from the documents gives the two plans different numbers of hits. */
  ghost predicate Tells(log: real -> real, tale: seq<Note>, p: QueryPlan, k: QueryPlan) {
    forall v, l {:trigger Executed(log, v, p, l)} :: EndToEnd.Finds(v, DocsIn(tale)) ==>
      Executed(log, v, p, l).totalHits != Executed(log, v, k, l).totalHits
  }

  lemma NamesAlike(ts: seq<string>, t: string)
    requires Live(t)
    ensures Names(ts, LookupTerm(t)[0]) <==> Alike(ts, t)
  {
    assert LookupTerm(t) == [LookupTerm(t)[0]];
  }

  /** A misread token that the key does not exclude: one document with that word. */
  lemma OneDocumentTells(log: real -> real, p: QueryPlan, k: QueryPlan, t: string)
    requires Live(t) && TermsOf(t) == LookupTerm(t) && t in p.excludeTerms && t in k.terms && !Alike(k.excludeTerms, t)
    ensures Tells(log, [Note("d", t)], p, k)
  {
    var x := LookupTerm(t)[0];
    assert DocsIn([Note("d", t)]) == [Doc("d", [x])];
    NamesAlike(k.excludeTerms, t);
    assert Names(p.excludeTerms, x) && Names(k.terms, x);
    forall v, l | EndToEnd.Finds(v, [Doc("d", [x])])
      ensures Executed(log, v, p, l).totalHits != Executed(log, v, k, l).totalHits
    {
      OneDocumentHits(v, p, x);
      OneDocumentHits(v, k, x);
      HitsCounted(log, v, p, l);
      HitsCounted(log, v, k, l);
    }
  }

  /** A misread token that the plan does not ask for, beside a term that it does not exclude:
      a document with each. */
  lemma TwoDocumentsTell(log: real -> real, p: QueryPlan, k: QueryPlan, t: string, u: string)
    requires Live(t) && TermsOf(t) == LookupTerm(t) && Live(u) && TermsOf(u) == LookupTerm(u)
    requires p.queryType == k.queryType == QueryAND && t in p.terms && t in k.terms && u in k.terms
             && !Alike(p.terms, u)
    requires !Alike(p.excludeTerms, t) && !Alike(k.excludeTerms, t) && Alike(p.excludeTerms, u)
             && Alike(k.excludeTerms, u)
    ensures Tells(log, [Note("d", t), Note("e", u)], p, k)
  {
    var x, y := LookupTerm(t)[0], LookupTerm(u)[0];
    assert DocsIn([Note("d", t), Note("e", u)]) == [Doc("d", [x]), Doc("e", [y])];
    NamesAlike(p.terms, t);
    NamesAlike(k.terms, t);
    NamesAlike(p.terms, u);
    NamesAlike(k.terms, u);
    NamesAlike(p.excludeTerms, t);
    NamesAlike(k.excludeTerms, t);
    NamesAlike(p.excludeTerms, u);
    NamesAlike(k.excludeTerms, u);
    forall v, l | EndToEnd.Finds(v, [Doc("d", [x]), Doc("e", [y])])
      ensures Executed(log, v, p, l).totalHits != Executed(log, v, k, l).totalHits
    {
      TwoDocumentsHits(v, p, x, y);
      TwoDocumentsHits(v, k, x, y);
      HitsCounted(log, v, p, l);
      HitsCounted(log, v, k, l);
    }
  }

  /** One or two one-word documents, with terms of the plan for bodies. */
  ghost predicate Short(tale: seq<Note>, p: QueryPlan) {
    && 1 <= |tale| <= 2 && (|tale| == 2 ==> tale[0].id != tale[1].id)
    && (forall i :: 0 <= i < |tale| ==> |tale[i].id| == 1)
    && forall i :: 0 <= i < |tale| ==> Asked(p, tale[i].body)
  }

  lemma OneShort(p: QueryPlan, t: string)
    requires Asked(p, t)
    ensures Short([Note("d", t)], p)
  {
  }

  lemma TwoShort(p: QueryPlan, t: string, u: string)
    requires Asked(p, t) && Asked(p, u)
    ensures Short([Note("d", t), Note("e", u)], p)
  {
    assert "d"[0] != "e"[0];
  }

  lemma TellingTale(log: real -> real, p: QueryPlan, k: QueryPlan, misread: seq<string>) returns (tale: seq<Note>)
    requires Between(p, k, misread) && !Unnoticed(p, k, misread)
    requires forall t :: t in p.terms || t in p.excludeTerms ==> TermsOf(t) == LookupTerm(t)
    ensures Short(tale, p) && Tells(log, tale, p, k)
  {
    if t :| t in misread && Live(t) && !Alike(k.excludeTerms, t) {
      tale := [Note("d", t)];
      OneShort(p, t);
      OneDocumentTells(log, p, k, t);
    } else {
      var u :| u in misread && Live(u) && !Alike(p.terms, u);
      var t :| t in p.terms && Live(t) && !Alike(p.excludeTerms, t);
      tale := [Note("d", t), Note("e", u)];
      TwoShort(p, t, u);
      TwoTell(log, p, k, misread, t, u);
    }
  }

  lemma TwoTell(log: real -> real, p: QueryPlan, k: QueryPlan, misread: seq<string>, t: string, u: string)
    requires Between(p, k, misread) && AllAlike(misread, k.excludeTerms) && p.queryType == QueryAND
    requires Live(t) && TermsOf(t) == LookupTerm(t) && t in p.terms && !Alike(p.excludeTerms, t)
    requires Live(u) && TermsOf(u) == LookupTerm(u) && u in misread && !Alike(p.terms, u)
    ensures Tells(log, [Note("d", t), Note("e", u)], p, k)
  {
    MoreAlike(k.excludeTerms, p.excludeTerms, t);
    assert u in p.excludeTerms;
    TwoDocumentsTell(log, p, k, t, u);
  }

  lemma MoreAlike(a: seq<string>, b: seq<string>, t: string)
    requires (forall u :: u in a ==> u in b) && !Alike(b, t)
    ensures !Alike(a, t)
  {
  }

  /** A query that is not harmless: documents, and a safe query with its key, that show it. */
  lemma HarmfulTale(log: real -> real, q: string) returns (tale: seq<Note>, q': string)
    requires NoComma(q) && !Harmless(q)
    ensures Short(tale, Plan(q)) && Safe(q') && Tells(log, tale, Plan(q), Plan(q'))
    ensures forall l :: RawKey(q', l) == RawKey(q, l)
  {
    q' := KeyPartner(q);
    SameMembers(Plan(q'), KeyPlan(q));
    KeyBetween(q);
    forall t | t in Plan(q).terms || t in Plan(q).excludeTerms ensures TermsOf(t) == LookupTerm(t) { PlanToken(q, t); }
    SameUnnoticed(Plan(q), KeyPlan(q), Plan(q'), MisreadIn(q));
    tale := TellingTale(log, Plan(q), Plan(q'), MisreadIn(q));
  }

  lemma SameUnnoticed(p: QueryPlan, k: QueryPlan, k': QueryPlan, misread: seq<string>)
    requires SameSets(k, k')
    ensures Unnoticed(p, k, misread) <==> Unnoticed(p, k', misread)
  {
    forall t ensures Alike(k.excludeTerms, t) <==> Alike(k'.excludeTerms, t) { }
  }

  // ---- One engine ----

  /** For an engine, over everything it may have indexed: a query with terms is always given
      its own response, after any trusted requests, if and only if it is harmless. */
  lemma EngineServesRightIff(digest: string -> string, log: real -> real, c: Codec, q: string)
    requires Injective(digest) && Lossless(c) && NoComma(q) && Plan(q).terms != []
    ensures Harmless(q) <==>
            forall maxSize, events ::
              AlwaysRight(SameResponse, digest, Single(log, ViewOf(c, Run(c, maxSize, events))), q)
  {
    if Harmless(q) {
      forall maxSize, events
        ensures AlwaysRight(SameResponse, digest, Single(log, ViewOf(c, Run(c, maxSize, events))), q)
      {
        EngineByLookup(c, Run(c, maxSize, events));
        HarmlessServedRight(digest, log, ViewOf(c, Run(c, maxSize, events)), [], q);
      }
    } else {
      var events, calls, call := EngineServesWrong(digest, log, c, q, 1);
      assert !AlwaysRight(SameResponse, digest, Single(log, ViewOf(c, Run(c, 0, events))), q);
    }
  }

  /** Every other query with terms is served wrongly, under every limit, by an engine that has
      indexed one or two documents of one word, after one safe request. */
  lemma EngineServesWrong(digest: string -> string, log: real -> real, c: Codec, q: string, l: int)
    returns (events: seq<Event>, calls: seq<Call>, call: Call)
    requires Lossless(c) && NoComma(q) && Plan(q).terms != [] && !Harmless(q)
    ensures call.query == q && call.limit == l && |events| <= 2
    ensures var exec := Single(log, ViewOf(c, Run(c, 0, events)));
            AllTrusted(SameResponse, exec, calls) && !Right(SameResponse, digest, exec, calls, call)
  {
    var tale, q' := HarmfulTale(log, q);
    events := EventsIn(tale);
    TaleDelivered(tale);
    EndToEnd.RunFinds(c, 0, events);
    assert RawKey(q', l) == RawKey(q, l);
    calls, call := ToldWrong(digest, log, ViewOf(c, Run(c, 0, events)), tale, q, q', l);
  }

  lemma ToldWrong(digest: string -> string, log: real -> real, v: View, tale: seq<Note>, q: string, q': string, l: int)
    returns (calls: seq<Call>, call: Call)
    requires EndToEnd.Finds(v, DocsIn(tale)) && Tells(log, tale, Plan(q), Plan(q'))
    requires NoComma(q) && Safe(q') && RawKey(q', l) == RawKey(q, l) && Plan(q).terms != []
    ensures call.query == q && call.limit == l
    ensures var exec := Single(log, v);
            AllTrusted(SameResponse, exec, calls) && !Right(SameResponse, digest, exec, calls, call)
  {
    assert Executed(log, v, Plan(q), l).totalHits != Executed(log, v, Plan(q'), l).totalHits;
    PartnerHasTerms(q, q', l);
    SingleInsensitive(log, v);
    BothSameness();
    calls, call := ServedWrong(SameResponse, digest, Single(log, v), q, q', l);
  }

  // ---- One engine, whole answers ----

  /** Term statistics, which the handler does not return, show a little more. */
  lemma EngineAnswersRightIff(digest: string -> string, log: real -> real, c: Codec, q: string)
    requires Injective(digest) && Lossless(c) && NoComma(q) && Plan(q).terms != []
    ensures Faultless(q) <==>
            forall maxSize, events ::
              AlwaysRight(SameAnswer, digest, Single(log, ViewOf(c, Run(c, maxSize, events))), q)
  {
    if Faultless(q) {
      forall maxSize, events
        ensures AlwaysRight(SameAnswer, digest, Single(log, ViewOf(c, Run(c, maxSize, events))), q)
      {
        EngineByLookup(c, Run(c, maxSize, events));
        FaultlessServedRight(digest, log, ViewOf(c, Run(c, maxSize, events)), q);
      }
    } else {
      var events, calls, call := EngineAnswersWrong(digest, log, c, q, 1);
      assert !AlwaysRight(SameAnswer, digest, Single(log, ViewOf(c, Run(c, 0, events))), q);
    }
  }

  lemma FaultlessServedRight(digest: string -> string, log: real -> real, v: View, q: string)
    requires Injective(digest) && ByLookup(v.search) && Faultless(q) && Plan(q).terms != []
    ensures AlwaysRight(SameAnswer, digest, Single(log, v), q)
  {
    FaultlessAgrees(log, v, q);
    EmptyExecutors(log, v, []);
    BothSameness();
    TrustedAlwaysRight(SameAnswer, digest, Single(log, v), q);
  }

  lemma EngineAnswersWrong(digest: string -> string, log: real -> real, c: Codec, q: string, l: int)
    returns (events: seq<Event>, calls: seq<Call>, call: Call)
    requires Lossless(c) && NoComma(q) && Plan(q).terms != [] && !Faultless(q)
    ensures call.query == q && call.limit == l
    ensures var exec := Single(log, ViewOf(c, Run(c, 0, events)));
            AllTrusted(SameAnswer, exec, calls) && !Right(SameAnswer, digest, exec, calls, call)
  {
    var q' := KeyPartner(q);
    assert RawKey(q', l) == RawKey(q, l);
    SameMembers(Plan(q'), KeyPlan(q));
    KeyBetween(q);
    var t := NoticedToken(q);
    PlanToken(q, t);
    var tale := [Note("d", t)];
    events := EventsIn(tale);
    TaleDelivered(tale);
    EndToEnd.RunFinds(c, 0, events);
    var v := ViewOf(c, Run(c, 0, events));
    TokenNoticed(log, v, Plan(q), Plan(q'), t, l);
    calls, call := AnsweredWrong(digest, log, v, q, q', l);
  }

  lemma NoticedToken(q: string) returns (t: string)
    requires NoComma(q) && !Faultless(q)
    ensures t in MisreadIn(q) && Live(t) && (!Alike(KeyPlan(q).excludeTerms, t) || t !in Plan(q).terms)
  {
    t :| t in MisreadIn(q) && Live(t) && (!Alike(KeyPlan(q).excludeTerms, t) || t !in Plan(q).terms);
  }

  lemma AnsweredWrong(digest: string -> string, log: real -> real, v: View, q: string, q': string, l: int)
    returns (calls: seq<Call>, call: Call)
    requires NoComma(q) && Safe(q') && RawKey(q', l) == RawKey(q, l) && Plan(q).terms != []
    requires !SameAnswer(Executed(log, v, Plan(q), l), Executed(log, v, Plan(q'), l))
    ensures call.query == q && call.limit == l
    ensures AllTrusted(SameAnswer, Single(log, v), calls) && !Right(SameAnswer, digest, Single(log, v), calls, call)
  {
    PartnerHasTerms(q, q', l);
    SingleInsensitive(log, v);
    BothSameness();
    calls, call := ServedWrong(SameAnswer, digest, Single(log, v), q, q', l);
  }

  /** On one document with the word: other hits, or other statistics. */
  lemma TokenNoticed(log: real -> real, v: View, p: QueryPlan, k: QueryPlan, t: string, l: int)
    requires EndToEnd.Finds(v, DocsIn([Note("d", t)])) && Live(t) && TermsOf(t) == LookupTerm(t)
    requires t in p.excludeTerms && t in k.terms && (!Alike(k.excludeTerms, t) || t !in p.terms)
    ensures !SameAnswer(Executed(log, v, p, l), Executed(log, v, k, l))
  {
    if !Alike(k.excludeTerms, t) {
      OneDocumentTells(log, p, k, t);
      assert Executed(log, v, p, l).totalHits != Executed(log, v, k, l).totalHits;
    } else {
      WordListed(v, t);
      StatsName(log, v, p, t, l);
      StatsName(log, v, k, t, l);
    }
  }

  lemma WordListed(v: View, t: string)
    requires EndToEnd.Finds(v, DocsIn([Note("d", t)])) && Live(t) && TermsOf(t) == LookupTerm(t)
    ensures v.search(t) != []
  {
    var x := LookupTerm(t)[0];
    assert DocsIn([Note("d", t)]) == [Doc("d", [x])];
    OneMatches(v, x, t, "d");
  }

  lemma StatsName(log: real -> real, v: View, plan: QueryPlan, t: string, l: int)
    requires v.search(t) != []
    ensures t in Executed(log, v, plan, l).termStats <==> t in plan.terms
  {
  }

  // ---- The deployed service ----

  lemma ServiceByLookup(c: Codec, s: Service)
    requires Searchers.Runs(c, s.maxSize, s.moves) && EndToEnd.Enumerates(s.order, |s.moves|)
    ensures AllByLookup(ServiceViews(c, s))
  {
    var states := Searchers.Searcher(c, Searchers.Worlds(c, s.maxSize, s.moves));
    var views := ServiceViews(c, s);
    EndToEnd.EnumeratedInRange(s.order, |s.moves|);
    forall i | 0 <= i < |views| ensures ByLookup(views[i].search) { EngineByLookup(c, states[s.order[i]]); }
  }

  /** Segments of one document with a one-letter id and one term of the query can be written. */
  ghost predicate QueryWritable(c: Codec, q: string) {
    forall t :: Asked(Plan(q), t) ==> TermWritable(c, LookupTerm(t))
  }

  /** A term of the plan that is looked up. */
  ghost predicate Asked(p: QueryPlan, t: string) { (t in p.terms || t in p.excludeTerms) && Live(t) }

  ghost predicate TermWritable(c: Codec, terms: seq<string>) {
    forall id :: |id| == 1 ==> Writable(c, Doc(id, terms))
  }

  lemma NoteWritable(c: Codec, n: Note, terms: seq<string>)
    requires TermWritable(c, terms) && TermsOf(n.body) == terms && |n.id| == 1
    ensures Writable(c, DocOf(n))
  {
    assert DocOf(n) == Doc(n.id, terms);
  }

  ghost predicate ServiceRight(digest: string -> string, log: real -> real, c: Codec, hash: string -> bytes, s: Service,
                               q: string)
  {
    Serving(c, hash, s) ==> AlwaysRight(SameResponse, digest, Sharded(log, ServiceViews(c, s)), q)
  }

  /** For the deployed service, over everything that may have been published, delivered,
      flushed and reloaded: the same condition. */
  lemma ServiceServesRightIff(digest: string -> string, log: real -> real, c: Codec, hash: string -> bytes, q: string)
    requires Injective(digest) && Lossless(c) && NoComma(q) && Plan(q).terms != [] && QueryWritable(c, q)
    ensures Harmless(q) <==> forall s :: ServiceRight(digest, log, c, hash, s, q)
  {
    if Harmless(q) {
      forall s ensures ServiceRight(digest, log, c, hash, s, q) {
        if Serving(c, hash, s) {
          ServiceByLookup(c, s);
          HarmlessServedRight(digest, log, NO_VIEW, ServiceViews(c, s), q);
        }
      }
    } else {
      var s, calls, call := ServiceServesWrong(digest, log, c, hash, q, 1);
      assert !ServiceRight(digest, log, c, hash, s, q);
    }
  }

  /** What a service that holds exactly some documents finds is what an engine finds. */
  lemma ToldHits(c: Codec, hash: string -> bytes, log: real -> real, tale: seq<Note>, plan: QueryPlan, l: int)
    requires Lossless(c) && Tellable(c, tale)
    ensures Serving(c, hash, Told(hash, tale))
    ensures var one := ViewOf(c, Run(c, 0, EventsIn(tale)));
            && EndToEnd.Finds(one, DocsIn(tale))
            && ShardedExecuted(log, ServiceViews(c, Told(hash, tale)), plan, l).totalHits
               == Executed(log, one, plan, l).totalHits
  {
    var s := Told(hash, tale);
    TaleIsServed(c, hash, tale);
    TaleDelivered(tale);
    EndToEnd.RunFinds(c, 0, EventsIn(tale));
    Searchers.SearchServiceIsOneEngine(c, log, s.published, s.maxSize, s.moves, s.order, 0, EventsIn(tale), plan, l);
  }

  lemma DifferentIds(tale: seq<Note>, p: QueryPlan, i: nat, j: nat)
    requires Short(tale, p) && i < j < |tale|
    ensures tale[i].id != tale[j].id
  {
    assert i == 0 && j == 1;
  }

  lemma ShortWritable(c: Codec, q: string, tale: seq<Note>, i: nat)
    requires QueryWritable(c, q) && Short(tale, Plan(q)) && i < |tale|
    ensures Writable(c, DocOf(tale[i]))
  {
    var n := tale[i];
    assert Asked(Plan(q), n.body);
    PlanToken(q, n.body);
    NoteWritable(c, n, LookupTerm(n.body));
  }

  lemma ShortTellable(c: Codec, q: string, tale: seq<Note>)
    requires QueryWritable(c, q) && Short(tale, Plan(q))
    ensures Tellable(c, tale)
  {
    forall i, j | 0 <= i < j < |tale| ensures tale[i].id != tale[j].id { DifferentIds(tale, Plan(q), i, j); }
    forall i | 0 <= i < |tale| ensures Writable(c, DocOf(tale[i])) { ShortWritable(c, q, tale, i); }
  }

  lemma ServiceServesWrong(digest: string -> string, log: real -> real, c: Codec, hash: string -> bytes, q: string,
                           l: int)
    returns (s: Service, calls: seq<Call>, call: Call)
    requires Lossless(c) && NoComma(q) && Plan(q).terms != [] && !Harmless(q) && QueryWritable(c, q)
    ensures Serving(c, hash, s) && call.query == q && call.limit == l
    ensures var exec := Sharded(log, ServiceViews(c, s));
            AllTrusted(SameResponse, exec, calls) && !Right(SameResponse, digest, exec, calls, call)
  {
    var tale, q' := HarmfulTale(log, q);
    ShortTellable(c, q, tale);
    s := Told(hash, tale);
    ToldHits(c, hash, log, tale, Plan(q), l);
    ToldHits(c, hash, log, tale, Plan(q'), l);
    var v := ViewOf(c, Run(c, 0, EventsIn(tale)));
    assert Executed(log, v, Plan(q), l).totalHits != Executed(log, v, Plan(q'), l).totalHits;
    assert RawKey(q', l) == RawKey(q, l);
    PartnerHasTerms(q, q', l);
    ShardedInsensitive(log, ServiceViews(c, s));
    BothSameness();
    calls, call := ServedWrong(SameResponse, digest, Sharded(log, ServiceViews(c, s)), q, q', l);
  }
}
