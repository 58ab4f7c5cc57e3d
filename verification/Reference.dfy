/**
 What a search answers, said of the delivered documents alone: which documents are hits,
 with what score, in what order, and how many documents have each term.  An engine answers
 so after every run, and so do the shards of a deployment together.
 */
module Reference {
  import opened Ordering
  import opened Memory
  import opened Segment
  import opened History
  import opened Placement
  import opened Parser
  import opened Ranker
  import opened ExecutorSpec
  import opened ShardedSpec
  import opened EndToEnd
  import Tokenizer
  import Searchers
  import Reload

  // ---- The reference ----

  /** Occurrences in the document of what the engine makes of the term. */
  function Count(doc: Doc, t: string): nat {
    var ts := Tokenizer.LookupTerm(t);
    if ts == [] then 0 else multiset(doc.terms)[ts[0]]
  }

  /** The documents that have the term. */
  ghost function Owners(hist: seq<Doc>, t: string): set<string> {
    set doc | doc in hist && Count(doc, t) > 0 :: doc.id
  }

  /** The document has every (AND) or any (OR) query term that some document has, at least
      one, and no exclude term. */
  ghost predicate IsHit(hist: seq<Doc>, plan: QueryPlan, doc: Doc) {
    && (exists t :: t in plan.terms && Count(doc, t) > 0)
    && (plan.queryType == QueryAND ==>
          forall t :: t in plan.terms && Owners(hist, t) != {} ==> Count(doc, t) > 0)
    && (forall t :: t in plan.excludeTerms ==> Count(doc, t) == 0)
  }

  ghost function HitIds(hist: seq<Doc>, plan: QueryPlan): set<string> {
    set doc | doc in hist && IsHit(hist, plan, doc) :: doc.id
  }

  function MeanLength(hist: seq<Doc>): real {
    if hist == [] then 0.0 else TotalTerms(hist) as real / |hist| as real
  }

  ghost function SumReal(keys: set<string>, f: string -> real): real {
    if keys == {} then 0.0
    else
      var k :| k in keys;
      f(k) + SumReal(keys - {k}, f)
  }

  /** What a term adds: its document frequency is that among the hits. */
  ghost function TermPart(log: real -> real, hist: seq<Doc>, plan: QueryPlan, doc: Doc, t: string): real {
    if Count(doc, t) == 0 || MeanLength(hist) <= 0.0 then 0.0
    else BM25(log, |hist|, |HitIds(hist, plan) * Owners(hist, t)|, Count(doc, t), |doc.terms|, MeanLength(hist))
  }

  /** Each distinct query term adds to the score. */
  ghost function Score(log: real -> real, hist: seq<Doc>, plan: QueryPlan, doc: Doc): real {
    SumReal(TermSet(plan.terms), t => TermPart(log, hist, plan, doc, t))
  }

  ghost function HitScores(log: real -> real, hist: seq<Doc>, plan: QueryPlan): map<string, real>
    requires Consistent(hist)
  {
    map doc | doc in hist && IsHit(hist, plan, doc) :: doc.id := Score(log, hist, plan, doc)
  }

  /** For each query term that occurs, how many documents have it. */
  ghost predicate StatsAre(hist: seq<Doc>, plan: QueryPlan, stats: map<string, nat>) {
    forall t :: t in plan.terms ==>
      if Owners(hist, t) == {} then t !in stats else t in stats && stats[t] == |Owners(hist, t)|
  }

  /** Number of hits, ranking by the given scores, and term statistics. */
  ghost predicate AnsweredBy(scores: map<string, real>, hist: seq<Doc>, plan: QueryPlan, limit: int, r: SearchResult) {
    && r.query == plan.rawQuery && r.totalHits == |HitIds(hist, plan)|
    && scores.Keys == HitIds(hist, plan) && TopOf(scores, limit, r.results)
    && StatsAre(hist, plan, r.termStats)
  }

  ghost predicate Answered(log: real -> real, hist: seq<Doc>, plan: QueryPlan, limit: int, r: SearchResult)
    requires Consistent(hist)
  {
    AnsweredBy(HitScores(log, hist, plan), hist, plan, limit, r)
  }

  // ---- One term ----

  /** The list holds each document that has the term once, with its number of occurrences. */
  ghost predicate Tells(hist: seq<Doc>, t: string, ps: PostingList) {
    && Counted(ps) && DocSet(ps) == Owners(hist, t)
    && forall doc :: doc in hist ==> FrequencyIn(ps, doc.id) == Count(doc, t)
  }

  lemma SearchTells(v: View, hist: seq<Doc>, t: string)
    requires Finds(v, hist) && Consistent(hist)
    ensures Tells(hist, t, v.search(t))
  {
    var ps, ts := v.search(t), Tokenizer.LookupTerm(t);
    if ts != [] {
      ListTells(hist, t, ts[0], ps);
    } else {
      assert ps == [];
      assert DocSet(ps) == {} == Owners(hist, t);
    }
  }

  /** The posting is that of a document with the term. */
  ghost predicate Witnessed(hist: seq<Doc>, x: string, p: Posting) {
    exists doc :: doc in hist && x in doc.terms && Records(p, doc.id, doc.terms, x)
  }

  lemma AnswersWitnessed(hist: seq<Doc>, x: string, ps: PostingList, p: Posting)
    requires Answers(hist, x, ps) && p in ps
    ensures Witnessed(hist, x, p) && p.frequency > 0
  {
    assert Justified(hist, x, p);
    var doc :| doc in hist && x in doc.terms && p == PostingFor(doc.id, doc.terms, x);
    PostingExact(p, doc.id, doc.terms, x);
  }

  lemma ListTells(hist: seq<Doc>, t: string, x: string, ps: PostingList)
    requires Consistent(hist) && Answers(hist, x, ps) && Tokenizer.LookupTerm(t) == [x]
    ensures Tells(hist, t, ps)
  {
    forall p | p in ps ensures Witnessed(hist, x, p) && p.frequency > 0 { AnswersWitnessed(hist, x, ps, p); }
    KeySortedDistinct(ps);
    forall doc | doc in hist ensures FrequencyIn(ps, doc.id) == Count(doc, t) { FrequencyTold(hist, t, x, ps, doc); }
    ListOwners(hist, t, x, ps);
  }

  lemma ListOwners(hist: seq<Doc>, t: string, x: string, ps: PostingList)
    requires Answers(hist, x, ps) && Tokenizer.LookupTerm(t) == [x] && forall p :: p in ps ==> Witnessed(hist, x, p)
    ensures DocSet(ps) == Owners(hist, t)
  {
    var listed, owners := DocSet(ps), Owners(hist, t);
    AllListedOwn(hist, t, x, ps);
    AllOwnersListed(hist, t, x, ps);
    SubsetsAgree(listed, owners);
  }

  lemma SubsetsAgree(a: set<string>, b: set<string>)
    requires a <= b && b <= a
    ensures a == b
  {
  }

  lemma AllListedOwn(hist: seq<Doc>, t: string, x: string, ps: PostingList)
    requires Tokenizer.LookupTerm(t) == [x] && forall p :: p in ps ==> Witnessed(hist, x, p)
    ensures DocSet(ps) <= Owners(hist, t)
  {
    forall d | d in DocSet(ps) ensures d in Owners(hist, t) { ListedOwns(hist, t, x, ps, d); }
  }

  lemma AllOwnersListed(hist: seq<Doc>, t: string, x: string, ps: PostingList)
    requires Tokenizer.LookupTerm(t) == [x] && Answers(hist, x, ps)
    ensures Owners(hist, t) <= DocSet(ps)
  {
    forall d | d in Owners(hist, t) ensures d in DocSet(ps) { OwnerListed(hist, t, x, ps, d); }
  }

  lemma OwnerListed(hist: seq<Doc>, t: string, x: string, ps: PostingList, d: string)
    requires d in Owners(hist, t) && Tokenizer.LookupTerm(t) == [x] && Answers(hist, x, ps)
    ensures d in DocSet(ps)
  {
    var doc :| doc in hist && Count(doc, t) > 0 && doc.id == d;
    assert x in doc.terms;
    var p :| p in ps && p.docID == doc.id;
  }

  lemma ListedOwns(hist: seq<Doc>, t: string, x: string, ps: PostingList, d: string)
    requires d in DocSet(ps) && Tokenizer.LookupTerm(t) == [x] && forall p :: p in ps ==> Witnessed(hist, x, p)
    ensures d in Owners(hist, t)
  {
    var p :| p in ps && p.docID == d;
    var doc :| doc in hist && x in doc.terms && Records(p, doc.id, doc.terms, x);
    assert doc.id == d && Count(doc, t) > 0;
  }

  lemma FrequencyTold(hist: seq<Doc>, t: string, x: string, ps: PostingList, doc: Doc)
    requires Consistent(hist) && Answers(hist, x, ps) && Tokenizer.LookupTerm(t) == [x] && Counted(ps) && doc in hist
    requires forall p :: p in ps ==> Witnessed(hist, x, p)
    ensures FrequencyIn(ps, doc.id) == Count(doc, t)
  {
    if x in doc.terms {
      var p :| p in ps && p.docID == doc.id;
      FrequencyListed(ps, p);
      OnlyWitness(hist, x, p, doc);
    } else {
      forall p | p in ps ensures p.docID != doc.id {
        if p.docID == doc.id { OnlyWitness(hist, x, p, doc); }
      }
      FrequencyUnlisted(ps, doc.id);
    }
  }

  lemma OnlyWitness(hist: seq<Doc>, x: string, p: Posting, doc: Doc)
    requires Consistent(hist) && Witnessed(hist, x, p) && doc in hist && p.docID == doc.id
    ensures x in doc.terms && Records(p, doc.id, doc.terms, x)
  {
    var other :| other in hist && x in other.terms && Records(p, other.id, other.terms, x);
    assert other == doc;
  }

  lemma KeySortedDistinct(ps: PostingList)
    requires KeySorted(DocKey, ps)
    ensures DistinctKeys(DocKey, ps)
  {
    forall i, j | 0 <= i < j < |ps| ensures DocKey(ps[i]) != DocKey(ps[j]) { LessIrreflexive(DocKey(ps[i])); }
  }

  lemma {:induction false} AsManyDocs(ps: PostingList)
    requires Counted(ps)
    ensures |ps| == |DocSet(ps)|
  {
    if ps == [] {
      assert DocSet(ps) == {};
    } else {
      var n := |ps| - 1;
      AsManyDocs(ps[..n]);
      LastDiffers(ps, n);
      OneMoreDoc(ps[..n], ps[n]);
      assert ps == ps[..n] + [ps[n]];
    }
  }

  lemma OneMoreDoc(ps: PostingList, p: Posting)
    requires forall q :: q in ps ==> q.docID != p.docID
    ensures |DocSet(ps + [p])| == |DocSet(ps)| + 1
  {
    DocSetNext(ps, p);
    assert p.docID !in DocSet(ps);
  }

  // ---- Hits ----

  lemma OwnersMatch(v: View, hist: seq<Doc>, t: string, doc: Doc)
    requires Finds(v, hist) && Consistent(hist) && doc in hist
    ensures Matches(v.search, t, doc.id) <==> Count(doc, t) > 0
    ensures v.search(t) != [] <==> Owners(hist, t) != {}
  {
    SearchTells(v, hist, t);
    assert Matches(v.search, t, doc.id) <==> doc.id in DocSet(v.search(t));
    if doc.id in Owners(hist, t) {
      var other :| other in hist && Count(other, t) > 0 && other.id == doc.id;
      assert other == doc;
    }
    if v.search(t) != [] { assert v.search(t)[0] in v.search(t) && v.search(t)[0].docID in DocSet(v.search(t)); }
  }

  ghost function Candidates(v: View, plan: QueryPlan): set<string> {
    Combined(plan.queryType, Found(v.search, plan.terms)) - DocsMatching(v.search, plan.excludeTerms)
  }

  lemma HitsAre(v: View, hist: seq<Doc>, plan: QueryPlan)
    requires Finds(v, hist) && Consistent(hist)
    ensures Candidates(v, plan) == HitIds(hist, plan)
  {
    forall doc | doc in hist ensures doc.id in Candidates(v, plan) <==> IsHit(hist, plan, doc) {
      HitIff(v, hist, plan, doc);
    }
    forall d ensures d in Candidates(v, plan) <==> d in HitIds(hist, plan) {
      CandidatesMeaning(v.search, plan, d);
      if d in Candidates(v, plan) {
        var t :| t in plan.terms && Matches(v.search, t, d);
        SearchTells(v, hist, t);
        assert d in DocSet(v.search(t));
        var doc :| doc in hist && Count(doc, t) > 0 && doc.id == d;
        assert IsHit(hist, plan, doc);
      }
    }
  }

  lemma HitIff(v: View, hist: seq<Doc>, plan: QueryPlan, doc: Doc)
    requires Finds(v, hist) && Consistent(hist) && doc in hist
    ensures doc.id in Candidates(v, plan) <==> IsHit(hist, plan, doc)
  {
    CandidatesMeaning(v.search, plan, doc.id);
    forall t ensures Matches(v.search, t, doc.id) <==> Count(doc, t) > 0
             ensures v.search(t) != [] <==> Owners(hist, t) != {} {
      OwnersMatch(v, hist, t, doc);
    }
  }

  // ---- Scores ----

  /** What cutting a list to some documents keeps of it. */
  ghost predicate CutTo(ps: PostingList, kept: PostingList, docs: set<string>) {
    && Counted(kept) && DocSet(kept) == DocSet(ps) * docs && (forall q :: q in kept ==> q in ps)
    && forall d :: d in docs ==> FrequencyIn(kept, d) == FrequencyIn(ps, d)
  }

  lemma {:induction false} KeepCounted(ps: PostingList, docs: set<string>)
    requires Counted(ps)
    ensures CutTo(ps, Keep(ps, docs), docs)
  {
    if ps != [] {
      var n := |ps| - 1;
      var before, last := ps[..n], ps[n];
      KeepCounted(before, docs);
      LastDiffers(ps, n);
      KeepNext(before, last, Keep(before, docs), docs);
      KeepAppend(before, last, docs);
      assert ps == before + [last];
    }
  }

  lemma KeepAppend(ps: PostingList, p: Posting, docs: set<string>)
    ensures Keep(ps + [p], docs) == if p.docID in docs then Keep(ps, docs) + [p] else Keep(ps, docs)
  {
    assert (ps + [p])[..|ps|] == ps;
    assert Keep(ps, docs) + [] == Keep(ps, docs);
  }

  lemma KeepNext(ps: PostingList, p: Posting, kept: PostingList, docs: set<string>)
    requires Counted(ps) && CutTo(ps, kept, docs) && p.frequency > 0 && forall q :: q in ps ==> q.docID != p.docID
    ensures CutTo(ps + [p], if p.docID in docs then kept + [p] else kept, docs)
  {
    CountedNext(ps, p);
    if p.docID in docs { KeptNext(ps, p, kept, docs); } else { LeftNext(ps, p, kept, docs); }
  }

  lemma KeptNext(ps: PostingList, p: Posting, kept: PostingList, docs: set<string>)
    requires Counted(ps) && CutTo(ps, kept, docs) && p.frequency > 0 && forall q :: q in ps ==> q.docID != p.docID
    requires p.docID in docs && DocSet(ps + [p]) == DocSet(ps) + {p.docID}
    requires forall d :: FrequencyIn(ps + [p], d) == if d == p.docID then p.frequency else FrequencyIn(ps, d)
    ensures CutTo(ps + [p], kept + [p], docs)
  {
    CountedNext(kept, p);
    Cut(DocSet(ps), p.docID, docs);
  }

  lemma LeftNext(ps: PostingList, p: Posting, kept: PostingList, docs: set<string>)
    requires CutTo(ps, kept, docs) && p.docID !in docs && DocSet(ps + [p]) == DocSet(ps) + {p.docID}
    requires forall d :: FrequencyIn(ps + [p], d) == if d == p.docID then p.frequency else FrequencyIn(ps, d)
    ensures CutTo(ps + [p], kept, docs)
  {
    Cut(DocSet(ps), p.docID, docs);
  }

  lemma Cut(listed: set<string>, d: string, docs: set<string>)
    ensures (listed + {d}) * docs == if d in docs then listed * docs + {d} else listed * docs
  {
  }

  lemma LastDiffers(ps: PostingList, n: nat)
    requires Counted(ps) && |ps| == n + 1
    ensures forall p :: p in ps[..n] ==> p.docID != ps[n].docID
  {
    forall p | p in ps[..n] ensures p.docID != ps[n].docID {
      var i :| 0 <= i < n && ps[i] == p;
      assert DocKey(ps[i]) != DocKey(ps[n]);
    }
  }

  lemma CountedNext(ps: PostingList, p: Posting)
    requires Counted(ps) && p.frequency > 0 && forall q :: q in ps ==> q.docID != p.docID
    ensures Counted(ps + [p]) && DocSet(ps + [p]) == DocSet(ps) + {p.docID}
    ensures forall d :: FrequencyIn(ps + [p], d) == if d == p.docID then p.frequency else FrequencyIn(ps, d)
  {
    DistinctKeysNext(DocKey, ps, p);
    DocSetNext(ps, p);
    assert (ps + [p])[..|ps|] == ps;
  }

  lemma {:induction false} SumRealTake(keys: set<string>, f: string -> real, k: string)
    requires k in keys
    ensures SumReal(keys, f) == f(k) + SumReal(keys - {k}, f)
    decreases keys
  {
    var u :| u in keys && SumReal(keys, f) == f(u) + SumReal(keys - {u}, f);
    if u != k {
      SumRealTake(keys - {u}, f, k);
      SumRealTake(keys - {k}, f, u);
      assert keys - {u} - {k} == keys - {k} - {u};
    }
  }

  lemma {:induction false} TotalIsSum(log: real -> real, corpus: Corpus, m: PerTerm, terms: set<string>, d: string,
                                      f: string -> real)
    requires forall t :: t in terms ==> TermScore(log, corpus, m, t, d) == f(t)
    ensures Total(log, corpus, m, terms, d) == SumReal(terms, f)
    decreases terms
  {
    if terms != {} {
      var t :| t in terms;
      TotalTake(log, corpus, m, terms, d, t);
      SumRealTake(terms, f, t);
      TotalIsSum(log, corpus, m, terms - {t}, d, f);
    }
  }

  lemma {:induction false} SumRealZeros(keys: set<string>, more: set<string>, f: string -> real)
    requires keys <= more && forall k :: k in more - keys ==> f(k) == 0.0
    ensures SumReal(keys, f) == SumReal(more, f)
    decreases more
  {
    var rest := more - keys;
    if rest == {} {
      assert forall k :: k in more && k !in keys ==> k in rest;
      assert keys == more;
    } else {
      var k :| k in rest;
      SumRealTake(more, f, k);
      SumRealZeros(keys, more - {k}, f);
    }
  }

  lemma {:induction false} SomeTerms(hist: seq<Doc>, doc: Doc)
    requires doc in hist && doc.terms != []
    ensures MeanLength(hist) > 0.0
  {
    SomeTotal(hist, doc);
    Quotient(TotalTerms(hist) as real, |hist| as real);
  }

  lemma Quotient(a: real, b: real)
    requires a > 0.0 && b > 0.0
    ensures a / b > 0.0
  {
    assert (a / b) * b == a;
    Scale(0.0, a / b, b);
  }

  lemma {:induction false} SomeTotal(hist: seq<Doc>, doc: Doc)
    requires doc in hist
    ensures TotalTerms(hist) >= |doc.terms|
  {
    var n := |hist| - 1;
    if hist[n] != doc { SomeTotal(hist[..n], doc); }
  }

  /** The lists that reach the ranker: those of the query terms, cut to the hits. */
  function Ranking(v: View, plan: QueryPlan, docs: set<string>): PerTerm { Filtered(Found(v.search, plan.terms), docs) }

  /** One term's part of the executor's score is the reference's. */
  lemma TermPartIs(log: real -> real, v: View, hist: seq<Doc>, plan: QueryPlan, doc: Doc, t: string)
    requires Indexes(v, hist) && Consistent(hist) && doc in hist && doc.id in HitIds(hist, plan) && t in plan.terms
    ensures TermScore(log, CorpusOf(v), Ranking(v, plan, HitIds(hist, plan)), t, doc.id)
         == TermPart(log, hist, plan, doc, t)
  {
    var docs := HitIds(hist, plan);
    ListCut(v, hist, plan, docs, t);
    var kept := Keep(v.search(t), docs);
    FrequencyUnlisted(kept, doc.id);
    if Count(doc, t) == 0 {
      Unlisted(Weight(CorpusOf(v), IDF(log, v.totalDocs, |kept|)), kept, doc.id);
    } else {
      SomeTerms(hist, doc);
      TermScoreIs(log, CorpusOf(v), Ranking(v, plan, docs), t, doc.id);
    }
  }

  lemma ListCut(v: View, hist: seq<Doc>, plan: QueryPlan, docs: set<string>, t: string)
    requires Finds(v, hist) && Consistent(hist) && t in plan.terms
    ensures var kept := Keep(v.search(t), docs);
            && Counted(kept) && |kept| == |docs * Owners(hist, t)|
            && (forall doc :: doc in hist && doc.id in docs ==> FrequencyIn(kept, doc.id) == Count(doc, t))
            && (if kept == [] then t !in Ranking(v, plan, docs)
                else t in Ranking(v, plan, docs) && Ranking(v, plan, docs)[t] == kept)
  {
    SearchTells(v, hist, t);
    KeepCounted(v.search(t), docs);
    AsManyDocs(Keep(v.search(t), docs));
    assert DocSet(v.search(t)) * docs == docs * Owners(hist, t);
  }

  lemma {:induction false} Unlisted(w: Posting -> real, ps: PostingList, d: string)
    requires forall p :: p in ps ==> p.docID != d
    ensures ListScore(w, ps, d) == 0.0
  {
    if ps != [] {
      assert ps[|ps| - 1] in ps;
      Unlisted(w, ps[..|ps| - 1], d);
    }
  }

  lemma ScoreIs(log: real -> real, v: View, hist: seq<Doc>, plan: QueryPlan, doc: Doc)
    requires Indexes(v, hist) && Consistent(hist) && doc in hist && doc.id in HitIds(hist, plan)
    ensures var f := Ranking(v, plan, HitIds(hist, plan));
            Total(log, CorpusOf(v), f, f.Keys, doc.id) == Score(log, hist, plan, doc)
  {
    var f := Ranking(v, plan, HitIds(hist, plan));
    var part := (t: string) => TermPart(log, hist, plan, doc, t);
    forall t | t in plan.terms ensures TermScore(log, CorpusOf(v), f, t, doc.id) == part(t) {
      TermPartIs(log, v, hist, plan, doc, t);
    }
    TotalIsSum(log, CorpusOf(v), f, f.Keys, doc.id, part);
    SumRealZeros(f.Keys, TermSet(plan.terms), part);
    SumRealSame(TermSet(plan.terms), part, t => TermPart(log, hist, plan, doc, t));
  }

  lemma {:induction false} SumRealSame(keys: set<string>, f: string -> real, g: string -> real)
    requires forall k :: k in keys ==> f(k) == g(k)
    ensures SumReal(keys, f) == SumReal(keys, g)
    decreases keys
  {
    if keys != {} {
      var k :| k in keys;
      SumRealTake(keys, f, k);
      SumRealTake(keys, g, k);
      SumRealSame(keys - {k}, f, g);
    }
  }

  lemma ScoresAreHitScores(log: real -> real, v: View, hist: seq<Doc>, plan: QueryPlan)
    requires Indexes(v, hist) && Consistent(hist)
    ensures Scores(log, CorpusOf(v), Ranking(v, plan, HitIds(hist, plan))) == HitScores(log, hist, plan)
  {
    var f, want := Ranking(v, plan, HitIds(hist, plan)), HitScores(log, hist, plan);
    RankedDocs(v, hist, plan);
    HitScoresOfIds(log, hist, plan);
    forall d | d in HitIds(hist, plan) ensures Total(log, CorpusOf(v), f, f.Keys, d) == want[d] {
      var doc :| doc in hist && IsHit(hist, plan, doc) && doc.id == d;
      ScoreIs(log, v, hist, plan, doc);
      assert want[doc.id] == Score(log, hist, plan, doc);
    }
    ScoresAreThese(log, CorpusOf(v), f, want);
  }

  lemma ScoresAreThese(log: real -> real, corpus: Corpus, f: PerTerm, want: map<string, real>)
    requires want.Keys == AllDocs(f, f.Keys) && forall d :: d in want ==> Total(log, corpus, f, f.Keys, d) == want[d]
    ensures Scores(log, corpus, f) == want
  {
  }

  lemma HitScoresOfIds(log: real -> real, hist: seq<Doc>, plan: QueryPlan)
    requires Consistent(hist)
    ensures HitScores(log, hist, plan).Keys == HitIds(hist, plan)
  {
  }

  lemma RankedDocs(v: View, hist: seq<Doc>, plan: QueryPlan)
    requires Finds(v, hist) && Consistent(hist)
    ensures var f := Ranking(v, plan, HitIds(hist, plan)); AllDocs(f, f.Keys) == HitIds(hist, plan)
  {
    HitsAre(v, hist, plan);
    FilteredDocs(Found(v.search, plan.terms), HitIds(hist, plan));
  }

  // ---- The theorems ----

  lemma ViewAnswers(log: real -> real, v: View, hist: seq<Doc>, plan: QueryPlan, limit: int)
    requires Finds(v, hist) && Consistent(hist)
    ensures AnsweredBy(Scores(log, CorpusOf(v), Ranking(v, plan, HitIds(hist, plan))), hist, plan, limit,
                       Executed(log, v, plan, limit))
  {
    var f := Ranking(v, plan, HitIds(hist, plan));
    RankedDocs(v, hist, plan);
    ScoresKeys(log, CorpusOf(v), f);
    StatsTold(log, v, hist, plan, limit);
    ExecutedIs(log, v, hist, plan, limit);
    Assembled(Scores(log, CorpusOf(v), f), hist, plan, limit, Executed(log, v, plan, limit));
  }

  lemma ScoresKeys(log: real -> real, corpus: Corpus, f: PerTerm)
    ensures Scores(log, corpus, f).Keys == AllDocs(f, f.Keys)
  {
  }

  lemma Assembled(scores: map<string, real>, hist: seq<Doc>, plan: QueryPlan, limit: int, r: SearchResult)
    requires r.query == plan.rawQuery && r.totalHits == |HitIds(hist, plan)| && scores.Keys == HitIds(hist, plan)
    requires r.results == RankScores(scores, limit) && StatsAre(hist, plan, r.termStats)
    ensures AnsweredBy(scores, hist, plan, limit, r)
  {
    RankedIsTop(scores, limit);
  }

  lemma ExecutedIs(log: real -> real, v: View, hist: seq<Doc>, plan: QueryPlan, limit: int)
    requires Finds(v, hist) && Consistent(hist)
    ensures var r := Executed(log, v, plan, limit);
            && r.query == plan.rawQuery && r.totalHits == |HitIds(hist, plan)|
            && r.results == RankScores(Scores(log, CorpusOf(v), Ranking(v, plan, HitIds(hist, plan))), limit)
  {
    HitsAre(v, hist, plan);
    if plan.terms == [] {
      assert HitIds(hist, plan) == {};
      RankedDocs(v, hist, plan);
      NothingRanked(Scores(log, CorpusOf(v), Ranking(v, plan, HitIds(hist, plan))), limit);
    }
  }

  lemma NothingRanked(scores: map<string, real>, limit: int)
    requires scores.Keys == {}
    ensures RankScores(scores, limit) == []
  {
    assert |scores| == |scores.Keys|;
    RankedShape(scores, limit);
  }

  lemma StatsTold(log: real -> real, v: View, hist: seq<Doc>, plan: QueryPlan, limit: int)
    requires Finds(v, hist) && Consistent(hist)
    ensures StatsAre(hist, plan, Executed(log, v, plan, limit).termStats)
  {
    forall t | t in plan.terms ensures |v.search(t)| == |Owners(hist, t)| {
      SearchTells(v, hist, t);
      AsManyDocs(v.search(t));
    }
  }

  /** Whatever indexes some documents answers as the reference does. */
  lemma ViewIsReference(log: real -> real, v: View, hist: seq<Doc>, plan: QueryPlan, limit: int)
    requires Indexes(v, hist) && Consistent(hist)
    ensures Answered(log, hist, plan, limit, Executed(log, v, plan, limit))
  {
    ViewAnswers(log, v, hist, plan, limit);
    ScoresAreHitScores(log, v, hist, plan);
  }

  /** One engine, after any run in which redeliveries are identical. */
  lemma EngineIsReference(log: real -> real, c: Codec, maxSize: int, events: seq<Event>, plan: QueryPlan, limit: int)
    requires Lossless(c) && Consistent(Delivered(events))
    ensures Answered(log, Delivered(events), plan, limit,
                     Executed(log, ViewOf(c, Run(c, maxSize, events)), plan, limit))
  {
    RunIndexes(c, maxSize, events);
    ViewIsReference(log, ViewOf(c, Run(c, maxSize, events)), Delivered(events), plan, limit);
  }

  /** Indexing the delivered events one after another. */
  function Indexing(arrivals: seq<Arrival>): seq<Event> {
    if arrivals == [] then []
    else
      var k := |arrivals| - 1;
      match arrivals[k]
      case Deliver(e, io) => Indexing(arrivals[..k]) + [IndexDoc(e.docID, Text(e), io)]
      case FlushShard(_, _) => Indexing(arrivals[..k])
  }

  lemma {:induction false} IndexingDelivers(arrivals: seq<Arrival>)
    ensures Delivered(Indexing(arrivals)) == DocsOf(arrivals)
  {
    if arrivals != [] {
      var k := |arrivals| - 1;
      IndexingDelivers(arrivals[..k]);
      match arrivals[k]
      case Deliver(e, io) => DeliveredAppend(Indexing(arrivals[..k]), IndexDoc(e.docID, Text(e), io));
      case FlushShard(_, _) =>
    }
  }

  lemma ArrivalsConsistent(published: set<IngestEvent>, arrivals: seq<Arrival>)
    requires UniqueIds(published) && DeliversOnly(arrivals, published)
    ensures Consistent(DocsOf(arrivals))
  {
    PlacedArePublished(arrivals, published);
    PlacedFunctional(PlacedOf(arrivals), published);
    FunctionalConsistent(PlacedOf(arrivals));
    PlacedAre(arrivals);
  }

  /** The indexing engines behind the sharded executor, after any deliveries and flushes and in
      any order of the shards. */
  lemma ShardedIsReference(c: Codec, log: real -> real, published: set<IngestEvent>, hash: string -> bytes,
                           maxSize: int, arrivals: seq<Arrival>, order: seq<int>, plan: QueryPlan, limit: int)
    requires Lossless(c) && UniqueIds(published) && StampedBy(published, hash)
    requires DeliversOnly(arrivals, published) && Enumerates(order, TOTAL_SHARDS)
    ensures Consistent(DocsOf(arrivals))
    ensures Answered(log, DocsOf(arrivals), plan, limit,
                     ShardedExecuted(log, ShardViews(c, Routed(c, maxSize, TOTAL_SHARDS, arrivals), order),
                                     plan, limit))
  {
    var events := Indexing(arrivals);
    IndexingDelivers(arrivals);
    ArrivalsConsistent(published, arrivals);
    EngineIsReference(log, c, maxSize, events, plan, limit);
    ShardedSystemIsOneEngine(c, log, published, hash, maxSize, arrivals, order, maxSize, events, plan, limit);
    var s := ShardedExecuted(log, ShardViews(c, Routed(c, maxSize, TOTAL_SHARDS, arrivals), order), plan, limit);
    AnswerCarries(HitScores(log, DocsOf(arrivals), plan), DocsOf(arrivals), plan, limit,
                  Executed(log, ViewOf(c, Run(c, maxSize, events)), plan, limit), s);
  }

  lemma AnswerCarries(scores: map<string, real>, hist: seq<Doc>, plan: QueryPlan, limit: int, e: SearchResult,
                      s: SearchResult)
    requires AnsweredBy(scores, hist, plan, limit, e)
    requires s.query == e.query && s.totalHits == e.totalHits && s.results == e.results
    requires forall t :: t in plan.terms ==> (t in s.termStats <==> t in e.termStats)
    requires forall t :: t in plan.terms && t in e.termStats ==>
               t in s.termStats && s.termStats[t] == e.termStats[t]
    ensures AnsweredBy(scores, hist, plan, limit, s)
  {
  }

  /** Every hit with score 0. */
  ghost function Zeros(ids: set<string>): map<string, real> { map d | d in ids :: 0.0 }

  lemma BlankScores(log: real -> real, v: View, hist: seq<Doc>, plan: QueryPlan)
    requires Finds(v, hist) && Consistent(hist) && Searchers.Blank(v)
    ensures Scores(log, CorpusOf(v), Ranking(v, plan, HitIds(hist, plan))) == Zeros(HitIds(hist, plan))
  {
    var f := Ranking(v, plan, HitIds(hist, plan));
    RankedDocs(v, hist, plan);
    forall d ensures Total(log, CorpusOf(v), f, f.Keys, d) == 0.0 {
      ZeroAverageScoresZero(log, CorpusOf(v), f, f.Keys, d);
    }
    ScoresAreThese(log, CorpusOf(v), f, Zeros(HitIds(hist, plan)));
  }

  lemma FlushedConsistent(c: Codec, published: set<IngestEvent>, maxSize: int, moves: seq<seq<Reload.Move>>,
                          hist: seq<Doc>)
    requires Lossless(c) && UniqueIds(published) && Searchers.Runs(c, maxSize, moves)
    requires forall i :: 0 <= i < |moves| ==> Searchers.Delivering(moves[i], published, i)
    requires Searchers.FlushedTogether(Searchers.Worlds(c, maxSize, moves), hist)
    ensures Consistent(hist)
  {
    var ws := Searchers.Worlds(c, maxSize, moves);
    var placed := Searchers.PlaceFlushed(c, maxSize, moves, published);
    FunctionalConsistent(placed);
    Searchers.AllOfMembers(placed);
    MembersConsistent(placed, ws, hist);
  }

  lemma MembersConsistent(placed: seq<Placed>, ws: seq<Reload.World>, hist: seq<Doc>)
    requires Consistent(AllOf(placed)) && Searchers.FlushedTogether(ws, hist)
    requires forall x :: x in AllOf(placed) <==> exists p :: p in placed && p.doc == x
    requires forall p :: p in placed <==> 0 <= p.shard < |ws| && p.doc in ws[p.shard].flushed
    ensures Consistent(hist)
  {
    forall x | x in hist ensures x in AllOf(placed) {
      var i :| 0 <= i < |ws| && x in ws[i].flushed;
      assert Placed(x, i) in placed;
    }
  }

  /** The searchers the program runs, over any runs of the shards and once each has reloaded
      everything: the hits are those among the documents that have reached a segment, each
      with score 0. */
  lemma ServiceIsReference(c: Codec, log: real -> real, published: set<IngestEvent>, maxSize: int,
                           moves: seq<seq<Reload.Move>>, order: seq<int>, maxSize': int, events: seq<Event>,
                           plan: QueryPlan, limit: int)
    requires Lossless(c) && UniqueIds(published) && Searchers.Runs(c, maxSize, moves) && Enumerates(order, |moves|)
    requires forall i :: 0 <= i < |moves| ==> Searchers.Delivering(moves[i], published, i)
    requires Searchers.FlushedTogether(Searchers.Worlds(c, maxSize, moves), Delivered(events))
    ensures Consistent(Delivered(events))
    ensures var ws := Searchers.Worlds(c, maxSize, moves);
            var hist := Delivered(events);
            AnsweredBy(Zeros(HitIds(hist, plan)), hist, plan, limit,
                       ShardedExecuted(log, ShardViews(c, Searchers.Searcher(c, ws), order), plan, limit))
  {
    var ws := Searchers.Worlds(c, maxSize, moves);
    var one, hist := ViewOf(c, Run(c, maxSize', events)), Delivered(events);
    var blank := Searchers.Forgetful(one);
    FlushedConsistent(c, published, maxSize, moves, hist);
    RunFinds(c, maxSize', events);
    ViewAnswers(log, blank, hist, plan, limit);
    BlankScores(log, blank, hist, plan);
    Searchers.SearchServiceIsOneEngine(c, log, published, maxSize, moves, order, maxSize', events, plan, limit);
    Searchers.ForgetfulHits(log, one, plan, limit);
    var s := ShardedExecuted(log, ShardViews(c, Searchers.Searcher(c, ws), order), plan, limit);
    AnswerCarries(Zeros(HitIds(hist, plan)), hist, plan, limit, Executed(log, blank, plan, limit), s);
  }
}
