/**
 Commas and scores: on an engine with statistics two terms with one lookup term score twice,
 so that a response tells "a,b" and "a b" apart even where they find the same documents.
 */
module CommaScores {
  import opened Ordering
  import opened Memory
  import opened Segment
  import opened Tokenizer
  import opened Parser
  import opened History
  import opened ExecutorSpec
  import opened CacheKey
  import opened QueryCache
  import opened Deployment
  import opened CacheOnEngines
  import opened Commas
  import EndToEnd
  import Ranker

  // ---- Scores of a term asked for twice ----

  ghost predicate Scored(r: seq<Ranker.ScoredDoc>, total: real) { |r| == 1 && r[0].score == Ranker.Round4(total) }

  lemma LoneResult(scores: map<string, real>, d: string, l: int)
    requires scores.Keys == {d}
    ensures Scored(Ranker.RankScores(scores, l), scores[d])
  {
    Ranker.RankedShape(scores, l);
    OneKey(scores, d);
    LoneEntry(Ranker.RankScores(scores, l), scores, d);
  }

  lemma LoneEntry(r: seq<Ranker.ScoredDoc>, scores: map<string, real>, d: string)
    requires |r| == 1 && scores.Keys == {d}
    requires forall x :: x in r ==> x.docID in scores && x.score == Ranker.Round4(scores[x.docID])
    ensures Scored(r, scores[d])
  {
    assert r[0] in r;
  }

  lemma OneKey(scores: map<string, real>, d: string)
    requires scores.Keys == {d}
    ensures |scores| == 1
  {
    assert |scores| == |scores.Keys|;
  }

  /** Two deliveries, both of the posting's one-term document. */
  ghost predicate SentTwice(corpus: Ranker.Corpus, p: Posting) {
    p.frequency == 1 && corpus.totalDocs == 2 && corpus.avgDocLength == 1.0 && corpus.docLength(p.docID) == 1
  }

  lemma OneTermScore(log: real -> real, corpus: Ranker.Corpus, m: Ranker.PerTerm, t: string, p: Posting)
    requires t in m && m[t] == [p] && SentTwice(corpus, p)
    ensures Ranker.TermScore(log, corpus, m, t, p.docID) == log(5.0 / 3.0)
  {
    var w := Ranker.Weight(corpus, Ranker.IDF(log, 2, 1));
    assert [p][..0] == [];
    assert Ranker.ListScore(w, [p], p.docID) == w(p);
    Ranker.IDFArgumentIs(2, 1);
    UnitFactor(1.0);
    assert Ranker.TF(corpus, p) == 1.0;
  }

  lemma UnitFactor(one: real)
    requires one == 1.0
    ensures one + Ranker.K1 * (1.0 - Ranker.B + Ranker.B * (one / one)) == one * (Ranker.K1 + 1.0)
    ensures Ranker.TFNorm(one, one, one) == 1.0
  {
  }

  lemma OneTotal(log: real -> real, corpus: Ranker.Corpus, m: Ranker.PerTerm, t: string, p: Posting)
    requires t in m && m[t] == [p] && SentTwice(corpus, p)
    ensures Ranker.Total(log, corpus, m, {t}, p.docID) == log(5.0 / 3.0)
  {
    Ranker.TotalTake(log, corpus, m, {t}, p.docID, t);
    assert {t} - {t} == {};
    OneTermScore(log, corpus, m, t, p);
  }

  lemma TwoTotal(log: real -> real, corpus: Ranker.Corpus, m: Ranker.PerTerm, t: string, u: string, p: Posting)
    requires t != u && t in m && m[t] == [p] && u in m && m[u] == [p] && SentTwice(corpus, p)
    ensures Ranker.Total(log, corpus, m, {t, u}, p.docID) == log(5.0 / 3.0) + log(5.0 / 3.0)
  {
    Ranker.TotalTake(log, corpus, m, {t, u}, p.docID, u);
    assert {t, u} - {u} == {t};
    OneTermScore(log, corpus, m, u, p);
    OneTotal(log, corpus, m, t, p);
  }

  lemma KeptWhole(m: Ranker.PerTerm, p: Posting)
    requires forall t :: t in m ==> m[t] == [p]
    ensures Filtered(m, {p.docID}) == m
  {
    assert [p][..0] == [];
    assert Keep([p], {p.docID}) == [p];
  }

  /** A document that every term lists is the one hit. */
  lemma OneDocRanked(log: real -> real, corpus: Ranker.Corpus, m: Ranker.PerTerm, t: string, p: Posting, l: int)
    requires t in m && forall u :: u in m ==> m[u] == [p]
    ensures Scored(Ranker.Ranked(log, corpus, m, l), Ranker.Total(log, corpus, m, m.Keys, p.docID))
  {
    assert p in m[t];
    assert Ranker.AllDocs(m, m.Keys) == {p.docID};
    LoneResult(Ranker.Scores(log, corpus, m), p.docID, l);
  }

  lemma OneDocHits(log: real -> real, corpus: Ranker.Corpus, m: Ranker.PerTerm, t: string, p: Posting, l: int)
    requires t in m && forall u :: u in m ==> m[u] == [p]
    ensures Scored(Hits(log, corpus, QueryAND, m, {}, l).1, Ranker.Total(log, corpus, m, m.Keys, p.docID))
  {
    OneListOnly(m, t, [p]);
    assert Ranker.DocSet([p]) - {} == {p.docID};
    KeptWhole(m, p);
    OneDocRanked(log, corpus, m, t, p, l);
  }

  // ---- One word delivered twice ----

  lemma SoleElement(r: PostingList, p: Posting)
    requires KeySorted(DocKey, r) && r != [] && forall q :: q in r ==> q == p
    ensures r == [p]
  {
    assert r[0] in r;
    if |r| > 1 {
      assert r[1] in r;
      LessIrreflexive(DocKey(p));
    }
  }

  lemma FrequencyOfOne(x: string)
    ensures |Positions([x], x)| == 1
  {
    PositionsExact([x], x);
    var ps := Positions([x], x);
    assert [x][0] == x;
    assert 0 in ps;
  }

  /** The engine that was sent the document "d" of one word twice. */
  lemma Repeated(c: Codec, t: string) returns (events: seq<Event>, p: Posting)
    requires Lossless(c) && Live(t) && TermsOf(t) == LookupTerm(t)
    ensures var v := ViewOf(c, Run(c, 0, events));
            SentTwice(CorpusOf(v), p) && forall u :: LookupTerm(u) == LookupTerm(t) ==> v.search(u) == [p]
  {
    var tale := [Note("d", t), Note("d", t)];
    events := EventsIn(tale);
    TaleDelivered(tale);
    assert DocOf(Note("d", t)) == Doc("d", LookupTerm(t));
    assert DocsIn(tale) == [Doc("d", LookupTerm(t)), Doc("d", LookupTerm(t))];
    EndToEnd.RunIndexes(c, 0, events);
    p := RepeatedView(ViewOf(c, Run(c, 0, events)), LookupTerm(t)[0]);
  }

  lemma RepeatedView(v: View, x: string) returns (p: Posting)
    requires EndToEnd.Indexes(v, [Doc("d", [x]), Doc("d", [x])])
    ensures SentTwice(CorpusOf(v), p) && forall u :: LookupTerm(u) == [x] ==> v.search(u) == [p]
  {
    var doc := Doc("d", [x]);
    p := PostingFor("d", [x], x);
    FrequencyOfOne(x);
    TwiceTerms(doc);
    assert doc in [doc, doc];
    forall u | LookupTerm(u) == [x] ensures v.search(u) == [p] { SearchRepeated(v, doc, x, u); }
  }

  lemma TwiceTerms(doc: Doc)
    requires |doc.terms| == 1
    ensures TotalTerms([doc, doc]) == 2
  {
    assert [doc, doc][..1] == [doc];
    assert [doc][..0] == [];
    assert TotalTerms([doc]) == TotalTerms([]) + 1;
  }

  lemma SearchRepeated(v: View, doc: Doc, x: string, u: string)
    requires EndToEnd.Finds(v, [doc, doc]) && doc == Doc("d", [x]) && LookupTerm(u) == [x]
    ensures v.search(u) == [PostingFor("d", [x], x)]
  {
    var r, p := v.search(u), PostingFor("d", [x], x);
    assert Answers([doc, doc], x, r);
    forall q | q in r ensures q == p { assert Justified([doc, doc], x, q); }
    assert doc in [doc, doc] && x in doc.terms;
    SoleElement(r, p);
  }

  /** The one hit of a plan whose terms all list one posting. */
  lemma OneHitScored(log: real -> real, v: View, p: QueryPlan, one: Posting, l: int)
    requires p.terms != [] && p.queryType == QueryAND && p.excludeTerms == []
    requires forall t :: t in p.terms ==> v.search(t) == [one]
    ensures var m := Found(v.search, p.terms);
            Scored(Executed(log, v, p, l).results, Ranker.Total(log, CorpusOf(v), m, m.Keys, one.docID))
  {
    var m := Found(v.search, p.terms);
    assert p.terms[0] in p.terms;
    assert p.terms[0] in m;
    assert DocsMatching(v.search, p.excludeTerms) == {};
    OneDocHits(log, CorpusOf(v), m, p.terms[0], one, l);
  }

  /** Asked for under one name the word scores once, under two names twice. */
  lemma OnceTotal(log: real -> real, v: View, t: string, one: Posting)
    requires v.search(t) == [one] && SentTwice(CorpusOf(v), one)
    ensures var m := Found(v.search, [t]);
            Ranker.Total(log, CorpusOf(v), m, m.Keys, one.docID) == log(5.0 / 3.0)
  {
    var m := Found(v.search, [t]);
    assert t in m && m.Keys == {t};
    OneTotal(log, CorpusOf(v), m, t, one);
  }

  lemma TwiceTotal(log: real -> real, v: View, t: string, u: string, one: Posting)
    requires t != u && v.search(t) == [one] && v.search(u) == [one] && SentTwice(CorpusOf(v), one)
    ensures var m := Found(v.search, [t, u]);
            Ranker.Total(log, CorpusOf(v), m, m.Keys, one.docID) == log(5.0 / 3.0) + log(5.0 / 3.0)
  {
    var m := Found(v.search, [t, u]);
    assert t in m && u in m && m.Keys == {t, u};
    TwoTotal(log, CorpusOf(v), m, t, u, one);
  }

  lemma TwinScores(log: real -> real, c: Codec, p: QueryPlan, s: QueryPlan, t: string, u: string, l: int)
    returns (events: seq<Event>)
    requires Lossless(c) && CutShort(p, s, t, u) && t != u && LookupTerm(t) == LookupTerm(u)
    requires Live(u) && TermsOf(u) == LookupTerm(u) && Visible(log)
    ensures var v := ViewOf(c, Run(c, 0, events));
            Executed(log, v, p, l).results != Executed(log, v, s, l).results
  {
    var one;
    events, one := Repeated(c, u);
    var v := ViewOf(c, Run(c, 0, events));
    OneHitScored(log, v, p, one, l);
    OneHitScored(log, v, s, one, l);
    OnceTotal(log, v, t, one);
    TwiceTotal(log, v, t, u, one);
    Ranker.RoundKeepsOrder(log(5.0 / 3.0), log(5.0 / 3.0) + log(5.0 / 3.0));
  }

  // ---- Responses of one engine ----

  /** A logarithm of which four decimals show, as those of the natural one do. */
  ghost predicate Visible(log: real -> real) { log(5.0 / 3.0) > 0.0001 }

  lemma CommaShowsResponse(log: real -> real, c: Codec, a: string, b: string, l: int) returns (events: seq<Event>)
    requires Lossless(c) && PlainWord(a) && PlainWord(b) && !Less(b, a) && !Redundant(a, b) && Visible(log)
    ensures var v := ViewOf(c, Run(c, 0, events));
            !SameResponse(Executed(log, v, Plan(a + [','] + b), l), Executed(log, v, Plan(a + [' '] + b), l))
  {
    var u := LookupTerm(a)[0];
    var t := SecondToken(a, b);
    CommaPlans(a, b);
    if LookupTerm(u) == LookupTerm(t) {
      events := TwinScores(log, c, Plan(a + [','] + b), Plan(a + [' '] + b), u, t, l);
    } else {
      events := EventsIn([Note("d", t)]);
      TaleDelivered([Note("d", t)]);
      EndToEnd.RunFinds(c, 0, events);
      CommaHits(log, ViewOf(c, Run(c, 0, events)), Plan(a + [','] + b), Plan(a + [' '] + b), u, t, l);
    }
  }

  /** For an engine, over everything it may have indexed: "a,b" has the response of "a b" if
      and only if the second word is redundant; being looked up alike is not enough. */
  lemma CommaResponseIff(log: real -> real, c: Codec, a: string, b: string, l: int)
    requires Lossless(c) && PlainWord(a) && PlainWord(b) && !Less(b, a) && Visible(log)
    ensures Redundant(a, b) <==>
            forall maxSize, events {:trigger Run(c, maxSize, events)} ::
              SameResponse(Executed(log, ViewOf(c, Run(c, maxSize, events)), Plan(a + [','] + b), l),
                           Executed(log, ViewOf(c, Run(c, maxSize, events)), Plan(a + [' '] + b), l))
  {
    if Redundant(a, b) {
      CommaOnEngineIff(log, c, a, b, l);
      forall maxSize, events
        ensures SameResponse(Executed(log, ViewOf(c, Run(c, maxSize, events)), Plan(a + [','] + b), l),
                             Executed(log, ViewOf(c, Run(c, maxSize, events)), Plan(a + [' '] + b), l))
      {
        var _ := Run(c, maxSize, events);
      }
    } else {
      var events := CommaShowsResponse(log, c, a, b, l);
      var _ := Run(c, 0, events);
    }
  }
}
