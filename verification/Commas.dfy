/**
 Commas and stop words on engines: two words joined by a comma beside the same two words,
 and a NOT before a word without tokens, with examples of either kind.
 */
module Commas {
  import opened Ordering
  import opened Memory
  import opened Segment
  import opened Tokenizer
  import opened Parser
  import opened History
  import opened ExecutorSpec
  import opened ShardedSpec
  import opened CacheKey
  import opened QueryCache
  import opened Deployment
  import opened CacheOnEngines
  import EndToEnd
  import Searchers
  import Reload
  import Ranker

  // ---- Plans that differ by one term ----

  /** Only the first token of the joined words is asked for. */
  ghost predicate CutShort(p: QueryPlan, s: QueryPlan, t: string, u: string) {
    && p.terms == [t] && s.terms == [t, u] && p.queryType == s.queryType == QueryAND
    && p.excludeTerms == s.excludeTerms == []
  }

  lemma IdleTerm(search: string -> PostingList, t: string, u: string)
    requires search(u) == []
    ensures Found(search, [t, u]) == Found(search, [t]) && DocsMatching(search, [t, u]) == DocsMatching(search, [t])
  {
  }

  /** A second term that is never looked up changes no answer of any engine. */
  lemma DeadTermIdle(log: real -> real, v: View, views: seq<View>, p: QueryPlan, s: QueryPlan, t: string, u: string,
                     l: int)
    requires ByLookup(v.search) && AllByLookup(views) && CutShort(p, s, t, u) && !Live(u)
    ensures SameAnswer(Executed(log, v, p, l), Executed(log, v, s, l))
    ensures SameAnswer(ShardedExecuted(log, views, p, l), ShardedExecuted(log, views, s, l))
  {
    IdleTerm(v.search, t, u);
    MergedByLookup(views);
    IdleTerm(MergedSearch(views), t, u);
    forall i | 0 <= i < |views| ensures DocsMatching(views[i].search, [t]) == DocsMatching(views[i].search, [t, u]) {
      assert ByLookup(views[i].search);
      IdleTerm(views[i].search, t, u);
    }
    assert p.terms + p.excludeTerms == [t] && s.terms + s.excludeTerms == [t, u];
    ShardedFromHits(log, views, p, s, l);
  }

  /** Without statistics, a second term with the same lookup term changes no hit and no rank. */
  lemma TwinTermIdle(log: real -> real, views: seq<View>, p: QueryPlan, s: QueryPlan, t: string, u: string, l: int)
    requires AllByLookup(views) && CutShort(p, s, t, u) && LookupTerm(t) == LookupTerm(u) && GlobalDocs(views) == 0
    ensures SameResponse(ShardedExecuted(log, views, p, l), ShardedExecuted(log, views, s, l))
  {
    MergedByLookup(views);
    var search := MergedSearch(views);
    assert Twins(search, t, u);
    TwinHits(log, search, GlobalCorpus(views, p.terms + p.excludeTerms), GlobalCorpus(views, s.terms + s.excludeTerms),
             t, u, l);
    assert DocsMatching(search, []) == {};
  }

  lemma OneListOnly(m: Ranker.PerTerm, t: string, ps: PostingList)
    requires t in m && forall k :: k in m ==> m[k] == ps
    ensures Intersection(m) == Ranker.DocSet(ps)
  {
    forall d ensures d in Intersection(m) <==> d in Ranker.DocSet(ps) {
      if d in Ranker.DocSet(ps) {
        var p :| p in m[t] && p.docID == d;
        assert d in Ranker.AllDocs(m, m.Keys);
      }
    }
  }

  lemma TwinHits(log: real -> real, search: string -> PostingList, a: Ranker.Corpus, b: Ranker.Corpus, t: string,
                 u: string, l: int)
    requires search(t) == search(u) && a.avgDocLength == 0.0 && b.avgDocLength == 0.0
    ensures Hits(log, a, QueryAND, Found(search, [t]), {}, l) == Hits(log, b, QueryAND, Found(search, [t, u]), {}, l)
  {
    var m, m' := Found(search, [t]), Found(search, [t, u]);
    var docs := Intersection(m);
    if search(t) == [] {
      assert m == map[] && m' == map[];
    } else {
      assert t in m && t in m';
      OneListOnly(m, t, search(t));
      OneListOnly(m', t, search(t));
    }
    FilteredDocs(m, docs);
    FilteredDocs(m', docs);
    assert docs - {} == docs;
    Ranker.ZeroRankedByDocs(log, a, b, Filtered(m, docs), Filtered(m', docs), l);
  }

  // ---- What shows in whole answers, and what in responses ----

  /** The second word adds no term that an engine would look up, or only the first again. */
  predicate Redundant(a: string, b: string) {
    LookupTerm(a) == [] || LookupTerm(b) == [] || LookupTerm(a) == LookupTerm(b) || !Live(LookupTerm(b)[0])
  }

  /** Or one that is looked up like the first. */
  predicate Overlooked(a: string, b: string) {
    Redundant(a, b) || LookupTerm(LookupTerm(a)[0]) == LookupTerm(LookupTerm(b)[0])
  }

  lemma CommaPlans(a: string, b: string)
    requires PlainWord(a) && PlainWord(b) && !Less(b, a)
    ensures var c, s := Plan(a + [','] + b), Plan(a + [' '] + b);
            && (LookupTerm(a) == [] || LookupTerm(b) == [] || LookupTerm(a) == LookupTerm(b) ==> SameSets(c, s))
            && (c.terms == [] <==> s.terms == [])
            && (LookupTerm(a) != [] && LookupTerm(b) != [] ==> CutShort(c, s, LookupTerm(a)[0], LookupTerm(b)[0]))
  {
    CommaCollides(a, b, 0);
    PlansOf(LookupTerm(a), LookupTerm(b), Plan(a + [','] + b), Plan(a + [' '] + b));
  }

  lemma PlansOf(x: seq<string>, y: seq<string>, c: QueryPlan, s: QueryPlan)
    requires |x| <= 1 && |y| <= 1 && c.queryType == s.queryType == QueryAND && c.excludeTerms == s.excludeTerms == []
    requires c.terms == (if x == [] then y else x) && s.terms == x + y
    ensures c.terms == [] <==> s.terms == []
    ensures x != [] && y != [] ==> CutShort(c, s, x[0], y[0])
  {
  }

  lemma RedundantSame(log: real -> real, v: View, views: seq<View>, a: string, b: string, l: int)
    requires PlainWord(a) && PlainWord(b) && !Less(b, a) && Redundant(a, b) && ByLookup(v.search) && AllByLookup(views)
    ensures var c, s := Plan(a + [','] + b), Plan(a + [' '] + b);
            && SameAnswer(Executed(log, v, c, l), Executed(log, v, s, l))
            && SameAnswer(ShardedExecuted(log, views, c, l), ShardedExecuted(log, views, s, l))
  {
    var c, s := Plan(a + [','] + b), Plan(a + [' '] + b);
    CommaPlans(a, b);
    if SameSets(c, s) {
      SingleSame(log, v, c, s, l);
      ShardedSame(log, views, c, s, l);
    } else {
      DeadTermIdle(log, v, views, c, s, LookupTerm(a)[0], LookupTerm(b)[0], l);
    }
  }

  /** The token of the second word, when it is looked up, is a one-word document. */
  lemma SecondToken(a: string, b: string) returns (t: string)
    requires PlainWord(a) && PlainWord(b) && !Less(b, a) && LookupTerm(a) != [] && LookupTerm(b) != []
    ensures LookupTerm(b) == [t] && t in Plan(a + [' '] + b).terms && TermsOf(t) == LookupTerm(t)
  {
    CommaPlans(a, b);
    t := LookupTerm(b)[0];
    PlanToken(a + [' '] + b, t);
  }

  /** For an engine, over everything it may have indexed: "a,b" has the answer of "a b", whose
      key it shares, if and only if the second word is redundant. */
  lemma CommaOnEngineIff(log: real -> real, c: Codec, a: string, b: string, l: int)
    requires Lossless(c) && PlainWord(a) && PlainWord(b) && !Less(b, a)
    ensures Redundant(a, b) <==>
            forall maxSize, events {:trigger Run(c, maxSize, events)} ::
              SameAnswer(Executed(log, ViewOf(c, Run(c, maxSize, events)), Plan(a + [','] + b), l),
                         Executed(log, ViewOf(c, Run(c, maxSize, events)), Plan(a + [' '] + b), l))
  {
    if Redundant(a, b) {
      forall maxSize, events
        ensures SameAnswer(Executed(log, ViewOf(c, Run(c, maxSize, events)), Plan(a + [','] + b), l),
                           Executed(log, ViewOf(c, Run(c, maxSize, events)), Plan(a + [' '] + b), l))
      {
        EngineByLookup(c, Run(c, maxSize, events));
        RedundantSame(log, ViewOf(c, Run(c, maxSize, events)), [], a, b, l);
      }
    } else {
      var events := CommaShows(log, c, a, b, l);
      var _ := Run(c, 0, events);
    }
  }

  lemma CommaShows(log: real -> real, c: Codec, a: string, b: string, l: int) returns (events: seq<Event>)
    requires Lossless(c) && PlainWord(a) && PlainWord(b) && !Less(b, a) && !Redundant(a, b)
    ensures var v := ViewOf(c, Run(c, 0, events));
            !SameAnswer(Executed(log, v, Plan(a + [','] + b), l), Executed(log, v, Plan(a + [' '] + b), l))
  {
    var t := SecondToken(a, b);
    events := EventsIn([Note("d", t)]);
    TaleDelivered([Note("d", t)]);
    EndToEnd.RunFinds(c, 0, events);
    var v := ViewOf(c, Run(c, 0, events));
    CommaPlans(a, b);
    WordListed(v, t);
    StatsName(log, v, Plan(a + [','] + b), t, l);
    StatsName(log, v, Plan(a + [' '] + b), t, l);
  }

  // ---- Commas in the deployed service ----

  lemma {:induction false} ServiceBlank(c: Codec, s: Service)
    requires Lossless(c) && Searchers.Runs(c, s.maxSize, s.moves) && EndToEnd.Enumerates(s.order, |s.moves|)
    ensures GlobalDocs(ServiceViews(c, s)) == 0
  {
    var views := ServiceViews(c, s);
    EndToEnd.EnumeratedInRange(s.order, |s.moves|);
    forall i | 0 <= i < |views| ensures Searchers.Blank(views[i]) {
      Searchers.SearcherFinds(c, s.maxSize, s.moves[s.order[i]]);
    }
    Searchers.BlankTotals(views);
  }

  ghost predicate ServiceSame(same: Same, log: real -> real, c: Codec, hash: string -> bytes, s: Service,
                              p: QueryPlan, p': QueryPlan, l: int)
  {
    Serving(c, hash, s) ==>
      same(ShardedExecuted(log, ServiceViews(c, s), p, l), ShardedExecuted(log, ServiceViews(c, s), p', l))
  }

  /** In the deployed service: the same for whole answers; for responses, which carry no term
      statistics and where every score is 0, if and only if it is overlooked. */
  lemma CommaInServiceIff(log: real -> real, c: Codec, hash: string -> bytes, a: string, b: string, l: int)
    requires Lossless(c) && PlainWord(a) && PlainWord(b) && !Less(b, a) && QueryWritable(c, a + [' '] + b)
    ensures var p, p' := Plan(a + [','] + b), Plan(a + [' '] + b);
            && (Redundant(a, b) <==> forall s :: ServiceSame(SameAnswer, log, c, hash, s, p, p', l))
            && (Overlooked(a, b) <==> forall s :: ServiceSame(SameResponse, log, c, hash, s, p, p', l))
  {
    var p, p' := Plan(a + [','] + b), Plan(a + [' '] + b);
    if Redundant(a, b) {
      forall s ensures ServiceSame(SameAnswer, log, c, hash, s, p, p', l) {
        RedundantService(log, c, hash, s, a, b, l);
      }
    } else {
      var s := CommaShowsInService(log, c, hash, a, b, l);
      assert !ServiceSame(SameAnswer, log, c, hash, s, p, p', l);
    }
    if Overlooked(a, b) {
      forall s ensures ServiceSame(SameResponse, log, c, hash, s, p, p', l) {
        OverlookedService(log, c, hash, s, a, b, l);
      }
    } else {
      var s := CommaShowsInService(log, c, hash, a, b, l);
      assert !ServiceSame(SameResponse, log, c, hash, s, p, p', l);
    }
  }

  lemma RedundantService(log: real -> real, c: Codec, hash: string -> bytes, s: Service, a: string, b: string, l: int)
    requires PlainWord(a) && PlainWord(b) && !Less(b, a) && Redundant(a, b)
    ensures ServiceSame(SameAnswer, log, c, hash, s, Plan(a + [','] + b), Plan(a + [' '] + b), l)
  {
    if Serving(c, hash, s) {
      ServiceByLookup(c, s);
      RedundantSame(log, NO_VIEW, ServiceViews(c, s), a, b, l);
    }
  }

  lemma OverlookedService(log: real -> real, c: Codec, hash: string -> bytes, s: Service, a: string, b: string, l: int)
    requires Lossless(c) && PlainWord(a) && PlainWord(b) && !Less(b, a) && Overlooked(a, b)
    ensures ServiceSame(SameResponse, log, c, hash, s, Plan(a + [','] + b), Plan(a + [' '] + b), l)
  {
    if Serving(c, hash, s) {
      if Redundant(a, b) {
        RedundantService(log, c, hash, s, a, b, l);
      } else {
        ServiceByLookup(c, s);
        ServiceBlank(c, s);
        CommaPlans(a, b);
        TwinTermIdle(log, ServiceViews(c, s), Plan(a + [','] + b), Plan(a + [' '] + b), LookupTerm(a)[0],
                     LookupTerm(b)[0], l);
      }
    }
  }

  /** The service that holds the second word in one document: other statistics, and other hits
      unless the words are looked up alike. */
  lemma CommaShowsInService(log: real -> real, c: Codec, hash: string -> bytes, a: string, b: string, l: int)
    returns (s: Service)
    requires Lossless(c) && PlainWord(a) && PlainWord(b) && !Less(b, a) && QueryWritable(c, a + [' '] + b)
    requires !Redundant(a, b)
    ensures Serving(c, hash, s)
    ensures var x := ShardedExecuted(log, ServiceViews(c, s), Plan(a + [','] + b), l);
            var y := ShardedExecuted(log, ServiceViews(c, s), Plan(a + [' '] + b), l);
            x.termStats != y.termStats && (!Overlooked(a, b) ==> x.totalHits != y.totalHits)
  {
    var q := a + [' '] + b;
    var t := SecondToken(a, b);
    var tale := [Note("d", t)];
    assert Asked(Plan(q), t);
    CacheOnEngines.OneShort(Plan(q), t);
    ShortTellable(c, q, tale);
    s := Told(hash, tale);
    CommaPlans(a, b);
    CommaTold(log, c, hash, Plan(a + [','] + b), Plan(q), LookupTerm(a)[0], t, l);
  }

  lemma CommaTold(log: real -> real, c: Codec, hash: string -> bytes, p: QueryPlan, p': QueryPlan, u: string, t: string,
                  l: int)
    requires Lossless(c) && Tellable(c, [Note("d", t)]) && CutShort(p, p', u, t) && u != t && Live(t)
    requires TermsOf(t) == LookupTerm(t)
    ensures Serving(c, hash, Told(hash, [Note("d", t)]))
    ensures var views := ServiceViews(c, Told(hash, [Note("d", t)]));
            var x, y := ShardedExecuted(log, views, p, l), ShardedExecuted(log, views, p', l);
            x.termStats != y.termStats && (LookupTerm(u) != LookupTerm(t) ==> x.totalHits != y.totalHits)
  {
    var tale := [Note("d", t)];
    ToldHits(c, hash, log, tale, p, l);
    ToldHits(c, hash, log, tale, p', l);
    CutShortNames(p, p', u, t);
    CommaStats(log, c, hash, tale, p, p', t, l);
    if LookupTerm(u) != LookupTerm(t) { CommaHits(log, ViewOf(c, Run(c, 0, EventsIn(tale))), p, p', u, t, l); }
  }

  lemma CutShortNames(p: QueryPlan, p': QueryPlan, u: string, t: string)
    requires CutShort(p, p', u, t) && u != t
    ensures t in p'.terms && t !in p.terms && t !in p.excludeTerms
  {
  }

  lemma CommaStats(log: real -> real, c: Codec, hash: string -> bytes, tale: seq<Note>,
                   p: QueryPlan, p': QueryPlan, t: string, l: int)
    requires Lossless(c) && Tellable(c, tale) && Serving(c, hash, Told(hash, tale)) && tale == [Note("d", t)]
    requires t in p'.terms && t !in p.terms && t !in p.excludeTerms && Live(t) && TermsOf(t) == LookupTerm(t)
    requires EndToEnd.Finds(ViewOf(c, Run(c, 0, EventsIn(tale))), DocsIn(tale))
    ensures var views := ServiceViews(c, Told(hash, tale));
            ShardedExecuted(log, views, p, l).termStats != ShardedExecuted(log, views, p', l).termStats
  {
    WordInStats(log, c, hash, tale, p', t, l);
    NotNamed(log, ServiceViews(c, Told(hash, tale)), p, t, l);
  }

  lemma WordInStats(log: real -> real, c: Codec, hash: string -> bytes, tale: seq<Note>, p: QueryPlan, t: string,
                    l: int)
    requires Lossless(c) && Tellable(c, tale) && Serving(c, hash, Told(hash, tale)) && tale == [Note("d", t)]
    requires t in p.terms && Live(t) && TermsOf(t) == LookupTerm(t)
    requires EndToEnd.Finds(ViewOf(c, Run(c, 0, EventsIn(tale))), DocsIn(tale))
    ensures t in ShardedExecuted(log, ServiceViews(c, Told(hash, tale)), p, l).termStats
  {
    var one := ViewOf(c, Run(c, 0, EventsIn(tale)));
    WordListed(one, t);
    StatsName(log, one, p, t, l);
    ToldStats(c, hash, log, tale, p, t, l);
  }

  /** A query term is in the service's statistics when it is in the engine's. */
  lemma ToldStats(c: Codec, hash: string -> bytes, log: real -> real, tale: seq<Note>, plan: QueryPlan, t: string,
                  l: int)
    requires Lossless(c) && Tellable(c, tale) && Serving(c, hash, Told(hash, tale)) && t in plan.terms
    requires t in Executed(log, ViewOf(c, Run(c, 0, EventsIn(tale))), plan, l).termStats
    ensures t in ShardedExecuted(log, ServiceViews(c, Told(hash, tale)), plan, l).termStats
  {
    var s := Told(hash, tale);
    TaleIsServed(c, hash, tale);
    TaleDelivered(tale);
    Searchers.SearchServiceIsOneEngine(c, log, s.published, s.maxSize, s.moves, s.order, 0, EventsIn(tale), plan, l);
  }

  lemma NotNamed(log: real -> real, views: seq<View>, p: QueryPlan, t: string, l: int)
    requires t !in p.terms && t !in p.excludeTerms
    ensures t !in ShardedExecuted(log, views, p, l).termStats
  {
  }

  lemma CommaHits(log: real -> real, v: View, p: QueryPlan, p': QueryPlan, u: string, t: string, l: int)
    requires EndToEnd.Finds(v, DocsIn([Note("d", t)])) && CutShort(p, p', u, t) && Live(t)
             && TermsOf(t) == LookupTerm(t)
    requires LookupTerm(u) != LookupTerm(t)
    ensures Executed(log, v, p, l).totalHits != Executed(log, v, p', l).totalHits
  {
    var x := LookupTerm(t)[0];
    assert DocsIn([Note("d", t)]) == [Doc("d", [x])];
    assert LookupTerm(t) == [x] && t in p'.terms;
    assert Names(p'.terms, x) && !Names(p.terms, x) && !Names(p'.excludeTerms, x);
    OneDocumentHits(v, p, x);
    OneDocumentHits(v, p', x);
    HitsCounted(log, v, p, l);
    HitsCounted(log, v, p', l);
  }

  /** And then the service serves "a,b" the stored response of "a b". */
  lemma CommaServedWrong(digest: string -> string, log: real -> real, c: Codec, hash: string -> bytes,
                         a: string, b: string, l: int)
    returns (s: Service, calls: seq<Call>, call: Call)
    requires Lossless(c) && PlainWord(a) && PlainWord(b) && !Less(b, a) && QueryWritable(c, a + [' '] + b)
    requires !Overlooked(a, b)
    ensures Serving(c, hash, s) && call.query == a + [','] + b && call.limit == l && Plan(call.query).terms != []
    ensures var exec := Sharded(log, ServiceViews(c, s));
            AllTrusted(SameResponse, exec, calls) && !Right(SameResponse, digest, exec, calls, call)
  {
    s := CommaShowsInService(log, c, hash, a, b, l);
    CommaCollides(a, b, l);
    CommaPlans(a, b);
    ShardedInsensitive(log, ServiceViews(c, s));
    BothSameness();
    calls, call := ServedWrong(SameResponse, digest, Sharded(log, ServiceViews(c, s)), a + [','] + b, a + [' '] + b, l);
  }

  // ---- A NOT before a stop word ----

  /** "a not stop b": `Parse` excludes the token of b, the key asks for it; engines notice if
      and only if that token is looked up at all. */
  lemma StopWordFamily(a: string, stop: string, b: string) returns (q: string)
    requires PlainWord(a) && PlainWord(stop) && PlainWord(b)
    requires LookupTerm(stop) == [] && LookupTerm(a) != [] && LookupTerm(b) != []
    ensures q == FourWords(a, "not", stop, b) && NoComma(q) && Plan(q).terms != [] && !Tolerable(q) && !Honest(q)
    ensures Harmless(q) <==> !Live(LookupTerm(b)[0])
    ensures Faultless(q) <==> !Live(LookupTerm(b)[0])
  {
    q := FourWords(a, "not", stop, b);
    MisreadFamily(a, stop, b);
    OneMisread(q, LookupTerm(b)[0]);
  }

  lemma OneMisread(q: string, t: string)
    requires NoComma(q) && MisreadIn(q) == [t] && KeyPlan(q).excludeTerms == []
    ensures Harmless(q) <==> !Live(t)
    ensures Faultless(q) <==> !Live(t)
  {
    assert t in MisreadIn(q);
    assert !Alike([], t);
  }

  /** Words to make examples of. */
  lemma Examples() returns (zoo: string, the: string, foo: string, forest: string)
    ensures zoo == "zoo" && PlainWord(zoo) && LookupTerm(zoo) != []
    ensures the == "the" && PlainWord(the) && LookupTerm(the) == []
    ensures foo == "foo" && PlainWord(foo) && LookupTerm(foo) == [foo] && Live(foo)
    ensures forest == "forest" && PlainWord(forest) && |LookupTerm(forest)| == 1 && !Live(LookupTerm(forest)[0])
  {
    zoo := Zoo();
    the := The();
    foo := Foo();
    forest := Forest();
  }

  lemma Zoo() returns (w: string)
    ensures w == "zoo" && PlainWord(w) && LookupTerm(w) != []
  {
    w := "zoo";
    BearsToken(w);
  }

  lemma The() returns (w: string)
    ensures w == "the" && PlainWord(w) && LookupTerm(w) == []
  {
    w := "the";
    StopWordSilent(w, 20);
  }

  lemma Foo() returns (w: string)
    ensures w == "foo" && PlainWord(w) && LookupTerm(w) == [w] && Live(w)
  {
    w := "foo";
    BearsToken(w);
    FixedWord(w);
  }

  lemma Forest() returns (w: string)
    ensures w == "forest" && PlainWord(w) && |LookupTerm(w)| == 1 && !Live(LookupTerm(w)[0])
  {
    w := "forest";
    DeadWord(w);
  }

  /** "zoo not the foo" can be served wrongly, "zoo not the forest" never: "forest" is indexed
      as "for", which no engine looks up. */
  lemma StopWordExamples() returns (wrong: string, right: string)
    ensures wrong == FourWords("zoo", "not", "the", "foo") && NoComma(wrong) && Plan(wrong).terms != []
            && !Harmless(wrong)
    ensures right == FourWords("zoo", "not", "the", "forest") && NoComma(right) && Plan(right).terms != []
    ensures Harmless(right) && Faultless(right) && !Tolerable(right) && !Honest(right)
  {
    var zoo, the, foo, forest := Examples();
    wrong := StopWordFamily(zoo, the, foo);
    right := StopWordFamily(zoo, the, forest);
  }

  lemma FixedWord(w: string)
    requires |w| == 3 && w[1] == 'o' && w[2] == 'o' && 'a' <= w[0] <= 'z'
    ensures LookupTerm(w) == [w] && Live(LookupTerm(w)[0])
  {
    assert AlnumWord(w) && ToLower(w) == w;
    NotStopWord(w, 0);
    StemKeepsO(w, 0);
    TermsOfAlnumWord(w);
  }

  lemma DeadWord(w: string)
    requires |w| == 6 && Clean(w) && w[..3] == "for" && w[3..] == "est"
    ensures LookupTerm(w) == [w[..3]] && !Live(w[..3]) && PlainWord(w)
  {
    assert AlnumWord(w) && ToLower(w) == w;
    assert |ToUpper(w)| == 6;
    TermsOfAlnumWord(w);
    StemOfSuperlative(w);
    LongWordKept(w, 0);
    SilentWord(w[..3], 8);
  }

  lemma SilentWord(w: string, k: nat)
    requires Clean(w) && w != "" && k < STOP_WORD_COUNT && StopWord(k) == w
    ensures !Live(w)
  {
    assert AlnumWord(w) && ToLower(w) == w;
    StopWordFound(w, 0, k);
    TermsOfAlnumWord(w);
  }

  lemma {:induction false} LongWordKept(w: string, i: nat)
    requires |w| == 6
    ensures !InStopWordsFrom(w, i)
    decreases STOP_WORD_COUNT - i
  {
    if i < STOP_WORD_COUNT {
      StopWordsShort(i);
      LongWordKept(w, i + 1);
    }
  }

  lemma StopWordsShort(i: nat)
    ensures |StopWord(i)| <= 5
  {
  }
}
