/**
 The search service as it is run: one searcher engine per shard that never indexes, only
 reloads what the indexer of its shard has flushed, behind the sharded executor.
 */
module Searchers {
  import opened Ordering
  import opened Memory
  import opened Segment
  import opened EngineSpec
  import opened History
  import opened Placement
  import opened ExecutorSpec
  import opened ShardedSpec
  import opened Parser
  import opened EndToEnd
  import Reload
  import Ranker
  import Tokenizer

  /** A view without statistics. */
  function Forgetful(v: View): View { View(v.search, _ => 0, 0, 0) }

  /** The searcher of a shard after one more reload that can read everything. */
  ghost function Reloaded(c: Codec, w: Reload.World): State {
    Reload.MoveOn(c, 0, w, Reload.Rescan({})).searcher
  }

  // ---- One searcher ----

  lemma SearcherFinds(c: Codec, maxSize: int, moves: seq<Reload.Move>)
    requires Lossless(c) && Reload.Run(c, maxSize, moves)
    ensures var w := Reload.After(c, maxSize, moves);
            Finds(ViewOf(c, Reloaded(c, w)), w.flushed) && Blank(ViewOf(c, Reloaded(c, w)))
  {
    var w := Reload.After(c, maxSize, moves);
    var v := ViewOf(c, Reloaded(c, w));
    forall term | Tokenizer.LookupTerm(term) != []
      ensures Answers(w.flushed, Tokenizer.LookupTerm(term)[0], v.search(term))
    {
      Reload.ReloadConverges(c, maxSize, moves, Tokenizer.LookupTerm(term)[0]);
    }
    Reload.SearcherCountsNothing(c, maxSize, moves);
  }

  /** No statistics at all. */
  ghost predicate Blank(v: View) { v.totalDocs == 0 && v.totalTokens == 0 && forall d :: v.docLength(d) == 0 }

  // ---- All shards ----

  ghost predicate Runs(c: Codec, maxSize: int, moves: seq<seq<Reload.Move>>) {
    forall i :: 0 <= i < |moves| ==> Reload.Run(c, maxSize, moves[i])
  }

  ghost function Worlds(c: Codec, maxSize: int, moves: seq<seq<Reload.Move>>): (ws: seq<Reload.World>)
    requires Runs(c, maxSize, moves)
    ensures |ws| == |moves| && forall i :: 0 <= i < |ws| ==> ws[i] == Reload.After(c, maxSize, moves[i])
  {
    seq(|moves|, i requires 0 <= i < |moves| => Reload.After(c, maxSize, moves[i]))
  }

  ghost function Searcher(c: Codec, ws: seq<Reload.World>): (states: seq<State>)
    ensures |states| == |ws| && forall i :: 0 <= i < |ws| ==> states[i] == Reloaded(c, ws[i])
  {
    seq(|ws|, i requires 0 <= i < |ws| => Reloaded(c, ws[i]))
  }

  /** Each shard's indexer is given only published events that name the shard. */
  ghost predicate Delivering(moves: seq<Reload.Move>, published: set<IngestEvent>, shard: int) {
    forall m :: m in moves && m.Deliver? && m.event.IndexDoc? ==>
      exists e :: e in published && e.shardID == shard && e.docID == m.event.id && Text(e) == m.event.text
  }

  ghost predicate FromPublished(hist: seq<Doc>, published: set<IngestEvent>, shard: int) {
    forall x :: x in hist ==>
      exists e :: e in published && e.shardID == shard && x == Doc(e.docID, Tokenizer.TermsOf(Text(e)))
  }

  lemma {:induction false} HistoryPublished(c: Codec, maxSize: int, moves: seq<Reload.Move>,
                                            published: set<IngestEvent>, shard: int)
    requires Reload.Run(c, maxSize, moves) && Delivering(moves, published, shard)
    ensures FromPublished(Reload.After(c, maxSize, moves).hist, published, shard)
    decreases |moves|
  {
    if moves != [] {
      var k := |moves| - 1;
      HistoryPublished(c, maxSize, moves[..k], published, shard);
      var w := Reload.After(c, maxSize, moves[..k]);
      Reload.MoveHistory(c, maxSize, w, moves[k]);
      assert moves[k] in moves;
      if moves[k].Deliver? && moves[k].event.IndexDoc? {
        KnownPublished(w.hist, moves[k].event, published, shard);
      }
    }
  }

  lemma KnownPublished(hist: seq<Doc>, event: Event, published: set<IngestEvent>, shard: int)
    requires FromPublished(hist, published, shard) && event.IndexDoc?
    requires exists e :: e in published && e.shardID == shard && e.docID == event.id && Text(e) == event.text
    ensures FromPublished(Reload.Known(hist, event), published, shard)
  {
  }

  /** The flushed documents with their shards. */
  lemma {:induction false} TagAll(hists: seq<seq<Doc>>) returns (placed: seq<Placed>)
    ensures forall p :: p in placed <==> 0 <= p.shard < |hists| && p.doc in hists[p.shard]
    decreases |hists|
  {
    if hists == [] {
      placed := [];
    } else {
      var n := |hists| - 1;
      var before := TagAll(hists[..n]);
      var last := TagOne(hists[n], n);
      placed := before + last;
    }
  }

  lemma {:induction false} TagOne(hist: seq<Doc>, shard: int) returns (placed: seq<Placed>)
    ensures forall p :: p in placed <==> p.shard == shard && p.doc in hist
  {
    if hist == [] {
      placed := [];
    } else {
      var k := |hist| - 1;
      var before := TagOne(hist[..k], shard);
      placed := before + [Placed(hist[k], shard)];
      assert hist == hist[..k] + [hist[k]];
    }
  }

  lemma TaggedFunctional(placed: seq<Placed>, published: set<IngestEvent>)
    requires UniqueIds(published)
    requires forall p :: p in placed ==> FromPublished([p.doc], published, p.shard)
    ensures Functional(placed)
  {
    forall p | p in placed
      ensures exists e :: e in published && p == Placed(Doc(e.docID, Tokenizer.TermsOf(Text(e))), e.shardID)
    {
      assert p.doc in [p.doc];
    }
    PlacedFunctional(placed, published);
  }

  /** The union of what the shards have flushed. */
  ghost predicate FlushedTogether(ws: seq<Reload.World>, hist: seq<Doc>) {
    forall x :: x in hist <==> exists i :: 0 <= i < |ws| && x in ws[i].flushed
  }

  // ---- Statistics do not enter into hits ----

  lemma ForgetfulHits(log: real -> real, v: View, plan: QueryPlan, limit: int)
    ensures Executed(log, Forgetful(v), plan, limit).totalHits == Executed(log, v, plan, limit).totalHits
    ensures Executed(log, Forgetful(v), plan, limit).termStats == Executed(log, v, plan, limit).termStats
  {
    SameSearchHits(log, Forgetful(v), v, plan, limit);
  }

  lemma SameSearchHits(log: real -> real, v: View, w: View, plan: QueryPlan, limit: int)
    requires v.search == w.search
    ensures Executed(log, v, plan, limit).totalHits == Executed(log, w, plan, limit).totalHits
    ensures Executed(log, v, plan, limit).termStats == Executed(log, w, plan, limit).termStats
  {
    if plan.terms != [] {
      HitCount(log, CorpusOf(v), CorpusOf(w), plan.queryType, Found(w.search, plan.terms),
               DocsMatching(w.search, plan.excludeTerms), limit);
      StatsAre(log, v, plan, limit);
      StatsAre(log, w, plan, limit);
    }
  }

  lemma StatsAre(log: real -> real, v: View, plan: QueryPlan, limit: int)
    requires plan.terms != []
    ensures Executed(log, v, plan, limit).termStats == Stats(Found(v.search, plan.terms))
  {
  }

  lemma HitCount(log: real -> real, a: Ranker.Corpus, b: Ranker.Corpus, queryType: QueryType, m: Ranker.PerTerm,
                 excluded: set<string>, limit: int)
    ensures Hits(log, a, queryType, m, excluded, limit).0 == Hits(log, b, queryType, m, excluded, limit).0
  {
  }

  lemma ForgetfulRanking(log: real -> real, v: View, plan: QueryPlan, limit: int)
    ensures var r := Executed(log, Forgetful(v), plan, limit).results;
            (forall x :: x in r ==> x.score == 0.0) && KeySorted(Ranker.IdKey, r)
  {
    Reload.ZeroResults(Forgetful(v), log, plan, limit);
    if plan.terms != [] {
      var m := Found(v.search, plan.terms);
      var docs := Combined(plan.queryType, m) - DocsMatching(v.search, plan.excludeTerms);
      Ranker.EqualScoresById(Ranker.Scores(log, CorpusOf(Forgetful(v)), Filtered(m, docs)), limit);
    }
  }

  // ---- The theorem ----

  lemma {:induction false} BlankTotals(views: seq<View>)
    requires forall i :: 0 <= i < |views| ==> Blank(views[i])
    ensures GlobalDocs(views) == 0 && TokenSum(views) == 0
  {
    if views != [] {
      assert Blank(views[|views| - 1]);
      BlankTotals(views[..|views| - 1]);
    }
  }

  /** At any time, whatever the searchers have loaded so far, every result scores 0. */
  lemma SearchersScoreZero(c: Codec, maxSize: int, moves: seq<seq<Reload.Move>>, order: seq<int>,
                           log: real -> real, plan: QueryPlan, limit: int)
    requires Runs(c, maxSize, moves) && Enumerates(order, |moves|)
    ensures var now := seq(|moves|, i requires 0 <= i < |moves| => Reload.After(c, maxSize, moves[i]).searcher);
            forall x :: x in ShardedExecuted(log, ShardViews(c, now, order), plan, limit).results ==> x.score == 0.0
  {
    var now := seq(|moves|, i requires 0 <= i < |moves| => Reload.After(c, maxSize, moves[i]).searcher);
    var views := ShardViews(c, now, order);
    EnumeratedInRange(order, |moves|);
    forall i | 0 <= i < |views| ensures Blank(views[i]) {
      Reload.SearcherCountsNothing(c, maxSize, moves[order[i]]);
    }
    BlankTotals(views);
    BlankScores(log, views, plan, limit);
  }

  lemma BlankScores(log: real -> real, views: seq<View>, plan: QueryPlan, limit: int)
    requires GlobalDocs(views) == 0
    ensures forall x :: x in ShardedExecuted(log, views, plan, limit).results ==> x.score == 0.0
  {
    var search := MergedSearch(views);
    var m := Found(search, plan.terms);
    var docs := Combined(plan.queryType, m) - DocsMatching(search, plan.excludeTerms);
    Reload.ZeroRanking(log, GlobalCorpus(views, plan.terms + plan.excludeTerms), Filtered(m, docs), limit);
  }

  lemma BlankUnion(one: View, order: seq<int>, views: seq<View>, placed: seq<Placed>)
    requires Answering(order, views, placed) && Functional(placed) && (forall p :: p in placed ==> p.shard in order)
    requires Finds(one, AllOf(placed)) && forall i :: 0 <= i < |views| ==> Blank(views[i])
    ensures HoldsUnion(Forgetful(one), views) && Disjoint(views)
  {
    AllInShards(placed, Members(order));
    FunctionalConsistent(placed);
    forall term ensures multiset(one.search(term)) == multiset(Merged(views, term)) {
      SameLists(one, order, views, placed, term);
    }
    BlankTotals(views);
    WalkedDisjoint(order, views, placed);
  }

  lemma SearchersAnswer(c: Codec, maxSize: int, moves: seq<seq<Reload.Move>>, order: seq<int>, placed: seq<Placed>)
    requires Lossless(c) && Runs(c, maxSize, moves) && Enumerates(order, |moves|)
    requires var ws := Worlds(c, maxSize, moves);
             forall p :: p in placed <==> 0 <= p.shard < |ws| && p.doc in ws[p.shard].flushed
    ensures var views := ShardViews(c, Searcher(c, Worlds(c, maxSize, moves)), order);
            Answering(order, views, placed) && forall i :: 0 <= i < |views| ==> Blank(views[i])
  {
    var ws := Worlds(c, maxSize, moves);
    var views := ShardViews(c, Searcher(c, ws), order);
    EnumeratedInRange(order, |moves|);
    forall i | 0 <= i < |views| ensures Finds(views[i], InShards(placed, {order[i]})) && Blank(views[i]) {
      var k := order[i];
      SearcherFinds(c, maxSize, moves[k]);
      InShardsExact(placed, {k});
      SameDocs(placed, k, ws[k].flushed);
      FindsSame(views[i], ws[k].flushed, InShards(placed, {k}));
    }
  }

  lemma SameDocs(placed: seq<Placed>, k: int, flushed: seq<Doc>)
    requires forall p :: p in placed && p.shard == k ==> p.doc in flushed
    requires forall x :: x in flushed ==> Placed(x, k) in placed
    ensures forall x :: x in flushed <==> x in InShards(placed, {k})
  {
    InShardsExact(placed, {k});
    forall x ensures x in flushed <==> x in InShards(placed, {k}) {
      if x in flushed { assert Placed(x, k) in placed && Placed(x, k).doc == x; }
    }
  }

  lemma {:induction false} AllOfMembers(placed: seq<Placed>)
    ensures forall x :: x in AllOf(placed) <==> exists p :: p in placed && p.doc == x
  {
    AllOfExact(placed);
    forall p | p in placed ensures p.doc in AllOf(placed) { AllOfHas(placed, p); }
  }

  lemma {:induction false} AllOfHas(placed: seq<Placed>, p: Placed)
    requires p in placed
    ensures p.doc in AllOf(placed)
  {
    var k := |placed| - 1;
    if p != placed[k] { AllOfHas(placed[..k], p); }
  }

  /** For every set of published events and every run of every shard's indexer and searcher,
      with flushes, failures and partial reloads at any time: once each searcher has reloaded
      everything, the sharded executor answers like one engine that indexed exactly the
      documents that have reached a segment, and that has no statistics.  So its hits and
      query-term statistics are that engine's, every result scores 0, and results come in
      the order of document ids. */
  lemma SearchServiceIsOneEngine(c: Codec, log: real -> real, published: set<IngestEvent>, maxSize: int,
                                 moves: seq<seq<Reload.Move>>, order: seq<int>,
                                 maxSize': int, events: seq<Event>, plan: QueryPlan, limit: int)
    requires Lossless(c) && UniqueIds(published) && Runs(c, maxSize, moves) && Enumerates(order, |moves|)
    requires forall i :: 0 <= i < |moves| ==> Delivering(moves[i], published, i)
    requires FlushedTogether(Worlds(c, maxSize, moves), Delivered(events))
    ensures var views := ShardViews(c, Searcher(c, Worlds(c, maxSize, moves)), order);
            var one := ViewOf(c, Run(c, maxSize', events));
            var s, e := ShardedExecuted(log, views, plan, limit), Executed(log, one, plan, limit);
            && s.totalHits == e.totalHits && s.results == Executed(log, Forgetful(one), plan, limit).results
            && (forall t :: t in plan.terms ==> (t in s.termStats <==> t in e.termStats))
            && (forall t :: t in plan.terms && t in e.termStats ==>
                  t in s.termStats && s.termStats[t] == e.termStats[t])
            && (forall x :: x in s.results ==> x.score == 0.0) && KeySorted(Ranker.IdKey, s.results)
  {
    var ws := Worlds(c, maxSize, moves);
    var views := ShardViews(c, Searcher(c, ws), order);
    var one := ViewOf(c, Run(c, maxSize', events));
    var placed := PlaceFlushed(c, maxSize, moves, published);
    SearchersAnswer(c, maxSize, moves, order, placed);
    OneFinds(c, maxSize', events, placed, ws);
    BlankUnion(one, order, views, placed);
    ShardingInvisible(log, Forgetful(one), views, plan, limit);
    ForgetfulHits(log, one, plan, limit);
    ForgetfulRanking(log, one, plan, limit);
  }

  lemma PlaceFlushed(c: Codec, maxSize: int, moves: seq<seq<Reload.Move>>, published: set<IngestEvent>)
      returns (placed: seq<Placed>)
    requires Lossless(c) && UniqueIds(published) && Runs(c, maxSize, moves)
    requires forall i :: 0 <= i < |moves| ==> Delivering(moves[i], published, i)
    ensures var ws := Worlds(c, maxSize, moves);
            forall p :: p in placed <==> 0 <= p.shard < |ws| && p.doc in ws[p.shard].flushed
    ensures Functional(placed)
  {
    var ws := Worlds(c, maxSize, moves);
    placed := TagAll(seq(|ws|, i requires 0 <= i < |ws| => ws[i].flushed));
    forall p | p in placed ensures FromPublished([p.doc], published, p.shard) {
      HistoryPublished(c, maxSize, moves[p.shard], published, p.shard);
      Reload.RunKeeps(c, maxSize, moves[p.shard]);
      assert p.doc in ws[p.shard].hist;
    }
    TaggedFunctional(placed, published);
  }

  lemma OneFinds(c: Codec, maxSize: int, events: seq<Event>, placed: seq<Placed>, ws: seq<Reload.World>)
    requires Lossless(c) && FlushedTogether(ws, Delivered(events))
    requires forall p :: p in placed <==> 0 <= p.shard < |ws| && p.doc in ws[p.shard].flushed
    ensures Finds(ViewOf(c, Run(c, maxSize, events)), AllOf(placed))
  {
    var v, hist := ViewOf(c, Run(c, maxSize, events)), Delivered(events);
    RunFinds(c, maxSize, events);
    AllOfMembers(placed);
    forall x ensures x in hist <==> x in AllOf(placed) {
      if x in hist {
        var i :| 0 <= i < |ws| && x in ws[i].flushed;
        assert Placed(x, i) in placed;
      }
    }
    FindsSame(v, hist, AllOf(placed));
  }
}
