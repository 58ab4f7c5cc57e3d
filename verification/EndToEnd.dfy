/**
 The layers together: events stamped by the publisher, delivered in any order and any
 number of times to the router, indexed and flushed shard by shard at any time and with
 any failures, and queried through the sharded executor, answer every query exactly like
 one engine that indexed the same deliveries.
 */
module EndToEnd {
  import opened Ordering
  import opened Memory
  import opened Segment
  import opened EngineSpec
  import opened History
  import opened Placement
  import opened ExecutorSpec
  import opened ShardedSpec
  import opened Parser
  import Ranker
  import Tokenizer

  /** An engine that answers from a history, as the executor sees it. */
  ghost predicate Finds(v: View, hist: seq<Doc>) {
    forall term ::
      if Tokenizer.LookupTerm(term) == [] then v.search(term) == []
      else Answers(hist, Tokenizer.LookupTerm(term)[0], v.search(term))
  }

  /** And has counted it. */
  ghost predicate Indexes(v: View, hist: seq<Doc>) {
    && Finds(v, hist)
    && v.totalDocs == |hist| && v.totalTokens == TotalTerms(hist)
    && (forall x :: x in hist ==> v.docLength(x.id) == |x.terms|)
  }

  lemma RunIndexes(c: Codec, maxSize: int, events: seq<Event>)
    requires Lossless(c) && Consistent(Delivered(events))
    ensures Indexes(ViewOf(c, Run(c, maxSize, events)), Delivered(events))
  {
    var s, hist := Run(c, maxSize, events), Delivered(events);
    RunCounts(c, maxSize, events);
    ViewIndexes(c, maxSize, events, s, hist);
  }

  lemma RunFinds(c: Codec, maxSize: int, events: seq<Event>)
    requires Lossless(c)
    ensures Finds(ViewOf(c, Run(c, maxSize, events)), Delivered(events))
  {
    var v := ViewOf(c, Run(c, maxSize, events));
    forall term
      ensures if Tokenizer.LookupTerm(term) == [] then v.search(term) == []
              else Answers(Delivered(events), Tokenizer.LookupTerm(term)[0], v.search(term))
    {
      var ts := Tokenizer.LookupTerm(term);
      if ts != [] { EngineRefinesHistory(c, maxSize, events, ts[0]); }
    }
  }

  lemma ViewIndexes(c: Codec, maxSize: int, events: seq<Event>, s: State, hist: seq<Doc>)
    requires Lossless(c) && s == Run(c, maxSize, events) && hist == Delivered(events)
    requires Counts(s, hist) && Consistent(hist)
    ensures Indexes(ViewOf(c, s), hist)
  {
    var v := ViewOf(c, s);
    RunFinds(c, maxSize, events);
    forall x | x in hist ensures v.docLength(x.id) == |x.terms| {
      assert DocLength(s, x.id) == LatestLength(hist, x.id);
      LatestOfConsistent(hist, x);
    }
  }

  /** Answers and counts do not depend on the order of a history. */
  lemma AnswersSame(a: seq<Doc>, b: seq<Doc>, t: string, r: PostingList)
    requires Answers(a, t, r) && forall x :: x in a <==> x in b
    ensures Answers(b, t, r)
  {
    forall p | p in r ensures Justified(b, t, p) { assert Justified(a, t, p); }
  }

  lemma FindsSame(v: View, a: seq<Doc>, b: seq<Doc>)
    requires Finds(v, a) && forall x :: x in a <==> x in b
    ensures Finds(v, b)
  {
    forall term | Tokenizer.LookupTerm(term) != []
      ensures Answers(b, Tokenizer.LookupTerm(term)[0], v.search(term))
    {
      AnswersSame(a, b, Tokenizer.LookupTerm(term)[0], v.search(term));
    }
  }

  lemma {:induction false} TotalTermsRemove(hist: seq<Doc>, k: nat)
    requires k < |hist|
    ensures TotalTerms(hist) == TotalTerms(hist[..k] + hist[k + 1..]) + |hist[k].terms|
    decreases |hist|
  {
    var n := |hist| - 1;
    if k == n {
      assert hist[..k] + hist[k + 1..] == hist[..n];
    } else {
      TotalTermsRemove(hist[..n], k);
      CutNext(hist, k);
      TotalTermsNext(hist[..n][..k] + hist[..n][k + 1..], hist[n]);
    }
  }

  lemma {:induction false} TotalTermsPermutes(a: seq<Doc>, b: seq<Doc>)
    requires multiset(a) == multiset(b)
    ensures TotalTerms(a) == TotalTerms(b)
    decreases |a|
  {
    SameElements(a, b);
    if a != [] {
      var n := |a| - 1;
      assert a[n] in b;
      var k :| 0 <= k < |b| && b[k] == a[n];
      RemoveOne(a, n);
      RemoveOne(b, k);
      assert a[..n] + a[n + 1..] == a[..n];
      TotalTermsPermutes(a[..n], b[..k] + b[k + 1..]);
      TotalTermsRemove(b, k);
    }
  }

  lemma IndexesPermutes(v: View, a: seq<Doc>, b: seq<Doc>)
    requires Indexes(v, a) && multiset(a) == multiset(b)
    ensures Indexes(v, b)
  {
    SameElements(a, b);
    FindsSame(v, a, b);
    TotalTermsPermutes(a, b);
  }

  // ---- Joining shard histories ----

  /** The shards in `order`, as far as they have been walked, answer from their documents. */
  ghost predicate Answering(order: seq<int>, views: seq<View>, placed: seq<Placed>) {
    && |order| == |views| && NoDuplicates(order)
    && forall i :: 0 <= i < |views| ==> Finds(views[i], InShards(placed, {order[i]}))
  }

  /** And have counted them. */
  ghost predicate Walks(order: seq<int>, views: seq<View>, placed: seq<Placed>) {
    && Answering(order, views, placed)
    && forall i :: 0 <= i < |views| ==> Indexes(views[i], InShards(placed, {order[i]}))
  }

  function Members(order: seq<int>): set<int> { set i | i in order }

  lemma {:induction false} AddShard(placed: seq<Placed>, shards: set<int>, i: int)
    requires i !in shards
    ensures |InShards(placed, shards + {i})| == |InShards(placed, shards)| + |InShards(placed, {i})|
    ensures TotalTerms(InShards(placed, shards + {i}))
         == TotalTerms(InShards(placed, shards)) + TotalTerms(InShards(placed, {i}))
  {
    if placed != [] {
      var k := |placed| - 1;
      AddShard(placed[..k], shards, i);
      TotalTermsNext(InShards(placed[..k], shards), placed[k].doc);
      TotalTermsNext(InShards(placed[..k], {i}), placed[k].doc);
      TotalTermsNext(InShards(placed[..k], shards + {i}), placed[k].doc);
      assert InShards(placed[..k], shards) + [] == InShards(placed[..k], shards);
      assert InShards(placed[..k], {i}) + [] == InShards(placed[..k], {i});
      assert InShards(placed[..k], shards + {i}) + [] == InShards(placed[..k], shards + {i});
    }
  }

  lemma TotalTermsNext(hist: seq<Doc>, doc: Doc)
    ensures TotalTerms(hist + [doc]) == TotalTerms(hist) + |doc.terms|
  {
    assert (hist + [doc])[..|hist|] == hist;
  }

  /** Totals add up over the shards walked, in whatever order. */
  lemma {:induction false} TotalsAddUp(order: seq<int>, views: seq<View>, placed: seq<Placed>)
    requires Walks(order, views, placed)
    ensures GlobalDocs(views) == |InShards(placed, Members(order))|
    ensures TokenSum(views) == TotalTerms(InShards(placed, Members(order)))
    decreases |views|
  {
    if views == [] {
      assert Members(order) == {};
      NoneInShards(placed);
    } else {
      var n := |views| - 1;
      WalksPrefix(order, views, placed);
      TotalsAddUp(order[..n], views[..n], placed);
      assert Members(order) == Members(order[..n]) + {order[n]};
      AddShard(placed, Members(order[..n]), order[n]);
      assert Indexes(views[n], InShards(placed, {order[n]}));
    }
  }

  lemma {:induction false} NoneInShards(placed: seq<Placed>)
    ensures InShards(placed, {}) == []
  {
    if placed != [] { NoneInShards(placed[..|placed| - 1]); }
  }

  lemma WalksPrefix(order: seq<int>, views: seq<View>, placed: seq<Placed>)
    requires Walks(order, views, placed) && views != []
    ensures Walks(order[..|order| - 1], views[..|views| - 1], placed)
    ensures order[|order| - 1] !in order[..|order| - 1]
  {
    var n := |views| - 1;
    AnsweringPrefix(order, views, placed);
    forall i | 0 <= i < n ensures Indexes(views[..n][i], InShards(placed, {order[..n][i]})) {
      assert Indexes(views[i], InShards(placed, {order[i]}));
    }
  }

  lemma AnsweringPrefix(order: seq<int>, views: seq<View>, placed: seq<Placed>)
    requires Answering(order, views, placed) && views != []
    ensures Answering(order[..|order| - 1], views[..|views| - 1], placed)
    ensures order[|order| - 1] !in order[..|order| - 1]
  {
    var n := |views| - 1;
    forall i | 0 <= i < n ensures Finds(views[..n][i], InShards(placed, {order[..n][i]})) {
      assert Finds(views[i], InShards(placed, {order[i]}));
    }
  }

  // ---- Lists ----

  /** What a shard lists belongs to its history. */
  lemma ListedIsPlaced(v: View, hist: seq<Doc>, d: string)
    requires Finds(v, hist) && ListedBy(v, d)
    ensures exists x :: x in hist && x.id == d
  {
    var t :| Matches(v.search, t, d);
    var p :| p in v.search(t) && p.docID == d;
    assert Justified(hist, Tokenizer.LookupTerm(t)[0], p);
  }

  lemma WalkedDisjoint(order: seq<int>, views: seq<View>, placed: seq<Placed>)
    requires Answering(order, views, placed) && Functional(placed)
    ensures Disjoint(views)
  {
    forall i, j, d | 0 <= i < j < |views| ensures !(ListedBy(views[i], d) && ListedBy(views[j], d)) {
      if ListedBy(views[i], d) && ListedBy(views[j], d) {
        ListedIsPlaced(views[i], InShards(placed, {order[i]}), d);
        ListedIsPlaced(views[j], InShards(placed, {order[j]}), d);
        ShardsApart(placed, order[i], order[j]);
      }
    }
  }

  /** The joined lists hold exactly the postings of the documents placed in the walked
      shards, each once. */
  lemma {:induction false} MergedExact(order: seq<int>, views: seq<View>, placed: seq<Placed>, term: string)
    requires Answering(order, views, placed) && Functional(placed) && Tokenizer.LookupTerm(term) != []
    ensures NoDuplicates(Merged(views, term))
    ensures var t := Tokenizer.LookupTerm(term)[0];
            forall p :: p in Merged(views, term) <==> Justified(InShards(placed, Members(order)), t, p)
    decreases |views|
  {
    var t := Tokenizer.LookupTerm(term)[0];
    if views == [] {
      NoneInShards(placed);
      assert Members(order) == {};
    } else {
      var n := |views| - 1;
      AnsweringPrefix(order, views, placed);
      MergedExact(order[..n], views[..n], placed, term);
      assert Members(order) == Members(order[..n]) + {order[n]};
      assert Finds(views[n], InShards(placed, {order[n]}));
      JoinOne(Merged(views[..n], term), views[n].search(term), placed, Members(order[..n]), order[n], t);
    }
  }

  lemma JoinOne(before: PostingList, list: PostingList, placed: seq<Placed>, shards: set<int>, i: int, t: string)
    requires Functional(placed) && i !in shards
    requires NoDuplicates(before) && forall p :: p in before <==> Justified(InShards(placed, shards), t, p)
    requires Answers(InShards(placed, {i}), t, list)
    ensures NoDuplicates(before + list)
    ensures forall p :: p in before + list <==> Justified(InShards(placed, shards + {i}), t, p)
  {
    ShardsApart(placed, i, i);
    ConsistentAnswer(InShards(placed, {i}), t, list);
    KeySortedNoDuplicates(DocKey, list);
    forall p ensures !(Justified(InShards(placed, shards), t, p) && Justified(InShards(placed, {i}), t, p))
             ensures Justified(InShards(placed, shards + {i}), t, p) <==>
                     Justified(InShards(placed, shards), t, p) || Justified(InShards(placed, {i}), t, p)
    {
      JustifiedByShard(placed, shards, i, t, p);
    }
    forall a, b | 0 <= a < b < |before + list| ensures (before + list)[a] != (before + list)[b] {
      if a < |before| <= b { assert before[a] in before && list[b - |before|] in list; }
    }
  }

  lemma JustifiedByShard(placed: seq<Placed>, shards: set<int>, i: int, t: string, p: Posting)
    requires Functional(placed) && i !in shards
    ensures !(Justified(InShards(placed, shards), t, p) && Justified(InShards(placed, {i}), t, p))
    ensures Justified(InShards(placed, shards + {i}), t, p) <==>
            Justified(InShards(placed, shards), t, p) || Justified(InShards(placed, {i}), t, p)
  {
    InShardsExact(placed, shards);
    InShardsExact(placed, {i});
    InShardsExact(placed, shards + {i});
    MemberOfUnion(placed, shards, i);
  }

  lemma MemberOfUnion(placed: seq<Placed>, shards: set<int>, i: int)
    ensures forall d :: d in InShards(placed, shards + {i}) <==>
              d in InShards(placed, shards) || d in InShards(placed, {i})
  {
    InShardsExact(placed, shards);
    InShardsExact(placed, {i});
    InShardsExact(placed, shards + {i});
  }

  // ---- The union ----

  function AllOf(placed: seq<Placed>): seq<Doc> {
    if placed == [] then [] else AllOf(placed[..|placed| - 1]) + [placed[|placed| - 1].doc]
  }

  lemma {:induction false} AllInShards(placed: seq<Placed>, shards: set<int>)
    requires forall p :: p in placed ==> p.shard in shards
    ensures InShards(placed, shards) == AllOf(placed)
  {
    if placed != [] { AllInShards(placed[..|placed| - 1], shards); }
  }

  lemma UnionHeld(one: View, order: seq<int>, views: seq<View>, placed: seq<Placed>)
    requires Walks(order, views, placed) && Functional(placed)
    requires forall p :: p in placed ==> p.shard in order
    requires Indexes(one, AllOf(placed)) && Consistent(AllOf(placed))
    ensures HoldsUnion(one, views)
  {
    AllInShards(placed, Members(order));
    TotalsAddUp(order, views, placed);
    forall term ensures multiset(one.search(term)) == multiset(Merged(views, term)) {
      SameLists(one, order, views, placed, term);
    }
    forall i, d | 0 <= i < |views| && ListedBy(views[i], d) ensures one.docLength(d) == views[i].docLength(d) {
      LengthsMatch(one, order, views, placed, i, d);
    }
    forall i | 0 <= i < |views| && views[i].totalDocs == 0 ensures views[i].totalTokens == 0 {
      assert Indexes(views[i], InShards(placed, {order[i]}));
    }
  }

  lemma SameLists(one: View, order: seq<int>, views: seq<View>, placed: seq<Placed>, term: string)
    requires Answering(order, views, placed) && Functional(placed)
    requires InShards(placed, Members(order)) == AllOf(placed)
    requires Finds(one, AllOf(placed)) && Consistent(AllOf(placed))
    ensures multiset(one.search(term)) == multiset(Merged(views, term))
  {
    var ts := Tokenizer.LookupTerm(term);
    if ts == [] {
      NothingMerged(order, views, placed, term);
    } else {
      MergedExact(order, views, placed, term);
      ConsistentAnswer(AllOf(placed), ts[0], one.search(term));
      KeySortedNoDuplicates(DocKey, one.search(term));
      SameMembersPermute(one.search(term), Merged(views, term));
    }
  }

  lemma {:induction false} NothingMerged(order: seq<int>, views: seq<View>, placed: seq<Placed>, term: string)
    requires Answering(order, views, placed) && Tokenizer.LookupTerm(term) == []
    ensures Merged(views, term) == []
    decreases |views|
  {
    if views != [] {
      var n := |views| - 1;
      AnsweringPrefix(order, views, placed);
      NothingMerged(order[..n], views[..n], placed, term);
      assert Finds(views[n], InShards(placed, {order[n]}));
    }
  }

  lemma LengthsMatch(one: View, order: seq<int>, views: seq<View>, placed: seq<Placed>, i: nat, d: string)
    requires Walks(order, views, placed) && i < |views| && ListedBy(views[i], d)
    requires InShards(placed, Members(order)) == AllOf(placed) && Indexes(one, AllOf(placed))
    ensures one.docLength(d) == views[i].docLength(d)
  {
    var hist := InShards(placed, {order[i]});
    assert Indexes(views[i], hist);
    ListedIsPlaced(views[i], hist, d);
    var x :| x in hist && x.id == d;
    InShardsExact(placed, {order[i]});
    InShardsExact(placed, Members(order));
    var p :| p in placed && p.doc == x && p.shard in {order[i]};
    assert p.shard in Members(order);
    assert x in AllOf(placed);
  }

  // ---- The theorem ----

  /** What the executor sees of the engines when it walks them in some order. */
  ghost function ShardViews(c: Codec, engines: seq<State>, order: seq<int>): (views: seq<View>)
    requires Enumerates(order, |engines|)
    ensures |views| == |order|
    ensures forall i :: 0 <= i < |order| ==> order[i] in order && views[i] == ViewOf(c, engines[order[i]])
  {
    EnumeratedInRange(order, |engines|);
    seq(|order|, i requires 0 <= i < |order| => ViewOf(c, engines[order[i]]))
  }

  ghost predicate Enumerates(order: seq<int>, n: nat) {
    NoDuplicates(order) && forall i :: i in order <==> 0 <= i < n
  }

  lemma {:induction false} PlacedDocs(arrivals: seq<Arrival>, events: seq<Event>)
    requires multiset(DocsOf(arrivals)) == multiset(Delivered(events))
    ensures multiset(AllOf(PlacedOf(arrivals))) == multiset(Delivered(events))
  {
    PlacedAre(arrivals);
  }

  function DocsOf(arrivals: seq<Arrival>): seq<Doc> {
    if arrivals == [] then []
    else
      var k := |arrivals| - 1;
      DocsOf(arrivals[..k]) +
      match arrivals[k]
      case Deliver(e, _) => [Doc(e.docID, Tokenizer.TermsOf(Text(e)))]
      case FlushShard(_, _) => []
  }

  lemma {:induction false} PlacedAre(arrivals: seq<Arrival>)
    ensures AllOf(PlacedOf(arrivals)) == DocsOf(arrivals)
    decreases |arrivals|
  {
    if arrivals != [] {
      var k := |arrivals| - 1;
      PlacedAre(arrivals[..k]);
      if arrivals[k].Deliver? {
        var p := PlacedOf(arrivals);
        assert p[..|p| - 1] == PlacedOf(arrivals[..k]);
      } else {
        assert PlacedOf(arrivals) == PlacedOf(arrivals[..k]);
      }
    }
  }

  lemma FunctionalConsistent(placed: seq<Placed>)
    requires Functional(placed)
    ensures Consistent(AllOf(placed))
  {
    AllOfExact(placed);
    forall x, y | x in AllOf(placed) && y in AllOf(placed) && x.id == y.id ensures x == y {
      var p :| p in placed && p.doc == x;
      var q :| q in placed && q.doc == y;
      assert p == q;
    }
  }

  lemma {:induction false} AllOfExact(placed: seq<Placed>)
    ensures forall d :: d in AllOf(placed) ==> exists p :: p in placed && p.doc == d
  {
    if placed != [] {
      var k := |placed| - 1;
      AllOfExact(placed[..k]);
      forall d | d in AllOf(placed) ensures exists p :: p in placed && p.doc == d {
        if d in AllOf(placed[..k]) {
          var p :| p in placed[..k] && p.doc == d;
          assert p in placed;
        } else {
          assert placed[k] in placed;
        }
      }
    }
  }

  lemma RoutedWalk(c: Codec, maxSize: int, n: nat, arrivals: seq<Arrival>, order: seq<int>)
    requires Lossless(c) && Functional(PlacedOf(arrivals)) && Enumerates(order, n)
    ensures Walks(order, ShardViews(c, Routed(c, maxSize, n, arrivals), order), PlacedOf(arrivals))
  {
    var views := ShardViews(c, Routed(c, maxSize, n, arrivals), order);
    EnumeratedInRange(order, n);
    forall i | 0 <= i < |views| ensures Indexes(views[i], InShards(PlacedOf(arrivals), {order[i]})) {
      RoutingIsolates(c, maxSize, n, arrivals, order[i]);
      DeliveredToShard(arrivals, order[i]);
      ShardsApart(PlacedOf(arrivals), order[i], order[i]);
      RunIndexes(c, maxSize, EventsFor(arrivals, order[i]));
    }
  }

  lemma EnumeratedInRange(order: seq<int>, n: nat)
    requires Enumerates(order, n)
    ensures forall i :: 0 <= i < |order| ==> 0 <= order[i] < n
  {
    forall i | 0 <= i < |order| ensures 0 <= order[i] < n {
      assert order[i] in order;
    }
  }

  /** For every set of stamped events, every delivery order with redeliveries, every flush
      schedule with failures on either side, every order in which the shard map is walked,
      every plan and every limit: the indexing engines behind the sharded executor and one
      engine that indexed the same deliveries in any order return the same hits, ranking and query-term statistics. */
  lemma ShardedSystemIsOneEngine(c: Codec, log: real -> real, published: set<IngestEvent>, hash: string -> bytes,
                                 maxSize: int, arrivals: seq<Arrival>, order: seq<int>,
                                 maxSize': int, events: seq<Event>, plan: QueryPlan, limit: int)
    requires Lossless(c) && UniqueIds(published) && StampedBy(published, hash)
    requires DeliversOnly(arrivals, published) && multiset(DocsOf(arrivals)) == multiset(Delivered(events))
    requires Enumerates(order, TOTAL_SHARDS)
    ensures var shards := ShardViews(c, Routed(c, maxSize, TOTAL_SHARDS, arrivals), order);
            var one := ViewOf(c, Run(c, maxSize', events));
            var s, e := ShardedExecuted(log, shards, plan, limit), Executed(log, one, plan, limit);
            && s.totalHits == e.totalHits && s.results == e.results
            && (forall t :: t in plan.terms ==> (t in s.termStats <==> t in e.termStats))
            && (forall t :: t in plan.terms && t in e.termStats ==>
                  t in s.termStats && s.termStats[t] == e.termStats[t])
  {
    var placed := PlacedOf(arrivals);
    PlacedArePublished(arrivals, published);
    PlacedFunctional(placed, published);
    FunctionalConsistent(placed);
    PlacedDocs(arrivals, events);
    SameElements(AllOf(placed), Delivered(events));
    RoutedWalk(c, maxSize, TOTAL_SHARDS, arrivals, order);
    RunIndexes(c, maxSize', events);
    var views := ShardViews(c, Routed(c, maxSize, TOTAL_SHARDS, arrivals), order);
    var one := ViewOf(c, Run(c, maxSize', events));
    IndexesPermutes(one, Delivered(events), AllOf(placed));
    AllRoutable(placed, published, hash, order);
    UnionHeld(one, order, views, placed);
    WalkedDisjoint(order, views, placed);
    ShardingInvisible(log, one, views, plan, limit);
  }

  lemma AllRoutable(placed: seq<Placed>, published: set<IngestEvent>, hash: string -> bytes, order: seq<int>)
    requires PlacedFrom(placed, published) && StampedBy(published, hash) && Enumerates(order, TOTAL_SHARDS)
    ensures forall p :: p in placed ==> p.shard in order
  {
    forall p | p in placed ensures p.shard in order {
      var e :| e in published && p == Placed(Doc(e.docID, Tokenizer.TermsOf(Text(e))), e.shardID);
      StampedRoutable(published, hash, e, e);
    }
  }
}
