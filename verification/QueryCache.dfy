/**
 The query cache in front of an executor over a fixed index, behind a handler that answers
 queries without terms itself.  A query may be given the answer of any other query with
 its key, so the cache is transparent for the queries whose own answer is the answer their
 key stands for.  This holds for whole answers and for the part of them that the handler
 returns alike.
 */
module QueryCache {
  import opened Ordering
  import opened Memory
  import opened Segment
  import opened Tokenizer
  import opened Parser
  import opened ExecutorSpec
  import opened ShardedSpec
  import opened CacheKey

  // ---- When answers count as the same ----

  /** Equal but for the echoed query string. */
  ghost predicate SameAnswer(a: SearchResult, b: SearchResult) {
    a.totalHits == b.totalHits && a.results == b.results && a.termStats == b.termStats
  }

  /** Equal in what the handler returns (handler.go:172-178), but for the echoed query. */
  ghost predicate SameResponse(a: SearchResult, b: SearchResult) {
    a.totalHits == b.totalHits && a.results == b.results
  }

  type Same = (SearchResult, SearchResult) -> bool

  ghost predicate Linked(same: Same, a: SearchResult, b: SearchResult, c: SearchResult) {
    same(a, b) && same(b, c) ==> same(a, c)
  }

  /** An equivalence that equal answers satisfy. */
  ghost predicate Sameness(same: Same) {
    && (forall a, b :: SameAnswer(a, b) ==> same(a, b))
    && (forall a, b :: same(a, b) ==> same(b, a))
    && (forall a, b, c :: Linked(same, a, b, c))
  }

  lemma BothSameness()
    ensures Sameness(SameAnswer) && Sameness(SameResponse)
  {
  }

  // ---- Executors ----

  /** What answers plans behind the cache. */
  type Exec = (QueryPlan, int) -> SearchResult

  ghost function Single(log: real -> real, v: View): Exec { (p: QueryPlan, l: int) => Executed(log, v, p, l) }

  ghost function Sharded(log: real -> real, views: seq<View>): Exec {
    (p: QueryPlan, l: int) => ShardedExecuted(log, views, p, l)
  }

  /** Repeating or reordering terms does not change answers. */
  ghost predicate Insensitive(exec: Exec) {
    forall p, p', l :: SamePlan(p, p') ==> SameAnswer(exec(p, l), exec(p', l))
  }

  lemma SameMembers(p: QueryPlan, p': QueryPlan)
    requires SamePlan(p, p')
    ensures SameSets(p, p') && (p.terms == [] <==> p'.terms == [])
  {
    SameElements(p.terms, p'.terms);
    SameElements(p.excludeTerms, p'.excludeTerms);
  }

  lemma SingleSame(log: real -> real, v: View, p: QueryPlan, p': QueryPlan, l: int)
    requires SameSets(p, p')
    ensures SameAnswer(Executed(log, v, p, l), Executed(log, v, p', l))
  {
    PlanOrderIrrelevant(log, v, p, p', l);
  }

  lemma ShardedSame(log: real -> real, views: seq<View>, p: QueryPlan, p': QueryPlan, l: int)
    requires SameSets(p, p') && (p.terms == [] <==> p'.terms == [])
    ensures SameAnswer(ShardedExecuted(log, views, p, l), ShardedExecuted(log, views, p', l))
  {
    if p.terms != [] { IndistinctSharded(log, views, p, p', l); }
  }

  lemma SingleInsensitive(log: real -> real, v: View)
    ensures Insensitive(Single(log, v))
  {
    forall p, p', l | SamePlan(p, p') ensures SameAnswer(Executed(log, v, p, l), Executed(log, v, p', l)) {
      SameMembers(p, p');
      SingleSame(log, v, p, p', l);
    }
  }

  lemma ShardedInsensitive(log: real -> real, views: seq<View>)
    ensures Insensitive(Sharded(log, views))
  {
    forall p, p', l | SamePlan(p, p')
      ensures SameAnswer(ShardedExecuted(log, views, p, l), ShardedExecuted(log, views, p', l))
    {
      SameMembers(p, p');
      ShardedSame(log, views, p, p', l);
    }
  }

  // ---- Which queries may share an answer ----

  /** Every safe query under the key has this query's answer. */
  ghost predicate Agrees(same: Same, exec: Exec, q: string) {
    forall q', l :: Safe(q') && RawKey(q', l) == RawKey(q, l) ==> same(exec(Plan(q), l), exec(Plan(q'), l))
  }

  /** The plan of any safe query under the key is what the key stands for. */
  lemma PartnerPlan(q: string, q': string, l: int)
    requires NoComma(q) && Safe(q') && RawKey(q', l) == RawKey(q, l)
    ensures SamePlan(Plan(q'), KeyPlan(q))
  {
    KeyPlansAgree(q', l, q, l);
    SafePlan(q');
  }

  lemma SafeAgrees(same: Same, exec: Exec, q: string)
    requires Sameness(same) && Insensitive(exec) && Safe(q)
    ensures Agrees(same, exec, q)
  {
    forall q', l | Safe(q') && RawKey(q', l) == RawKey(q, l) ensures same(exec(Plan(q), l), exec(Plan(q'), l)) {
      KeySound(q, l, q', l);
    }
  }

  /** Safe queries sharing a key have the same answer on any index, single or sharded. */
  lemma KeySharesAnswer(log: real -> real, v: View, views: seq<View>, q: string, l: int, q': string, l': int)
    requires Safe(q) && Safe(q') && RawKey(q, l) == RawKey(q', l')
    ensures l == l' && SameAnswer(Executed(log, v, Plan(q), l), Executed(log, v, Plan(q'), l))
    ensures SameAnswer(ShardedExecuted(log, views, Plan(q), l), ShardedExecuted(log, views, Plan(q'), l))
  {
    KeySound(q, l, q', l');
    SameMembers(Plan(q), Plan(q'));
    SingleSame(log, v, Plan(q), Plan(q'), l);
    ShardedSame(log, views, Plan(q), Plan(q'), l);
  }

  lemma HonestAgrees(log: real -> real, v: View, q: string)
    requires Honest(q)
    ensures Agrees(SameAnswer, Single(log, v), q)
  {
    forall q', l | Safe(q') && RawKey(q', l) == RawKey(q, l)
      ensures SameAnswer(Executed(log, v, Plan(q), l), Executed(log, v, Plan(q'), l))
    {
      PartnerPlan(q, q', l);
      SameMembers(Plan(q'), KeyPlan(q));
      SingleSame(log, v, Plan(q), Plan(q'), l);
    }
  }

  lemma TolerableAgrees(log: real -> real, views: seq<View>, q: string)
    requires Tolerable(q) && Plan(q).terms != []
    ensures Agrees(SameAnswer, Sharded(log, views), q)
  {
    SetsAgainstKey(q);
    PlanAgainstKey(q);
    forall q', l | Safe(q') && RawKey(q', l) == RawKey(q, l)
      ensures SameAnswer(ShardedExecuted(log, views, Plan(q), l), ShardedExecuted(log, views, Plan(q'), l))
    {
      PartnerPlan(q, q', l);
      SameMembers(Plan(q'), KeyPlan(q));
      IndistinctSharded(log, views, Plan(q), Plan(q'), l);
    }
  }

  // ---- The cache ----

  /** How Redis behaved during one call: each read and the write may fail. */
  datatype RedisIO = RedisIO(firstRead: bool, secondRead: bool, write: bool)

  type Store = map<string, SearchResult>

  datatype Served = Served(store: Store, result: Option<SearchResult>, fromCache: bool)

  /** `GetOrCompute` (cache.go:84-109): look, look again inside the flight, compute, store. */
  function Serve(store: Store, key: string, computed: Option<SearchResult>, io: RedisIO): Served {
    if io.firstRead && key in store then Served(store, Some(store[key]), true)
    else if io.secondRead && key in store then Served(store, Some(store[key]), false)
    else if computed.Some? && io.write then Served(store[key := computed.value], computed, false)
    else Served(store, computed, false)
  }

  class Cache {
    const digest: string -> string
    var store: Store
    var hits: nat
    var misses: nat

    constructor (digest: string -> string)
      ensures this.digest == digest && store == map[] && hits == 0 && misses == 0
    {
      this.digest := digest;
      store, hits, misses := map[], 0, 0;
    }

    method Get(query: string, limit: int, readable: bool) returns (r: Option<SearchResult>)
      modifies this`hits, this`misses
      ensures var key := digest(RawKey(query, limit));
              r == if readable && key in store then Some(store[key]) else None
      ensures hits == old(hits) + (if r.Some? then 1 else 0) && misses == old(misses) + (if r.None? then 1 else 0)
    {
      var key := digest(RawKey(query, limit));
      if !readable || key !in store {
        misses := misses + 1;
        return None;
      }
      hits := hits + 1;
      r := Some(store[key]);
    }

    method GetOrCompute(query: string, limit: int, computed: Option<SearchResult>, io: RedisIO)
      returns (r: Option<SearchResult>, fromCache: bool)
      modifies this
      ensures Served(store, r, fromCache) == Serve(old(store), digest(RawKey(query, limit)), computed, io)
      ensures hits + misses == old(hits) + old(misses) + (if fromCache then 1 else 2)
    {
      r := Get(query, limit, io.firstRead);
      if r.Some? { return r, true; }
      fromCache := false;
      r := Get(query, limit, io.secondRead);
      if r.Some? { return; }
      if computed.None? { return; }
      if io.write {
        store := store[digest(RawKey(query, limit)) := computed.value];
      }
      r := computed;
    }
  }

  // ---- Whole runs ----

  /** One request: its query and limit, whether the executor succeeds, how Redis behaves. */
  datatype Call = Call(query: string, limit: int, succeeds: bool, io: RedisIO)

  /** The handler (handler.go:88-120): a plan without terms is answered at once. */
  ghost function ServeCall(digest: string -> string, exec: Exec, store: Store, c: Call): Served {
    if Plan(c.query).terms == [] then Served(store, Some(SearchResult(c.query, 0, [], map[])), false)
    else
      var computed := if c.succeeds then Some(exec(Plan(c.query), c.limit)) else None;
      Serve(store, digest(RawKey(c.query, c.limit)), computed, c.io)
  }

  ghost function StoreAfter(digest: string -> string, exec: Exec, calls: seq<Call>): Store {
    if calls == [] then map[]
    else
      var n := |calls| - 1;
      ServeCall(digest, exec, StoreAfter(digest, exec, calls[..n]), calls[n]).store
  }

  /** The request, coming after the calls, gets its own answer; or an error, when the
      executor has one. */
  ghost predicate Right(same: Same, digest: string -> string, exec: Exec, calls: seq<Call>, c: Call) {
    var r := ServeCall(digest, exec, StoreAfter(digest, exec, calls), c).result;
    (c.succeeds ==> r.Some?) && (r.Some? ==> same(r.value, exec(Plan(c.query), c.limit)))
  }

  ghost predicate Injective(digest: string -> string) {
    forall x, y :: digest(x) == digest(y) ==> x == y
  }

  /** Executors answer a plan without terms with nothing, as the handler does. */
  ghost predicate EmptyForNoTerms(exec: Exec) {
    forall p: QueryPlan, l: int :: p.terms == [] ==> exec(p, l) == SearchResult(p.rawQuery, 0, [], map[])
  }

  /** A query the cache may serve. */
  ghost predicate Trusted(same: Same, exec: Exec, q: string) {
    Plan(q).terms == [] || (NoComma(q) && Agrees(same, exec, q))
  }

  ghost predicate AllTrusted(same: Same, exec: Exec, calls: seq<Call>) {
    forall i :: 0 <= i < |calls| ==> Trusted(same, exec, calls[i].query)
  }

  /** Two trusted queries under one key have one answer, that of the safe query there. */
  lemma TrustedShare(same: Same, exec: Exec, q: string, l: int, q': string, l': int)
    requires Sameness(same) && NoComma(q) && NoComma(q')
    requires Agrees(same, exec, q) && Agrees(same, exec, q') && RawKey(q, l) == RawKey(q', l')
    ensures l == l' && same(exec(Plan(q), l), exec(Plan(q'), l'))
  {
    KeyPlansAgree(q, l, q', l');
    var partner := KeyPartner(q);
    assert RawKey(partner, l) == RawKey(q, l);
    assert Linked(same, exec(Plan(q), l), exec(Plan(partner), l), exec(Plan(q'), l));
  }

  /** Every entry a trusted query could be given is its own answer. */
  ghost predicate Faithful(same: Same, store: Store, digest: string -> string, exec: Exec) {
    forall q, l :: NoComma(q) && Agrees(same, exec, q) && digest(RawKey(q, l)) in store ==>
      same(store[digest(RawKey(q, l))], exec(Plan(q), l))
  }

  lemma StoringKeepsFaith(same: Same, store: Store, digest: string -> string, exec: Exec, q: string, l: int)
    requires Sameness(same) && Faithful(same, store, digest, exec) && Injective(digest)
    requires NoComma(q) && Agrees(same, exec, q)
    ensures Faithful(same, store[digest(RawKey(q, l)) := exec(Plan(q), l)], digest, exec)
  {
    var store' := store[digest(RawKey(q, l)) := exec(Plan(q), l)];
    forall q', l' | NoComma(q') && Agrees(same, exec, q') && digest(RawKey(q', l')) in store'
      ensures same(store'[digest(RawKey(q', l'))], exec(Plan(q'), l'))
    {
      if digest(RawKey(q', l')) == digest(RawKey(q, l)) {
        TrustedShare(same, exec, q, l, q', l');
      }
    }
  }

  lemma CallKeepsFaith(same: Same, digest: string -> string, exec: Exec, store: Store, c: Call)
    requires Sameness(same) && Injective(digest) && Faithful(same, store, digest, exec)
    requires Trusted(same, exec, c.query) && EmptyForNoTerms(exec)
    ensures Faithful(same, ServeCall(digest, exec, store, c).store, digest, exec)
    ensures var r := ServeCall(digest, exec, store, c).result;
            && (c.succeeds ==> r.Some?)
            && (r.Some? ==> same(r.value, exec(Plan(c.query), c.limit)))
  {
    if Plan(c.query).terms == [] {
      assert exec(Plan(c.query), c.limit) == SearchResult(c.query, 0, [], map[]);
      assert SameAnswer(SearchResult(c.query, 0, [], map[]), exec(Plan(c.query), c.limit));
    } else {
      var ans := exec(Plan(c.query), c.limit);
      StoringKeepsFaith(same, store, digest, exec, c.query, c.limit);
      ServeAnswers(same, store, digest(RawKey(c.query, c.limit)), if c.succeeds then Some(ans) else None, c.io, ans);
    }
  }

  lemma ServeAnswers(same: Same, store: Store, key: string, computed: Option<SearchResult>, io: RedisIO,
                     ans: SearchResult)
    requires Sameness(same) && (key in store ==> same(store[key], ans))
    requires computed.Some? ==> computed.value == ans
    ensures var s := Serve(store, key, computed, io);
            && (s.store == store || s.store == store[key := ans])
            && (computed.Some? ==> s.result.Some?)
            && (s.result.Some? ==> same(s.result.value, ans))
  {
    assert SameAnswer(ans, ans);
  }

  /** The cache is transparent: over a fixed index, after any trusted requests and whatever
      Redis did, a trusted request gets the answer it would get without a cache. */
  lemma {:induction false} CacheIsTransparent(same: Same, digest: string -> string, exec: Exec, calls: seq<Call>,
                                              c: Call)
    requires Sameness(same) && Injective(digest) && EmptyForNoTerms(exec)
    requires AllTrusted(same, exec, calls) && Trusted(same, exec, c.query)
    ensures Faithful(same, StoreAfter(digest, exec, calls), digest, exec) && Right(same, digest, exec, calls, c)
    decreases |calls|
  {
    if calls != [] {
      var n := |calls| - 1;
      CacheIsTransparent(same, digest, exec, calls[..n], calls[n]);
      CallKeepsFaith(same, digest, exec, StoreAfter(digest, exec, calls[..n]), calls[n]);
    }
    CallKeepsFaith(same, digest, exec, StoreAfter(digest, exec, calls), c);
  }

  /** The answer stored for one query is served to another with its key. */
  lemma StoredServed(digest: string -> string, exec: Exec, a: Call, b: Call)
    requires Plan(a.query).terms != [] && Plan(b.query).terms != []
    requires RawKey(a.query, a.limit) == RawKey(b.query, b.limit) && a.succeeds && a.io.write && b.io.firstRead
    ensures ServeCall(digest, exec, StoreAfter(digest, exec, [a]), b).result == Some(exec(Plan(a.query), a.limit))
  {
    assert [a][..0] == [];
    assert StoreAfter(digest, exec, []) == map[];
  }

  /** What was once in the cache stays. */
  lemma {:induction false} StoreGrows(digest: string -> string, exec: Exec, calls: seq<Call>, i: nat)
    requires i <= |calls|
    ensures StoreAfter(digest, exec, calls[..i]).Keys <= StoreAfter(digest, exec, calls).Keys
    decreases |calls|
  {
    var n := |calls| - 1;
    if i == n + 1 {
      assert calls[..i] == calls;
    } else {
      StoreGrows(digest, exec, calls[..n], i);
      TakeTake(calls, i, n);
      CallStores(digest, exec, StoreAfter(digest, exec, calls[..n]), calls[n]);
    }
  }

  lemma StoreNext(digest: string -> string, exec: Exec, before: seq<Call>, c: Call)
    ensures StoreAfter(digest, exec, before + [c]) == ServeCall(digest, exec, StoreAfter(digest, exec, before), c).store
  {
    assert (before + [c])[..|before|] == before;
  }

  /** The request is answered by the executor and its answer written. */
  predicate Written(c: Call) { Plan(c.query).terms != [] && c.succeeds && c.io.write }

  lemma StaysStored(digest: string -> string, exec: Exec, calls: seq<Call>, i: nat, key: string)
    requires i < |calls| && Written(calls[i]) && key == digest(RawKey(calls[i].query, calls[i].limit))
    ensures key in StoreAfter(digest, exec, calls)
  {
    StoreGrows(digest, exec, calls, i + 1);
    TakeNext(calls, i);
    StoreNext(digest, exec, calls[..i], calls[i]);
    CallStores(digest, exec, StoreAfter(digest, exec, calls[..i]), calls[i]);
  }

  lemma CallStores(digest: string -> string, exec: Exec, store: Store, c: Call)
    ensures store.Keys <= ServeCall(digest, exec, store, c).store.Keys
    ensures Written(c) ==> digest(RawKey(c.query, c.limit)) in ServeCall(digest, exec, store, c).store
  {
  }

  /** Once a request has been answered and written, every later one with the same words in any
      order, type and limit is a hit as long as Redis can be read. */
  lemma SameWordsHit(digest: string -> string, exec: Exec, calls: seq<Call>, i: nat, c: Call)
    requires i < |calls| && Written(calls[i])
    requires Plan(c.query).terms != [] && c.limit == calls[i].limit && c.io.firstRead
    requires SameNorm(NormWords(KeyWords(c.query)), NormWords(KeyWords(calls[i].query)))
    ensures var s := ServeCall(digest, exec, StoreAfter(digest, exec, calls), c); s.fromCache && s.result.Some?
  {
    SameWordsSameKey(c.query, calls[i].query, c.limit);
    StaysStored(digest, exec, calls, i, digest(RawKey(c.query, c.limit)));
  }

  /** When only the second look inside the flight can be read it still finds what is stored: the
      executor's outcome does not matter, and the answer does not count as cached. */
  lemma SecondLook(digest: string -> string, exec: Exec, calls: seq<Call>, i: nat, c: Call)
    requires i < |calls| && Written(calls[i])
    requires Plan(c.query).terms != [] && RawKey(c.query, c.limit) == RawKey(calls[i].query, calls[i].limit)
    requires !c.io.firstRead && c.io.secondRead
    ensures var store, key := StoreAfter(digest, exec, calls), digest(RawKey(c.query, c.limit));
            key in store && ServeCall(digest, exec, store, c) == Served(store, Some(store[key]), false)
  {
    StaysStored(digest, exec, calls, i, digest(RawKey(c.query, c.limit)));
  }

  /** Executors put the plan's own query string into the answer. */
  ghost predicate Echoes(exec: Exec) { forall p: QueryPlan, l: int :: exec(p, l).query == p.rawQuery }

  lemma ExecutorsEcho(log: real -> real, v: View, views: seq<View>)
    ensures Echoes(Single(log, v)) && Echoes(Sharded(log, views))
  {
  }

  /** A hit echoes the query of whoever stored the answer, not the one that was asked. */
  lemma HitEchoesStored(digest: string -> string, exec: Exec, a: Call, b: Call) returns (r: SearchResult)
    requires Echoes(exec) && Plan(a.query).terms != [] && Plan(b.query).terms != []
    requires RawKey(a.query, a.limit) == RawKey(b.query, b.limit) && a.succeeds && a.io.write && b.io.firstRead
    ensures ServeCall(digest, exec, StoreAfter(digest, exec, [a]), b).result == Some(r) && r.query == a.query
  {
    StoredServed(digest, exec, a, b);
    r := exec(Plan(a.query), a.limit);
  }

  /** With terms on both sides, differing answers under one key are served wrongly. */
  lemma ServedWrong(same: Same, digest: string -> string, exec: Exec, q: string, q': string, l: int)
    returns (calls: seq<Call>, c: Call)
    requires Sameness(same) && Insensitive(exec) && Safe(q') && RawKey(q', l) == RawKey(q, l)
    requires Plan(q).terms != [] && Plan(q').terms != [] && !same(exec(Plan(q), l), exec(Plan(q'), l))
    ensures c.query == q && c.limit == l && |calls| == 1 && calls[0].query == q'
    ensures AllTrusted(same, exec, calls) && !Right(same, digest, exec, calls, c)
  {
    var io := RedisIO(true, true, true);
    var stored := Call(q', l, true, io);
    calls, c := [stored], Call(q, l, true, io);
    SafeAgrees(same, exec, q');
    StoredServed(digest, exec, stored, c);
  }

  lemma EmptyExecutors(log: real -> real, v: View, views: seq<View>)
    ensures EmptyForNoTerms(Single(log, v)) && EmptyForNoTerms(Sharded(log, views))
  {
  }

  /** What the handler says to a query without terms is what either executor would have said,
      with the query echoed, and the cache is left alone. */
  lemma NoTermsAnswered(digest: string -> string, log: real -> real, v: View, views: seq<View>, store: Store, c: Call)
    requires Plan(c.query).terms == []
    ensures var s := ServeCall(digest, Single(log, v), store, c);
            && s == ServeCall(digest, Sharded(log, views), store, c) && s.store == store && !s.fromCache
            && s.result == Some(Executed(log, v, Plan(c.query), c.limit))
            && s.result == Some(ShardedExecuted(log, views, Plan(c.query), c.limit))
  {
  }

  /** A request with the query gets its own answer after any trusted requests. */
  ghost predicate AlwaysRight(same: Same, digest: string -> string, exec: Exec, q: string) {
    forall calls: seq<Call>, c: Call ::
      c.query == q && AllTrusted(same, exec, calls) ==> Right(same, digest, exec, calls, c)
  }

  lemma TrustedAlwaysRight(same: Same, digest: string -> string, exec: Exec, q: string)
    requires Sameness(same) && Injective(digest) && EmptyForNoTerms(exec) && Trusted(same, exec, q)
    ensures AlwaysRight(same, digest, exec, q)
  {
    forall calls: seq<Call>, c: Call | c.query == q && AllTrusted(same, exec, calls)
      ensures Right(same, digest, exec, calls, c)
    {
      CacheIsTransparent(same, digest, exec, calls, c);
    }
  }

  lemma PartnerHasTerms(q: string, q': string, l: int)
    requires NoComma(q) && Safe(q') && RawKey(q', l) == RawKey(q, l) && Plan(q).terms != []
    ensures Plan(q').terms != []
  {
    PartnerPlan(q, q', l);
    SameMembers(Plan(q'), KeyPlan(q));
    SetsAgainstKey(q);
    assert Plan(q).terms[0] in KeyPlan(q).terms;
  }

  /** Among requests without terms and honest ones the cache never shows, on any index. */
  lemma HonestTransparent(digest: string -> string, log: real -> real, v: View, calls: seq<Call>, c: Call)
    requires Injective(digest) && (Plan(c.query).terms == [] || Honest(c.query))
    requires forall i :: 0 <= i < |calls| ==> Plan(calls[i].query).terms == [] || Honest(calls[i].query)
    ensures Right(SameAnswer, digest, Single(log, v), calls, c)
  {
    EmptyExecutors(log, v, []);
    if Honest(c.query) { HonestAgrees(log, v, c.query); }
    forall i | 0 <= i < |calls| ensures Trusted(SameAnswer, Single(log, v), calls[i].query) {
      if Honest(calls[i].query) { HonestAgrees(log, v, calls[i].query); }
    }
    BothSameness();
    CacheIsTransparent(SameAnswer, digest, Single(log, v), calls, c);
  }

  /** And among requests without terms and tolerable ones, on any shards. */
  lemma TolerableTransparent(digest: string -> string, log: real -> real, views: seq<View>, calls: seq<Call>, c: Call)
    requires Injective(digest) && (Plan(c.query).terms == [] || Tolerable(c.query))
    requires forall i :: 0 <= i < |calls| ==> Plan(calls[i].query).terms == [] || Tolerable(calls[i].query)
    ensures Right(SameAnswer, digest, Sharded(log, views), calls, c)
  {
    EmptyExecutors(log, NO_VIEW, views);
    if Plan(c.query).terms != [] { TolerableAgrees(log, views, c.query); }
    forall i | 0 <= i < |calls| ensures Trusted(SameAnswer, Sharded(log, views), calls[i].query) {
      if Plan(calls[i].query).terms != [] { TolerableAgrees(log, views, calls[i].query); }
    }
    BothSameness();
    CacheIsTransparent(SameAnswer, digest, Sharded(log, views), calls, c);
  }

  const NO_VIEW := View(_ => [], _ => 0, 0, 0)
}
