/**
 Top-K merging of shard results with the bounded min-heap of `container/heap`: the root
 is the worst document kept, every new document is pushed and the worst is popped when
 the heap grows past the limit.
 */
module Merger {
  import opened Ordering
  import opened Ranker

  // ---- The simple description: sort everything, keep the first k ----

  function Take<T>(k: nat, s: seq<T>): seq<T> { if |s| <= k then s else s[..k] }

  function TopK(k: nat, s: seq<ScoredDoc>): seq<ScoredDoc> { Take(k, Sort(Better, s)) }

  function Flatten(lists: seq<seq<ScoredDoc>>): seq<ScoredDoc> {
    if lists == [] then [] else Flatten(lists[..|lists| - 1]) + lists[|lists| - 1]
  }

  /** The first k after an insertion depend only on the first k before it. */
  lemma {:induction false} TakeInsert(k: nat, x: ScoredDoc, s: seq<ScoredDoc>)
    ensures Take(k, Insert(Better, x, s)) == Take(k, Insert(Better, x, Take(k, s)))
    decreases |s|
  {
    if 0 < k < |s| {
      if Better(x, s[0]) {
        assert ([x] + s)[..k] == ([x] + s[..k])[..k];
      } else {
        InsertBehind(x, s);
        InsertBehind(x, s[..k]);
        TakeInsert(k - 1, x, s[1..]);
        assert s[..k][1..] == Take(k - 1, s[1..]);
        TakeCons(k, s[0], Insert(Better, x, s[1..]));
        TakeCons(k, s[0], Insert(Better, x, s[..k][1..]));
      }
    }
  }

  lemma InsertBehind(x: ScoredDoc, s: seq<ScoredDoc>)
    requires s != [] && !Better(x, s[0])
    ensures Insert(Better, x, s) == [s[0]] + Insert(Better, x, s[1..])
  {
  }

  lemma TakeCons(k: nat, x: ScoredDoc, s: seq<ScoredDoc>)
    requires k > 0
    ensures Take(k, [x] + s) == [x] + Take(k - 1, s)
  {
  }

  /** The running top k after one more document. */
  lemma TopKNext(k: nat, s: seq<ScoredDoc>, x: ScoredDoc)
    ensures TopK(k, s + [x]) == Take(k, Insert(Better, x, TopK(k, s)))
  {
    assert (s + [x])[..|s|] == s;
    TakeInsert(k, x, Sort(Better, s));
  }

  lemma TopKSorted(k: nat, s: seq<ScoredDoc>)
    ensures Sorted(Better, TopK(k, s))
  {
    BetterIsTotal();
    SortSorted(Better, s);
  }

  lemma TopKOfTopK(k: nat, s: seq<ScoredDoc>)
    ensures TopK(k, TopK(k, s)) == TopK(k, s)
  {
    var t := TopK(k, s);
    TopKSorted(k, s);
    BetterIsTotal();
    SortSorted(Better, t);
    SortedUnique(Better, t, Sort(Better, t));
  }

  /** Cutting a list to its own top k before merging loses nothing. */
  lemma {:induction false} TopKAbsorbs(k: nat, s: seq<ScoredDoc>, t: seq<ScoredDoc>)
    ensures TopK(k, TopK(k, s) + t) == TopK(k, s + t)
    decreases |t|
  {
    if t == [] {
      assert TopK(k, s) + t == TopK(k, s) && s + t == s;
      TopKOfTopK(k, s);
    } else {
      var n := |t| - 1;
      TopKAbsorbs(k, s, t[..n]);
      assert TopK(k, s) + t == TopK(k, s) + t[..n] + [t[n]];
      assert s + t == s + t[..n] + [t[n]];
      TopKNext(k, TopK(k, s) + t[..n], t[n]);
      TopKNext(k, s + t[..n], t[n]);
    }
  }

  lemma TopKSwap(k: nat, s: seq<ScoredDoc>, t: seq<ScoredDoc>)
    ensures TopK(k, s + t) == TopK(k, t + s)
  {
    BetterIsTotal();
    SortPermutation(Better, s + t, t + s);
  }

  function Cut(k: nat, lists: seq<seq<ScoredDoc>>): (r: seq<seq<ScoredDoc>>)
    ensures |r| == |lists|
    ensures forall i :: 0 <= i < |r| ==> r[i] == TopK(k, lists[i])
  {
    seq(|lists|, i requires 0 <= i < |lists| => TopK(k, lists[i]))
  }

  /** Merging per-shard top-k lists gives the same answer as merging the full lists. */
  lemma {:induction false} MergeOfTopKs(k: nat, lists: seq<seq<ScoredDoc>>)
    ensures TopK(k, Flatten(Cut(k, lists))) == TopK(k, Flatten(lists))
    decreases |lists|
  {
    if lists != [] {
      var n := |lists| - 1;
      MergeOfTopKs(k, lists[..n]);
      assert Cut(k, lists)[..n] == Cut(k, lists[..n]);
      var a, b, last := Flatten(Cut(k, lists[..n])), Flatten(lists[..n]), lists[n];
      TopKAbsorbs(k, a, TopK(k, last));
      TopKAbsorbs(k, b, TopK(k, last));
      TopKSwap(k, b, TopK(k, last));
      TopKAbsorbs(k, last, b);
      TopKSwap(k, last, b);
    }
  }

  // ---- The heap ----

  function Parent(k: nat): nat
    requires k > 0
  {
    (k - 1) / 2
  }

  /** No document is worse than its parent. */
  ghost predicate EdgeOK(h: seq<ScoredDoc>, k: nat)
    requires k < |h|
  {
    k == 0 || !Better(h[Parent(k)], h[k])
  }

  ghost predicate IsHeap(h: seq<ScoredDoc>) {
    forall k :: 0 <= k < |h| ==> EdgeOK(h, k)
  }

  lemma NotBetterTransitive(a: ScoredDoc, b: ScoredDoc, c: ScoredDoc)
    ensures !Better(a, b) && !Better(b, c) ==> !Better(a, c)
    ensures Better(a, b) ==> !Better(b, a)
  {
    LessIrreflexive(a.docID);
    LessTotal(a.docID, b.docID);
    LessTotal(b.docID, c.docID);
    if Less(c.docID, b.docID) && Less(b.docID, a.docID) { LessTransitive(c.docID, b.docID, a.docID); }
    if Less(a.docID, b.docID) && Less(b.docID, a.docID) { LessTransitive(a.docID, b.docID, a.docID); }
    if Less(a.docID, c.docID) && Less(c.docID, a.docID) { LessTransitive(a.docID, c.docID, a.docID); }
  }

  lemma {:induction false} RootIsWorst(h: seq<ScoredDoc>, k: nat)
    requires IsHeap(h) && k < |h|
    ensures !Better(h[0], h[k])
  {
    if k == 0 {
      NotBetterTransitive(h[0], h[0], h[0]);
    } else {
      RootIsWorst(h, Parent(k));
      assert EdgeOK(h, k);
      NotBetterTransitive(h[0], h[Parent(k)], h[k]);
    }
  }

  function Swapped(h: seq<ScoredDoc>, i: nat, j: nat): (r: seq<ScoredDoc>)
    requires i < |h| && j < |h|
    ensures |r| == |h| && r[i] == h[j] && r[j] == h[i]
    ensures forall k :: 0 <= k < |h| && k != i && k != j ==> r[k] == h[k]
    ensures multiset(r) == multiset(h)
  {
    h[i := h[j]][j := h[i]]
  }

  /** All edges hold but the one above `j`, across which `j`'s children still fit. */
  ghost predicate RisingAt(h: seq<ScoredDoc>, j: nat) {
    && j < |h|
    && (forall k :: 0 <= k < |h| && k != j ==> EdgeOK(h, k))
    && (forall k :: 0 < k < |h| && Parent(k) == j && j > 0 ==> !Better(h[Parent(j)], h[k]))
  }

  lemma RiseStep(h: seq<ScoredDoc>, j: nat)
    requires RisingAt(h, j) && j > 0 && Better(h[Parent(j)], h[j])
    ensures RisingAt(Swapped(h, Parent(j), j), Parent(j))
  {
    var i := Parent(j);
    var r := Swapped(h, i, j);
    NotBetterTransitive(h[i], h[j], h[j]);
    forall k | 0 <= k < |r| && k != i ensures EdgeOK(r, k) {
      if k > 0 {
        assert EdgeOK(h, i);
        if k != j && Parent(k) == i {
          assert EdgeOK(h, k);
          NotBetterTransitive(h[j], h[i], h[k]);
        } else if k != j {
          assert EdgeOK(h, k);
        }
      }
    }
    forall k | 0 < k < |r| && Parent(k) == i && i > 0 ensures !Better(r[Parent(i)], r[k]) {
      assert EdgeOK(h, i);
      if k != j {
        assert EdgeOK(h, k);
        NotBetterTransitive(h[Parent(i)], h[i], h[k]);
      }
    }
  }

  /** Within the first `n`, all edges hold but those below `i`, whose children still fit
      under `i`'s parent. */
  ghost predicate SinkingAt(h: seq<ScoredDoc>, n: nat, i: nat) {
    && i < n <= |h|
    && (forall k :: 0 < k < n && Parent(k) != i ==> EdgeOK(h, k))
    && (forall k :: 0 < k < n && Parent(k) == i && i > 0 ==> !Better(h[Parent(i)], h[k]))
  }

  /** `j` is the worse child of `i`. */
  ghost predicate WorseChild(h: seq<ScoredDoc>, n: nat, i: nat, j: nat) {
    && 0 < j < n <= |h| && Parent(j) == i
    && forall k :: 0 < k < n && Parent(k) == i ==> !Better(h[j], h[k])
  }

  lemma SinkStep(h: seq<ScoredDoc>, n: nat, i: nat, j: nat)
    requires SinkingAt(h, n, i) && WorseChild(h, n, i, j) && Better(h[i], h[j])
    ensures SinkingAt(Swapped(h, i, j), n, j)
  {
    var r := Swapped(h, i, j);
    forall k | 0 < k < n && Parent(k) != j ensures EdgeOK(r, k) {
      if Parent(k) == i {
        if k == j { NotBetterTransitive(h[i], h[j], h[j]); }
      } else if k == i {
        assert !Better(h[Parent(i)], h[j]);
      } else {
        assert EdgeOK(h, k);
      }
    }
    forall k | 0 < k < n && Parent(k) == j ensures !Better(r[Parent(j)], r[k]) {
      assert Parent(k) != i;
      assert EdgeOK(h, k);
    }
  }

  lemma RootIsWorstOfAll(h: seq<ScoredDoc>)
    requires IsHeap(h) && h != []
    ensures forall y :: y in h ==> !Better(h[0], y)
  {
    forall y | y in h ensures !Better(h[0], y) {
      var k :| 0 <= k < |h| && h[k] == y;
      RootIsWorst(h, k);
    }
  }

  lemma FromTheTop(h: seq<ScoredDoc>, n: nat)
    requires IsHeap(h) && |h| == n + 1
    ensures n > 0 ==> SinkingAt(Swapped(h, 0, n), n, 0)
  {
    var r := Swapped(h, 0, n);
    forall k | 0 < k < n && Parent(k) != 0 ensures EdgeOK(r, k) {
      assert EdgeOK(h, k);
    }
  }

  lemma WithoutLast(h: seq<ScoredDoc>, n: nat)
    requires |h| == n + 1 && forall k :: 0 <= k < n ==> EdgeOK(h, k)
    ensures IsHeap(h[..n]) && multiset(h) == multiset(h[..n]) + multiset{h[n]}
  {
    assert h == h[..n] + [h[n]];
    forall k | 0 <= k < n ensures EdgeOK(h[..n], k) {
      assert EdgeOK(h, k);
    }
  }

  class ScoredDocHeap {
    var h: seq<ScoredDoc>

    constructor ()
      ensures h == []
    {
      h := [];
    }

    /** `heap.Push`: append, then rise. */
    method Push(x: ScoredDoc)
      requires IsHeap(h)
      modifies this
      ensures IsHeap(h) && multiset(h) == multiset(old(h)) + multiset{x}
    {
      h := h + [x];
      var j: nat := |h| - 1;
      assert RisingAt(h, j) by {
        forall k | 0 <= k < |h| && k != j ensures EdgeOK(h, k) { assert EdgeOK(old(h), k); }
      }
      while j > 0 && Better(h[Parent(j)], h[j])
        invariant RisingAt(h, j) && multiset(h) == multiset(old(h)) + multiset{x}
        decreases j
      {
        RiseStep(h, j);
        var i := Parent(j);
        h := Swapped(h, i, j);
        j := i;
      }
      forall k | 0 <= k < |h| ensures EdgeOK(h, k) { }
    }

    /** `heap.Pop`: the root changes places with the last, sinks back, and the last leaves. */
    method Pop() returns (x: ScoredDoc)
      requires IsHeap(h) && h != []
      modifies this
      ensures IsHeap(h) && multiset(old(h)) == multiset(h) + multiset{x}
      ensures forall y :: y in old(h) ==> !Better(x, y)
    {
      var n := |h| - 1;
      RootIsWorstOfAll(h);
      FromTheTop(h, n);
      h := Swapped(h, 0, n);
      if n > 0 { Sink(n); }
      x := h[n];
      WithoutLast(h, n);
      h := h[..n];
    }

    method Sink(n: nat)
      requires SinkingAt(h, n, 0) && n < |h|
      modifies this
      ensures |h| == |old(h)| && multiset(h) == multiset(old(h)) && h[n..] == old(h)[n..]
      ensures forall k :: 0 <= k < n ==> EdgeOK(h, k)
    {
      var i := 0;
      while true
        invariant SinkingAt(h, n, i)
        invariant |h| == |old(h)| && multiset(h) == multiset(old(h)) && h[n..] == old(h)[n..]
        decreases n - i
      {
        var j := 2 * i + 1;
        if j >= n {
          Settled(h, n, i, i);
          break;
        }
        NotBetterTransitive(h[j], h[j], h[j]);
        if j + 1 < n && Better(h[j], h[j + 1]) {
          NotBetterTransitive(h[j], h[j + 1], h[j + 1]);
          NotBetterTransitive(h[j + 1], h[j + 1], h[j + 1]);
          j := j + 1;
        }
        Children(h, n, i, j);
        if !Better(h[i], h[j]) {
          Settled(h, n, i, j);
          break;
        }
        SinkStep(h, n, i, j);
        h := Swapped(h, i, j);
        i := j;
      }
    }

    static lemma Children(h: seq<ScoredDoc>, n: nat, i: nat, j: nat)
      requires n <= |h| && j < n && (j == 2 * i + 1 || j == 2 * i + 2)
      requires 2 * i + 1 < n ==> !Better(h[j], h[2 * i + 1])
      requires 2 * i + 2 < n ==> !Better(h[j], h[2 * i + 2])
      ensures WorseChild(h, n, i, j)
    {
    }

    /** Sinking ends when there is no child or the worse child fits. */
    static lemma Settled(h: seq<ScoredDoc>, n: nat, i: nat, j: nat)
      requires SinkingAt(h, n, i)
      requires 2 * i + 1 >= n || (WorseChild(h, n, i, j) && !Better(h[i], h[j]))
      ensures forall k :: 0 <= k < n ==> EdgeOK(h, k)
    {
      forall k | 0 < k < n && Parent(k) == i ensures EdgeOK(h, k) {
        NotBetterTransitive(h[i], h[j], h[k]);
      }
    }
  }

  // ---- Merge ----

  /** Popping the worst of `best + {x}` leaves the running top k. */
  lemma PopKeepsTopK(k: nat, s: seq<ScoredDoc>, x: ScoredDoc, worst: ScoredDoc)
    requires |TopK(k, s)| == k
    requires var all := multiset(TopK(k, s)) + multiset{x};
             worst in all && forall y :: y in all ==> !Better(worst, y)
    ensures multiset(TopK(k, s + [x])) == multiset(TopK(k, s)) + multiset{x} - multiset{worst}
  {
    var t := TopK(k, s);
    var b := Insert(Better, x, t);
    InsertIntoTopK(k, s, x);
    TopKNext(k, s, x);
    LastIsWorst(b, worst);
    RemoveOne(b, k);
    assert b[..k] + b[k + 1..] == b[..k];
  }

  lemma InsertIntoTopK(k: nat, s: seq<ScoredDoc>, x: ScoredDoc)
    ensures Sorted(Better, Insert(Better, x, TopK(k, s)))
  {
    BetterIsTotal();
    TopKSorted(k, s);
    InsertSorted(Better, x, TopK(k, s));
  }

  lemma LastIsWorst(b: seq<ScoredDoc>, worst: ScoredDoc)
    requires Sorted(Better, b) && worst in multiset(b) && forall y :: y in multiset(b) ==> !Better(worst, y)
    ensures b != [] && b[|b| - 1] == worst
  {
    assert worst in b;
    var i :| 0 <= i < |b| && b[i] == worst;
    var last := b[|b| - 1];
    assert last in multiset(b);
    if i < |b| - 1 {
      assert !Better(last, b[i]);
      LessTotal(last.docID, worst.docID);
    }
  }

  lemma PushKeepsTopK(k: nat, s: seq<ScoredDoc>, x: ScoredDoc)
    requires |TopK(k, s)| < k
    ensures multiset(TopK(k, s + [x])) == multiset(TopK(k, s)) + multiset{x}
  {
    TopKNext(k, s, x);
  }

  method Offer(heap: ScoredDocHeap, doc: ScoredDoc, limit: nat, ghost seen: seq<ScoredDoc>)
    requires limit > 0 && IsHeap(heap.h) && multiset(heap.h) == multiset(TopK(limit, seen))
    modifies heap
    ensures IsHeap(heap.h) && multiset(heap.h) == multiset(TopK(limit, seen + [doc]))
  {
    SameElements(heap.h, TopK(limit, seen));
    heap.Push(doc);
    assert |multiset(heap.h)| == |TopK(limit, seen)| + 1;
    assert |heap.h| == |multiset(heap.h)|;
    if |heap.h| > limit {
      ghost var before := heap.h;
      var worst := heap.Pop();
      forall y | y in multiset(before) ensures !Better(worst, y) { assert y in before; }
      assert worst in multiset(before);
      PopKeepsTopK(limit, seen, doc, worst);
    } else {
      PushKeepsTopK(limit, seen, doc);
    }
  }

  /** `Merge`: exactly the first `limit` documents of everything, sorted; 10 when no
      positive limit is given. */
  method Merge(shardResults: seq<seq<ScoredDoc>>, limit: int) returns (result: seq<ScoredDoc>)
    ensures result == TopK(if limit <= 0 then 10 else limit, Flatten(shardResults))
  {
    var k: nat := if limit <= 0 then 10 else limit;
    var heap := new ScoredDocHeap();
    for i := 0 to |shardResults|
      invariant IsHeap(heap.h) && multiset(heap.h) == multiset(TopK(k, Flatten(shardResults[..i])))
    {
      OfferAll(heap, shardResults[i], k, Flatten(shardResults[..i]));
      assert shardResults[..i + 1][..i] == shardResults[..i];
    }
    assert shardResults[..|shardResults|] == shardResults;
    result := Drain(heap);
    SortedIsTopK(k, Flatten(shardResults), result);
  }

  method OfferAll(heap: ScoredDocHeap, results: seq<ScoredDoc>, k: nat, ghost before: seq<ScoredDoc>)
    requires k > 0 && IsHeap(heap.h) && multiset(heap.h) == multiset(TopK(k, before))
    modifies heap
    ensures IsHeap(heap.h) && multiset(heap.h) == multiset(TopK(k, before + results))
  {
    assert before + results[..0] == before;
    for j := 0 to |results|
      invariant IsHeap(heap.h) && multiset(heap.h) == multiset(TopK(k, before + results[..j]))
    {
      assert before + results[..j] + [results[j]] == before + results[..j + 1];
      Offer(heap, results[j], k, before + results[..j]);
    }
    assert results[..|results|] == results;
  }

  lemma SortedIsTopK(k: nat, s: seq<ScoredDoc>, result: seq<ScoredDoc>)
    requires Sorted(Better, result) && multiset(result) == multiset(TopK(k, s))
    ensures result == TopK(k, s)
  {
    TopKSorted(k, s);
    BetterIsTotal();
    SortedUnique(Better, TopK(k, s), result);
  }

  /** Popping the worst first fills the result from the back. */
  method Drain(heap: ScoredDocHeap) returns (result: seq<ScoredDoc>)
    requires IsHeap(heap.h)
    modifies heap
    ensures Sorted(Better, result) && multiset(result) == multiset(old(heap.h))
  {
    result := [];
    while |heap.h| > 0
      invariant IsHeap(heap.h) && Sorted(Better, result)
      invariant multiset(heap.h) + multiset(result) == multiset(old(heap.h))
      invariant forall x, y :: x in heap.h && y in result ==> !Better(y, x)
      decreases |heap.h|
    {
      ghost var before := heap.h;
      var x := heap.Pop();
      assert |multiset(before)| == |multiset(heap.h)| + 1;
      assert |before| == |multiset(before)| && |heap.h| == |multiset(heap.h)|;
      assert x in multiset(before);
      forall y | y in heap.h ensures y in before { assert y in multiset(heap.h); assert y in multiset(before); }
      assert x in before;
      result := [x] + result;
    }
  }
}
