/**
 BM25 ranking.  Scores are real numbers, so addition commutes and the order in which a
 map is walked does not matter; `log` is a parameter of which nothing is assumed except
 where monotonicity is asked for.
 */
module Ranker {
  import opened Ordering
  import opened Memory

  datatype ScoredDoc = ScoredDoc(docID: string, score: real)

  const K1 := 1.2
  const B := 0.75

  // ---- The formula ----

  function IDFArgument(totalDocs: int, docFreq: int): real
    requires docFreq >= 0
  {
    (totalDocs as real - docFreq as real) / (docFreq as real + 0.5) + 1.0
  }

  function IDF(log: real -> real, totalDocs: int, docFreq: int): real
    requires docFreq >= 0
  {
    log(IDFArgument(totalDocs, docFreq))
  }

  /** A zero denominator (a float infinity in the source) needs a negative length. */
  function TFNorm(termFreq: real, docLength: real, avgDocLength: real): real
    requires avgDocLength != 0.0 ==> termFreq + K1 * (1.0 - B + B * (docLength / avgDocLength)) != 0.0
  {
    if avgDocLength == 0.0 then 0.0
    else (termFreq * (K1 + 1.0)) / (termFreq + K1 * (1.0 - B + B * (docLength / avgDocLength)))
  }

  /** The IDF argument is (N + 0.5) / (df + 0.5): positive even when df exceeds N, as it
      does after a reload, and smaller for more frequent terms. */
  lemma IDFArgumentIs(totalDocs: int, docFreq: int)
    requires docFreq >= 0
    ensures IDFArgument(totalDocs, docFreq) == (totalDocs as real + 0.5) / (docFreq as real + 0.5)
    ensures totalDocs >= 0 ==> IDFArgument(totalDocs, docFreq) > 0.0
  {
    var n, d := totalDocs as real - docFreq as real, docFreq as real + 0.5;
    assert d / d == 1.0;
    assert n / d + d / d == (n + d) / d;
  }

  ghost predicate Increasing(log: real -> real) {
    forall x, y :: 0.0 < x < y ==> log(x) < log(y)
  }

  /** A rarer term weighs more. */
  lemma RarerWeighsMore(log: real -> real, n: int, df: int, df': int)
    requires Increasing(log) && n >= 0 && 0 <= df < df'
    ensures IDF(log, n, df) > IDF(log, n, df')
  {
    IDFArgumentIs(n, df);
    IDFArgumentIs(n, df');
    DivideByMore(n as real + 0.5, df as real + 0.5, df' as real + 0.5);
  }

  lemma Scale(a: real, b: real, c: real)
    requires c > 0.0
    ensures a < b <==> a * c < b * c
    ensures a <= b <==> a * c <= b * c
  {
  }

  lemma DivideByMore(a: real, b: real, b': real)
    requires a > 0.0 && 0.0 < b < b'
    ensures a / b > a / b'
  {
    var q, q' := a / b, a / b';
    assert q * b == a && q' * b' == a;
    Scale(0.0, q', b');
    Scale(b, b', q');
    assert q' * b < q * b;
    Scale(q', q, b);
  }

  function LengthFactor(docLength: real, avgDocLength: real): real
    requires avgDocLength > 0.0
  {
    K1 * (1.0 - B + B * (docLength / avgDocLength))
  }

  lemma LengthFactorGrows(len: real, len': real, avg: real)
    requires avg > 0.0 && 0.0 <= len <= len'
    ensures 0.0 < LengthFactor(len, avg) <= LengthFactor(len', avg)
    ensures len < len' ==> LengthFactor(len, avg) < LengthFactor(len', avg)
  {
    var r, r' := len / avg, len' / avg;
    assert r * avg == len && r' * avg == len';
    Scale(r, r', avg);
    Scale(0.0, r, avg);
  }

  /** With documents indexed, a TF factor lies strictly between 0 and k1 + 1. */
  lemma TFNormBounds(freq: real, len: real, avg: real)
    requires freq > 0.0 && len >= 0.0 && avg > 0.0
    ensures freq + LengthFactor(len, avg) > 0.0
    ensures 0.0 < TFNorm(freq, len, avg) < K1 + 1.0
  {
    LengthFactorGrows(len, len, avg);
    var k := LengthFactor(len, avg);
    FractionBounds(freq, k, K1 + 1.0);
  }

  lemma FractionBounds(f: real, k: real, m: real)
    requires f > 0.0 && k > 0.0 && m > 0.0
    ensures 0.0 < (f * m) / (f + k) < m
  {
    var q := (f * m) / (f + k);
    assert q * (f + k) == f * m;
    Scale(0.0, f, m);
    Scale(0.0, k, m);
    Scale(0.0, q, f + k);
    assert m * (f + k) == f * m + k * m;
    Scale(q, m, f + k);
  }

  /** More occurrences score higher; a longer document scores lower. */
  lemma TFNormMonotone(freq: real, freq': real, len: real, len': real, avg: real)
    requires 0.0 < freq <= freq' && 0.0 <= len <= len' && avg > 0.0
    ensures freq + LengthFactor(len', avg) > 0.0 && freq' + LengthFactor(len, avg) > 0.0
    ensures TFNorm(freq, len', avg) <= TFNorm(freq', len, avg)
    ensures freq < freq' || len < len' ==> TFNorm(freq, len', avg) < TFNorm(freq', len, avg)
  {
    LengthFactorGrows(len, len', avg);
    var k, k' := LengthFactor(len, avg), LengthFactor(len', avg);
    FractionMonotone(freq, freq', k, k', K1 + 1.0);
  }

  lemma FractionMonotone(f: real, f': real, k: real, k': real, m: real)
    requires 0.0 < f <= f' && 0.0 < k <= k' && m > 0.0
    ensures (f * m) / (f + k') <= (f' * m) / (f' + k)
    ensures f < f' || k < k' ==> (f * m) / (f + k') < (f' * m) / (f' + k)
  {
    var p, q := (f * m) / (f + k'), (f' * m) / (f' + k);
    var a, b := f + k', f' + k;
    assert p * a == f * m && q * b == f' * m;
    ProductsGrow(f, f', k, k');
    CrossMultiply(f, f', k, k', m);
    assert p * (a * b) == (p * a) * b && q * (a * b) == (q * b) * a;
    Scale(0.0, a, b);
    Scale(p, q, a * b);
  }

  lemma ProductsGrow(f: real, f': real, k: real, k': real)
    requires 0.0 < f <= f' && 0.0 < k <= k'
    ensures f * k <= f' * k'
    ensures f < f' || k < k' ==> f * k < f' * k'
  {
    Scale(f, f', k);
    Scale(k, k', f');
  }

  lemma CrossMultiply(f: real, f': real, k: real, k': real, m: real)
    requires m > 0.0 && f * k <= f' * k'
    ensures f * m * (f' + k) <= f' * m * (f + k')
    ensures f * k < f' * k' ==> f * m * (f' + k) < f' * m * (f + k')
  {
    assert f' * m * (f + k') - f * m * (f' + k) == m * (f' * k' - f * k);
  }

  // ---- Rounding ----

  /** `math.Round`: half away from zero. */
  function Round(x: real): int {
    if x >= 0.0 then (x + 0.5).Floor else -((0.5 - x).Floor)
  }

  function Round4(x: real): real { Round(x * 10000.0) as real / 10000.0 }

  /** Rounding to four decimals is monotone, and never inverts two raw scores that are
      more than 0.0001 apart. */
  lemma RoundKeepsOrder(x: real, y: real)
    ensures x <= y ==> Round4(x) <= Round4(y)
    ensures x < y - 0.0001 ==> Round4(x) < Round4(y)
  {
    var a, b := x * 10000.0, y * 10000.0;
    RoundMonotone(a, b);
    var i, j := Round(a), Round(b);
    if i <= j { assert i as real / 10000.0 <= j as real / 10000.0; }
    if i < j { assert i as real / 10000.0 < j as real / 10000.0; }
  }

  lemma RoundMonotone(a: real, b: real)
    ensures a <= b ==> Round(a) <= Round(b)
    ensures a + 1.0 < b ==> Round(a) < Round(b)
  {
  }

  /** The result is a multiple of 0.0001 and a nearest one; half way it is the one further
      from zero. */
  lemma RoundIsNearest(x: real)
    ensures Round4(x) == Round(x * 10000.0) as real / 10000.0
    ensures -0.00005 <= Round4(x) - x <= 0.00005
    ensures Round4(x) - x == 0.00005 ==> x > 0.0
    ensures Round4(x) - x == -0.00005 ==> x < 0.0
  {
    var y := x * 10000.0;
    RoundNear(y);
    assert Round4(x) * 10000.0 == Round(y) as real;
  }

  lemma RoundNear(y: real)
    ensures -0.5 <= Round(y) as real - y <= 0.5
    ensures Round(y) as real - y == 0.5 ==> y > 0.0
    ensures Round(y) as real - y == -0.5 ==> y < 0.0
  {
  }

  // ---- Order of results ----

  /** Higher score first, then smaller document id. */
  predicate Better(a: ScoredDoc, b: ScoredDoc) {
    if a.score != b.score then a.score > b.score else Less(a.docID, b.docID)
  }

  lemma BetterIsTotal()
    ensures StrictWeak(Better)
    ensures forall s: seq<ScoredDoc> :: Separates(Better, s)
  {
    LessIsStrictWeak();
    forall x: ScoredDoc, y: ScoredDoc, z: ScoredDoc
      ensures !Better(x, x)
      ensures Better(x, y) && Better(y, z) ==> Better(x, z)
      ensures Better(x, z) ==> Better(x, y) || Better(y, z)
      ensures x != y ==> Better(x, y) || Better(y, x)
    {
      LessIrreflexive(x.docID);
      LessTotal(x.docID, y.docID);
      LessTotal(y.docID, z.docID);
      if Less(x.docID, y.docID) && Less(y.docID, z.docID) { LessTransitive(x.docID, y.docID, z.docID); }
      if Less(y.docID, x.docID) && Less(x.docID, z.docID) { LessTransitive(y.docID, x.docID, z.docID); }
    }
  }

  // ---- Scores ----

  /** What the engine knows beside the postings. */
  datatype Corpus = Corpus(totalDocs: int, avgDocLength: real, docLength: string -> nat)

  /** The average length is never negative; at zero every factor is zero. */
  function TF(corpus: Corpus, p: Posting): real {
    if corpus.avgDocLength <= 0.0 then 0.0
    else
      var len := corpus.docLength(p.docID) as real;
      LengthFactorGrows(len, len, corpus.avgDocLength);
      TFNorm(p.frequency as real, len, corpus.avgDocLength)
  }

  /** What one posting adds to its document's score. */
  function Weight(corpus: Corpus, idf: real): Posting -> real {
    p => idf * TF(corpus, p)
  }

  /** What a posting list adds to a document's score. */
  function ListScore(w: Posting -> real, ps: PostingList, d: string): real {
    if ps == [] then 0.0
    else
      var n := |ps| - 1;
      ListScore(w, ps[..n], d) + if ps[n].docID == d then w(ps[n]) else 0.0
  }

  type PerTerm = map<string, PostingList>

  function TermScore(log: real -> real, corpus: Corpus, m: PerTerm, t: string, d: string): real
  {
    if t in m then ListScore(Weight(corpus, IDF(log, corpus.totalDocs, |m[t]|)), m[t], d) else 0.0
  }

  /** The sum over the terms, in whatever order. */
  ghost function Total(log: real -> real, corpus: Corpus, m: PerTerm, terms: set<string>, d: string): real
  {
    if terms == {} then 0.0
    else
      var t :| t in terms;
      TermScore(log, corpus, m, t, d) + Total(log, corpus, m, terms - {t}, d)
  }

  lemma {:induction false} TotalTake(log: real -> real, corpus: Corpus, m: PerTerm, terms: set<string>, d: string,
                                     t: string)
    requires t in terms
    ensures Total(log, corpus, m, terms, d) == TermScore(log, corpus, m, t, d) + Total(log, corpus, m, terms - {t}, d)
    decreases terms
  {
    var u :| u in terms && Total(log, corpus, m, terms, d)
                        == TermScore(log, corpus, m, u, d) + Total(log, corpus, m, terms - {u}, d);
    if u != t {
      TotalTake(log, corpus, m, terms - {u}, d, t);
      TotalTake(log, corpus, m, terms - {t}, d, u);
      assert terms - {u} - {t} == terms - {t} - {u};
    }
  }

  function DocSet(ps: PostingList): set<string> { set p | p in ps :: p.docID }

  function AllDocs(m: PerTerm, terms: set<string>): set<string> {
    set t, p | t in terms && t in m && p in m[t] :: p.docID
  }

  ghost function Scores(log: real -> real, corpus: Corpus, m: PerTerm): map<string, real>
  {
    map d | d in AllDocs(m, m.Keys) :: Total(log, corpus, m, m.Keys, d)
  }

  // ---- Ranking ----

  function Rounded(scores: map<string, real>, d: string): ScoredDoc
    requires d in scores
  {
    ScoredDoc(d, Round4(scores[d]))
  }

  ghost function ScoredList(scores: map<string, real>): seq<ScoredDoc> {
    ListMap(map d | d in scores :: Rounded(scores, d))
  }

  function Truncate(s: seq<ScoredDoc>, limit: int): seq<ScoredDoc> {
    if limit > 0 && |s| > limit then s[..limit] else s
  }

  ghost function RankScores(scores: map<string, real>, limit: int): seq<ScoredDoc> {
    Truncate(Sort(Better, ScoredList(scores)), limit)
  }

  /** The ranking of per-term posting lists (ranker.go:38-76). */
  ghost function Ranked(log: real -> real, corpus: Corpus, m: PerTerm, limit: int): seq<ScoredDoc>
  {
    RankScores(Scores(log, corpus, m), limit)
  }

  function IdKey(x: ScoredDoc): string { x.docID }

  lemma ScoredListExact(scores: map<string, real>)
    ensures NoDuplicates(ScoredList(scores))
    ensures forall x :: x in ScoredList(scores) <==> x.docID in scores && x == Rounded(scores, x.docID)
    ensures |ScoredList(scores)| == |scores|
  {
    var m := map d | d in scores :: Rounded(scores, d);
    assert m.Keys == scores.Keys;
    ListMapExact(IdKey, m);
    KeySortedNoDuplicates(IdKey, ListMap(m));
  }

  /** Any duplicate-free list of the scored documents sorts to the same ranking. */
  lemma RankingUnique(scores: map<string, real>, all: seq<ScoredDoc>)
    requires NoDuplicates(all)
    requires forall x :: x in all <==> x.docID in scores && x == Rounded(scores, x.docID)
    ensures Sort(Better, all) == Sort(Better, ScoredList(scores))
  {
    BetterIsTotal();
    ScoredListExact(scores);
    SameMembersPermute(all, ScoredList(scores));
    SortPermutation(Better, all, ScoredList(scores));
  }

  /** `scores` is `before` plus the contributions of a posting list. */
  ghost predicate Plus(w: Posting -> real, ps: PostingList, before: map<string, real>, scores: map<string, real>) {
    && scores.Keys == before.Keys + DocSet(ps)
    && forall d :: Get(scores, d) == Get(before, d) + ListScore(w, ps, d)
  }

  lemma PlusNext(w: Posting -> real, ps: PostingList, before: map<string, real>, scores: map<string, real>, p: Posting)
    requires Plus(w, ps, before, scores)
    ensures Plus(w, ps + [p], before, scores[p.docID := Get(scores, p.docID) + w(p)])
  {
    DocSetNext(ps, p);
    forall d
      ensures Get(scores[p.docID := Get(scores, p.docID) + w(p)], d) == Get(before, d) + ListScore(w, ps + [p], d) {
      ListScoreNext(w, ps, p, d);
      assert Get(scores, d) == Get(before, d) + ListScore(w, ps, d);
      AddedScore(scores, p.docID, w(p), d);
    }
  }

  lemma DocSetNext(ps: PostingList, p: Posting)
    ensures DocSet(ps + [p]) == DocSet(ps) + {p.docID}
  {
  }

  lemma AddedScore(scores: map<string, real>, k: string, x: real, d: string)
    ensures Get(scores[k := Get(scores, k) + x], d) == Get(scores, d) + if k == d then x else 0.0
  {
  }

  /** The posting loop for one term. */
  method AddTerm(log: real -> real, corpus: Corpus, ps: PostingList, before: map<string, real>)
    returns (scores: map<string, real>)
    ensures Plus(Weight(corpus, IDF(log, corpus.totalDocs, |ps|)), ps, before, scores)
  {
    scores := before;
    var w := Weight(corpus, IDF(log, corpus.totalDocs, |ps|));
    for i := 0 to |ps|
      invariant Plus(w, ps[..i], before, scores)
    {
      var p := ps[i];
      PlusNext(w, ps[..i], before, scores, p);
      assert ps[..i + 1] == ps[..i] + [p];
      scores := scores[p.docID := Get(scores, p.docID) + w(p)];
    }
    assert ps[..|ps|] == ps;
  }

  function Get(scores: map<string, real>, d: string): real {
    if d in scores then scores[d] else 0.0
  }

  /** `Rank`: accumulate term by term in any order, round, sort, truncate. */
  method Rank(log: real -> real, corpus: Corpus, m: PerTerm, limit: int) returns (result: seq<ScoredDoc>)
    ensures result == Ranked(log, corpus, m, limit)
  {
    var scores := Accumulate(log, corpus, m);
    var all: seq<ScoredDoc> := [];
    var rest := scores.Keys;
    while rest != {}
      invariant rest <= scores.Keys
      invariant forall x :: x in all <==> x.docID in scores.Keys - rest && x == Rounded(scores, x.docID)
      invariant NoDuplicates(all)
      decreases rest
    {
      var d :| d in rest;
      assert Rounded(scores, d) !in all;
      all := all + [Rounded(scores, d)];
      rest := rest - {d};
    }
    RankingUnique(scores, all);
    result := Truncate(Sort(Better, all), limit);
  }

  method Accumulate(log: real -> real, corpus: Corpus, m: PerTerm) returns (scores: map<string, real>)
    ensures scores == Scores(log, corpus, m)
  {
    scores := map[];
    var rest := m.Keys;
    ghost var done: set<string> := {};
    while rest != {}
      invariant rest <= m.Keys && done == m.Keys - rest
      invariant scores.Keys == AllDocs(m, done)
      invariant forall d :: Get(scores, d) == Total(log, corpus, m, done, d)
      decreases rest
    {
      var t :| t in rest;
      ghost var before := scores;
      scores := AddTerm(log, corpus, m[t], scores);
      forall d ensures Get(scores, d) == Total(log, corpus, m, done + {t}, d) {
        TotalTake(log, corpus, m, done + {t}, d, t);
        assert done + {t} - {t} == done;
        assert Get(scores, d) == Get(before, d) + TermScore(log, corpus, m, t, d);
      }
      AllDocsNext(m, done, t);
      rest := rest - {t};
      done := done + {t};
    }
    assert done == m.Keys;
    ScoresAre(log, corpus, m, scores);
  }

  lemma AllDocsNext(m: PerTerm, done: set<string>, t: string)
    requires t in m
    ensures AllDocs(m, done + {t}) == AllDocs(m, done) + DocSet(m[t])
  {
  }

  lemma ScoresAre(log: real -> real, corpus: Corpus, m: PerTerm, scores: map<string, real>)
    requires scores.Keys == AllDocs(m, m.Keys)
    requires forall d :: Get(scores, d) == Total(log, corpus, m, m.Keys, d)
    ensures scores == Scores(log, corpus, m)
  {
    var want := Scores(log, corpus, m);
    forall d | d in scores.Keys ensures scores[d] == want[d] {
      assert Get(scores, d) == scores[d];
    }
  }

  // ---- Properties of a ranking ----

  /** Sorted, one result per scored document, and cut to the limit. */
  lemma RankedShape(scores: map<string, real>, limit: int)
    ensures Sorted(Better, RankScores(scores, limit))
    ensures limit <= 0 ==> |RankScores(scores, limit)| == |scores|
    ensures limit > 0 ==> |RankScores(scores, limit)| == if |scores| < limit then |scores| else limit
    ensures forall x :: x in RankScores(scores, limit) ==> x.docID in scores && x.score == Round4(scores[x.docID])
  {
    BetterIsTotal();
    ScoredListExact(scores);
    var full := Sort(Better, ScoredList(scores));
    SortSorted(Better, ScoredList(scores));
    SameElements(full, ScoredList(scores));
    var r := RankScores(scores, limit);
    forall x | x in r ensures x in full { }
  }

  /** Higher score first; of equal scores the smaller id first. */
  ghost predicate Precedes(a: ScoredDoc, b: ScoredDoc) {
    a.score > b.score || (a.score == b.score && Less(a.docID, b.docID))
  }

  /** The ranking of some scores, said without sorting: rounded scores of different documents
      in order, as many as the limit allows, and every document left out comes after them. */
  ghost predicate TopOf(scores: map<string, real>, limit: int, r: seq<ScoredDoc>) {
    && |r| == (if 0 < limit < |scores| then limit else |scores|)
    && (forall x :: x in r ==> x.docID in scores && x.score == Round4(scores[x.docID]))
    && (forall i, j :: 0 <= i < j < |r| ==> Precedes(r[i], r[j]))
    && (forall d, i :: d in scores && ScoredDoc(d, Round4(scores[d])) !in r && 0 <= i < |r| ==>
          Precedes(r[i], ScoredDoc(d, Round4(scores[d]))))
  }

  lemma RankedIsTop(scores: map<string, real>, limit: int)
    ensures TopOf(scores, limit, RankScores(scores, limit))
  {
    var full := Sort(Better, ScoredList(scores));
    RankedShape(scores, 0);
    forall i, j | 0 <= i < j < |full| ensures Precedes(full[i], full[j]) { FullInOrder(scores, i, j); }
    forall d | d in scores ensures ScoredDoc(d, Round4(scores[d])) in full { var _ := PlaceInFull(scores, d); }
    CutIsTop(scores, limit, full);
  }

  lemma CutIsTop(scores: map<string, real>, limit: int, full: seq<ScoredDoc>)
    requires |full| == |scores|
    requires forall i, j :: 0 <= i < j < |full| ==> Precedes(full[i], full[j])
    requires forall x :: x in full ==> x.docID in scores && x.score == Round4(scores[x.docID])
    requires forall d :: d in scores ==> ScoredDoc(d, Round4(scores[d])) in full
    ensures TopOf(scores, limit, Truncate(full, limit))
  {
    var r := Truncate(full, limit);
    forall d, i | d in scores && ScoredDoc(d, Round4(scores[d])) !in r && 0 <= i < |r|
      ensures Precedes(r[i], ScoredDoc(d, Round4(scores[d])))
    {
      var j :| 0 <= j < |full| && full[j] == ScoredDoc(d, Round4(scores[d]));
      LeftOut(full, r, j);
    }
  }

  lemma LeftOut(full: seq<ScoredDoc>, r: seq<ScoredDoc>, j: nat)
    requires r <= full && j < |full| && full[j] !in r
    ensures |r| <= j
  {
    assert forall k :: 0 <= k < |r| ==> r[k] in r;
  }

  lemma PlaceInFull(scores: map<string, real>, d: string) returns (j: nat)
    requires d in scores
    ensures var full := Sort(Better, ScoredList(scores)); j < |full| && full[j] == ScoredDoc(d, Round4(scores[d]))
  {
    ScoredListExact(scores);
    SameElements(Sort(Better, ScoredList(scores)), ScoredList(scores));
    assert ScoredDoc(d, Round4(scores[d])) in ScoredList(scores);
    j :| 0 <= j < |ScoredList(scores)| && Sort(Better, ScoredList(scores))[j] == ScoredDoc(d, Round4(scores[d]));
  }

  lemma FullInOrder(scores: map<string, real>, i: nat, j: nat)
    requires i < j < |Sort(Better, ScoredList(scores))|
    ensures var full := Sort(Better, ScoredList(scores)); Precedes(full[i], full[j])
  {
    BetterIsTotal();
    ScoredListExact(scores);
    SortSorted(Better, ScoredList(scores));
    PermutedNoDuplicates(ScoredList(scores), Sort(Better, ScoredList(scores)));
    InOrder(Sort(Better, ScoredList(scores)), i, j);
  }

  lemma InOrder(full: seq<ScoredDoc>, i: nat, j: nat)
    requires Sorted(Better, full) && NoDuplicates(full) && i < j < |full|
    ensures Precedes(full[i], full[j])
  {
    assert !Better(full[j], full[i]) && full[i] != full[j];
    LessTotal(full[i].docID, full[j].docID);
  }

  /** No document is listed twice. */
  lemma RankedOnce(scores: map<string, real>, limit: int)
    ensures var r := RankScores(scores, limit); forall i, j :: 0 <= i < j < |r| ==> r[i].docID != r[j].docID
  {
    var all, r := Sort(Better, ScoredList(scores)), RankScores(scores, limit);
    ScoredListExact(scores);
    PermutedNoDuplicates(ScoredList(scores), all);
    SameElements(ScoredList(scores), all);
    forall i, j | 0 <= i < j < |r| ensures r[i].docID != r[j].docID {
      assert r[i] == all[i] && r[j] == all[j] && all[i] in all && all[j] in all;
      assert all[i] == Rounded(scores, all[i].docID) && all[j] == Rounded(scores, all[j].docID);
    }
  }

  /** Documents that all score the same are listed by id. */
  lemma EqualScoresById(scores: map<string, real>, limit: int)
    requires forall x :: x in RankScores(scores, limit) ==> x.score == 0.0
    ensures KeySorted(IdKey, RankScores(scores, limit))
  {
    var r := RankScores(scores, limit);
    RankedShape(scores, limit);
    RankedOnce(scores, limit);
    forall i, j | 0 <= i < j < |r| ensures Less(IdKey(r[i]), IdKey(r[j])) {
      assert r[i] in r && r[j] in r && !Better(r[j], r[i]);
      LessTotal(r[i].docID, r[j].docID);
    }
  }

  /** A smaller limit gives a prefix of what a larger one gives. */
  lemma SmallerLimitIsPrefix(scores: map<string, real>, k: int, l: int)
    requires 0 < k && (k <= l || l <= 0)
    ensures RankScores(scores, k) <= RankScores(scores, l)
  {
    TruncatePrefix(Sort(Better, ScoredList(scores)), k, l);
  }

  lemma TruncatePrefix(s: seq<ScoredDoc>, k: int, l: int)
    requires 0 < k && (k <= l || l <= 0)
    ensures Truncate(s, k) <= Truncate(s, l)
  {
    if l > 0 && |s| > l { assert s[..k] == s[..l][..k]; }
  }

  /** A document whose raw score is more than 0.0001 higher is listed first. */
  lemma ClearlyHigherComesFirst(scores: map<string, real>, limit: int, i: nat, j: nat)
    requires var r := RankScores(scores, limit);
             && i < |r| && j < |r| && r[i].docID in scores && r[j].docID in scores
             && scores[r[i].docID] < scores[r[j].docID] - 0.0001
    ensures j < i
  {
    var r := RankScores(scores, limit);
    RankedShape(scores, limit);
    assert r[i] in r && r[j] in r;
    RoundKeepsOrder(scores[r[i].docID], scores[r[j].docID]);
    HigherIsEarlier(r, i, j);
  }

  lemma HigherIsEarlier(r: seq<ScoredDoc>, i: nat, j: nat)
    requires Sorted(Better, r) && i < |r| && j < |r| && r[i].score < r[j].score
    ensures j < i
  {
    assert Better(r[j], r[i]);
  }

  /** With an average length of zero, as after a restart that only reloads segments, every
      hit scores 0 and the ranking is by document id alone. */
  lemma {:induction false} ZeroAverageScoresZero(log: real -> real, corpus: Corpus, m: PerTerm, terms: set<string>,
                                                 d: string)
    requires corpus.avgDocLength == 0.0
    ensures Total(log, corpus, m, terms, d) == 0.0
    decreases terms
  {
    if terms != {} {
      var t :| t in terms && Total(log, corpus, m, terms, d)
                          == TermScore(log, corpus, m, t, d) + Total(log, corpus, m, terms - {t}, d);
      ZeroAverageScoresZero(log, corpus, m, terms - {t}, d);
      if t in m { ZeroListScore(Weight(corpus, IDF(log, corpus.totalDocs, |m[t]|)), m[t], d); }
      assert TermScore(log, corpus, m, t, d) == 0.0;
    }
  }

  /** So the ranking depends only on which documents are listed. */
  lemma ZeroRankedByDocs(log: real -> real, a: Corpus, b: Corpus, m: PerTerm, m': PerTerm, limit: int)
    requires a.avgDocLength == 0.0 && b.avgDocLength == 0.0 && AllDocs(m, m.Keys) == AllDocs(m', m'.Keys)
    ensures Ranked(log, a, m, limit) == Ranked(log, b, m', limit)
  {
    forall d | d in AllDocs(m, m.Keys)
      ensures Total(log, a, m, m.Keys, d) == 0.0 && Total(log, b, m', m'.Keys, d) == 0.0
    {
      ZeroAverageScoresZero(log, a, m, m.Keys, d);
      ZeroAverageScoresZero(log, b, m', m'.Keys, d);
    }
    assert Scores(log, a, m) == Scores(log, b, m');
  }

  lemma {:induction false} ZeroListScore(w: Posting -> real, ps: PostingList, d: string)
    requires forall p :: w(p) == 0.0
    ensures ListScore(w, ps, d) == 0.0
  {
    if ps != [] { ZeroListScore(w, ps[..|ps| - 1], d); }
  }

  // ---- The score of a document, in numbers ----

  /** Each document is listed once, with at least one occurrence. */
  ghost predicate Counted(ps: PostingList) {
    DistinctKeys(DocKey, ps) && forall p :: p in ps ==> p.frequency > 0
  }

  /** How often the listed document has the term; 0 when it is not listed. */
  function FrequencyIn(ps: PostingList, d: string): nat {
    if ps == [] then 0
    else if ps[|ps| - 1].docID == d then ps[|ps| - 1].frequency
    else FrequencyIn(ps[..|ps| - 1], d)
  }

  lemma {:induction false} FrequencyListed(ps: PostingList, p: Posting)
    requires Counted(ps) && p in ps
    ensures FrequencyIn(ps, p.docID) == p.frequency
  {
    var n := |ps| - 1;
    if ps[n].docID != p.docID {
      assert p in ps[..n];
      FrequencyListed(ps[..n], p);
    } else {
      var i :| 0 <= i <= n && ps[i] == p;
      assert i < n ==> DocKey(ps[i]) != DocKey(ps[n]);
    }
  }

  lemma {:induction false} FrequencyUnlisted(ps: PostingList, d: string)
    ensures (forall p :: p in ps ==> p.docID != d) ==> FrequencyIn(ps, d) == 0
    ensures Counted(ps) && FrequencyIn(ps, d) == 0 ==> forall p :: p in ps ==> p.docID != d
  {
    if ps != [] {
      var n := |ps| - 1;
      FrequencyUnlisted(ps[..n], d);
      assert ps == ps[..n] + [ps[n]];
    }
  }

  /** BM25 with k1 = 1.2 and b = 0.75, for a term that `df` of `n` documents have. */
  function BM25(log: real -> real, n: int, df: nat, freq: nat, len: nat, avg: real): real
    requires avg > 0.0
  {
    LengthFactorGrows(len as real, len as real, avg);
    log((n as real + 0.5) / (df as real + 0.5))
    * ((freq as real * 2.2) / (freq as real + 1.2 * (0.25 + 0.75 * (len as real / avg))))
  }

  lemma WeightIs(log: real -> real, corpus: Corpus, df: nat, p: Posting)
    requires corpus.avgDocLength > 0.0
    ensures Weight(corpus, IDF(log, corpus.totalDocs, df))(p)
         == BM25(log, corpus.totalDocs, df, p.frequency, corpus.docLength(p.docID), corpus.avgDocLength)
  {
    IDFArgumentIs(corpus.totalDocs, df);
    var len := corpus.docLength(p.docID) as real;
    LengthFactorGrows(len, len, corpus.avgDocLength);
    assert LengthFactor(len, corpus.avgDocLength) == 1.2 * (0.25 + 0.75 * (len / corpus.avgDocLength));
  }

  /** What a term adds to any document's score, listed or not. */
  lemma TermScoreIs(log: real -> real, corpus: Corpus, m: PerTerm, t: string, d: string)
    requires t in m && Counted(m[t]) && corpus.avgDocLength > 0.0
    ensures TermScore(log, corpus, m, t, d)
         == BM25(log, corpus.totalDocs, |m[t]|, FrequencyIn(m[t], d), corpus.docLength(d), corpus.avgDocLength)
  {
    ListScoreIs(log, corpus, |m[t]|, m[t], d);
  }

  lemma {:induction false} ListScoreIs(log: real -> real, corpus: Corpus, df: nat, ps: PostingList, d: string)
    requires Counted(ps) && corpus.avgDocLength > 0.0
    ensures ListScore(Weight(corpus, IDF(log, corpus.totalDocs, df)), ps, d)
         == BM25(log, corpus.totalDocs, df, FrequencyIn(ps, d), corpus.docLength(d), corpus.avgDocLength)
  {
    BM25OfNone(log, corpus.totalDocs, df, corpus.docLength(d), corpus.avgDocLength);
    if ps != [] {
      var n := |ps| - 1;
      ListScoreIs(log, corpus, df, ps[..n], d);
      WeightIs(log, corpus, df, ps[n]);
      if ps[n].docID == d {
        assert forall i :: 0 <= i < n ==> DocKey(ps[i]) != DocKey(ps[n]);
        FrequencyUnlisted(ps[..n], d);
      }
    }
  }

  lemma BM25OfNone(log: real -> real, n: int, df: nat, len: nat, avg: real)
    requires avg > 0.0
    ensures BM25(log, n, df, 0, len, avg) == 0.0
  {
    LengthFactorGrows(len as real, len as real, avg);
  }

  /** The factor beside the logarithm. */
  function Saturation(freq: nat, len: nat, avg: real): real
    requires avg > 0.0
  {
    LengthFactorGrows(len as real, len as real, avg);
    TFNorm(freq as real, len as real, avg)
  }

  lemma SaturationMonotone(f: nat, f': nat, len: nat, len': nat, avg: real)
    requires avg > 0.0 && f <= f' && len' <= len
    ensures Saturation(f, len, avg) <= Saturation(f', len', avg)
    ensures f < f' || (0 < f && len' < len) ==> Saturation(f, len, avg) < Saturation(f', len', avg)
  {
    LengthFactorGrows(len as real, len as real, avg);
    if f > 0 {
      TFNormMonotone(f as real, f' as real, len' as real, len as real, avg);
    } else {
      assert Saturation(f, len, avg) == 0.0;
      LengthFactorGrows(len' as real, len' as real, avg);
      if f' > 0 { TFNormBounds(f' as real, len' as real, avg); }
    }
  }

  lemma BM25Is(log: real -> real, n: int, df: nat, f: nat, len: nat, avg: real)
    requires avg > 0.0
    ensures BM25(log, n, df, f, len, avg) == Saturation(f, len, avg) * log((n as real + 0.5) / (df as real + 0.5))
  {
    LengthFactorGrows(len as real, len as real, avg);
  }

  ghost predicate Grows(log: real -> real, n: int, df: nat, f: nat, f': nat, len: nat, len': nat, avg: real)
    requires avg > 0.0
  {
    && BM25(log, n, df, f, len, avg) <= BM25(log, n, df, f', len', avg)
    && (f < f' || (0 < f && len' < len) ==> BM25(log, n, df, f, len, avg) < BM25(log, n, df, f', len', avg))
  }

  lemma BM25Monotone(log: real -> real, n: int, df: nat, f: nat, f': nat, len: nat, len': nat, avg: real)
    requires avg > 0.0 && log((n as real + 0.5) / (df as real + 0.5)) > 0.0 && f <= f' && len' <= len
    ensures Grows(log, n, df, f, f', len, len', avg)
  {
    BM25Is(log, n, df, f, len, avg);
    BM25Is(log, n, df, f', len', avg);
    SaturationMonotone(f, f', len, len', avg);
    Scale(Saturation(f, len, avg), Saturation(f', len', avg), log((n as real + 0.5) / (df as real + 0.5)));
  }

  /** `e` has every term at least as often as `d` and is no longer. */
  ghost predicate NoLessRelevant(corpus: Corpus, m: PerTerm, terms: set<string>, d: string, e: string)
    requires terms <= m.Keys
  {
    && corpus.docLength(e) <= corpus.docLength(d)
    && forall t :: t in terms ==> FrequencyIn(m[t], d) <= FrequencyIn(m[t], e)
  }

  /** And one of them more often, or it is shorter and `d` has one of them at all. */
  ghost predicate SomewhereMore(corpus: Corpus, m: PerTerm, t: string, d: string, e: string)
    requires t in m
  {
    || FrequencyIn(m[t], d) < FrequencyIn(m[t], e)
    || (0 < FrequencyIn(m[t], d) && corpus.docLength(e) < corpus.docLength(d))
  }

  /** With positive weights, occurring more often or in a shorter document scores strictly
      higher. */
  lemma {:induction false} MoreRelevantScoresHigher(log: real -> real, corpus: Corpus, m: PerTerm, terms: set<string>,
                                                    d: string, e: string)
    requires corpus.avgDocLength > 0.0 && terms <= m.Keys && NoLessRelevant(corpus, m, terms, d, e)
    requires forall t :: t in terms ==>
               Counted(m[t]) && log((corpus.totalDocs as real + 0.5) / (|m[t]| as real + 0.5)) > 0.0
    ensures Total(log, corpus, m, terms, d) <= Total(log, corpus, m, terms, e)
    ensures (exists t :: t in terms && SomewhereMore(corpus, m, t, d, e)) ==>
              Total(log, corpus, m, terms, d) < Total(log, corpus, m, terms, e)
    decreases terms
  {
    if terms != {} {
      var t :| t in terms && ((exists u :: u in terms && SomewhereMore(corpus, m, u, d, e)) ==>
                                SomewhereMore(corpus, m, t, d, e));
      TotalTake(log, corpus, m, terms, d, t);
      TotalTake(log, corpus, m, terms, e, t);
      TermScoreIs(log, corpus, m, t, d);
      TermScoreIs(log, corpus, m, t, e);
      BM25Monotone(log, corpus.totalDocs, |m[t]|, FrequencyIn(m[t], d), FrequencyIn(m[t], e),
                   corpus.docLength(d), corpus.docLength(e), corpus.avgDocLength);
      MoreRelevantScoresHigher(log, corpus, m, terms - {t}, d, e);
    }
  }

  // ---- Independence of list order ----

  lemma {:induction false} ListScoreRemove(w: Posting -> real, ps: PostingList, d: string, k: nat)
    requires k < |ps|
    ensures ListScore(w, ps, d)
         == ListScore(w, ps[..k] + ps[k + 1..], d) + if ps[k].docID == d then w(ps[k]) else 0.0
    decreases |ps|
  {
    var n := |ps| - 1;
    if k == n {
      assert ps[..k] + ps[k + 1..] == ps[..n];
    } else {
      ListScoreRemove(w, ps[..n], d, k);
      CutNext(ps, k);
      ListScoreNext(w, ps[..n][..k] + ps[..n][k + 1..], ps[n], d);
    }
  }

  lemma ListScoreNext(w: Posting -> real, ps: PostingList, p: Posting, d: string)
    ensures ListScore(w, ps + [p], d) == ListScore(w, ps, d) + if p.docID == d then w(p) else 0.0
  {
    assert (ps + [p])[..|ps|] == ps;
  }

  /** A list's contribution does not depend on its order. */
  lemma {:induction false} ListScorePermutation(w: Posting -> real, w': Posting -> real, ps: PostingList,
                                                qs: PostingList, d: string)
    requires multiset(ps) == multiset(qs)
    requires forall p :: p in ps ==> w(p) == w'(p)
    ensures ListScore(w, ps, d) == ListScore(w', qs, d)
    decreases |ps|
  {
    SameElements(ps, qs);
    if ps != [] {
      var n := |ps| - 1;
      assert ps[n] in qs;
      var k :| 0 <= k < |qs| && qs[k] == ps[n];
      var cut := qs[..k] + qs[k + 1..];
      RemoveOne(ps, n);
      RemoveOne(qs, k);
      assert ps[..n] + ps[n + 1..] == ps[..n];
      ListScorePermutation(w, w', ps[..n], cut, d);
      ListScoreRemove(w', qs, d, k);
    }
  }

  ghost predicate SameLists(m: PerTerm, m': PerTerm) {
    m.Keys == m'.Keys && forall t :: t in m ==> multiset(m[t]) == multiset(m'[t])
  }

  lemma {:induction false} TotalPermutation(log: real -> real, a: Corpus, b: Corpus, m: PerTerm, m': PerTerm,
                                            terms: set<string>, d: string)
    requires a.avgDocLength == b.avgDocLength && a.totalDocs == b.totalDocs
    requires SameLists(m, m')
    requires forall t, p :: t in m && p in m[t] ==> a.docLength(p.docID) == b.docLength(p.docID)
    ensures Total(log, a, m, terms, d) == Total(log, b, m', terms, d)
    decreases terms
  {
    if terms != {} {
      var t :| t in terms && Total(log, a, m, terms, d)
                          == TermScore(log, a, m, t, d) + Total(log, a, m, terms - {t}, d);
      TotalTake(log, b, m', terms, d, t);
      TotalPermutation(log, a, b, m, m', terms - {t}, d);
      if t in m {
        SameElements(m[t], m'[t]);
        var idf := IDF(log, a.totalDocs, |m[t]|);
        ListScorePermutation(Weight(a, idf), Weight(b, idf), m[t], m'[t], d);
      }
      assert TermScore(log, a, m, t, d) == TermScore(log, b, m', t, d);
    }
  }

  /** The ranking does not depend on the order of posting lists. */
  lemma RankedPermutation(log: real -> real, a: Corpus, b: Corpus, m: PerTerm, m': PerTerm, limit: int)
    requires a.avgDocLength == b.avgDocLength && a.totalDocs == b.totalDocs
    requires SameLists(m, m')
    requires forall t, p :: t in m && p in m[t] ==> a.docLength(p.docID) == b.docLength(p.docID)
    ensures Ranked(log, a, m, limit) == Ranked(log, b, m', limit)
  {
    forall t | t in m ensures forall p :: p in m[t] <==> p in m'[t] {
      SameElements(m[t], m'[t]);
    }
    assert AllDocs(m, m.Keys) == AllDocs(m', m'.Keys);
    forall d | d in AllDocs(m, m.Keys)
      ensures Total(log, a, m, m.Keys, d) == Total(log, b, m', m'.Keys, d)
    {
      TotalPermutation(log, a, b, m, m', m.Keys, d);
    }
    assert Scores(log, a, m) == Scores(log, b, m');
  }
}
