/**
 The key of the query cache.  A query is normalised to a key string in which words are
 lower-cased and sorted; `Parse` reads the same words into a plan.  The two disagree about
 a NOT that is followed by a word without tokens, and about commas.  This module compares
 them for every query: what a key determines, which tokens the two walks place
 differently, and when that leaves the plan's sets of terms and exclusions unchanged.
 */
module CacheKey {
  import opened Ordering
  import opened Tokenizer
  import opened Parser

  // ---- normalizeQuery ----

  datatype Norm = Norm(terms: seq<string>, excludes: seq<string>, queryType: QueryType, pending: bool)

  const NORM_START := Norm([], [], QueryAND, false)

  function NormAdvance(p: Norm, w: Word): Norm {
    match w.kind
    case AndOp => p.(queryType := QueryAND)
    case OrOp => p.(queryType := QueryOR)
    case NotOp => p.(pending := true)
    case Plain =>
      if p.pending then p.(excludes := p.excludes + [w.text], pending := false)
      else p.(terms := p.terms + [w.text])
  }

  function NormWords(words: seq<Word>): Norm {
    if words == [] then NORM_START
    else NormAdvance(NormWords(words[..|words| - 1]), words[|words| - 1])
  }

  function Join(parts: seq<string>, sep: char): string {
    if parts == [] then ""
    else if |parts| == 1 then parts[0]
    else parts[0] + [sep] + Join(parts[1..], sep)
  }

  function TypeName(t: QueryType): string { if t == QueryAND then "AND" else "OR" }

  function KeyText(t: QueryType, terms: seq<string>, excludes: seq<string>): string {
    TypeName(t) + "|" + (Join(terms, ',') + if excludes == [] then "" else "|" + ("NOT:" + Join(excludes, ',')))
  }

  function NormKey(p: Norm): string {
    KeyText(p.queryType, Sort(Less, p.terms), Sort(Less, p.excludes))
  }

  function Normalized(query: string): string {
    NormKey(NormWords(ClassifyAll(QueryWords(ToLower(query)))))
  }

  /** `normalizeQuery` as the source's loop. */
  method NormalizeQuery(query: string) returns (key: string)
    ensures key == Normalized(query)
  {
    var words := QueryWords(ToLower(query));
    ghost var all := ClassifyAll(words);
    var terms: seq<string>, excludes: seq<string>, queryType, excludeNext := [], [], QueryAND, false;
    for i := 0 to |words|
      invariant NormWords(all[..i]) == Norm(terms, excludes, queryType, excludeNext)
    {
      assert all[..i + 1][..i] == all[..i];
      var w := words[i];
      match KindOf(w) {
        case AndOp => queryType := QueryAND;
        case OrOp => queryType := QueryOR;
        case NotOp => excludeNext := true;
        case Plain =>
          if excludeNext {
            excludes := excludes + [w];
            excludeNext := false;
          } else {
            terms := terms + [w];
          }
      }
    }
    assert all[..|words|] == all;
    key := KeyText(queryType, Sort(Less, terms), Sort(Less, excludes));
  }

  // ---- buildKey ----

  function Digits(n: nat): string {
    var last := [('0' as int + n % 10) as char];
    if n < 10 then last else Digits(n / 10) + last
  }

  function Itoa(n: int): string { if n < 0 then "-" + Digits(-n) else Digits(n) }

  function Value(s: string): int {
    if s == "" then 0 else 10 * Value(s[..|s| - 1]) + (s[|s| - 1] as int - '0' as int)
  }

  ghost predicate AllDigits(s: string) { forall i :: 0 <= i < |s| ==> '0' <= s[i] <= '9' }

  lemma {:induction false} DigitsRead(n: nat)
    ensures AllDigits(Digits(n)) && Digits(n) != "" && Value(Digits(n)) == n
  {
    var d := Digits(n);
    if n >= 10 { DigitsRead(n / 10); }
    assert d[..|d| - 1] == if n < 10 then "" else Digits(n / 10);
  }

  lemma ItoaInjective(a: int, b: int)
    requires Itoa(a) == Itoa(b)
    ensures a == b
  {
    DigitsRead(if a < 0 then -a else a);
    DigitsRead(if b < 0 then -b else b);
    if a < 0 { assert Itoa(a)[0] == '-' && Itoa(a)[1..] == Digits(-a); }
    if b < 0 { assert Itoa(b)[0] == '-' && Itoa(b)[1..] == Digits(-b); }
  }

  /** The string that `buildKey` hashes. */
  function RawKey(query: string, limit: int): string {
    Normalized(query) + ":" + ("limit=" + Itoa(limit))
  }

  // ---- Reading a key back ----

  lemma SplitFirst(a: string, b: string, a': string, b': string, c: char)
    requires a + [c] + b == a' + [c] + b' && c !in a && c !in a'
    ensures a == a' && b == b'
  {
    var s := a + [c] + b;
    assert s[|a|] == c && s[|a'|] == c;
    assert a == s[..|a|] && a' == s[..|a'|];
    assert b == s[|a| + 1..] && b' == s[|a'| + 1..];
  }

  lemma SplitLast(a: string, b: string, a': string, b': string, c: char)
    requires a + [c] + b == a' + [c] + b' && c !in b && c !in b'
    ensures a == a' && b == b'
  {
    var s := a + [c] + b;
    var t := a' + [c] + b';
    assert s[|a|] == c && t[|a'|] == c;
    assert a == s[..|a|] && a' == s[..|a'|];
    assert b == s[|a| + 1..] && b' == s[|a'| + 1..];
  }

  // ---- Words of a key ----

  /** A lower-case word without commas and white space. */
  ghost predicate KeyWord(w: string) {
    w != "" && forall i :: 0 <= i < |w| ==> !IsUpper(w[i]) && !IsSpace(w[i]) && w[i] != ','
  }

  ghost predicate AllKeyWords(ws: seq<string>) { forall i :: 0 <= i < |ws| ==> KeyWord(ws[i]) }

  lemma {:induction false} JoinChars(ws: seq<string>)
    requires AllKeyWords(ws)
    ensures forall c :: c in Join(ws, ',') ==> !IsUpper(c)
    ensures ws != [] ==> Join(ws, ',') != ""
  {
    if |ws| > 1 { JoinChars(ws[1..]); }
  }

  lemma JoinHasSep(a: seq<string>, sep: char)
    requires |a| > 1
    ensures sep in Join(a, sep)
  {
    assert Join(a, sep)[|a[0]|] == sep;
  }

  lemma {:induction false} JoinInjective(a: seq<string>, b: seq<string>)
    requires AllKeyWords(a) && AllKeyWords(b) && Join(a, ',') == Join(b, ',')
    ensures a == b
    decreases |a|
  {
    JoinChars(a);
    JoinChars(b);
    if |a| > 1 { JoinHasSep(a, ','); }
    if |b| > 1 { JoinHasSep(b, ','); }
    if |a| == 1 && |b| == 1 {
      assert a == [a[0]] && b == [b[0]];
    } else if |a| > 1 && |b| > 1 {
      SplitFirst(a[0], Join(a[1..], ','), b[0], Join(b[1..], ','), ',');
      JoinInjective(a[1..], b[1..]);
      assert a == [a[0]] + a[1..] && b == [b[0]] + b[1..];
    }
  }

  /** What follows the type in a key: the only capital letters are those of the marker. */
  function KeyRest(terms: seq<string>, excludes: seq<string>): string {
    Join(terms, ',') + if excludes == [] then "" else "|" + ("NOT:" + Join(excludes, ','))
  }

  lemma RestInjective(ts: seq<string>, es: seq<string>, ts': seq<string>, es': seq<string>)
    requires AllKeyWords(ts) && AllKeyWords(es) && AllKeyWords(ts') && AllKeyWords(es')
    requires KeyRest(ts, es) == KeyRest(ts', es')
    ensures ts == ts' && es == es'
  {
    RestMarked(ts, es);
    RestMarked(ts', es');
    if es != [] {
      var a, a' := Join(ts, ',') + "|", Join(ts', ',') + "|";
      SplitFirst(a, "OT:" + Join(es, ','), a', "OT:" + Join(es', ','), 'N');
      assert Join(ts, ',') == a[..|a| - 1] && Join(ts', ',') == a'[..|a'| - 1];
      assert Join(es, ',') == ("OT:" + Join(es, ','))[3..] && Join(es', ',') == ("OT:" + Join(es', ','))[3..];
      JoinInjective(es, es');
    }
    JoinInjective(ts, ts');
  }

  lemma RestMarked(ts: seq<string>, es: seq<string>)
    requires AllKeyWords(ts) && AllKeyWords(es)
    ensures 'N' !in Join(ts, ',') + "|"
    ensures es == [] ==> KeyRest(ts, es) == Join(ts, ',')
    ensures es != [] ==> KeyRest(ts, es) == (Join(ts, ',') + "|") + ['N'] + ("OT:" + Join(es, ','))
    ensures 'N' in KeyRest(ts, es) <==> es != []
  {
    JoinChars(ts);
    if es != [] { assert KeyRest(ts, es)[|Join(ts, ',')| + 1] == 'N'; }
  }

  lemma KeyTextInjective(t: QueryType, ts: seq<string>, es: seq<string>, t': QueryType, ts': seq<string>,
                         es': seq<string>)
    requires AllKeyWords(ts) && AllKeyWords(es) && AllKeyWords(ts') && AllKeyWords(es')
    requires KeyText(t, ts, es) == KeyText(t', ts', es')
    ensures t == t' && ts == ts' && es == es'
  {
    SplitFirst(TypeName(t), KeyRest(ts, es), TypeName(t'), KeyRest(ts', es'), '|');
    RestInjective(ts, es, ts', es');
  }

  // ---- Words of a query ----

  ghost predicate NoComma(query: string) { ',' !in query }

  function LowerAll(ws: seq<string>): (r: seq<string>)
    ensures |r| == |ws| && forall i :: 0 <= i < |ws| ==> r[i] == ToLower(ws[i])
  {
    seq(|ws|, i requires 0 <= i < |ws| => ToLower(ws[i]))
  }

  lemma {:induction false} FieldsOfLower(s: string, word: string)
    ensures FieldsFrom(IsSpace, ToLower(s), ToLower(word)) == LowerAll(FieldsFrom(IsSpace, s, word))
    decreases |s|
  {
    if s != "" {
      assert ToLower(s)[1..] == ToLower(s[1..]);
      if IsSpace(s[0]) {
        FieldsOfLower(s[1..], "");
      } else {
        FieldsOfLower(s[1..], word + [s[0]]);
        assert ToLower(word + [s[0]]) == ToLower(word) + [LowerChar(s[0])];
      }
    }
  }

  lemma LowerQueryWords(query: string)
    ensures QueryWords(ToLower(query)) == LowerAll(QueryWords(query))
  {
    FieldsOfLower(query, "");
    assert ToLower("") == "";
  }

  /** Lower-casing a word changes nothing the walks look at. */
  lemma ClassifyLower(w: string)
    ensures Classify(ToLower(w)) == Classify(w).(text := ToLower(w))
  {
    assert ToUpper(ToLower(w)) == ToUpper(w);
    ToLowerTwice(w);
  }

  ghost predicate KeyTexts(ws: seq<Word>) { forall i :: 0 <= i < |ws| ==> KeyWord(ws[i].text) }

  lemma {:induction false} NormKeepsKeyWords(words: seq<Word>)
    requires KeyTexts(words)
    ensures AllKeyWords(NormWords(words).terms) && AllKeyWords(NormWords(words).excludes)
  {
    if words != [] { NormKeepsKeyWords(words[..|words| - 1]); }
  }

  /** The classified words of the lower-cased query: what the key is made of. */
  function KeyWords(query: string): seq<Word> { ClassifyAll(QueryWords(ToLower(query))) }

  lemma KeyWordsClean(query: string)
    requires NoComma(query)
    ensures KeyTexts(KeyWords(query))
  {
    var lower := ToLower(query);
    FieldsKeep(IsSpace, c => !IsUpper(c) && c != ',', lower, "");
    var words := QueryWords(lower);
    forall i | 0 <= i < |words| ensures KeyWord(words[i]) { assert words[i] in words; }
  }

  lemma SortedStaysClean(ws: seq<string>)
    requires AllKeyWords(ws)
    ensures AllKeyWords(Sort(Less, ws))
  {
    SameElements(ws, Sort(Less, ws));
    forall i | 0 <= i < |ws| ensures KeyWord(Sort(Less, ws)[i]) {
      assert Sort(Less, ws)[i] in Sort(Less, ws);
    }
  }

  ghost predicate SameNorm(n: Norm, n': Norm) {
    n.queryType == n'.queryType && multiset(n.terms) == multiset(n'.terms)
      && multiset(n.excludes) == multiset(n'.excludes)
  }

  lemma SameNormKey(n: Norm, n': Norm)
    requires AllKeyWords(n.terms) && AllKeyWords(n.excludes) && AllKeyWords(n'.terms) && AllKeyWords(n'.excludes)
    requires NormKey(n) == NormKey(n')
    ensures SameNorm(n, n')
  {
    SortedStaysClean(n.terms);
    SortedStaysClean(n.excludes);
    SortedStaysClean(n'.terms);
    SortedStaysClean(n'.excludes);
    KeyTextInjective(n.queryType, Sort(Less, n.terms), Sort(Less, n.excludes),
                     n'.queryType, Sort(Less, n'.terms), Sort(Less, n'.excludes));
  }

  lemma NoColon(l: int)
    ensures ':' !in "limit=" + Itoa(l)
  {
    DigitsRead(if l < 0 then -l else l);
  }

  /** The key string of a query without commas fixes the limit, the query type and the two
      multisets of words. */
  lemma KeyDetermines(q: string, l: int, q': string, l': int)
    requires NoComma(q) && NoComma(q') && RawKey(q, l) == RawKey(q', l')
    ensures l == l' && SameNorm(NormWords(KeyWords(q)), NormWords(KeyWords(q')))
  {
    NoColon(l);
    NoColon(l');
    SplitLast(Normalized(q), "limit=" + Itoa(l), Normalized(q'), "limit=" + Itoa(l'), ':');
    assert ("limit=" + Itoa(l))[6..] == Itoa(l) && ("limit=" + Itoa(l'))[6..] == Itoa(l');
    ItoaInjective(l, l');
    KeyWordsClean(q);
    KeyWordsClean(q');
    NormKeepsKeyWords(KeyWords(q));
    NormKeepsKeyWords(KeyWords(q'));
    SameNormKey(NormWords(KeyWords(q)), NormWords(KeyWords(q')));
  }

  /** And it depends on nothing else: the order of the words does not enter the key. */
  lemma SameWordsSameKey(q: string, q': string, l: int)
    requires SameNorm(NormWords(KeyWords(q)), NormWords(KeyWords(q')))
    ensures RawKey(q, l) == RawKey(q', l)
  {
    SortedAlike(NormWords(KeyWords(q)).terms, NormWords(KeyWords(q')).terms);
    SortedAlike(NormWords(KeyWords(q)).excludes, NormWords(KeyWords(q')).excludes);
  }

  lemma SortedAlike(a: seq<string>, b: seq<string>)
    requires multiset(a) == multiset(b)
    ensures Sort(Less, a) == Sort(Less, b)
  {
    LessIsStrictWeak();
    forall x, y | x in a && y in a && x != y ensures Less(x, y) || Less(y, x) { LessTotal(x, y); }
    assert Separates(Less, a);
    SortPermutation(Less, a, b);
  }

  /** Without commas two requests share a key if and only if they have the same limit, type and
      multisets of words asked for and excluded. */
  lemma KeyIff(q: string, l: int, q': string, l': int)
    requires NoComma(q) && NoComma(q')
    ensures RawKey(q, l) == RawKey(q', l') <==>
            l == l' && SameNorm(NormWords(KeyWords(q)), NormWords(KeyWords(q')))
  {
    if RawKey(q, l) == RawKey(q', l') { KeyDetermines(q, l, q', l'); }
    if l == l' && SameNorm(NormWords(KeyWords(q)), NormWords(KeyWords(q'))) { SameWordsSameKey(q, q', l); }
  }

  // ---- Where Parse and normalizeQuery part ways ----

  /** NOT seen and not yet used; or used up on a word that has no token. */
  datatype Scan = Clear | AfterNot | Spent

  function ScanNext(s: Scan, w: Word): Scan {
    if w.kind.NotOp? then AfterNot
    else if !w.kind.Plain? then s
    else if w.tokens != [] then Clear
    else if s == AfterNot then Spent
    else s
  }

  function ScanWords(words: seq<Word>): Scan {
    if words == [] then Clear else ScanNext(ScanWords(words[..|words| - 1]), words[|words| - 1])
  }

  /** The token `Parse` takes from a word. */
  function First(w: Word): seq<string> { if w.tokens == [] then [] else [w.tokens[0]] }

  /** The tokens of the words that stand after a NOT used up on a word without tokens, with
      no other NOT and no token-bearing word between: `Parse` excludes them, the key
      includes them. */
  function Misread(words: seq<Word>): seq<string> {
    if words == [] then []
    else
      var w := words[|words| - 1];
      Misread(words[..|words| - 1])
      + if w.kind.Plain? && ScanWords(words[..|words| - 1]) == Spent then First(w) else []
  }

  /** One more word, for all four walks. */
  lemma WalkNext(words: seq<Word>, w: Word)
    ensures ParseWords(words + [w]) == Advance(ParseWords(words), w)
    ensures NormWords(words + [w]) == NormAdvance(NormWords(words), w)
    ensures ScanWords(words + [w]) == ScanNext(ScanWords(words), w)
    ensures Misread(words + [w]) == Misread(words) + if w.kind.Plain? && ScanWords(words) == Spent then First(w) else []
  {
    assert (words + [w])[..|words|] == words;
  }

  /** The results of `f` on the words, joined. */
  function FlatMap(f: string -> seq<string>, words: seq<string>): seq<string> {
    if words == [] then [] else FlatMap(f, words[..|words| - 1]) + f(words[|words| - 1])
  }

  lemma FlatMapNext(f: string -> seq<string>, words: seq<string>, w: string)
    ensures FlatMap(f, words + [w]) == FlatMap(f, words) + f(w)
  {
    assert (words + [w])[..|words|] == words;
  }

  lemma {:induction false} FlatMapRemove(f: string -> seq<string>, b: seq<string>, k: nat)
    requires k < |b|
    ensures multiset(FlatMap(f, b)) == multiset(FlatMap(f, b[..k] + b[k + 1..])) + multiset(f(b[k]))
    decreases |b|
  {
    var n := |b| - 1;
    if k == n {
      assert b[..k] + b[k + 1..] == b[..n];
    } else {
      FlatMapRemove(f, b[..n], k);
      CutNext(b, k);
      var cut := b[..n][..k] + b[..n][k + 1..];
      FlatMapNext(f, cut, b[n]);
      MoveLast(FlatMap(f, b[..n]), FlatMap(f, cut), f(b[k]), f(b[n]));
    }
  }

  lemma MoveLast(a: seq<string>, cut: seq<string>, x: seq<string>, last: seq<string>)
    requires multiset(a) == multiset(cut) + multiset(x)
    ensures multiset(a + last) == multiset(cut + last) + multiset(x)
  {
  }

  lemma {:induction false} FlatMapPermutes(f: string -> seq<string>, a: seq<string>, b: seq<string>)
    requires multiset(a) == multiset(b)
    ensures multiset(FlatMap(f, a)) == multiset(FlatMap(f, b))
    decreases |a|
  {
    SameElements(a, b);
    if a != [] {
      var n := |a| - 1;
      assert a[n] in b;
      var k :| 0 <= k < |b| && b[k] == a[n];
      RemoveOne(a, n);
      RemoveOne(b, k);
      assert a[..n] + a[n + 1..] == a[..n];
      FlatMapPermutes(f, a[..n], b[..k] + b[k + 1..]);
      FlatMapRemove(f, b, k);
    }
  }

  /** `f` gives for each text the token that `Parse` takes from the word. */
  ghost predicate TokensBy(f: string -> seq<string>, words: seq<Word>) {
    forall i :: 0 <= i < |words| ==> First(words[i]) == f(words[i].text)
  }

  ghost predicate Compared(f: string -> seq<string>, p: Progress, n: Norm, s: Scan, misread: seq<string>) {
    && p.queryType == n.queryType && p.pending == (s != Clear) && n.pending == (s == AfterNot)
    && Moved(FlatMap(f, n.terms), p.terms, misread) && Moved(p.excludes, FlatMap(f, n.excludes), misread)
  }

  /** `a` has, up to order, what `b` has and `c` besides. */
  ghost predicate Moved(a: seq<string>, b: seq<string>, c: seq<string>) { multiset(a) == multiset(b) + multiset(c) }

  lemma CompareStep(f: string -> seq<string>, p: Progress, n: Norm, s: Scan, misread: seq<string>, w: Word)
    requires Compared(f, p, n, s, misread) && First(w) == f(w.text)
    ensures Compared(f, Advance(p, w), NormAdvance(n, w), ScanNext(s, w),
                     misread + if w.kind.Plain? && s == Spent then First(w) else [])
  {
    if w.kind.Plain? {
      if w.tokens == [] {
        CompareSilent(f, p, n, s, misread, w);
      } else {
        CompareToken(f, p, n, s, misread, w);
      }
    } else {
      assert misread + [] == misread;
    }
  }

  lemma CompareSilent(f: string -> seq<string>, p: Progress, n: Norm, s: Scan, misread: seq<string>, w: Word)
    requires Compared(f, p, n, s, misread) && f(w.text) == [] && w.kind.Plain? && w.tokens == []
    ensures Compared(f, Advance(p, w), NormAdvance(n, w), ScanNext(s, w), misread + [])
  {
    SilentWord(f, n.excludes, w.text);
    SilentWord(f, n.terms, w.text);
    assert misread + [] == misread;
  }

  lemma SilentWord(f: string -> seq<string>, words: seq<string>, w: string)
    requires f(w) == []
    ensures FlatMap(f, words + [w]) == FlatMap(f, words)
  {
    FlatMapNext(f, words, w);
  }

  lemma CompareToken(f: string -> seq<string>, p: Progress, n: Norm, s: Scan, misread: seq<string>, w: Word)
    requires Compared(f, p, n, s, misread) && w.kind.Plain? && w.tokens != [] && f(w.text) == [w.tokens[0]]
    ensures Compared(f, Advance(p, w), NormAdvance(n, w), ScanNext(s, w),
                     misread + if s == Spent then [w.tokens[0]] else [])
  {
    var t := w.tokens[0];
    assert misread + [] == misread;
    if s == AfterNot {
      FlatMapNext(f, n.excludes, w.text);
      OneMore(p.excludes, FlatMap(f, n.excludes), misread, t);
    } else {
      FlatMapNext(f, n.terms, w.text);
      OneMore(FlatMap(f, n.terms), p.terms, misread, t);
      OneMore(p.excludes, FlatMap(f, n.excludes), misread, t);
    }
  }

  lemma OneMore(a: seq<string>, b: seq<string>, c: seq<string>, t: string)
    requires Moved(a, b, c)
    ensures Moved(a + [t], b + [t], c) && Moved(a + [t], b, c + [t])
  {
  }

  /** The two walks side by side: the flags follow the scan, and the misread tokens are what
      the key has more among its terms and the plan among its exclusions. */
  lemma {:induction false} WalksCompared(f: string -> seq<string>, words: seq<Word>)
    requires TokensBy(f, words)
    ensures Compared(f, ParseWords(words), NormWords(words), ScanWords(words), Misread(words))
  {
    if words != [] {
      var k := |words| - 1;
      WalksCompared(f, words[..k]);
      CompareStep(f, ParseWords(words[..k]), NormWords(words[..k]), ScanWords(words[..k]), Misread(words[..k]),
                  words[k]);
    }
  }

  /** Neither `Parse` nor the scan looks at the text itself. */
  lemma {:induction false} TextIrrelevant(a: seq<Word>, b: seq<Word>)
    requires |a| == |b| && forall i :: 0 <= i < |a| ==> a[i].kind == b[i].kind && a[i].tokens == b[i].tokens
    ensures ParseWords(a) == ParseWords(b) && ScanWords(a) == ScanWords(b) && Misread(a) == Misread(b)
  {
    if a != [] { TextIrrelevant(a[..|a| - 1], b[..|b| - 1]); }
  }

  /** The tokens of a query that key and plan place differently. */
  function MisreadIn(query: string): seq<string> { Misread(ClassifyAll(QueryWords(query))) }

  /** The plan that the key stands for. */
  function KeyPlan(query: string): QueryPlan {
    var n := NormWords(KeyWords(query));
    QueryPlan(FlatMap(LookupTerm, n.terms), n.queryType, FlatMap(LookupTerm, n.excludes), query)
  }

  lemma KeyWordsWalk(q: string)
    ensures TokensBy(LookupTerm, KeyWords(q))
    ensures ParseWords(KeyWords(q)) == ParseWords(ClassifyAll(QueryWords(q)))
    ensures Misread(KeyWords(q)) == MisreadIn(q)
  {
    var words := QueryWords(q);
    LowerQueryWords(q);
    var a, b := KeyWords(q), ClassifyAll(words);
    forall i | 0 <= i < |words| ensures a[i] == b[i].(text := ToLower(words[i])) {
      ClassifyLower(words[i]);
    }
    TextIrrelevant(a, b);
  }

  /** For every query whatsoever: same type, and the misread tokens are exactly what moves
      from the key's terms to the plan's exclusions. */
  lemma PlanAgainstKey(q: string)
    ensures Plan(q).queryType == KeyPlan(q).queryType
    ensures multiset(KeyPlan(q).terms) == multiset(Plan(q).terms) + multiset(MisreadIn(q))
    ensures multiset(Plan(q).excludeTerms) == multiset(KeyPlan(q).excludeTerms) + multiset(MisreadIn(q))
  {
    KeyWordsWalk(q);
    WalksCompared(LookupTerm, KeyWords(q));
  }

  ghost predicate SamePlan(p: QueryPlan, p': QueryPlan) {
    && p.queryType == p'.queryType && multiset(p.terms) == multiset(p'.terms)
    && multiset(p.excludeTerms) == multiset(p'.excludeTerms)
  }

  /** Queries without commas that share a key have one limit, and their keys stand for the
      same plan up to order. */
  lemma KeyPlansAgree(q: string, l: int, q': string, l': int)
    requires NoComma(q) && NoComma(q') && RawKey(q, l) == RawKey(q', l')
    ensures l == l' && SamePlan(KeyPlan(q), KeyPlan(q'))
  {
    KeyDetermines(q, l, q', l');
    var n, n' := NormWords(KeyWords(q)), NormWords(KeyWords(q'));
    FlatMapPermutes(LookupTerm, n.terms, n'.terms);
    FlatMapPermutes(LookupTerm, n.excludes, n'.excludes);
  }

  /** No comma and nothing misread: `Parse` reads the query as its key does. */
  ghost predicate Safe(query: string) { NoComma(query) && MisreadIn(query) == [] }

  /** Safe queries with one key have one limit and the same plan up to order. */
  lemma KeySound(q: string, l: int, q': string, l': int)
    requires Safe(q) && Safe(q') && RawKey(q, l) == RawKey(q', l')
    ensures l == l' && SamePlan(Plan(q), Plan(q'))
  {
    KeyPlansAgree(q, l, q', l');
    SafePlan(q);
    SafePlan(q');
  }

  lemma SafePlan(q: string)
    requires MisreadIn(q) == []
    ensures SamePlan(Plan(q), KeyPlan(q))
  {
    PlanAgainstKey(q);
  }

  // ---- Queries whose misreading does not matter ----

  ghost predicate SameSets(p: QueryPlan, p': QueryPlan) {
    && p.queryType == p'.queryType && (forall t :: t in p.terms <==> t in p'.terms)
    && (forall t :: t in p.excludeTerms <==> t in p'.excludeTerms)
  }

  /** The plan names the same terms and the same exclusions as the key. */
  ghost predicate Honest(query: string) { NoComma(query) && SameSets(Plan(query), KeyPlan(query)) }

  /** The plan asks for nothing that it does not exclude as well. */
  ghost predicate SelfExcluding(p: QueryPlan) { forall t :: t in p.terms ==> t in p.excludeTerms }

  /** Every misread token is excluded by the key as well, and is a term of the plan too,
      unless the query is an OR query or excludes itself. */
  ghost predicate Tolerable(query: string) {
    && NoComma(query)
    && (forall t :: t in MisreadIn(query) ==> t in KeyPlan(query).excludeTerms)
    && ((forall t :: t in MisreadIn(query) ==> t in Plan(query).terms)
        || Plan(query).queryType == QueryOR || SelfExcluding(Plan(query)))
  }

  lemma Members<T>(a: seq<T>, b: seq<T>, c: seq<T>)
    requires multiset(a) == multiset(b) + multiset(c)
    ensures forall x :: x in a <==> x in b || x in c
  {
    forall x ensures x in a <==> x in b || x in c {
      assert (x in a <==> x in multiset(a)) && (x in b <==> x in multiset(b)) && (x in c <==> x in multiset(c));
    }
  }

  /** As sets: the key's terms are the plan's and the misread ones, the plan's exclusions are
      the key's and the misread ones. */
  lemma SetsAgainstKey(q: string)
    ensures forall t :: t in KeyPlan(q).terms <==> t in Plan(q).terms || t in MisreadIn(q)
    ensures forall t :: t in Plan(q).excludeTerms <==> t in KeyPlan(q).excludeTerms || t in MisreadIn(q)
  {
    PlanAgainstKey(q);
    Members(KeyPlan(q).terms, Plan(q).terms, MisreadIn(q));
    Members(Plan(q).excludeTerms, KeyPlan(q).excludeTerms, MisreadIn(q));
  }

  /** In terms of the misread words: each of their tokens must also be asked for elsewhere
      and excluded elsewhere. */
  lemma HonestIff(q: string)
    requires NoComma(q)
    ensures Honest(q) <==> forall t :: t in MisreadIn(q) ==> t in Plan(q).terms && t in KeyPlan(q).excludeTerms
    ensures Safe(q) ==> Honest(q)
    ensures Honest(q) ==> Tolerable(q)
  {
    SetsAgainstKey(q);
    PlanAgainstKey(q);
  }

  // ---- Every key without commas belongs to a safe query ----

  const OR_WORD := Word("or", OrOp, [])
  const NOT_WORD := Word("not", NotOp, [])

  /** The words a walk has kept as plain text, with their classification. */
  function PlainAll(texts: seq<string>): (r: seq<Word>)
    ensures |r| == |texts| && forall i :: 0 <= i < |r| ==> r[i] == PlainWordOf(texts[i])
  {
    seq(|texts|, i requires 0 <= i < |texts| => PlainWordOf(texts[i]))
  }

  function PlainWordOf(text: string): Word { Word(text, Plain, TermsOf(text)) }

  lemma PlainAllNext(pre: seq<Word>, ts: seq<string>, k: nat)
    requires k + 1 == |ts|
    ensures pre + PlainAll(ts) == pre + PlainAll(ts[..k]) + [PlainWordOf(ts[k])]
    ensures ts[..k] + [ts[k]] == ts && PlainAll(ts)[..k] == PlainAll(ts[..k])
  {
  }

  function Negated(ws: seq<Word>): seq<Word> {
    if ws == [] then [] else Negated(ws[..|ws| - 1]) + [NOT_WORD, ws[|ws| - 1]]
  }

  /** The words read so far keep the key parts `n`, with nothing pending and nothing misread. */
  ghost predicate Reads(words: seq<Word>, n: Norm) {
    NormWords(words) == n && !n.pending && ScanWords(words) != AfterNot && Misread(words) == []
  }

  lemma ReadsTerm(words: seq<Word>, n: Norm, w: Word)
    requires Reads(words, n) && ScanWords(words) == Clear && w.kind.Plain?
    ensures Reads(words + [w], n.(terms := n.terms + [w.text])) && ScanWords(words + [w]) == Clear
  {
    WalkNext(words, w);
  }

  lemma ReadsNegated(words: seq<Word>, n: Norm, w: Word)
    requires Reads(words, n) && w.kind.Plain?
    ensures Reads(words + [NOT_WORD, w], n.(excludes := n.excludes + [w.text]))
  {
    WalkNext(words, NOT_WORD);
    WalkNext(words + [NOT_WORD], w);
    assert words + [NOT_WORD, w] == words + [NOT_WORD] + [w];
  }

  lemma {:induction false} ReadsTerms(pre: seq<Word>, n: Norm, ts: seq<string>)
    requires Reads(pre, n) && ScanWords(pre) == Clear && n.terms == []
    ensures Reads(pre + PlainAll(ts), n.(terms := ts)) && ScanWords(pre + PlainAll(ts)) == Clear
    decreases |ts|
  {
    if ts == [] {
      assert pre + PlainAll(ts) == pre;
    } else {
      var k := |ts| - 1;
      ReadsTerms(pre, n, ts[..k]);
      var w := PlainWordOf(ts[k]);
      ReadsTerm(pre + PlainAll(ts[..k]), n.(terms := ts[..k]), w);
      PlainAllNext(pre, ts, k);
    }
  }

  lemma {:induction false} ReadsExcludes(pre: seq<Word>, n: Norm, es: seq<string>)
    requires Reads(pre, n) && n.excludes == []
    ensures Reads(pre + Negated(PlainAll(es)), n.(excludes := es))
    decreases |es|
  {
    if es == [] {
      assert pre + Negated(PlainAll(es)) == pre;
    } else {
      var k := |es| - 1;
      ReadsExcludes(pre, n, es[..k]);
      var w := PlainWordOf(es[k]);
      ReadsNegated(pre + Negated(PlainAll(es[..k])), n.(excludes := es[..k]), w);
      NegatedNext(pre, es, k);
    }
  }

  lemma NegatedNext(pre: seq<Word>, es: seq<string>, k: nat)
    requires k + 1 == |es|
    ensures pre + Negated(PlainAll(es)) == pre + Negated(PlainAll(es[..k])) + [NOT_WORD, PlainWordOf(es[k])]
    ensures es[..k] + [es[k]] == es
  {
    PlainAllNext(pre, es, k);
  }

  function TypeWords(t: QueryType): seq<Word> { if t == QueryOR then [OR_WORD] else [] }

  function Canonical(n: Norm): seq<Word> {
    TypeWords(n.queryType) + PlainAll(n.terms) + Negated(PlainAll(n.excludes))
  }

  /** The canonical words have the same key parts and nothing misread. */
  lemma CanonicalReads(n: Norm)
    ensures Reads(Canonical(n), n.(pending := false))
  {
    var pre, start := TypeWords(n.queryType), NORM_START.(queryType := n.queryType);
    WalkNext([], OR_WORD);
    assert [] + [OR_WORD] == [OR_WORD];
    ReadsTerms(pre, start, n.terms);
    ReadsExcludes(pre + PlainAll(n.terms), start.(terms := n.terms), n.excludes);
  }

  lemma {:induction false} FieldsOfJoined(ws: seq<string>)
    requires AllKeyWords(ws)
    ensures QueryWords(Join(ws, ' ')) == ws
    decreases |ws|
  {
    if ws != [] {
      FieldsOfUnbroken(IsSpace, ws[0], "");
      assert "" + ws[0] == ws[0];
      if |ws| > 1 {
        FieldsConcat(IsSpace, ws[0], ' ', Join(ws[1..], ' '), "");
        FieldsOfJoined(ws[1..]);
        assert ws == [ws[0]] + ws[1..];
      }
    }
  }

  lemma {:induction false} JoinNoComma(ws: seq<string>)
    requires AllKeyWords(ws)
    ensures NoComma(Join(ws, ' '))
  {
    if |ws| > 1 { JoinNoComma(ws[1..]); }
  }

  /** A word of a key, with the kind it has and, unless an operator, its tokens. */
  ghost predicate Genuine(w: Word) {
    KeyWord(w.text) && w.kind == KindOf(w.text) && (w.kind.Plain? ==> w.tokens == TermsOf(w.text))
  }

  ghost predicate AllGenuine(ws: seq<Word>) { forall i :: 0 <= i < |ws| ==> Genuine(ws[i]) }

  /** A key word that is no operator. */
  ghost predicate PlainWord(w: string) { KeyWord(w) && KindOf(w).Plain? }

  ghost predicate PlainWords(ts: seq<string>) { forall i :: 0 <= i < |ts| ==> PlainWord(ts[i]) }

  lemma {:induction false} NormKeepsPlain(words: seq<Word>)
    requires AllGenuine(words)
    ensures PlainWords(NormWords(words).terms) && PlainWords(NormWords(words).excludes)
  {
    if words != [] {
      var k := |words| - 1;
      NormKeepsPlain(words[..k]);
    }
  }

  lemma OperatorsGenuine()
    ensures Genuine(OR_WORD) && Genuine(NOT_WORD)
  {
    assert ToUpper("or") == "OR" && ToUpper("not") == "NOT";
  }

  lemma {:induction false} NegatedGenuine(ws: seq<Word>)
    requires AllGenuine(ws)
    ensures AllGenuine(Negated(ws))
  {
    OperatorsGenuine();
    if ws != [] { NegatedGenuine(ws[..|ws| - 1]); }
  }

  lemma CanonicalGenuine(n: Norm)
    requires PlainWords(n.terms) && PlainWords(n.excludes)
    ensures AllGenuine(Canonical(n))
  {
    OperatorsGenuine();
    NegatedGenuine(PlainAll(n.excludes));
  }

  function Texts(ws: seq<Word>): seq<string> { seq(|ws|, i requires 0 <= i < |ws| => ws[i].text) }

  lemma KeyWordIsLower(w: string)
    requires KeyWord(w)
    ensures ToLower(w) == w
  {
  }

  /** Writing genuine words as a query and reading it back changes no key part and no misread. */
  lemma GenuineQuery(ws: seq<Word>) returns (q: string)
    requires AllGenuine(ws)
    ensures NoComma(q) && NormWords(KeyWords(q)) == NormWords(ws) && MisreadIn(q) == Misread(ws)
  {
    var texts := Texts(ws);
    q := Join(texts, ' ');
    FieldsOfJoined(texts);
    JoinNoComma(texts);
    LowerQueryWords(q);
    forall i | 0 <= i < |texts| ensures ToLower(texts[i]) == texts[i] { KeyWordIsLower(texts[i]); }
    assert LowerAll(texts) == texts;
    SameWalk(ClassifyAll(texts), ws);
  }

  /** Two word lists that differ at most in the tokens of operators. */
  lemma {:induction false} SameWalk(a: seq<Word>, b: seq<Word>)
    requires |a| == |b|
    requires forall i :: 0 <= i < |a| ==> a[i].text == b[i].text && a[i].kind == b[i].kind
    requires forall i :: 0 <= i < |a| && a[i].kind.Plain? ==> a[i].tokens == b[i].tokens
    ensures NormWords(a) == NormWords(b) && ScanWords(a) == ScanWords(b) && Misread(a) == Misread(b)
  {
    if a != [] { SameWalk(a[..|a| - 1], b[..|b| - 1]); }
  }

  /** Under the key of any query without commas there is a safe query, and its plan is what
      the key stands for: a query is given that plan's answer if anybody asked before. */
  lemma KeyPartner(q: string) returns (q': string)
    requires NoComma(q)
    ensures Safe(q') && (forall l :: RawKey(q', l) == RawKey(q, l)) && SamePlan(Plan(q'), KeyPlan(q))
  {
    var n := NormWords(KeyWords(q));
    KeyWordsClean(q);
    NormKeepsPlain(KeyWords(q));
    CanonicalGenuine(n);
    CanonicalReads(n);
    q' := GenuineQuery(Canonical(n));
    PlanAgainstKey(q');
  }

  // ---- Keys written out ----

  /** Plain words in another order share every key. */
  lemma WordOrderIrrelevant(ts: seq<string>, ts': seq<string>, l: int)
    requires PlainWords(ts) && PlainWords(ts') && multiset(ts) == multiset(ts')
    ensures RawKey(Join(ts, ' '), l) == RawKey(Join(ts', ' '), l)
  {
    NormOfPlain(ts);
    NormOfPlain(ts');
    SameWordsSameKey(Join(ts, ' '), Join(ts', ' '), l);
  }

  lemma NormOfPlain(ts: seq<string>)
    requires PlainWords(ts)
    ensures NormWords(KeyWords(Join(ts, ' '))) == NORM_START.(terms := ts)
  {
    WordsJoined(ts);
    ReadsTerms([], NORM_START, ts);
    assert [] + PlainAll(ts) == PlainAll(ts) == ClassifyAll(ts);
  }

  /** Lower-case words joined by spaces are read as they are. */
  lemma WordsJoined(ts: seq<string>)
    requires AllKeyWords(ts)
    ensures KeyWords(Join(ts, ' ')) == ClassifyAll(ts)
  {
    JoinLower(ts);
    FieldsOfJoined(ts);
  }

  lemma JoinLower(ts: seq<string>)
    requires AllKeyWords(ts)
    ensures ToLower(Join(ts, ' ')) == Join(ts, ' ')
  {
    JoinSpaced(ts);
  }

  lemma {:induction false} JoinSpaced(ts: seq<string>)
    requires AllKeyWords(ts)
    ensures forall i :: 0 <= i < |Join(ts, ' ')| ==> !IsUpper(Join(ts, ' ')[i])
  {
    if |ts| > 1 { JoinSpaced(ts[1..]); }
  }

  lemma TextOfTwo(t: QueryType, a: string, b: string)
    ensures KeyText(t, [a, b], []) == TypeName(t) + "|" + a + "," + b
  {
    JoinOfTwo(a, b, ',');
    assert KeyText(t, [a, b], []) == TypeName(t) + "|" + (a + [','] + b);
  }

  lemma TextOfNegated(t: QueryType, a: string, b: string)
    ensures KeyText(t, [a], [b]) == TypeName(t) + "|" + a + "|NOT:" + b
  {
    var not := "|" + ("NOT:" + b);
    assert not == "|NOT:" + b;
    assert KeyText(t, [a], [b]) == TypeName(t) + "|" + (a + not);
  }

  lemma KeyFromText(q: string, n: Norm, text: string)
    requires NormWords(KeyWords(q)) == n && NormKey(n) == text
    ensures RawKey(q, 10) == text + ":limit=10"
  {
    assert Normalized(q) == text;
    LimitTen();
    TailOfTen(text, Itoa(10));
  }

  lemma TailOfTen(text: string, limit: string)
    requires limit == "10"
    ensures text + ":" + ("limit=" + limit) == text + ":limit=10"
  {
    assert ":" + ("limit=" + limit) == ":limit=10";
  }

  /** "b a", "a or b" and "a not b" under limit 10, for words in this order. */
  lemma KeysWritten(a: string, b: string)
    requires PlainWord(a) && PlainWord(b) && Less(a, b)
    ensures RawKey(Join([b, a], ' '), 10) == "AND|" + a + "," + b + ":limit=10"
    ensures RawKey(Join([a, "or", b], ' '), 10) == "OR|" + a + "," + b + ":limit=10"
    ensures RawKey(Join([a, "not", b], ' '), 10) == "AND|" + a + "|NOT:" + b + ":limit=10"
  {
    KeyOfTwo(a, b);
    KeyOfEither(a, b);
    KeyOfNegated(a, b);
  }

  lemma KeyOfTwo(a: string, b: string)
    requires PlainWord(a) && PlainWord(b) && Less(a, b)
    ensures RawKey(Join([b, a], ' '), 10) == "AND|" + a + "," + b + ":limit=10"
  {
    var ts := [b, a];
    assert PlainWords(ts);
    NormOfPlain(ts);
    SwappedText(a, b);
    KeyFromText(Join(ts, ' '), NORM_START.(terms := ts), "AND|" + a + "," + b);
  }

  lemma SwappedText(a: string, b: string)
    requires Less(a, b)
    ensures NormKey(NORM_START.(terms := [b, a])) == "AND|" + a + "," + b
  {
    SwappedSorted(a, b);
    OrderedText(QueryAND, a, b);
  }

  lemma SwappedSorted(a: string, b: string)
    ensures Sort(Less, [b, a]) == Sort(Less, [a, b])
  {
    assert multiset([b, a]) == multiset([a, b]);
    SortedAlike([b, a], [a, b]);
  }

  lemma OrderedText(t: QueryType, a: string, b: string)
    requires Less(a, b)
    ensures NormKey(NORM_START.(terms := [a, b], queryType := t)) == TypeName(t) + "|" + a + "," + b
  {
    LessAsymmetric(a, b);
    SortOfTwo(a, b);
    TextOfTwo(t, a, b);
  }

  lemma KeyOfEither(a: string, b: string)
    requires PlainWord(a) && PlainWord(b) && Less(a, b)
    ensures RawKey(Join([a, "or", b], ' '), 10) == "OR|" + a + "," + b + ":limit=10"
  {
    var op := OrWritten();
    NormOfThree(a, op, b);
    assert TypeName(QueryOR) + "|" == "OR|";
    OrderedText(QueryOR, a, b);
    KeyFromText(Join([a, op, b], ' '), NORM_START.(terms := [a, b], queryType := QueryOR), "OR|" + a + "," + b);
  }

  lemma OrWritten() returns (op: string)
    ensures op == "or" && KeyWord(op) && KindOf(op) == OrOp
  {
    op := "or";
    OperatorsGenuine();
  }

  lemma NotWritten() returns (op: string)
    ensures op == "not" && KeyWord(op) && KindOf(op) == NotOp
  {
    op := "not";
    OperatorsGenuine();
  }

  lemma KeyOfNegated(a: string, b: string)
    requires PlainWord(a) && PlainWord(b)
    ensures RawKey(Join([a, "not", b], ' '), 10) == "AND|" + a + "|NOT:" + b + ":limit=10"
  {
    var op := NotWritten();
    NormOfThree(a, op, b);
    NegatedText(a, b);
    KeyFromText(Join([a, op, b], ' '), NORM_START.(terms := [a], excludes := [b]), "AND|" + a + "|NOT:" + b);
  }

  lemma NegatedText(a: string, b: string)
    ensures NormKey(NORM_START.(terms := [a], excludes := [b])) == "AND|" + a + "|NOT:" + b
  {
    SortOfOne(a);
    SortOfOne(b);
    TextOfNegated(QueryAND, a, b);
  }

  lemma SortOfOne(a: string)
    ensures Sort(Less, [a]) == [a]
  {
    assert [a][..0] == [];
  }

  lemma LessAsymmetric(a: string, b: string)
    requires Less(a, b)
    ensures !Less(b, a)
  {
    LessIrreflexive(a);
    if Less(b, a) { LessTransitive(a, b, a); }
  }

  lemma LimitTen()
    ensures Itoa(10) == "10"
  {
    assert Digits(1) == "1";
  }

  lemma NormOfThree(a: string, op: string, b: string)
    requires PlainWord(a) && PlainWord(b) && KeyWord(op) && !KindOf(op).Plain?
    ensures NormWords(KeyWords(Join([a, op, b], ' ')))
         == if KindOf(op).NotOp? then NORM_START.(terms := [a], excludes := [b])
            else NORM_START.(terms := [a, b], queryType := if KindOf(op).OrOp? then QueryOR else QueryAND)
  {
    WordsJoined([a, op, b]);
    var x, y, z := Classify(a), Classify(op), Classify(b);
    assert ClassifyAll([a, op, b]) == [x, y, z];
    NormOfWords(x, y, z);
  }

  lemma NormOfWords(x: Word, y: Word, z: Word)
    requires x.kind.Plain? && !y.kind.Plain? && z.kind.Plain?
    ensures NormWords([x, y, z])
         == if y.kind.NotOp? then NORM_START.(terms := [x.text], excludes := [z.text])
            else NORM_START.(terms := [x.text, z.text], queryType := if y.kind.OrOp? then QueryOR else QueryAND)
  {
    NormOfOne(x);
    WalkNext([x], y);
    assert [x] + [y] == [x, y];
    WalkNext([x, y], z);
    assert [x, y] + [z] == [x, y, z];
    assert [x.text] + [z.text] == [x.text, z.text] && [] + [z.text] == [z.text];
  }

  // ---- Commas ----

  /** One word and two words under one key. */
  lemma CommaKeys(a: string, b: string, l: int)
    requires PlainWord(a) && PlainWord(b) && !Less(b, a)
    ensures RawKey(a + [','] + b, l) == RawKey(a + [' '] + b, l)
    ensures QueryWords(a + [','] + b) == [a + [','] + b] && QueryWords(a + [' '] + b) == [a, b]
    ensures KindOf(a + [','] + b).Plain?
  {
    var c, s := a + [','] + b, a + [' '] + b;
    CommaWords(a, b);
    CommaIsPlain(a, b);
    NormOfOneAndTwo(Classify(c), Classify(a), Classify(b));
    KeyWordIsLower(a);
    KeyWordIsLower(b);
    assert ToLower(c) == c && ToLower(s) == s;
    ClassifyOneAndTwo(c, a, b);
    SameKeyText(a, b, NormWords(KeyWords(c)), NormWords(KeyWords(s)));
  }

  lemma ClassifyOneAndTwo(c: string, a: string, b: string)
    ensures ClassifyAll([c]) == [Classify(c)] && ClassifyAll([a, b]) == [Classify(a), Classify(b)]
  {
  }

  lemma SameKeyText(a: string, b: string, n: Norm, n': Norm)
    requires n == NORM_START.(terms := [a + [','] + b]) && n' == NORM_START.(terms := [a, b]) && !Less(b, a)
    ensures NormKey(n) == NormKey(n')
  {
    SortOfTwo(a, b);
    JoinOfTwo(a, b, ',');
    assert Sort(Less, n.terms) == n.terms && Sort(Less, n'.terms) == n'.terms;
  }

  lemma CommaWords(a: string, b: string)
    requires KeyWord(a) && KeyWord(b)
    ensures QueryWords(a + [','] + b) == [a + [','] + b] && QueryWords(a + [' '] + b) == [a, b]
  {
    var c := a + [','] + b;
    FieldsOfUnbroken(IsSpace, c, "");
    assert "" + c == c;
    JoinOfTwo(a, b, ' ');
    FieldsOfJoined([a, b]);
  }

  lemma JoinOfTwo(a: string, b: string, sep: char)
    ensures Join([a, b], sep) == a + [sep] + b
  {
    assert [a, b][1..] == [b];
  }

  lemma NormOfOneAndTwo(x: Word, y: Word, z: Word)
    requires x.kind.Plain? && y.kind.Plain? && z.kind.Plain?
    ensures NormWords([x]) == NORM_START.(terms := [x.text])
    ensures NormWords([y, z]) == NORM_START.(terms := [y.text, z.text])
    ensures ParseWords([x]) == START.(terms := First(x))
    ensures ParseWords([y, z]) == START.(terms := First(y) + First(z))
    ensures Misread([y, z]) == []
  {
    NormOfOne(x);
    NormOfOne(y);
    WalkNext([y], z);
    assert [y] + [z] == [y, z];
    if z.tokens == [] { assert First(y) + First(z) == First(y); }
  }

  lemma NormOfOne(x: Word)
    requires x.kind.Plain?
    ensures NormWords([x]) == NORM_START.(terms := [x.text]) && ParseWords([x]) == START.(terms := First(x))
    ensures ScanWords([x]) == Clear && Misread([x]) == []
  {
    var words := [x];
    assert words[..0] == [] && words[0] == x;
    assert NORM_START.terms + [x.text] == [x.text] && START.terms + First(x) == First(x);
    assert ParseWords(words) == Advance(START, x) && NormWords(words) == NormAdvance(NORM_START, x);
  }

  lemma CommaIsPlain(a: string, b: string)
    requires a != ""
    ensures KindOf(a + [','] + b).Plain?
  {
    var u := ToUpper(a + [','] + b);
    assert u[|a|] == ',';
    assert "AND"[0] != ',' && "AND"[1] != ',' && "AND"[2] != ',';
    assert "OR"[1] != ',' && "NOT"[1] != ',' && "NOT"[2] != ',';
  }

  lemma SortOfTwo(a: string, b: string)
    requires !Less(b, a)
    ensures Sort(Less, [a, b]) == [a, b]
    ensures forall c: string :: Sort(Less, [c]) == [c]
  {
    forall c: string ensures Sort(Less, [c]) == [c] { assert [c][..0] == []; }
    assert [a, b][..1] == [a] && [a][..0] == [];
    assert Sort(Less, [a]) == [a];
  }

  lemma TermsAcrossComma(a: string, b: string)
    ensures TermsOf(a + [','] + b) == TermsOf(a) + TermsOf(b)
  {
    assert ToLower(a + [','] + b) == ToLower(a) + [','] + ToLower(b);
    FieldsConcat(IsSeparator, ToLower(a), ',', ToLower(b), "");
    TermsOfWordsConcat(Words(a), Words(b));
  }

  /** A comma inside a word reads like the separator of two sorted words: the two queries
      share every key, but of the joined words `Parse` sees only the first token.  The plans
      have the same terms if and only if one of the words has no token, and the same set of
      terms if and only if besides the tokens may be equal. */
  lemma CommaCollides(a: string, b: string, l: int)
    requires PlainWord(a) && PlainWord(b) && !Less(b, a)
    ensures RawKey(a + [','] + b, l) == RawKey(a + [' '] + b, l) && Safe(a + [' '] + b)
    ensures Plan(a + [' '] + b) == QueryPlan(LookupTerm(a) + LookupTerm(b), QueryAND, [], a + [' '] + b)
    ensures Plan(a + [','] + b)
         == QueryPlan(if LookupTerm(a) == [] then LookupTerm(b) else LookupTerm(a), QueryAND, [], a + [','] + b)
    ensures Plan(a + [','] + b).terms == Plan(a + [' '] + b).terms <==> LookupTerm(a) == [] || LookupTerm(b) == []
    ensures SameSets(Plan(a + [','] + b), Plan(a + [' '] + b)) <==>
            LookupTerm(a) == [] || LookupTerm(b) == [] || LookupTerm(a) == LookupTerm(b)
  {
    var c, s := a + [','] + b, a + [' '] + b;
    CommaKeys(a, b, l);
    NormOfOneAndTwo(Classify(c), Classify(a), Classify(b));
    ClassifyOneAndTwo(c, a, b);
    TermsAcrossComma(a, b);
    assert [] + LookupTerm(b) == LookupTerm(b) && LookupTerm(a) + [] == LookupTerm(a);
    SpaceNoComma(a, b);
    CommaSets(LookupTerm(a), LookupTerm(b), c, s);
  }

  lemma SpaceNoComma(a: string, b: string)
    requires PlainWord(a) && PlainWord(b)
    ensures NoComma(a + [' '] + b)
  {
  }

  lemma CommaSets(x: seq<string>, y: seq<string>, c: string, s: string)
    requires |x| <= 1 && |y| <= 1
    ensures var p, p' := QueryPlan(if x == [] then y else x, QueryAND, [], c), QueryPlan(x + y, QueryAND, [], s);
            && (p.terms == p'.terms <==> x == [] || y == [])
            && (SameSets(p, p') <==> x == [] || y == [] || x == y)
  {
    if x != [] && y != [] {
      assert x == [x[0]] && y == [y[0]] && x + y == [x[0], y[0]];
      assert y[0] in x + y && (y[0] in x <==> x == y);
    } else {
      assert x + y == if x == [] then y else x;
    }
  }

  // ---- Misread queries exist, and not all of them matter ----

  lemma WalkOfFour(a: Word, b: Word, c: Word, d: Word)
    requires a.kind.Plain? && b.kind.NotOp? && c.kind.Plain? && d.kind.Plain? && c.tokens == [] && d.tokens != []
    ensures ParseWords([a, b, c, d]).terms == First(a) && ParseWords([a, b, c, d]).excludes == First(d)
    ensures NormWords([a, b, c, d]).excludes == [c.text] && Misread([a, b, c, d]) == First(d)
  {
    NormOfOne(a);
    WalkThreeMore([a], b, c, d);
    assert [a] + [b, c, d] == [a, b, c, d];
    assert [] + First(d) == First(d) && [] + [c.text] == [c.text];
  }

  function FourWords(a: string, b: string, c: string, d: string): string { Join([a, b, c, d], ' ') }

  /** A NOT used up on a word without tokens, for any words: `Parse` excludes the last word,
      the key asks for it, so the query is neither honest nor tolerable. */
  lemma MisreadFamily(a: string, stop: string, b: string)
    requires PlainWord(a) && PlainWord(stop) && PlainWord(b) && LookupTerm(stop) == [] && LookupTerm(a) != []
             && LookupTerm(b) != []
    ensures var q := FourWords(a, "not", stop, b);
            && NoComma(q) && Plan(q).terms == LookupTerm(a) && Plan(q).excludeTerms == LookupTerm(b)
            && MisreadIn(q) == LookupTerm(b) && KeyPlan(q).excludeTerms == [] && !Tolerable(q) && !Honest(q)
  {
    var ws := [a, "not", stop, b];
    var q := FourWords(a, "not", stop, b);
    OperatorsGenuine();
    FieldsOfJoined(ws);
    JoinNoComma(ws);
    var c1, c2, c3, c4 := Classify(a), Classify("not"), Classify(stop), Classify(b);
    assert ClassifyAll(ws) == [c1, c2, c3, c4];
    WalkOfFour(c1, c2, c3, c4);
    ExcludesOnly(q, ws, stop);
    HonestIff(q);
    assert LookupTerm(b)[0] in MisreadIn(q);
  }

  lemma ExcludesOnly(q: string, ws: seq<string>, stop: string)
    requires QueryWords(q) == ws && AllKeyWords(ws) && LookupTerm(stop) == []
    requires NormWords(ClassifyAll(ws)).excludes == [stop]
    ensures KeyPlan(q).excludeTerms == []
  {
    SameKeyWords(q, ws);
    FlatMapNext(LookupTerm, [], stop);
    assert [] + [stop] == [stop];
  }

  lemma SameKeyWords(q: string, ws: seq<string>)
    requires QueryWords(q) == ws && AllKeyWords(ws)
    ensures KeyWords(q) == ClassifyAll(ws)
  {
    LowerQueryWords(q);
    forall i | 0 <= i < |ws| ensures ToLower(ws[i]) == ws[i] { KeyWordIsLower(ws[i]); }
    assert LowerAll(ws) == ws;
  }

  /** Three more words: NOT, a word without tokens, a word with one. */
  lemma WalkThreeMore(pre: seq<Word>, no: Word, stop: Word, a: Word)
    requires no.kind.NotOp? && stop.kind.Plain? && stop.tokens == [] && a.kind.Plain? && a.tokens != []
    ensures ParseWords(pre + [no, stop, a]).terms == ParseWords(pre).terms
    ensures ParseWords(pre + [no, stop, a]).excludes == ParseWords(pre).excludes + First(a)
    ensures Misread(pre + [no, stop, a]) == Misread(pre) + First(a)
    ensures NormWords(pre + [no, stop, a]).excludes == NormWords(pre).excludes + [stop.text]
  {
    WalkNext(pre, no);
    WalkNext(pre + [no], stop);
    WalkNext(pre + [no] + [stop], a);
    assert pre + [no] + [stop] + [a] == pre + [no, stop, a];
  }

  lemma WalkOfThree(a: Word, no: Word)
    requires a.kind.Plain? && no.kind.NotOp? && a.tokens != []
    ensures ParseWords([a, no, a]).terms == First(a) && Misread([a, no, a]) == []
    ensures NormWords([a, no, a]).excludes == [a.text]
  {
    NormOfOne(a);
    WalkNext([a], no);
    WalkNext([a] + [no], a);
    assert [a] + [no] + [a] == [a, no, a];
    assert [] + [a.text] == [a.text];
  }

  /** A misread query can be harmless: "a not a not the a" asks for a and excludes it, and so
      does its key. */
  lemma HarmlessMisread(a: string, stop: string)
    requires PlainWord(a) && PlainWord(stop) && LookupTerm(stop) == [] && LookupTerm(a) != []
    ensures var q := Join([a, "not", a, "not", stop, a], ' '); MisreadIn(q) != [] && Honest(q)
  {
    var ws := [a, "not", a, "not", stop, a];
    var q := Join(ws, ' ');
    OperatorsGenuine();
    FieldsOfJoined(ws);
    JoinNoComma(ws);
    SixWords(ws, a, stop);
    HonestIn(q, ws, a, stop);
  }

  lemma SixWords(ws: seq<string>, a: string, stop: string)
    requires ws == [a, "not", a, "not", stop, a] && KindOf("not").NotOp?
    requires PlainWord(a) && PlainWord(stop) && LookupTerm(stop) == [] && LookupTerm(a) != []
    ensures ParseWords(ClassifyAll(ws)).terms == LookupTerm(a) == Misread(ClassifyAll(ws))
    ensures NormWords(ClassifyAll(ws)).excludes == [a] + [stop]
  {
    var c1, c2, c3 := Classify(a), Classify("not"), Classify(stop);
    assert ClassifyAll(ws) == [c1, c2, c1] + [c2, c3, c1];
    WalkOfThree(c1, c2);
    WalkThreeMore([c1, c2, c1], c2, c3, c1);
    assert [] + First(c1) == First(c1);
  }

  lemma HonestIn(q: string, ws: seq<string>, a: string, stop: string)
    requires QueryWords(q) == ws && AllKeyWords(ws) && NoComma(q) && LookupTerm(stop) == []
    requires ParseWords(ClassifyAll(ws)).terms == LookupTerm(a) == Misread(ClassifyAll(ws))
    requires NormWords(ClassifyAll(ws)).excludes == [a] + [stop]
    ensures Honest(q)
  {
    SameKeyWords(q, ws);
    TokensOfTwo(a, stop);
    HonestIff(q);
  }

  lemma TokensOfTwo(a: string, b: string)
    ensures FlatMap(LookupTerm, [a] + [b]) == LookupTerm(a) + LookupTerm(b)
  {
    FlatMapNext(LookupTerm, [], a);
    FlatMapNext(LookupTerm, [a], b);
    assert [] + [a] == [a] && [] + LookupTerm(a) == LookupTerm(a);
  }

  lemma BearsToken(w: string)
    requires |w| == 3 && w[1] == 'o' && w[2] == 'o' && 'a' <= w[0] <= 'z'
    ensures LookupTerm(w) != [] && PlainWord(w)
  {
    assert ToUpper(w)[2] == 'O';
    assert AlnumWord(w) && ToLower(w) == w;
    NotStopWord(w, 0);
    TermKept(w);
  }

  lemma TermKept(w: string)
    requires AlnumWord(w) && ToLower(w) == w && |w| >= 2 && !IsStopWord(w)
    ensures LookupTerm(w) != []
  {
    TermsOfAlnumWord(w);
    StemShortens(w);
  }

  lemma StopWordSilent(w: string, k: nat)
    requires |w| == 3 && (forall i :: 0 <= i < 3 ==> 'a' <= w[i] <= 'z') && w[0] == 't' && k < STOP_WORD_COUNT
             && StopWord(k) == w
    ensures LookupTerm(w) == [] && PlainWord(w)
  {
    assert ToUpper(w)[0] == 'T';
    assert ToLower(w) == w;
    StopWordFound(w, 0, k);
    TermsOfAlnumWord(w);
  }

  /** No stop word has "oo" at its second and third place. */
  lemma {:induction false} NotStopWord(w: string, i: nat)
    requires |w| == 3 && w[1] == 'o' && w[2] == 'o' && i <= STOP_WORD_COUNT
    ensures !InStopWordsFrom(w, i)
    decreases STOP_WORD_COUNT - i
  {
    if i < STOP_WORD_COUNT {
      StopWordShape(i);
      NotStopWord(w, i + 1);
    }
  }

  lemma StopWordShape(i: nat)
    ensures |StopWord(i)| != 3 || StopWord(i)[1] != 'o' || StopWord(i)[2] != 'o'
  {
  }

  lemma {:induction false} StopWordFound(w: string, i: nat, k: nat)
    requires i <= k < STOP_WORD_COUNT && StopWord(k) == w
    ensures InStopWordsFrom(w, i)
    decreases k - i
  {
    if i < k { StopWordFound(w, i + 1, k); }
  }
}
