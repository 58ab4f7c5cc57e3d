/**
 Query strings to query plans: a left-to-right walk over the words in which AND and OR
 set the query type, NOT marks the next word that yields a token, and everything else
 contributes its first token.
 */
module Parser {
  import opened Tokenizer

  datatype QueryType = QueryAND | QueryOR

  datatype QueryPlan = QueryPlan(terms: seq<string>, queryType: QueryType, excludeTerms: seq<string>, rawQuery: string)

  predicate IsSpace(c: char) {
    c == ' ' || c == '\t' || c == '\n' || c == '\r' || c as int == 11 || c as int == 12
  }

  function UpperChar(c: char): char {
    if 'a' <= c <= 'z' then ((c as int) - 32) as char else c
  }

  function ToUpper(s: string): (r: string)
    ensures |r| == |s|
    ensures forall i :: 0 <= i < |s| ==> r[i] == UpperChar(s[i])
  {
    seq(|s|, i requires 0 <= i < |s| => UpperChar(s[i]))
  }

  datatype Kind = AndOp | OrOp | NotOp | Plain

  function KindOf(word: string): Kind {
    var upper := ToUpper(word);
    if upper == "AND" then AndOp
    else if upper == "OR" then OrOp
    else if upper == "NOT" then NotOp
    else Plain
  }

  /** Operators are known by their letters, in upper or lower case. */
  lemma OperatorsAnyCase(word: string)
    ensures KindOf(word) == AndOp <==> ToLower(word) == "and"
    ensures KindOf(word) == OrOp <==> ToLower(word) == "or"
    ensures KindOf(word) == NotOp <==> ToLower(word) == "not"
  {
    SpelledAlike(word, "and", "AND");
    SpelledAlike(word, "or", "OR");
    SpelledAlike(word, "not", "NOT");
  }

  lemma SpelledAlike(word: string, lower: string, upper: string)
    requires |lower| == |upper|
    requires forall i :: 0 <= i < |lower| ==> 'a' <= lower[i] <= 'z' && upper[i] == UpperChar(lower[i])
    ensures ToLower(word) == lower <==> ToUpper(word) == upper
  {
    if ToLower(word) == lower {
      forall i | 0 <= i < |word| ensures ToUpper(word)[i] == upper[i] { assert lower[i] == LowerChar(word[i]); }
    }
    if ToUpper(word) == upper {
      forall i | 0 <= i < |word| ensures ToLower(word)[i] == lower[i] { assert upper[i] == UpperChar(word[i]); }
    }
  }

  /** Writing letters in upper case changes no term of a text. */
  lemma CaseIrrelevant(s: string, s': string)
    requires |s| == |s'| && forall i :: 0 <= i < |s| ==> s'[i] == s[i] || s'[i] == UpperChar(s[i])
    ensures TermsOf(s') == TermsOf(s)
  {
    assert ToLower(s') == ToLower(s);
  }

  /** A word of the query with what the walk looks at: operator or not, and its tokens. */
  datatype Word = Word(text: string, kind: Kind, tokens: seq<string>)

  function Classify(word: string): Word { Word(word, KindOf(word), TermsOf(word)) }

  function ClassifyAll(words: seq<string>): (r: seq<Word>)
    ensures |r| == |words| && forall i :: 0 <= i < |words| ==> r[i] == Classify(words[i])
  {
    seq(|words|, i requires 0 <= i < |words| => Classify(words[i]))
  }

  /** The plan so far and whether a NOT is pending. */
  datatype Progress = Progress(terms: seq<string>, excludes: seq<string>, queryType: QueryType, pending: bool)

  const START := Progress([], [], QueryAND, false)

  /** One word of the walk (parser.go:44-66). */
  function Advance(p: Progress, w: Word): Progress {
    match w.kind
    case AndOp => p.(queryType := QueryAND)
    case OrOp => p.(queryType := QueryOR)
    case NotOp => p.(pending := true)
    case Plain =>
      if w.tokens == [] then p
      else if p.pending then p.(excludes := p.excludes + [w.tokens[0]], pending := false)
      else p.(terms := p.terms + [w.tokens[0]])
  }

  function ParseWords(words: seq<Word>): Progress {
    if words == [] then START
    else Advance(ParseWords(words[..|words| - 1]), words[|words| - 1])
  }

  function QueryWords(query: string): seq<string> { Fields(IsSpace, query) }

  function Plan(query: string): QueryPlan {
    var p := ParseWords(ClassifyAll(QueryWords(query)));
    QueryPlan(p.terms, p.queryType, p.excludes, query)
  }

  ghost predicate Spaceless(a: string) {
    forall i :: 0 <= i < |a| ==> !(9 <= a[i] as int <= 13) && a[i] as int != 32
  }

  /** The six ASCII space characters split a query, and only they do. */
  lemma SpacesSplit(a: string, c: char, b: string)
    ensures 9 <= c as int <= 13 || c as int == 32 ==> QueryWords(a + [c] + b) == QueryWords(a) + QueryWords(b)
    ensures a != "" && Spaceless(a) ==> QueryWords(a) == [a]
  {
    SpacesAre();
    if IsSpace(c) { FieldsConcat(IsSpace, a, c, b, ""); }
    if Spaceless(a) { Unsplit(a); }
  }

  lemma SpacesAre()
    ensures forall c :: IsSpace(c) <==> 9 <= c as int <= 13 || c as int == 32
  {
  }

  lemma Unsplit(a: string)
    requires forall i :: 0 <= i < |a| ==> !IsSpace(a[i])
    ensures QueryWords(a) == Flushed(a)
  {
    FieldsOfUnbroken(IsSpace, a, "");
    assert "" + a == a;
  }

  lemma ParseNext(words: seq<Word>, i: nat)
    requires i < |words|
    ensures ParseWords(words[..i + 1]) == Advance(ParseWords(words[..i]), words[i])
  {
    assert words[..i + 1][..i] == words[..i];
  }

  /** `Parse` as the source's loop over mutable lists and a flag. */
  method Parse(query: string) returns (plan: QueryPlan)
    ensures plan == Plan(query)
  {
    var words := QueryWords(query);
    ghost var all := ClassifyAll(words);
    var terms: seq<string>, excludes: seq<string>, queryType, excludeNext := [], [], QueryAND, false;
    for i := 0 to |words|
      invariant ParseWords(all[..i]) == Progress(terms, excludes, queryType, excludeNext)
    {
      ParseNext(all, i);
      var upper := ToUpper(words[i]);
      if upper == "AND" { queryType := QueryAND; continue; }
      if upper == "OR" { queryType := QueryOR; continue; }
      if upper == "NOT" { excludeNext := true; continue; }
      var tokens := Tokenize(words[i]);
      if |tokens| == 0 { continue; }
      var term := tokens[0].term;
      if excludeNext {
        excludes := excludes + [term];
        excludeNext := false;
      } else {
        terms := terms + [term];
      }
    }
    assert all[..|words|] == all;
    plan := QueryPlan(terms, queryType, excludes, query);
  }

  function Bearing(words: seq<Word>): nat {
    if words == [] then 0
    else
      var w := words[|words| - 1];
      Bearing(words[..|words| - 1]) + if w.kind.Plain? && w.tokens != [] then 1 else 0
  }

  /** No token-bearing word is lost or counted twice: each is a term or an exclusion. */
  lemma {:induction false} EveryWordPlaced(words: seq<Word>)
    ensures |ParseWords(words).terms| + |ParseWords(words).excludes| == Bearing(words)
  {
    if words != [] { EveryWordPlaced(words[..|words| - 1]); }
  }

  // ---- What the walk computes, read off the words ----

  predicate Bears(w: Word) { w.kind.Plain? && w.tokens != [] }

  /** A NOT stands before place `i` with no token-bearing word between. */
  ghost predicate Negates(words: seq<Word>, i: nat)
    requires i <= |words|
  {
    exists j :: 0 <= j < i && words[j].kind.NotOp? && forall k :: j < k < i ==> !Bears(words[k])
  }

  /** The first tokens of the bearing words that are negated, or of those that are not. */
  ghost function Placed(words: seq<Word>, negated: bool): seq<string> {
    if words == [] then []
    else
      var n := |words| - 1;
      Placed(words[..n], negated)
      + if Bears(words[n]) && Negates(words, n) == negated then [words[n].tokens[0]] else []
  }

  /** The last AND or OR among the words decides; without any it is AND. */
  ghost predicate LastOperator(words: seq<Word>, t: QueryType) {
    if exists i :: 0 <= i < |words| && (words[i].kind.AndOp? || words[i].kind.OrOp?)
    then exists i :: 0 <= i < |words| && words[i].kind == (if t == QueryAND then AndOp else OrOp)
                     && forall k :: i < k < |words| ==> !words[k].kind.AndOp? && !words[k].kind.OrOp?
    else t == QueryAND
  }

  lemma NegatesPrefix(words: seq<Word>, n: nat, i: nat)
    requires i <= n <= |words|
    ensures Negates(words, i) <==> Negates(words[..n], i)
  {
    if Negates(words, i) {
      var j :| 0 <= j < i && words[j].kind.NotOp? && forall k :: j < k < i ==> !Bears(words[k]);
      assert words[..n][j].kind.NotOp?;
    }
    if Negates(words[..n], i) {
      var j :| 0 <= j < i && words[..n][j].kind.NotOp? && forall k :: j < k < i ==> !Bears(words[..n][k]);
      assert words[j].kind.NotOp?;
      forall k | j < k < i ensures !Bears(words[k]) { assert words[..n][k] == words[k]; }
    }
  }

  lemma NegatesNext(words: seq<Word>, n: nat)
    requires n + 1 == |words|
    ensures Negates(words, n + 1) <==> words[n].kind.NotOp? || (!Bears(words[n]) && Negates(words, n))
  {
    if Negates(words, n) && !Bears(words[n]) {
      var j :| 0 <= j < n && words[j].kind.NotOp? && forall k :: j < k < n ==> !Bears(words[k]);
      assert words[j].kind.NotOp?;
    }
  }

  lemma OperatorNext(words: seq<Word>, n: nat, t: QueryType)
    requires n + 1 == |words| && LastOperator(words[..n], t)
    ensures LastOperator(words, if words[n].kind.AndOp? then QueryAND else if words[n].kind.OrOp? then QueryOR else t)
  {
    var before := words[..n];
    if words[n].kind.AndOp? || words[n].kind.OrOp? {
      assert words[n].kind == words[n].kind;
    } else if exists i :: 0 <= i < n && (before[i].kind.AndOp? || before[i].kind.OrOp?) {
      var i :| 0 <= i < n && before[i].kind == (if t == QueryAND then AndOp else OrOp)
               && forall k :: i < k < n ==> !before[k].kind.AndOp? && !before[k].kind.OrOp?;
      assert words[i] == before[i];
      forall k | i < k < |words| ensures !words[k].kind.AndOp? && !words[k].kind.OrOp? {
        if k < n { assert words[k] == before[k]; }
      }
    } else {
      forall i | 0 <= i < |words| ensures !words[i].kind.AndOp? && !words[i].kind.OrOp? {
        if i < n { assert words[i] == before[i]; }
      }
    }
  }

  /** `Parse` excludes exactly the words behind a NOT with no token-bearing word between,
      asks for the others, keeps their order, and takes its type from the last operator. */
  lemma {:induction false} ParseMeaning(words: seq<Word>)
    ensures var p := ParseWords(words);
            && p.terms == Placed(words, false) && p.excludes == Placed(words, true)
            && p.pending == Negates(words, |words|) && LastOperator(words, p.queryType)
  {
    if words != [] {
      var n := |words| - 1;
      ParseMeaning(words[..n]);
      NegatesPrefix(words, n, n);
      NegatesNext(words, n);
      OperatorNext(words, n, ParseWords(words[..n]).queryType);
    }
  }
}
