/**
 Text to terms: lower-casing, splitting on non-alphanumeric characters, dropping
 short words and stop words, and suffix stemming.  Text is ASCII, so a character
 is a byte; every other character separates words.
 */
module Tokenizer {

  datatype Token = Token(term: string, position: nat)

  // ---- Characters and words ----

  predicate IsUpper(c: char) { 'A' <= c <= 'Z' }

  predicate IsAlnum(c: char) { IsUpper(c) || 'a' <= c <= 'z' || '0' <= c <= '9' }

  predicate IsSeparator(c: char) { !IsAlnum(c) }

  function LowerChar(c: char): char {
    if IsUpper(c) then ((c as int) + 32) as char else c
  }

  function ToLower(s: string): (r: string)
    ensures |r| == |s|
    ensures forall i :: 0 <= i < |s| ==> r[i] == LowerChar(s[i])
  {
    seq(|s|, i requires 0 <= i < |s| => LowerChar(s[i]))
  }

  /** A word just read: nothing when no character was collected. */
  function Flushed(word: string): seq<string> {
    if word == "" then [] else [word]
  }

  /** `strings.FieldsFunc`, with the characters of the current word so far. */
  function FieldsFrom(sep: char -> bool, s: string, word: string): seq<string>
    decreases |s|
  {
    if s == "" then Flushed(word)
    else if sep(s[0]) then Flushed(word) + FieldsFrom(sep, s[1..], "")
    else FieldsFrom(sep, s[1..], word + [s[0]])
  }

  function Fields(sep: char -> bool, s: string): seq<string> {
    FieldsFrom(sep, s, "")
  }

  function Words(text: string): seq<string> {
    Fields(IsSeparator, ToLower(text))
  }

  const STOP_WORD_COUNT: nat := 44

  /** The stop-word table (tokenizer.go:11-20), by position. */
  function StopWord(i: nat): string {
    match i
    case 0 => "a" case 1 => "an" case 2 => "and" case 3 => "are" case 4 => "as"
    case 5 => "at" case 6 => "be" case 7 => "by" case 8 => "for" case 9 => "from"
    case 10 => "has" case 11 => "he" case 12 => "in" case 13 => "is" case 14 => "it"
    case 15 => "its" case 16 => "of" case 17 => "on" case 18 => "or" case 19 => "that"
    case 20 => "the" case 21 => "to" case 22 => "was" case 23 => "were" case 24 => "will"
    case 25 => "with" case 26 => "this" case 27 => "but" case 28 => "they" case 29 => "have"
    case 30 => "had" case 31 => "what" case 32 => "when" case 33 => "where" case 34 => "who"
    case 35 => "which" case 36 => "their" case 37 => "if" case 38 => "each" case 39 => "do"
    case 40 => "not" case 41 => "no" case 42 => "so" case 43 => "can"
    case _ => ""
  }

  predicate InStopWordsFrom(w: string, i: nat)
    decreases STOP_WORD_COUNT - i, w
  {
    i < STOP_WORD_COUNT && (w == StopWord(i) || InStopWordsFrom(w, i + 1))
  }

  predicate IsStopWord(w: string) {
    InStopWordsFrom(w, 0)
  }

  // ---- Stemming ----

  datatype Rule = Rule(suffix: string, replacement: string, minLen: nat)

  const RULE_COUNT: nat := 30

  /** The suffix table (tokenizer.go:60-95), by position. */
  function RuleAt(i: nat): Rule {
    match i
    case 0 => Rule("ational", "ate", 2) case 1 => Rule("tional", "tion", 2) case 2 => Rule("encies", "ence", 2)
    case 3 => Rule("ances", "ance", 2) case 4 => Rule("ments", "ment", 2) case 5 => Rule("izing", "ize", 2)
    case 6 => Rule("ating", "ate", 2) case 7 => Rule("iness", "y", 2) case 8 => Rule("ously", "ous", 2)
    case 9 => Rule("ively", "ive", 2) case 10 => Rule("eness", "ene", 2) case 11 => Rule("ments", "ment", 2)
    case 12 => Rule("tion", "t", 3) case 13 => Rule("sion", "s", 3) case 14 => Rule("ying", "y", 2)
    case 15 => Rule("ling", "l", 3) case 16 => Rule("ies", "y", 2) case 17 => Rule("ing", "", 3)
    case 18 => Rule("ers", "er", 2) case 19 => Rule("est", "", 3) case 20 => Rule("ful", "", 3)
    case 21 => Rule("ous", "", 3) case 22 => Rule("ess", "", 3) case 23 => Rule("ble", "", 3)
    case 24 => Rule("ed", "", 3) case 25 => Rule("er", "", 3) case 26 => Rule("ly", "", 3)
    case 27 => Rule("es", "", 3) case 28 => Rule("ss", "ss", 2) case 29 => Rule("s", "", 3)
    case _ => Rule("", "", 0)
  }

  const KEEP_SS := Rule("ss", "ss", 2)

  predicate HasSuffix(s: string, suffix: string) {
    |suffix| <= |s| && s[|s| - |suffix|..] == suffix
  }

  function Apply(word: string, rule: Rule): string
    requires HasSuffix(word, rule.suffix)
  {
    word[..|word| - |rule.suffix|] + rule.replacement
  }

  predicate Fires(word: string, rule: Rule) {
    HasSuffix(word, rule.suffix) && |Apply(word, rule)| >= rule.minLen
  }

  function StemFrom(word: string, i: nat): string
    decreases RULE_COUNT - i, word
  {
    if i >= RULE_COUNT then word
    else if Fires(word, RuleAt(i)) then Apply(word, RuleAt(i))
    else StemFrom(word, i + 1)
  }

  /** The first rule of the table whose suffix matches and whose result is long
      enough decides; later rules are tried when a match comes out too short. */
  function Stem(word: string): string {
    StemFrom(word, 0)
  }

  /** Position of the first rule at or after `i` that fires; RULE_COUNT when none does. */
  function FirstRule(word: string, i: nat): nat
    decreases RULE_COUNT - i, word
  {
    if i >= RULE_COUNT then RULE_COUNT
    else if Fires(word, RuleAt(i)) then i
    else FirstRule(word, i + 1)
  }

  /** The stop words are those of the table. */
  lemma StopWordIff(w: string)
    ensures IsStopWord(w) <==> exists k: nat :: k < STOP_WORD_COUNT && StopWord(k) == w
  {
    StopWordFromIff(w, 0);
  }

  lemma {:induction false} StopWordFromIff(w: string, i: nat)
    ensures InStopWordsFrom(w, i) <==> exists k: nat :: i <= k < STOP_WORD_COUNT && StopWord(k) == w
    decreases STOP_WORD_COUNT - i, w
  {
    if i < STOP_WORD_COUNT {
      StopWordFromIff(w, i + 1);
      if w == StopWord(i) { assert StopWord(i) == w; }
    }
  }

  /** Taking the rule's suffix off the word and putting its replacement there leaves `r`,
      which is long enough. */
  ghost predicate Rewrites(word: string, rule: Rule, r: string) {
    |r| >= rule.minLen && exists p :: word == p + rule.suffix && r == p + rule.replacement
  }

  lemma FiresIff(word: string, rule: Rule)
    ensures Fires(word, rule) <==> exists r :: Rewrites(word, rule, r)
    ensures Fires(word, rule) ==> Rewrites(word, rule, Apply(word, rule))
    ensures forall r :: Rewrites(word, rule, r) ==> HasSuffix(word, rule.suffix) && r == Apply(word, rule)
  {
    if Fires(word, rule) {
      assert word == word[..|word| - |rule.suffix|] + rule.suffix;
      assert Rewrites(word, rule, Apply(word, rule));
    }
    forall r | Rewrites(word, rule, r) ensures HasSuffix(word, rule.suffix) && r == Apply(word, rule) {
      var p :| word == p + rule.suffix && r == p + rule.replacement;
      assert word[|p|..] == rule.suffix && word[..|p|] == p;
    }
  }

  /** The first rule of the table that can rewrite the word does; without one the word stays. */
  lemma StemExact(word: string) returns (k: nat)
    ensures k <= RULE_COUNT
    ensures forall j, r :: 0 <= j < k ==> !Rewrites(word, RuleAt(j), r)
    ensures if k < RULE_COUNT then Rewrites(word, RuleAt(k), Stem(word)) else Stem(word) == word
  {
    k := FirstRule(word, 0);
    FirstRuleFires(word, 0);
    forall j | 0 <= j < k ensures forall r :: !Rewrites(word, RuleAt(j), r) {
      NoneBefore(word, 0, j);
      FiresIff(word, RuleAt(j));
    }
    FiresIff(word, RuleAt(k));
  }

  lemma {:induction false} FirstRuleFires(word: string, i: nat)
    requires i <= RULE_COUNT
    ensures i <= FirstRule(word, i) <= RULE_COUNT
    ensures FirstRule(word, i) < RULE_COUNT ==>
              Fires(word, RuleAt(FirstRule(word, i))) && StemFrom(word, i) == Apply(word, RuleAt(FirstRule(word, i)))
    ensures FirstRule(word, i) == RULE_COUNT ==> StemFrom(word, i) == word
    decreases RULE_COUNT - i
  {
    if i < RULE_COUNT && !Fires(word, RuleAt(i)) { FirstRuleFires(word, i + 1); }
  }

  lemma {:induction false} NoneBefore(word: string, i: nat, j: nat)
    requires i <= j < FirstRule(word, i) <= RULE_COUNT
    ensures !Fires(word, RuleAt(j))
    decreases j - i
  {
    if i < j { NoneBefore(word, i + 1, j); }
  }

  lemma NextNoLonger(i: nat)
    requires i + 1 < RULE_COUNT
    ensures |RuleAt(i).suffix| >= |RuleAt(i + 1).suffix|
  {
  }

  lemma {:induction false} SuffixesShrink(i: nat, j: nat)
    requires i <= j < RULE_COUNT
    ensures |RuleAt(i).suffix| >= |RuleAt(j).suffix|
    decreases j - i
  {
    if i < j {
      NextNoLonger(i);
      SuffixesShrink(i + 1, j);
    }
  }

  /** Among the rules that can rewrite a word, one with a longest suffix does. */
  lemma LongestSuffixWins(word: string, j: nat)
    requires j < RULE_COUNT && Fires(word, RuleAt(j))
    ensures var k := FirstRule(word, 0);
            && k < RULE_COUNT && Fires(word, RuleAt(k)) && Stem(word) == Apply(word, RuleAt(k))
            && |RuleAt(k).suffix| >= |RuleAt(j).suffix|
  {
    FirstRuleFires(word, 0);
    if FirstRule(word, 0) <= j { SuffixesShrink(FirstRule(word, 0), j); } else { NoneBefore(word, 0, j); }
  }

  /** Every table entry but `ss` shortens the suffix it replaces. */
  lemma RulesShorten(k: nat)
    requires k < RULE_COUNT
    ensures RuleAt(k).minLen >= 2
    ensures RuleAt(k) == KEEP_SS || |RuleAt(k).replacement| < |RuleAt(k).suffix|
  {
  }

  lemma {:induction false} StemFromCases(word: string, i: nat)
    requires i <= RULE_COUNT
    ensures StemFrom(word, i) == word || |StemFrom(word, i)| < |word|
    ensures |word| >= 2 ==> |StemFrom(word, i)| >= 2
    ensures StemFrom(word, i) == word <==>
            FirstRule(word, i) == RULE_COUNT || RuleAt(FirstRule(word, i)) == KEEP_SS
    decreases RULE_COUNT - i, word
  {
    if i < RULE_COUNT {
      RulesShorten(i);
      if Fires(word, RuleAt(i)) {
        assert FirstRule(word, i) == i;
      } else {
        StemFromCases(word, i + 1);
      }
    }
  }

  /** `stem` fixes a word or strictly shortens it, never leaves fewer than two bytes of
      a word that had two, and fixes a word exactly when no rule fires on it or the
      first that does is the one keeping a final "ss". */
  lemma StemShortens(word: string)
    ensures Stem(word) == word || |Stem(word)| < |word|
    ensures |word| >= 2 ==> |Stem(word)| >= 2
    ensures Stem(word) == word <==>
            FirstRule(word, 0) == RULE_COUNT || RuleAt(FirstRule(word, 0)) == KEEP_SS
  {
    StemFromCases(word, 0);
  }

  predicate EndsLike(s: string, c: char, d: char) {
    |s| >= 2 && s[|s| - 2] == c && s[|s| - 1] == d
  }

  /** A rule of two letters or more whose last two differ from the word's is skipped. */
  lemma {:induction false} StemByEnding(word: string, c: char, d: char, i: nat, k: nat)
    requires i <= k < RULE_COUNT && EndsLike(word, c, d) && Fires(word, RuleAt(k))
    requires forall j {:trigger RuleAt(j)} :: i <= j < k ==>
               |RuleAt(j).suffix| >= 2 && !EndsLike(RuleAt(j).suffix, c, d)
    ensures StemFrom(word, i) == Apply(word, RuleAt(k))
    decreases k - i
  {
    if i < k {
      StemByEnding(word, c, d, i + 1, k);
      OtherEnding(word, c, d, RuleAt(i));
    }
  }

  lemma OtherEnding(word: string, c: char, d: char, rule: Rule)
    requires EndsLike(word, c, d) && |rule.suffix| >= 2 && !EndsLike(rule.suffix, c, d)
    ensures !Fires(word, rule)
  {
  }

  /** `stem` is not idempotent: a term that was stemmed can stem again. */
  lemma StemNotIdempotent()
    ensures Stem("creations") == "creation"
    ensures Stem("creation") == "creat"
  {
    StemOfCreations("creations");
    assert "creations"[..8] == "creation";
    StemOfCreation("creation");
    assert "creation"[..4] + "t" == "creat";
  }

  lemma RuleEndings(j: nat)
    ensures j < 29 ==> |RuleAt(j).suffix| >= 2 && !EndsLike(RuleAt(j).suffix, 'n', 's')
    ensures j < 12 ==> !EndsLike(RuleAt(j).suffix, 'o', 'n')
  {
  }

  lemma StemOfCreations(w: string)
    requires |w| == 9 && w[7] == 'n' && w[8] == 's'
    ensures Stem(w) == w[..8]
  {
    assert RuleAt(29) == Rule("s", "", 3);
    assert w[8..] == "s";
    forall j: nat { RuleEndings(j); }
    StemByEnding(w, 'n', 's', 0, 29);
  }

  lemma StemOfCreation(w: string)
    requires |w| == 8 && w[4..] == "tion"
    ensures Stem(w) == w[..4] + "t"
  {
    assert RuleAt(12) == Rule("tion", "t", 3);
    assert w[6] == w[4..][2] && w[7] == w[4..][3];
    forall j: nat { RuleEndings(j); }
    StemByEnding(w, 'o', 'n', 0, 12);
  }

  // ---- Tokens ----

  /** The term a word contributes, if any (tokenizer.go:39-48). */
  function TermsOfWord(word: string): seq<string> {
    if |word| < 2 || IsStopWord(word) || Stem(word) == "" then [] else [Stem(word)]
  }

  function TermsOfWords(words: seq<string>): seq<string> {
    if words == [] then []
    else TermsOfWords(words[..|words| - 1]) + TermsOfWord(words[|words| - 1])
  }

  /** The terms of a text, in order: what `Tokenize` returns without the positions. */
  function TermsOf(text: string): seq<string> {
    TermsOfWords(Words(text))
  }

  function Numbered(terms: seq<string>, start: nat): (r: seq<Token>)
    ensures |r| == |terms|
    ensures forall i :: 0 <= i < |r| ==> r[i] == Token(terms[i], start + i)
  {
    seq(|terms|, i requires 0 <= i < |terms| => Token(terms[i], start + i))
  }

  lemma NumberedNext(terms: seq<string>, t: string)
    ensures Numbered(terms + [t], 0) == Numbered(terms, 0) + [Token(t, |terms|)]
  {
  }

  lemma TermsOfWordsNext(words: seq<string>, i: nat)
    requires i < |words|
    ensures TermsOfWords(words[..i + 1]) == TermsOfWords(words[..i]) + TermsOfWord(words[i])
  {
    assert words[..i + 1][..i] == words[..i];
  }

  /** The loop of `Tokenize`: the terms of the text, numbered from 0 without gaps. */
  method Tokenize(text: string) returns (tokens: seq<Token>)
    ensures tokens == Numbered(TermsOf(text), 0)
  {
    var words := Words(text);
    tokens := [];
    var pos := 0;
    ghost var terms: seq<string> := [];
    for i := 0 to |words|
      invariant terms == TermsOfWords(words[..i])
      invariant pos == |terms| && tokens == Numbered(terms, 0)
    {
      TermsOfWordsNext(words, i);
      var word := words[i];
      if |word| < 2 { continue; }
      if IsStopWord(word) { continue; }
      var stemmed := Stem(word);
      if stemmed == "" { continue; }
      NumberedNext(terms, stemmed);
      tokens := tokens + [Token(stemmed, pos)];
      pos := pos + 1;
      terms := terms + [stemmed];
    }
    assert words[..|words|] == words;
  }

  // ---- Conservation across concatenation ----

  lemma {:induction false} FieldsConcat(sep: char -> bool, a: string, c: char, b: string, word: string)
    requires sep(c)
    ensures FieldsFrom(sep, a + [c] + b, word) == FieldsFrom(sep, a, word) + Fields(sep, b)
    decreases |a|
  {
    var s := a + [c] + b;
    if a == "" {
      assert s[1..] == b;
    } else {
      assert s[1..] == a[1..] + [c] + b;
      FieldsConcat(sep, a[1..], c, b, if sep(a[0]) then "" else word + [a[0]]);
    }
  }

  lemma {:induction false} TermsOfWordsConcat(a: seq<string>, b: seq<string>)
    ensures TermsOfWords(a + b) == TermsOfWords(a) + TermsOfWords(b)
    decreases |b|
  {
    if b == [] {
      assert a + b == a;
    } else {
      var n := |b| - 1;
      assert (a + b)[..|a + b| - 1] == a + b[..n];
      TermsOfWordsConcat(a, b[..n]);
    }
  }

  lemma NumberedConcat(a: seq<string>, b: seq<string>)
    ensures Numbered(a + b, 0) == Numbered(a, 0) + Numbered(b, |a|)
  {
  }

  /** Everything but ASCII letters and digits separates. */
  lemma SplitAnywhere(a: string, c: char, b: string)
    requires !('a' <= c <= 'z') && !('A' <= c <= 'Z') && !('0' <= c <= '9')
    ensures TermsOf(a + [c] + b) == TermsOf(a) + TermsOf(b)
  {
    assert ToLower(a + [c] + b) == ToLower(a) + [c] + ToLower(b);
    FieldsConcat(IsSeparator, ToLower(a), c, ToLower(b), "");
    TermsOfWordsConcat(Words(a), Words(b));
  }

  /** Tokenising two texts joined by a space is tokenising each, the second with its
      positions shifted past the first: nothing merges or disappears at the seam. */
  lemma TokenizeConcat(a: string, b: string)
    ensures TermsOf(a + " " + b) == TermsOf(a) + TermsOf(b)
    ensures Numbered(TermsOf(a + " " + b), 0)
         == Numbered(TermsOf(a), 0) + Numbered(TermsOf(b), |TermsOf(a)|)
  {
    assert ToLower(a + " " + b) == ToLower(a) + [' '] + ToLower(b);
    FieldsConcat(IsSeparator, ToLower(a), ' ', ToLower(b), "");
    TermsOfWordsConcat(Words(a), Words(b));
    NumberedConcat(TermsOf(a), TermsOf(b));
  }

  /** The term `Engine.Search` looks up for a given string: the first token, if any. */
  function LookupTerm(term: string): seq<string> {
    var ts := TermsOf(term);
    if ts == [] then [] else [ts[0]]
  }

  // ---- Single words ----

  ghost predicate AlnumWord(w: string) {
    w != "" && forall i :: 0 <= i < |w| ==> IsAlnum(w[i])
  }

  lemma {:induction false} FieldsOfUnbroken(sep: char -> bool, s: string, word: string)
    requires forall i :: 0 <= i < |s| ==> !sep(s[i])
    ensures FieldsFrom(sep, s, word) == Flushed(word + s)
    decreases |s|
  {
    if s == "" {
      assert word + s == word;
    } else {
      FieldsOfUnbroken(sep, s[1..], word + [s[0]]);
      assert word + [s[0]] + s[1..] == word + s;
    }
  }

  lemma TermsOfOneWord(w: string)
    ensures TermsOfWords([w]) == TermsOfWord(w)
  {
    assert [w][..0] == [];
  }

  lemma WordsOfAlnumWord(w: string)
    requires AlnumWord(w)
    ensures Words(w) == [ToLower(w)]
  {
    var l := ToLower(w);
    FieldsOfUnbroken(IsSeparator, l, "");
    assert "" + l == l;
  }

  /** An alphanumeric word is one word, and gives at most one token. */
  lemma TermsOfAlnumWord(w: string)
    requires AlnumWord(w)
    ensures TermsOf(w) == TermsOfWord(ToLower(w))
  {
    WordsOfAlnumWord(w);
    TermsOfOneWord(ToLower(w));
  }

  lemma ToLowerTwice(s: string)
    ensures ToLower(ToLower(s)) == ToLower(s)
  {
  }

  /** The term of an indexed word is found again exactly when it is long enough, not a
      stop word and a fixed point of `stem`. */
  lemma LookupFindsItselfIff(t: string)
    requires AlnumWord(t) && ToLower(t) == t
    ensures LookupTerm(t) == [t] <==> |t| >= 2 && !IsStopWord(t) && Stem(t) == t
  {
    TermsOfAlnumWord(t);
  }

  // ---- What terms look like ----

  lemma {:induction false} FieldsKeep(sep: char -> bool, ok: char -> bool, s: string, word: string)
    requires forall i :: 0 <= i < |s| ==> ok(s[i])
    requires forall i :: 0 <= i < |word| ==> ok(word[i]) && !sep(word[i])
    ensures forall w :: w in FieldsFrom(sep, s, word) ==>
              w != "" && forall i :: 0 <= i < |w| ==> ok(w[i]) && !sep(w[i])
    decreases |s|
  {
    if s != "" { FieldsKeep(sep, ok, s[1..], if sep(s[0]) then "" else word + [s[0]]); }
  }

  /** Lower-case letters and digits. */
  ghost predicate Clean(s: string) { forall i :: 0 <= i < |s| ==> 'a' <= s[i] <= 'z' || '0' <= s[i] <= '9' }

  lemma EarlyReplacementsClean(k: nat)
    requires k < 9
    ensures Clean(RuleAt(k).replacement)
  {
  }

  lemma ReplacementsClean(k: nat)
    ensures Clean(RuleAt(k).replacement)
  {
    if k < 9 { EarlyReplacementsClean(k); }
  }

  lemma {:induction false} StemClean(word: string, i: nat)
    requires Clean(word)
    ensures Clean(StemFrom(word, i))
    decreases RULE_COUNT - i, word
  {
    if i < RULE_COUNT {
      if Fires(word, RuleAt(i)) { ReplacementsClean(i); } else { StemClean(word, i + 1); }
    }
  }

  /** A lower-case word gives its stem, once, unless it is short or a stop word. */
  lemma CleanWordTerm(w: string)
    requires Clean(w)
    ensures TermsOf(w)
         == if |w| >= 2 && (forall k: nat :: k < STOP_WORD_COUNT ==> StopWord(k) != w) then [Stem(w)] else []
  {
    StopWordIff(w);
    StemShortens(w);
    if w != "" {
      assert ToLower(w) == w;
      TermsOfAlnumWord(w);
    } else {
      assert ToLower(w) == "";
    }
  }

  lemma {:induction false} TermsOfWordsClean(words: seq<string>, t: string)
    requires (forall w :: w in words ==> Clean(w)) && t in TermsOfWords(words)
    ensures Clean(t) && t != ""
  {
    var n := |words| - 1;
    if t in TermsOfWords(words[..n]) {
      TermsOfWordsClean(words[..n], t);
    } else {
      assert words[n] in words;
      StemClean(words[n], 0);
    }
  }

  /** A term is a word of lower-case letters and digits, so tokenising it once more gives the
      term it is looked up by and nothing else. */
  lemma TermsAreWords(text: string, t: string)
    requires t in TermsOf(text)
    ensures AlnumWord(t) && ToLower(t) == t && TermsOf(t) == LookupTerm(t)
  {
    var lower := ToLower(text);
    FieldsKeep(IsSeparator, c => !IsUpper(c), lower, "");
    TermsOfWordsClean(Words(text), t);
    TermsOfAlnumWord(t);
  }

  // ---- Two words ----

  lemma NoRuleEndsInO(k: nat)
    requires k < RULE_COUNT
    ensures RuleAt(k).suffix != "" && RuleAt(k).suffix[|RuleAt(k).suffix| - 1] != 'o'
  {
  }

  lemma {:induction false} StemKeepsO(word: string, i: nat)
    requires word != "" && word[|word| - 1] == 'o'
    ensures StemFrom(word, i) == word
    decreases RULE_COUNT - i, word
  {
    if i < RULE_COUNT {
      NoRuleEndsInO(i);
      StemKeepsO(word, i + 1);
    }
  }

  lemma RuleEndingsST(j: nat)
    ensures j < 19 ==> |RuleAt(j).suffix| >= 2 && !EndsLike(RuleAt(j).suffix, 's', 't')
  {
  }

  lemma StemOfSuperlative(w: string)
    requires |w| == 6 && w[3..] == "est"
    ensures Stem(w) == w[..3]
  {
    assert RuleAt(19) == Rule("est", "", 3);
    assert w[4] == w[3..][1] && w[5] == w[3..][2];
    forall j: nat { RuleEndingsST(j); }
    StemByEnding(w, 's', 't', 0, 19);
  }
}
