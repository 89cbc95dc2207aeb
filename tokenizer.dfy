/**
 * The tokenizer: stopwords read from a text file, and plain text cut into
 * sentences of lower-cased, lemmatized and stemmed tokens, optionally without
 * stopwords and followed by one list of n-grams.
 *
 * Sentence and word splitting (NLTK) are the `sentTokenize` and `wordTokenize`
 * parameters; matching a regular expression against a whole token is
 * `fullMatch`.
 */
module Tokenize {
  import opened Wrappers
  import opened Strings
  import opened Words
  import Sources

  /** The stopword file packaged with the tagger. */
  const DefaultStopwordsFile: string := "data/stopwords.txt"

  /** The prefix that marks a stopword line as a regular expression. */
  const RegexpPrefix: string := "re: "

  /** The text of the stopword file, from the `stopwords_file` argument. */
  function StopwordsContent(src: Sources.TextSource, readFile: string -> Option<string>): (r: Result<string>)
    ensures r == Failure(InvalidInputError) <==> src.Unsupported?
    ensures src.Stream? ==> r == Success(src.content)
  {
    Sources.ReadSource(src, DefaultStopwordsFile, readFile)
  }

  // ---------------------------------------------------------------------------
  // The stopword file

  /** What one line of the stopword file declares. */
  datatype StopwordLine = Comment | RegexpStopword(pattern: Pattern) | RawStopword(word: string)

  /**
   * A line starting with `#` is a comment, except the line `#` itself; a line
   * starting with `re: ` is a regular expression; every other line, the empty
   * one and `re:` without the space included, is a raw stopword.
   */
  function ClassifyLine(line: string): (c: StopwordLine)
    ensures c.Comment? <==> StartsWith(line, "#") && line != "#"
  {
    if StartsWith(line, "#") && line != "#" then Comment
    else if StartsWith(line, RegexpPrefix) then RegexpStopword(line[|RegexpPrefix|..])
    else RawStopword(line)
  }

  /** The line a stopword declaration is read from. */
  function LineOf(c: StopwordLine): string
    requires !c.Comment?
  {
    match c
    case RegexpStopword(p) => RegexpPrefix + p
    case RawStopword(w) => w
  }

  /** Classifying a line loses nothing but comments: the declaration gives the line back. */
  lemma ClassifyLineRoundTrip(line: string)
    requires !ClassifyLine(line).Comment?
    ensures LineOf(ClassifyLine(line)) == line
  {
    if StartsWith(line, RegexpPrefix) {
      assert line == line[..|RegexpPrefix|] + line[|RegexpPrefix|..];
    }
  }

  /** A regular expression stopword is written back as a line that is read as that expression. */
  lemma RegexpLineRoundTrip(p: Pattern)
    ensures ClassifyLine(RegexpPrefix + p) == RegexpStopword(p)
  {
    var line := RegexpPrefix + p;
    assert line[..1] == "r";
    assert line[..|RegexpPrefix|] == RegexpPrefix;
    assert line[|RegexpPrefix|..] == p;
  }

  /** The regular expressions of the lines, in file order. */
  function RegexpStopwordsOf(lines: seq<string>): (ps: seq<Pattern>)
    ensures |ps| <= |lines|
  {
    if lines == [] then []
    else
      var c := ClassifyLine(lines[|lines| - 1]);
      RegexpStopwordsOf(lines[..|lines| - 1]) + (if c.RegexpStopword? then [c.pattern] else [])
  }

  /** The raw stopwords of the lines, in file order, before lemmatization and stemming. */
  function RawStopwordsOf(lines: seq<string>): (ws: seq<string>)
    ensures |ws| <= |lines|
  {
    if lines == [] then []
    else
      var c := ClassifyLine(lines[|lines| - 1]);
      RawStopwordsOf(lines[..|lines| - 1]) + (if c.RawStopword? then [c.word] else [])
  }

  /** Every line that is neither a comment nor a regular expression is a raw stopword, and only those. */
  lemma {:induction false} RawStopwordsAreLines(lines: seq<string>, w: string)
    ensures w in RawStopwordsOf(lines) <==> w in lines && ClassifyLine(w).RawStopword?
  {
    if lines != [] {
      var init := lines[..|lines| - 1];
      RawStopwordsAreLines(init, w);
      assert lines == init + [lines[|lines| - 1]];
    }
  }

  /** The number of comment lines. */
  function CommentCount(lines: seq<string>): (n: nat)
    ensures n <= |lines|
  {
    if lines == [] then 0
    else CommentCount(lines[..|lines| - 1]) + (if ClassifyLine(lines[|lines| - 1]).Comment? then 1 else 0)
  }

  /** Comments, regular expressions and raw stopwords together account for every line, each line once. */
  lemma {:induction false} StopwordLinesPartition(lines: seq<string>)
    ensures |RegexpStopwordsOf(lines)| + |RawStopwordsOf(lines)| + CommentCount(lines) == |lines|
  {
    if lines != [] {
      StopwordLinesPartition(lines[..|lines| - 1]);
    }
  }

  // ---------------------------------------------------------------------------
  // Stopword removal

  /** A token is dropped for a raw stopword, as `remove_stopwords` is written. */
  function WithoutRawStopwords(tokens: seq<string>, raw: seq<string>): (r: seq<string>)
    ensures |r| <= |tokens|
  {
    if tokens == [] then []
    else
      var last := tokens[|tokens| - 1];
      WithoutRawStopwords(tokens[..|tokens| - 1], raw) + (if last in raw then [] else [last])
  }

  /** A token matches one of the regular expression stopwords. */
  predicate MatchesAny(fullMatch: (Pattern, string) -> bool, patterns: seq<Pattern>, token: string) {
    exists j :: 0 <= j < |patterns| && fullMatch(patterns[j], token)
  }

  /** A token is dropped for a raw stopword or for a matching regular expression, as the code intends. */
  function WithoutStopwords(tokens: seq<string>, raw: seq<string>, patterns: seq<Pattern>,
                            fullMatch: (Pattern, string) -> bool): (r: seq<string>)
    ensures |r| <= |tokens|
  {
    if tokens == [] then []
    else
      var last := tokens[|tokens| - 1];
      WithoutStopwords(tokens[..|tokens| - 1], raw, patterns, fullMatch)
        + (if last in raw || MatchesAny(fullMatch, patterns, last) then [] else [last])
  }

  /** A token survives stopword removal exactly when it was there and is no stopword. */
  lemma {:induction false} WithoutStopwordsMembers(tokens: seq<string>, raw: seq<string>, patterns: seq<Pattern>,
                                                    fullMatch: (Pattern, string) -> bool, t: string)
    ensures t in WithoutStopwords(tokens, raw, patterns, fullMatch) <==>
              t in tokens && t !in raw && !MatchesAny(fullMatch, patterns, t)
  {
    if tokens != [] {
      var init := tokens[..|tokens| - 1];
      WithoutStopwordsMembers(init, raw, patterns, fullMatch, t);
      assert tokens == init + [tokens[|tokens| - 1]];
    }
  }

  /** Without regular expression stopwords, the intended and the written filter agree. */
  lemma {:induction false} FiltersAgreeWithoutPatterns(tokens: seq<string>, raw: seq<string>,
                                                        fullMatch: (Pattern, string) -> bool)
    ensures WithoutStopwords(tokens, raw, [], fullMatch) == WithoutRawStopwords(tokens, raw)
  {
    if tokens != [] {
      FiltersAgreeWithoutPatterns(tokens[..|tokens| - 1], raw, fullMatch);
    }
  }

  /** Removing stopwords keeps the other tokens in order: each is kept as often as it occurs. */
  lemma {:induction false} WithoutStopwordsCounts(tokens: seq<string>, raw: seq<string>, patterns: seq<Pattern>,
                                                   fullMatch: (Pattern, string) -> bool, t: string)
    ensures multiset(WithoutStopwords(tokens, raw, patterns, fullMatch))[t] ==
              if t in raw || MatchesAny(fullMatch, patterns, t) then 0 else multiset(tokens)[t]
  {
    if tokens != [] {
      var init := tokens[..|tokens| - 1];
      WithoutStopwordsCounts(init, raw, patterns, fullMatch, t);
      assert tokens == init + [tokens[|tokens| - 1]];
    }
  }

  /** Removing stopwords twice removes nothing more. */
  lemma {:induction false} WithoutStopwordsIdempotent(tokens: seq<string>, raw: seq<string>, patterns: seq<Pattern>,
                                                       fullMatch: (Pattern, string) -> bool)
    ensures var once := WithoutStopwords(tokens, raw, patterns, fullMatch);
            WithoutStopwords(once, raw, patterns, fullMatch) == once
  {
    if tokens != [] {
      var init := tokens[..|tokens| - 1];
      var last := tokens[|tokens| - 1];
      WithoutStopwordsIdempotent(init, raw, patterns, fullMatch);
      var onceInit := WithoutStopwords(init, raw, patterns, fullMatch);
      if last in raw || MatchesAny(fullMatch, patterns, last) {
        assert WithoutStopwords(tokens, raw, patterns, fullMatch) == onceInit + [] == onceInit;
      } else {
        var once := onceInit + [last];
        assert WithoutStopwords(tokens, raw, patterns, fullMatch) == once;
        assert once[..|once| - 1] == onceInit;
        assert WithoutStopwords(once, raw, patterns, fullMatch) == WithoutStopwords(onceInit, raw, patterns, fullMatch) + [last];
      }
    }
  }

  /**
   * As written, a token that only a regular expression stopword matches is
   * kept: "0" survives the stopword `re: [0-9.]+`, which the intended filter
   * drops.
   */
  lemma RegexpStopwordIsIgnored(fullMatch: (Pattern, string) -> bool)
    requires fullMatch("[0-9.]+", "0") && !fullMatch("[0-9.]+", "foo")
    ensures WithoutRawStopwords(["foo", "0"], []) == ["foo", "0"]
    ensures WithoutStopwords(["foo", "0"], [], ["[0-9.]+"], fullMatch) == ["foo"]
  {
    var tokens := ["foo", "0"];
    var patterns := ["[0-9.]+"];
    assert tokens[..1] == ["foo"];
    assert ["foo"][..0] == [];
    assert fullMatch(patterns[0], "0");
    assert MatchesAny(fullMatch, patterns, "0");
    assert !MatchesAny(fullMatch, patterns, "foo");
  }

  // ---------------------------------------------------------------------------
  // N-grams

  /** The `w` tokens of `sentence` from position `k`, joined with spaces. */
  function Ngram(sentence: seq<string>, k: nat, w: nat): string
    requires k + w <= |sentence|
  {
    Join(sentence[k..k + w], " ")
  }

  /** The n-grams of every window of `w` consecutive tokens, in order. */
  function Windows(sentence: seq<string>, w: nat): (r: seq<string>)
    requires w >= 1
    ensures |r| == if |sentence| >= w then |sentence| - w + 1 else 0
  {
    if |sentence| < w then []
    else seq(|sentence| - w + 1, k requires 0 <= k <= |sentence| - w => Ngram(sentence, k, w))
  }

  /** `zip(*[sentence[j:] for j in range(i + 1)])`: exactly the windows of `i + 1` tokens. */
  lemma WindowsAreSlices(sentence: seq<string>, w: nat, v: string)
    requires w >= 1
    ensures v in Windows(sentence, w) <==> exists k: nat :: k + w <= |sentence| && v == Ngram(sentence, k, w)
  {
    if v in Windows(sentence, w) {
      var k :| 0 <= k < |Windows(sentence, w)| && Windows(sentence, w)[k] == v;
      assert v == Ngram(sentence, k, w);
    }
    if exists k: nat :: k + w <= |sentence| && v == Ngram(sentence, k, w) {
      var k: nat :| k + w <= |sentence| && v == Ngram(sentence, k, w);
      assert Windows(sentence, w)[k] == v;
    }
  }

  /** The n-grams of one sentence: its windows of 2 tokens, then of 3, up to `n`. */
  function SentenceNgrams(sentence: seq<string>, n: int): seq<string>
    decreases n
  {
    if n < 2 then [] else SentenceNgrams(sentence, n - 1) + Windows(sentence, n)
  }

  /** The n-gram list appended after the sentences: every sentence's n-grams, in sentence order. */
  function NgramTail(sentences: seq<seq<string>>, n: int): seq<string>
  {
    if sentences == [] then []
    else NgramTail(sentences[..|sentences| - 1], n) + SentenceNgrams(sentences[|sentences| - 1], n)
  }

  /** Sentences of fewer than two tokens yield no n-grams. */
  lemma {:induction false} ShortSentenceNgrams(sentence: seq<string>, n: int)
    requires |sentence| < 2
    ensures SentenceNgrams(sentence, n) == []
  {
    if n >= 2 {
      ShortSentenceNgrams(sentence, n - 1);
    }
  }

  /** The number of n-grams of a sentence of `len` tokens for n-gram size `n`. */
  function NgramCount(len: nat, n: int): nat
    decreases n
  {
    if n < 2 then 0 else NgramCount(len, n - 1) + (if len >= n then len - n + 1 else 0)
  }

  lemma {:induction false} SentenceNgramsLength(sentence: seq<string>, n: int)
    ensures |SentenceNgrams(sentence, n)| == NgramCount(|sentence|, n)
  {
    if n >= 2 {
      SentenceNgramsLength(sentence, n - 1);
    }
  }

  /** Every n-gram of a sentence joins 2 to `n` consecutive tokens of it. */
  lemma {:induction false} SentenceNgramIsWindow(sentence: seq<string>, n: int, v: string)
    requires v in SentenceNgrams(sentence, n)
    ensures exists k: nat, w: nat :: 2 <= w <= n && k + w <= |sentence| && v == Ngram(sentence, k, w)
  {
    if v in SentenceNgrams(sentence, n - 1) {
      SentenceNgramIsWindow(sentence, n - 1, v);
      var k: nat, w: nat :| 2 <= w <= n - 1 && k + w <= |sentence| && v == Ngram(sentence, k, w);
    } else {
      WindowsAreSlices(sentence, n, v);
    }
  }

  /** Every window of 2 to `n` consecutive tokens of a sentence is one of its n-grams. */
  lemma {:induction false} WindowIsSentenceNgram(sentence: seq<string>, n: int, k: nat, w: int)
    requires 2 <= w <= n && k + w <= |sentence|
    ensures Ngram(sentence, k, w) in SentenceNgrams(sentence, n)
  {
    if w < n {
      WindowIsSentenceNgram(sentence, n - 1, k, w);
    } else {
      WindowsAreSlices(sentence, n, Ngram(sentence, k, w));
    }
  }

  /**
   * What `tokenize` returns for the lower-cased word tokens of each sentence,
   * when its stopword filter honours `patterns`: as written it honours none
   * (`Tokenizer.Tokenize`), as intended every regular expression stopword
   * (`Tokenizer.TokenizeIntended`).
   */
  function Tokenized(words: seq<seq<string>>, lemmatizer: Normalizer, stemmer: Normalizer, removeStopwords: bool,
                     raw: seq<string>, patterns: seq<Pattern>, fullMatch: (Pattern, string) -> bool,
                     ngramSize: int): (r: seq<seq<string>>)
    ensures |r| == |words| + (if ngramSize > 1 then 1 else 0)
  {
    var normalized := NormalizedSentences(words, lemmatizer, stemmer);
    var base := if removeStopwords then FilteredSentences(normalized, raw, patterns, fullMatch) else normalized;
    if ngramSize > 1 then base + [NgramTail(base, ngramSize)] else base
  }

  /** Every sentence lemmatized, then stemmed, token by token. */
  function NormalizedSentences(words: seq<seq<string>>, lemmatizer: Normalizer, stemmer: Normalizer): (r: seq<seq<string>>)
    ensures |r| == |words|
    ensures forall i :: 0 <= i < |r| ==> |r[i]| == |words[i]|
  {
    seq(|words|, i requires 0 <= i < |words| => ApplyAll(stemmer, ApplyAll(lemmatizer, words[i])))
  }

  /** Every sentence without its stopwords. */
  function FilteredSentences(sentences: seq<seq<string>>, raw: seq<string>, patterns: seq<Pattern>,
                             fullMatch: (Pattern, string) -> bool): (r: seq<seq<string>>)
    ensures |r| == |sentences|
    ensures forall i :: 0 <= i < |r| ==> |r[i]| <= |sentences[i]|
  {
    seq(|sentences|, i requires 0 <= i < |sentences| => WithoutStopwords(sentences[i], raw, patterns, fullMatch))
  }

  /** The word tokens of every sentence, lower-cased. */
  function LoweredWords(sentences: seq<string>, wordTokenize: string -> seq<string>): (r: seq<seq<string>>)
    ensures |r| == |sentences|
    ensures forall i :: 0 <= i < |r| ==> |r[i]| == |wordTokenize(sentences[i])|
    ensures forall i, j :: 0 <= i < |r| && 0 <= j < |r[i]| ==> r[i][j] == Lower(wordTokenize(sentences[i])[j])
  {
    seq(|sentences|, i requires 0 <= i < |sentences| =>
      var tokens := wordTokenize(sentences[i]);
      seq(|tokens|, j requires 0 <= j < |tokens| => Lower(tokens[j])))
  }

  /**
   * As written, with stopword removal on, a sentence keeps exactly its
   * normalized tokens that are no raw stopword: a token a regular expression
   * stopword matches is kept (the n-gram list is not filtered).
   */
  lemma TokenizedHasNoStopwords(words: seq<seq<string>>, lemmatizer: Normalizer, stemmer: Normalizer,
                                raw: seq<string>, fullMatch: (Pattern, string) -> bool,
                                ngramSize: int, i: int, t: string)
    requires 0 <= i < |words|
    ensures t in Tokenized(words, lemmatizer, stemmer, true, raw, [], fullMatch, ngramSize)[i] <==>
              t in NormalizedSentences(words, lemmatizer, stemmer)[i] && t !in raw
  {
    var normalized := NormalizedSentences(words, lemmatizer, stemmer)[i];
    WithoutStopwordsMembers(normalized, raw, [], fullMatch, t);
  }

  /** As intended, with stopword removal on, no sentence keeps a raw stopword or a token a regular expression stopword matches. */
  lemma TokenizedIntendedHasNoStopwords(words: seq<seq<string>>, lemmatizer: Normalizer, stemmer: Normalizer,
                                        raw: seq<string>, patterns: seq<Pattern>, fullMatch: (Pattern, string) -> bool,
                                        ngramSize: int, i: int, t: string)
    requires 0 <= i < |words|
    ensures t in Tokenized(words, lemmatizer, stemmer, true, raw, patterns, fullMatch, ngramSize)[i] <==>
              t in NormalizedSentences(words, lemmatizer, stemmer)[i] && t !in raw && !MatchesAny(fullMatch, patterns, t)
  {
    var normalized := NormalizedSentences(words, lemmatizer, stemmer)[i];
    WithoutStopwordsMembers(normalized, raw, patterns, fullMatch, t);
  }

  /** A filter that honours regular expressions removes nothing more than the written one from tokens none of them matches. */
  lemma {:induction false} WithoutStopwordsNoMatch(tokens: seq<string>, raw: seq<string>, patterns: seq<Pattern>,
                                                    fullMatch: (Pattern, string) -> bool)
    requires forall j :: 0 <= j < |tokens| ==> !MatchesAny(fullMatch, patterns, tokens[j])
    ensures WithoutStopwords(tokens, raw, patterns, fullMatch) == WithoutRawStopwords(tokens, raw)
  {
    if tokens != [] {
      WithoutStopwordsNoMatch(tokens[..|tokens| - 1], raw, patterns, fullMatch);
    }
  }

  /**
   * The written and the intended `tokenize` agree when no regular expression
   * stopword matches a normalized token, in particular when there are none.
   */
  lemma TokenizedAgreeWithoutMatches(words: seq<seq<string>>, lemmatizer: Normalizer, stemmer: Normalizer,
                                     removeStopwords: bool, raw: seq<string>, patterns: seq<Pattern>,
                                     fullMatch: (Pattern, string) -> bool, ngramSize: int)
    requires forall i, j :: 0 <= i < |words| && 0 <= j < |NormalizedSentences(words, lemmatizer, stemmer)[i]| ==>
               !MatchesAny(fullMatch, patterns, NormalizedSentences(words, lemmatizer, stemmer)[i][j])
    ensures Tokenized(words, lemmatizer, stemmer, removeStopwords, raw, patterns, fullMatch, ngramSize) ==
              Tokenized(words, lemmatizer, stemmer, removeStopwords, raw, [], fullMatch, ngramSize)
  {
    var normalized := NormalizedSentences(words, lemmatizer, stemmer);
    forall i | 0 <= i < |normalized|
      ensures FilteredSentences(normalized, raw, patterns, fullMatch)[i] == FilteredSentences(normalized, raw, [], fullMatch)[i]
    {
      WithoutStopwordsNoMatch(normalized[i], raw, patterns, fullMatch);
      FiltersAgreeWithoutPatterns(normalized[i], raw, fullMatch);
    }
    assert FilteredSentences(normalized, raw, patterns, fullMatch) == FilteredSentences(normalized, raw, [], fullMatch);
  }

  /** With `ngramSize` at most 1 there is no n-gram list, and without normalizers or stopword removal the sentences are the lower-cased words. */
  lemma TokenizedPlain(words: seq<seq<string>>, raw: seq<string>, patterns: seq<Pattern>,
                       fullMatch: (Pattern, string) -> bool, ngramSize: int)
    requires ngramSize <= 1
    ensures Tokenized(words, NoNormalizer, NoNormalizer, false, raw, patterns, fullMatch, ngramSize) == words
  {
  }

  /** With `ngramSize` above 1, the last list holds exactly the n-grams of the sentences before it. */
  lemma NgramTailMembers(sentences: seq<seq<string>>, n: int, v: string)
    ensures v in NgramTail(sentences, n) <==> exists i :: 0 <= i < |sentences| && v in SentenceNgrams(sentences[i], n)
  {
    if v in NgramTail(sentences, n) {
      NgramTailSound(sentences, n, v);
    }
    if exists i :: 0 <= i < |sentences| && v in SentenceNgrams(sentences[i], n) {
      var i :| 0 <= i < |sentences| && v in SentenceNgrams(sentences[i], n);
      NgramTailComplete(sentences, n, i, v);
    }
  }

  /** Every n-gram in the last list comes from some sentence. */
  lemma {:induction false} NgramTailSound(sentences: seq<seq<string>>, n: int, v: string)
    requires v in NgramTail(sentences, n)
    ensures exists i :: 0 <= i < |sentences| && v in SentenceNgrams(sentences[i], n)
  {
    var init := sentences[..|sentences| - 1];
    if v in NgramTail(init, n) {
      NgramTailSound(init, n, v);
      var i :| 0 <= i < |init| && v in SentenceNgrams(init[i], n);
      assert sentences[i] == init[i];
    } else {
      assert v in SentenceNgrams(sentences[|sentences| - 1], n);
    }
  }

  /** Every n-gram of every sentence is in the last list. */
  lemma {:induction false} NgramTailComplete(sentences: seq<seq<string>>, n: int, i: int, v: string)
    requires 0 <= i < |sentences| && v in SentenceNgrams(sentences[i], n)
    ensures v in NgramTail(sentences, n)
  {
    var init := sentences[..|sentences| - 1];
    if i < |init| {
      assert init[i] == sentences[i];
      NgramTailComplete(init, n, i, v);
    }
  }

  // ---------------------------------------------------------------------------

  class Tokenizer {
    const ngramSize: int
    const lemmatizer: Normalizer
    const stemmer: Normalizer
    /** `re.fullmatch(pattern, token)` is truthy. */
    const fullMatch: (Pattern, string) -> bool

    /** `_regexp_stopwords`, as the source text of each expression. */
    var regexpStopwords: seq<Pattern>
    /** `_raw_stopwords`, lemmatized and stemmed. */
    var rawStopwords: seq<string>

    /**
     * Reads the stopword file content line by line: comments are skipped,
     * `re: ` lines become regular expressions and every other line a raw
     * stopword, which is then lemmatized and stemmed.
     */
    constructor (content: string, ngramSize: int, lemmatizer: Normalizer, stemmer: Normalizer,
                 fullMatch: (Pattern, string) -> bool)
      ensures this.ngramSize == ngramSize && this.lemmatizer == lemmatizer && this.stemmer == stemmer
      ensures this.fullMatch == fullMatch
      ensures regexpStopwords == RegexpStopwordsOf(Split(content, '\n'))
      ensures rawStopwords == ApplyAll(stemmer, ApplyAll(lemmatizer, RawStopwordsOf(Split(content, '\n'))))
    {
      this.ngramSize := ngramSize;
      this.lemmatizer := lemmatizer;
      this.stemmer := stemmer;
      this.fullMatch := fullMatch;
      regexpStopwords := [];
      rawStopwords := [];
      new;
      var regexps, raws := ReadStopwords(Split(content, '\n'));
      regexpStopwords := regexps;
      var words := new string[|raws|](j requires 0 <= j < |raws| => raws[j]);
      Lemmatize(words);
      Stem(words);
      rawStopwords := words[..];
    }

    /** The loop over the stopword file's lines: comments skipped, `re: ` lines kept as patterns, the rest as words. */
    static method ReadStopwords(lines: seq<string>) returns (regexps: seq<Pattern>, raws: seq<string>)
      ensures regexps == RegexpStopwordsOf(lines)
      ensures raws == RawStopwordsOf(lines)
    {
      regexps, raws := [], [];
      var i := 0;
      while i < |lines|
        invariant 0 <= i <= |lines|
        invariant regexps == RegexpStopwordsOf(lines[..i])
        invariant raws == RawStopwordsOf(lines[..i])
      {
        var word := lines[i];
        assert lines[..i + 1][..i] == lines[..i];
        if StartsWith(word, "#") && word != "#" {
          // a comment
        } else if StartsWith(word, RegexpPrefix) {
          regexps := regexps + [word[|RegexpPrefix|..]];
        } else {
          raws := raws + [word];
        }
        i := i + 1;
      }
      assert lines[..|lines|] == lines;
    }

    /** `_lemmatize`: every token is replaced, in place, by its lemma. */
    method Lemmatize(tokens: array<string>)
      modifies tokens
      ensures tokens[..] == ApplyAll(lemmatizer, old(tokens[..]))
    {
      if lemmatizer.Normalizer? {
        RewriteInPlace(lemmatizer, tokens);
      }
    }

    /** `_stem`: every token is replaced, in place, by its stem. */
    method Stem(tokens: array<string>)
      modifies tokens
      ensures tokens[..] == ApplyAll(stemmer, old(tokens[..]))
    {
      if stemmer.Normalizer? {
        RewriteInPlace(stemmer, tokens);
      }
    }

    /** The loop `_lemmatize` and `_stem` share: a slot is written only when the word changes. */
    static method RewriteInPlace(f: Normalizer, tokens: array<string>)
      modifies tokens
      ensures tokens[..] == ApplyAll(f, old(tokens[..]))
    {
      for idx := 0 to tokens.Length
        invariant forall j :: 0 <= j < idx ==> tokens[j] == Apply(f, old(tokens[j]))
        invariant forall j :: idx <= j < tokens.Length ==> tokens[j] == old(tokens[j])
      {
        var token := tokens[idx];
        var newToken := Apply(f, token);
        if newToken != token {
          tokens[idx] := newToken;
        }
      }
    }

    /**
     * `remove_stopwords` as written: a raw stopword is dropped; the loop over
     * the regular expression stopwords only continues itself when one matches,
     * so it drops nothing and is not modelled.
     */
    method RemoveStopwordsAsWritten(tokens: seq<string>) returns (ret: seq<string>)
      ensures ret == WithoutRawStopwords(tokens, rawStopwords)
    {
      ret := [];
      for i := 0 to |tokens|
        invariant ret == WithoutRawStopwords(tokens[..i], rawStopwords)
      {
        assert tokens[..i + 1][..i] == tokens[..i];
        var token := tokens[i];
        if token in rawStopwords {
          continue;
        }
        ret := ret + [token];
      }
      assert tokens[..|tokens|] == tokens;
    }

    /** `remove_stopwords` as intended: a token is dropped for a raw stopword or a matching regular expression. */
    method RemoveStopwords(tokens: seq<string>) returns (ret: seq<string>)
      ensures ret == WithoutStopwords(tokens, rawStopwords, regexpStopwords, fullMatch)
    {
      ret := [];
      for i := 0 to |tokens|
        invariant ret == WithoutStopwords(tokens[..i], rawStopwords, regexpStopwords, fullMatch)
      {
        assert tokens[..i + 1][..i] == tokens[..i];
        var token := tokens[i];
        if token in rawStopwords {
          continue;
        }
        var stop := false;
        for j := 0 to |regexpStopwords|
          invariant stop <==> exists j' :: 0 <= j' < j && fullMatch(regexpStopwords[j'], token)
        {
          if fullMatch(regexpStopwords[j], token) {
            stop := true;
          }
        }
        if stop {
          continue;
        }
        ret := ret + [token];
      }
      assert tokens[..|tokens|] == tokens;
    }

    /**
     * `tokenize`: split into sentences, lower-case each word token, lemmatize
     * and stem each sentence, drop stopwords when asked to, then, when
     * `ngramSize` exceeds 1, append one list with the n-grams of every
     * sentence. As written, the stopword step drops raw stopwords only, so the
     * result is `Tokenized` with no regular expression stopwords.
     */
    method Tokenize(content: string, removeStopwords: bool,
                    sentTokenize: string -> seq<string>, wordTokenize: string -> seq<string>)
      returns (sentences: seq<seq<string>>)
      ensures sentences == Tokenized(LoweredWords(sentTokenize(content), wordTokenize), lemmatizer, stemmer,
                                     removeStopwords, rawStopwords, [], fullMatch, ngramSize)
    {
      var texts := sentTokenize(content);
      sentences := LowerSentences(texts, wordTokenize);
      sentences := NormalizeSentences(sentences);
      if removeStopwords {
        sentences := RemoveStopwordsAll(sentences);
      }
      if ngramSize > 1 {
        var tail := Ngrams(sentences, ngramSize);
        sentences := sentences + [tail];
      }
    }

    /** `tokenize` as intended: its stopword step also drops the tokens a regular expression stopword matches. */
    method TokenizeIntended(content: string, removeStopwords: bool,
                            sentTokenize: string -> seq<string>, wordTokenize: string -> seq<string>)
      returns (sentences: seq<seq<string>>)
      ensures sentences == Tokenized(LoweredWords(sentTokenize(content), wordTokenize), lemmatizer, stemmer,
                                     removeStopwords, rawStopwords, regexpStopwords, fullMatch, ngramSize)
    {
      var texts := sentTokenize(content);
      sentences := LowerSentences(texts, wordTokenize);
      sentences := NormalizeSentences(sentences);
      if removeStopwords {
        sentences := RemoveStopwordsAllIntended(sentences);
      }
      if ngramSize > 1 {
        var tail := Ngrams(sentences, ngramSize);
        sentences := sentences + [tail];
      }
    }

    /** The first loop of `tokenize`: each sentence becomes its lower-cased word tokens. */
    static method LowerSentences(texts: seq<string>, wordTokenize: string -> seq<string>)
      returns (sentences: seq<seq<string>>)
      ensures sentences == LoweredWords(texts, wordTokenize)
    {
      ghost var words := LoweredWords(texts, wordTokenize);
      sentences := [];
      for idx := 0 to |texts|
        invariant sentences == words[..idx]
      {
        var tokens := wordTokenize(texts[idx]);
        var lowered := seq(|tokens|, j requires 0 <= j < |tokens| => Lower(tokens[j]));
        sentences := sentences + [lowered];
      }
      assert words[..|texts|] == words;
    }

    /** The second loop of `tokenize`: each sentence is lemmatized and stemmed in place. */
    method NormalizeSentences(words: seq<seq<string>>) returns (sentences: seq<seq<string>>)
      ensures sentences == NormalizedSentences(words, lemmatizer, stemmer)
    {
      sentences := words;
      for idx := 0 to |sentences|
        invariant |sentences| == |words|
        invariant forall i :: 0 <= i < idx ==> sentences[i] == ApplyAll(stemmer, ApplyAll(lemmatizer, words[i]))
        invariant forall i :: idx <= i < |sentences| ==> sentences[i] == words[i]
      {
        var sentence := new string[|sentences[idx]|](j requires 0 <= j < |sentences[idx]| => sentences[idx][j]);
        assert sentence[..] == sentences[idx];
        Lemmatize(sentence);
        Stem(sentence);
        sentences := sentences[idx := sentence[..]];
      }
    }

    /** The third loop of `tokenize`, as written: each sentence loses its raw stopwords. */
    method RemoveStopwordsAll(words: seq<seq<string>>) returns (sentences: seq<seq<string>>)
      ensures sentences == FilteredSentences(words, rawStopwords, [], fullMatch)
    {
      sentences := words;
      for idx := 0 to |sentences|
        invariant |sentences| == |words|
        invariant forall i :: 0 <= i < idx ==> sentences[i] == WithoutStopwords(words[i], rawStopwords, [], fullMatch)
        invariant forall i :: idx <= i < |sentences| ==> sentences[i] == words[i]
      {
        var kept := RemoveStopwordsAsWritten(sentences[idx]);
        FiltersAgreeWithoutPatterns(sentences[idx], rawStopwords, fullMatch);
        sentences := sentences[idx := kept];
      }
    }

    /** The third loop of `tokenize`, as intended: each sentence loses its raw and regular expression stopwords. */
    method RemoveStopwordsAllIntended(words: seq<seq<string>>) returns (sentences: seq<seq<string>>)
      ensures sentences == FilteredSentences(words, rawStopwords, regexpStopwords, fullMatch)
    {
      sentences := words;
      for idx := 0 to |sentences|
        invariant |sentences| == |words|
        invariant forall i :: 0 <= i < idx ==> sentences[i] == WithoutStopwords(words[i], rawStopwords, regexpStopwords, fullMatch)
        invariant forall i :: idx <= i < |sentences| ==> sentences[i] == words[i]
      {
        var kept := RemoveStopwords(sentences[idx]);
        sentences := sentences[idx := kept];
      }
    }

    /** The last loop of `tokenize`: the list of n-grams appended after the sentences. */
    static method Ngrams(sentences: seq<seq<string>>, ngramSize: int) returns (tail: seq<string>)
      ensures tail == NgramTail(sentences, ngramSize)
    {
      tail := [];
      for s := 0 to |sentences|
        invariant tail == NgramTail(sentences[..s], ngramSize)
      {
        assert sentences[..s + 1][..s] == sentences[..s];
        var grams := SentenceNgramsOf(sentences[s], ngramSize);
        tail := tail + grams;
      }
      assert sentences[..|sentences|] == sentences;
    }

    /** The inner loop of the n-gram step: the windows of widths 2 to `ngramSize` of one sentence. */
    static method SentenceNgramsOf(sentence: seq<string>, ngramSize: int) returns (grams: seq<string>)
      ensures grams == SentenceNgrams(sentence, ngramSize)
    {
      grams := [];
      var i := 1;
      while i < ngramSize
        invariant 1 <= i <= if ngramSize < 1 then 1 else ngramSize
        invariant grams == SentenceNgrams(sentence, i)
      {
        grams := grams + Windows(sentence, i + 1);
        i := i + 1;
      }
      assert SentenceNgrams(sentence, i) == SentenceNgrams(sentence, ngramSize);
    }
  }
}
