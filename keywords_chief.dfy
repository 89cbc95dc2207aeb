/**
 * The keyword dictionary (`KeywordsChief`): a taxonomy of keywords, each with
 * synonyms, regular expressions and an occurrence count, normalised once at
 * construction and then queried token by token.
 *
 * Regular expressions are kept as their source text; whether a pattern
 * matches a whole token (`re.fullmatch`) is the `fullMatch` parameter. The
 * stemmer and the lemmatizer are optional string functions.
 */
module Chief {
  import opened Wrappers
  import opened Strings
  import opened Words
  import Sources

  /** The taxonomy file packaged with the tagger. */
  const DefaultKeywordFile: string := "data/keywords.yaml"

  /** The delimiters construction splits synonyms on, in the order it tries them. */
  const RewriteDelimiters: seq<char> := [' ', '_', '-']

  /** `defaults.MULTIWORD_DELIMITERS`. */
  const MultiwordDelimiters: seq<char> := [' ', '-', '_', '/']

  /** Characters `filter_keyword` strips from both ends. */
  const StripChars: set<char> := {'.', '_'}

  /** One taxonomy value as parsed; a field the file leaves out (or sets to null) is None. */
  datatype RawEntry = RawEntry(synonyms: Option<seq<string>>, regexp: Option<seq<Pattern>>, occurrenceCount: Option<int>)

  /** The parsed taxonomy in file order; a keyword whose value is null has None. */
  type Taxonomy = seq<(string, Option<RawEntry>)>

  /** A taxonomy value after construction has filled in its defaults. */
  datatype Entry = Entry(synonyms: seq<string>, regexp: seq<Pattern>, occurrenceCount: int)

  /** One value of the `keywords` property: only the truthy fields are present. */
  datatype PropEntry = PropEntry(synonyms: Option<seq<string>>, regexp: Option<seq<Pattern>>, occurrenceCount: Option<int>)

  /** Dictionary keys are unique. */
  predicate DistinctNames<T>(t: seq<(string, T)>) {
    forall i, j :: 0 <= i < j < |t| ==> t[i].0 != t[j].0
  }

  /** The text of the taxonomy, from the `keyword_file` argument. */
  function KeywordFileContent(src: Sources.TextSource, readFile: string -> Option<string>): (r: Result<string>)
    ensures r == Failure(InvalidInputError) <==> src.Unsupported?
    ensures src.Stream? ==> r == Success(src.content)
  {
    Sources.ReadSource(src, DefaultKeywordFile, readFile)
  }

  // ---------------------------------------------------------------------------
  // Construction

  /** The first pass of construction: a null value, or a missing field, gets its default. */
  function WithDefaults(value: Option<RawEntry>): Entry {
    match value
    case None => Entry([], [], 1)
    case Some(raw) => Entry(raw.synonyms.GetOr([]), raw.regexp.GetOr([]), raw.occurrenceCount.GetOr(1))
  }

  /** One piece of a synonym: lemmatized, then stemmed. */
  function NormalizeWord(w: string, lemmatizer: Normalizer, stemmer: Normalizer): string {
    Apply(stemmer, Apply(lemmatizer, w))
  }

  /** `delim.join` of the normalised pieces of `synonym.split(delim)`. */
  function Rejoin(synonym: string, delim: char, lemmatizer: Normalizer, stemmer: Normalizer): string {
    var parts := Split(synonym, delim);
    Join(seq(|parts|, i requires 0 <= i < |parts| => NormalizeWord(parts[i], lemmatizer, stemmer)), [delim])
  }

  /**
   * The inner delimiter loop: every delimiter works on the ORIGINAL synonym and
   * overwrites the slot when its result differs, so the last such one wins.
   */
  function RewriteFrom(original: string, delims: seq<char>, current: string,
                       lemmatizer: Normalizer, stemmer: Normalizer): string
    decreases |delims|
  {
    if delims == [] then current
    else
      var candidate := Rejoin(original, delims[0], lemmatizer, stemmer);
      RewriteFrom(original, delims[1..], if candidate != original then candidate else current, lemmatizer, stemmer)
  }

  function RewriteSynonym(synonym: string, lemmatizer: Normalizer, stemmer: Normalizer): string {
    RewriteFrom(synonym, RewriteDelimiters, synonym, lemmatizer, stemmer)
  }

  /** The second pass for one keyword: its own name is appended, then every synonym is rewritten. */
  function NormalizeEntry(name: string, e: Entry, lemmatizer: Normalizer, stemmer: Normalizer): Entry {
    var synonyms := e.synonyms + [name];
    e.(synonyms := seq(|synonyms|, j requires 0 <= j < |synonyms| => RewriteSynonym(synonyms[j], lemmatizer, stemmer)))
  }

  /** The dictionary construction leaves behind. */
  function Normalized(t: Taxonomy, lemmatizer: Normalizer, stemmer: Normalizer): (ks: seq<(string, Entry)>)
    ensures |ks| == |t|
    ensures forall i :: 0 <= i < |t| ==> ks[i].0 == t[i].0
  {
    seq(|t|, i requires 0 <= i < |t| => (t[i].0, NormalizeEntry(t[i].0, WithDefaults(t[i].1), lemmatizer, stemmer)))
  }

  /** Without a lemmatizer and a stemmer a synonym is not rewritten: split and join cancel out. */
  lemma RewriteWithoutNormalizers(synonym: string)
    ensures RewriteSynonym(synonym, NoNormalizer, NoNormalizer) == synonym
  {
    forall d: char ensures Rejoin(synonym, d, NoNormalizer, NoNormalizer) == synonym {
      var parts := Split(synonym, d);
      assert seq(|parts|, i requires 0 <= i < |parts| => NormalizeWord(parts[i], NoNormalizer, NoNormalizer)) == parts;
      JoinSplit(synonym, d);
    }
  }

  /**
   * After construction every entry has lists for synonyms and regular
   * expressions and an occurrence count that defaults to 1; it holds one more
   * synonym than the file gave, the last one being the keyword itself as
   * rewritten.
   */
  lemma NormalizedEntry(t: Taxonomy, lemmatizer: Normalizer, stemmer: Normalizer, i: int)
    requires 0 <= i < |t|
    ensures var e := Normalized(t, lemmatizer, stemmer)[i].1;
            && |e.synonyms| == |WithDefaults(t[i].1).synonyms| + 1
            && e.synonyms[|e.synonyms| - 1] == RewriteSynonym(t[i].0, lemmatizer, stemmer)
            && e.regexp == (if t[i].1.Some? && t[i].1.value.regexp.Some? then t[i].1.value.regexp.value else [])
            && e.occurrenceCount ==
                 (if t[i].1.Some? && t[i].1.value.occurrenceCount.Some? then t[i].1.value.occurrenceCount.value else 1)
  {
  }

  /**
   * With neither a lemmatizer nor a stemmer (the defaults), construction only
   * appends the keyword to its synonyms, so every keyword is its own synonym.
   */
  lemma {:induction false} NormalizedWithoutNormalizers(t: Taxonomy, i: int)
    requires 0 <= i < |t|
    ensures Normalized(t, NoNormalizer, NoNormalizer)[i].1.synonyms == WithDefaults(t[i].1).synonyms + [t[i].0]
    ensures t[i].0 in Normalized(t, NoNormalizer, NoNormalizer)[i].1.synonyms
  {
    var syns := WithDefaults(t[i].1).synonyms + [t[i].0];
    forall j | 0 <= j < |syns| ensures RewriteSynonym(syns[j], NoNormalizer, NoNormalizer) == syns[j] {
      RewriteWithoutNormalizers(syns[j]);
    }
    assert Normalized(t, NoNormalizer, NoNormalizer)[i].1.synonyms == syns;
    assert syns[|syns| - 1] == t[i].0;
  }

  // ---------------------------------------------------------------------------
  // The `keywords` property

  predicate AnyTruthy(e: Entry) {
    |e.synonyms| > 0 || |e.regexp| > 0 || e.occurrenceCount != 0
  }

  /** The truthy fields of one entry, with patterns given back as their source text. */
  function PropOf(e: Entry): PropEntry {
    PropEntry(if |e.synonyms| > 0 then Some(e.synonyms) else None,
              if |e.regexp| > 0 then Some(e.regexp) else None,
              if e.occurrenceCount != 0 then Some(e.occurrenceCount) else None)
  }

  /** The value the `keywords` property computes: keywords with at least one truthy field. */
  function KeywordsView(ks: seq<(string, Entry)>): map<string, PropEntry> {
    if ks == [] then map[]
    else
      var m := KeywordsView(ks[..|ks| - 1]);
      var last := ks[|ks| - 1];
      if AnyTruthy(last.1) then m[last.0 := PropOf(last.1)] else m
  }

  /**
   * Every keyword of a constructed dictionary appears in the `keywords`
   * property (its synonyms are never empty) with its truthy fields, and nothing
   * else does.
   */
  lemma {:induction false} KeywordsViewOfNormalized(ks: seq<(string, Entry)>)
    requires DistinctNames(ks)
    requires forall i :: 0 <= i < |ks| ==> |ks[i].1.synonyms| > 0
    ensures forall k :: k in KeywordsView(ks) <==> exists i :: 0 <= i < |ks| && ks[i].0 == k
    ensures forall i :: 0 <= i < |ks| ==> KeywordsView(ks)[ks[i].0] == PropOf(ks[i].1)
  {
    if ks != [] {
      var init := ks[..|ks| - 1];
      KeywordsViewOfNormalized(init);
      forall k ensures k in KeywordsView(ks) <==> exists i :: 0 <= i < |ks| && ks[i].0 == k {
        if k in KeywordsView(init) {
          var i :| 0 <= i < |init| && init[i].0 == k;
          assert ks[i].0 == k;
        }
      }
      forall i | 0 <= i < |ks| ensures KeywordsView(ks)[ks[i].0] == PropOf(ks[i].1) {
        if i < |ks| - 1 {
          assert init[i] == ks[i];
        }
      }
    }
  }

  /** The `keywords` property keeps only truthy values: no empty list and no zero count. */
  lemma {:induction false} KeywordsViewTruthy(ks: seq<(string, Entry)>, k: string)
    requires k in KeywordsView(ks)
    ensures KeywordsView(ks)[k].occurrenceCount != Some(0)
    ensures KeywordsView(ks)[k].synonyms != Some([]) && KeywordsView(ks)[k].regexp != Some([])
  {
    var init := ks[..|ks| - 1];
    var last := ks[|ks| - 1];
    if !(AnyTruthy(last.1) && k == last.0) {
      KeywordsViewTruthy(init, k);
    }
  }

  /** Every name of a normalised taxonomy has a non-empty synonym list. */
  lemma NormalizedSynonymsNonEmpty(t: Taxonomy, lemmatizer: Normalizer, stemmer: Normalizer)
    ensures forall i :: 0 <= i < |t| ==> |Normalized(t, lemmatizer, stemmer)[i].1.synonyms| > 0
  {
  }

  /** A constructed dictionary lists every keyword exactly once in the `keywords` property. */
  lemma {:induction false} KeywordsViewSize(ks: seq<(string, Entry)>)
    requires DistinctNames(ks)
    requires forall i :: 0 <= i < |ks| ==> |ks[i].1.synonyms| > 0
    ensures |KeywordsView(ks)| == |ks|
  {
    if ks != [] {
      var init := ks[..|ks| - 1];
      var last := ks[|ks| - 1];
      KeywordsViewSize(init);
      KeywordsViewOfNormalized(init);
      assert last.0 !in KeywordsView(init);
    }
  }

  /** Sum of the occurrence counts. */
  function SumCounts(ks: seq<(string, Entry)>): int {
    if ks == [] then 0 else SumCounts(ks[..|ks| - 1]) + ks[|ks| - 1].1.occurrenceCount
  }

  /**
   * `get_average_occurrence_count` over a constructed dictionary: a keyword
   * whose count is 0 has no `occurrence_count` in the `keywords` property
   * (`KeyError`), and an empty dictionary divides by zero.
   */
  function AverageOccurrence(ks: seq<(string, Entry)>): Result<real> {
    if exists i :: 0 <= i < |ks| && ks[i].1.occurrenceCount == 0 then Failure(KeyError)
    else if |ks| == 0 then Failure(ZeroDivisionError)
    else Success(SumCounts(ks) as real / |ks| as real)
  }

  lemma {:induction false} SumCountsAtLeast(ks: seq<(string, Entry)>, least: int)
    requires forall i :: 0 <= i < |ks| ==> ks[i].1.occurrenceCount >= least
    ensures SumCounts(ks) >= |ks| * least
  {
    if ks != [] {
      SumCountsAtLeast(ks[..|ks| - 1], least);
    }
  }

  lemma {:induction false} SumCountsAtMost(ks: seq<(string, Entry)>, most: int)
    requires forall i :: 0 <= i < |ks| ==> ks[i].1.occurrenceCount <= most
    ensures SumCounts(ks) <= |ks| * most
  {
    if ks != [] {
      SumCountsAtMost(ks[..|ks| - 1], most);
    }
  }

  lemma QuotientAtLeast(sum: real, n: real, c: real)
    requires n > 0.0 && sum >= n * c
    ensures sum / n >= c
  {
    var q := sum / n;
    assert q * n == sum;
    if q < c {
      assert (c - q) * n > 0.0;
    }
  }

  lemma QuotientAtMost(sum: real, n: real, c: real)
    requires n > 0.0 && sum <= n * c
    ensures sum / n <= c
  {
    var q := sum / n;
    assert q * n == sum;
    if q > c {
      assert (q - c) * n > 0.0;
    }
  }

  /** The average lies between the smallest and the largest occurrence count. */
  lemma AverageBetween(ks: seq<(string, Entry)>, least: int, most: int)
    requires |ks| > 0
    requires forall i :: 0 <= i < |ks| ==> 0 < least <= ks[i].1.occurrenceCount <= most
    ensures AverageOccurrence(ks).Success?
    ensures least as real <= AverageOccurrence(ks).value <= most as real
  {
    SumCountsAtLeast(ks, least);
    SumCountsAtMost(ks, most);
    QuotientAtLeast(SumCounts(ks) as real, |ks| as real, least as real);
    QuotientAtMost(SumCounts(ks) as real, |ks| as real, most as real);
  }

  // ---------------------------------------------------------------------------
  // Queries on entries

  /** The first entry with name `k`. */
  function Lookup(ks: seq<(string, Entry)>, k: string): (r: Option<Entry>)
    ensures r.None? <==> forall i :: 0 <= i < |ks| ==> ks[i].0 != k
    ensures r.Some? ==> exists i :: 0 <= i < |ks| && ks[i].0 == k && ks[i].1 == r.value
  {
    if ks == [] then None
    else if ks[0].0 == k then Some(ks[0].1)
    else
      var r := Lookup(ks[1..], k);
      assert r.Some? ==> exists i :: 0 <= i < |ks[1..]| && ks[1..][i].0 == k && ks[1..][i].1 == r.value;
      r
  }

  /** With unique names, `Lookup` finds the entry of that name. */
  lemma {:induction false} LookupDistinct(ks: seq<(string, Entry)>, i: int)
    requires DistinctNames(ks)
    requires 0 <= i < |ks|
    ensures Lookup(ks, ks[i].0) == Some(ks[i].1)
  {
    var r := Lookup(ks, ks[i].0);
    var j :| 0 <= j < |ks| && ks[j].0 == ks[i].0 && ks[j].1 == r.value;
    assert i == j;
  }

  /** A regular expression of the list fully matches the token. */
  predicate AnyFullMatch(fullMatch: (Pattern, string) -> bool, regexps: seq<Pattern>, token: string) {
    exists j :: 0 <= j < |regexps| && fullMatch(regexps[j], token)
  }

  /** The test `get_keyword` applies to one entry: its synonyms first, then its regular expressions. */
  predicate EntryMatches(fullMatch: (Pattern, string) -> bool, e: Entry, token: string) {
    token in e.synonyms || AnyFullMatch(fullMatch, e.regexp, token)
  }

  /** The scan of `get_keyword`: the name of the first entry, in taxonomy order, that matches. */
  function FirstMatch(fullMatch: (Pattern, string) -> bool, ks: seq<(string, Entry)>, token: string): (r: Option<string>)
    ensures r.None? <==> forall i :: 0 <= i < |ks| ==> !EntryMatches(fullMatch, ks[i].1, token)
    ensures r.Some? ==> exists i :: 0 <= i < |ks| && ks[i].0 == r.value && EntryMatches(fullMatch, ks[i].1, token)
                                    && forall j :: 0 <= j < i ==> !EntryMatches(fullMatch, ks[j].1, token)
  {
    if ks == [] then None
    else if EntryMatches(fullMatch, ks[0].1, token) then Some(ks[0].0)
    else
      var r := FirstMatch(fullMatch, ks[1..], token);
      assert forall i :: 1 <= i < |ks| ==> ks[i] == ks[1..][i - 1];
      r
  }

  // ---------------------------------------------------------------------------
  // filter_keyword

  /** `s` without its leading `.` and `_`. */
  function TrimLeft(s: string): string
  {
    if |s| > 0 && s[0] in StripChars then TrimLeft(s[1..]) else s
  }

  /** `s` without its trailing `.` and `_`. */
  function TrimRight(s: string): string
  {
    if |s| > 0 && s[|s| - 1] in StripChars then TrimRight(s[..|s| - 1]) else s
  }

  /** `s` with every leading and trailing `.` and `_` removed. */
  function Trimmed(s: string): string {
    TrimRight(TrimLeft(s))
  }

  /** A string that neither starts nor ends with `.` or `_`. */
  predicate Clean(s: string) {
    |s| > 0 ==> s[0] !in StripChars && s[|s| - 1] !in StripChars
  }

  /** The result of `filter_keyword`: spaces become dashes, then the ends are trimmed. */
  function Filtered(keyword: string): string {
    Trimmed(ReplaceChar(keyword, ' ', '-'))
  }

  /** What `TrimLeft` leaves is a suffix of its input that does not start with a strip character. */
  lemma {:induction false} TrimLeftSuffix(s: string)
    ensures |TrimLeft(s)| <= |s| && TrimLeft(s) == s[|s| - |TrimLeft(s)|..]
    ensures |TrimLeft(s)| > 0 ==> TrimLeft(s)[0] !in StripChars
  {
    if |s| > 0 && s[0] in StripChars {
      TrimLeftSuffix(s[1..]);
    }
  }

  /** What `TrimRight` leaves is a prefix of its input that does not end with a strip character. */
  lemma {:induction false} TrimRightPrefix(s: string)
    ensures |TrimRight(s)| <= |s| && TrimRight(s) == s[..|TrimRight(s)|]
    ensures |TrimRight(s)| > 0 ==> TrimRight(s)[|TrimRight(s)| - 1] !in StripChars
  {
    if |s| > 0 && s[|s| - 1] in StripChars {
      TrimRightPrefix(s[..|s| - 1]);
    }
  }

  /** Dropping a prefix of strip characters that ends before a kept character is `TrimLeft`. */
  lemma {:induction false} TrimLeftOf(s: string, lo: int)
    requires 0 <= lo <= |s|
    requires forall i :: 0 <= i < lo ==> s[i] in StripChars
    requires lo == |s| || s[lo] !in StripChars
    ensures TrimLeft(s) == s[lo..]
  {
    if lo > 0 {
      TrimLeftOf(s[1..], lo - 1);
      assert s[1..][lo - 1..] == s[lo..];
    }
  }

  /** Dropping a suffix of strip characters that starts after a kept character is `TrimRight`. */
  lemma {:induction false} TrimRightOf(s: string, hi: int)
    requires 0 <= hi <= |s|
    requires forall i :: hi <= i < |s| ==> s[i] in StripChars
    requires hi == 0 || s[hi - 1] !in StripChars
    ensures TrimRight(s) == s[..hi]
  {
    if hi < |s| {
      TrimRightOf(s[..|s| - 1], hi);
      assert s[..|s| - 1][..hi] == s[..hi];
    }
  }

  /** Stripping strip characters at both ends until neither end has one yields `Trimmed`. */
  lemma {:induction false} TrimmedOf(s: string, lo: int, hi: int)
    requires 0 <= lo <= hi <= |s|
    requires forall i :: 0 <= i < lo ==> s[i] in StripChars
    requires forall i :: hi <= i < |s| ==> s[i] in StripChars
    requires Clean(s[lo..hi])
    ensures Trimmed(s) == s[lo..hi]
  {
    if lo == hi {
      TrimLeftOf(s, |s|);
      TrimRightOf(s[|s|..], 0);
    } else {
      assert s[lo] == s[lo..hi][0];
      TrimLeftOf(s, lo);
      var t := s[lo..];
      assert t[hi - lo - 1] == s[lo..hi][hi - lo - 1];
      TrimRightOf(t, hi - lo);
      assert t[..hi - lo] == s[lo..hi];
    }
  }

  /** Dropping a trailing strip character does not change the trimmed string. */
  lemma {:induction false} TrimmedDropLast(s: string)
    requires |s| > 0 && s[|s| - 1] in StripChars
    ensures Trimmed(s[..|s| - 1]) == Trimmed(s)
  {
    var init := s[..|s| - 1];
    if s[0] in StripChars {
      if |s| > 1 {
        assert init[0] == s[0];
        assert init[1..] == s[1..][..|s| - 2];
        TrimmedDropLast(s[1..]);
      }
    } else {
      assert init[0] == s[0];
      assert init[..|init|] == init;
    }
  }

  /** A string that is already clean is not trimmed further. */
  lemma TrimmedClean(s: string)
    requires Clean(s)
    ensures Trimmed(s) == s
  {
    TrimmedOf(s, 0, |s|);
    assert s[0..|s|] == s;
  }

  /** The trimmed string is a contiguous piece of its input, and it is clean. */
  lemma TrimmedInfix(s: string)
    ensures Clean(Trimmed(s))
    ensures IsInfix(Trimmed(s), s)
    ensures forall c :: c in Trimmed(s) ==> c in s
  {
    var l := TrimLeft(s);
    var r := TrimRight(l);
    TrimLeftSuffix(s);
    TrimRightPrefix(l);
    var lo := |s| - |l|;
    assert s[lo..lo + |r|] == r;
    if |r| > 0 {
      assert r[0] == l[0];
    }
    forall c | c in r ensures c in s {
      var i :| 0 <= i < |r| && r[i] == c;
      assert s[lo + i] == c;
    }
  }

  /** `filter_keyword` is idempotent. */
  lemma FilteredIdempotent(keyword: string)
    ensures Filtered(Filtered(keyword)) == Filtered(keyword)
  {
    var f := Filtered(keyword);
    TrimmedInfix(ReplaceChar(keyword, ' ', '-'));
    assert ' ' !in f;
    ReplaceIdentity(f, ' ', '-');
    TrimmedClean(f);
  }

  // ---------------------------------------------------------------------------
  // matches_keyword_pattern: `[0-9a-zA-Z][0-9a-zA-Z-_.]*`

  /** The character class after the first character: ASCII letters and digits, `-`, `_`, `.`. */
  predicate IsKeywordChar(c: char) {
    IsAsciiAlnum(c) || c == '-' || c == '_' || c == '.'
  }

  /** `[0-9a-zA-Z-_.]*` matched against all of `s`, one character at a time. */
  function StarMatches(s: string): (r: bool)
    ensures r <==> forall i :: 0 <= i < |s| ==> IsKeywordChar(s[i])
  {
    if |s| == 0 then true
    else
      var rest := StarMatches(s[1..]);
      assert forall i :: 1 <= i < |s| ==> s[i] == s[1..][i - 1];
      IsKeywordChar(s[0]) && rest
  }

  /** `re.fullmatch` of the keyword pattern. */
  function PatternFullMatch(s: string): bool {
    |s| > 0 && IsAsciiAlnum(s[0]) && StarMatches(s[1..])
  }

  // ---------------------------------------------------------------------------
  // compute_synonyms

  /** `o.join(words)` for every delimiter `o` of `others`. */
  function Rejoinings(words: seq<string>, others: seq<char>): set<string>
    decreases |others|
  {
    if others == [] then {}
    else Rejoinings(words, others[..|others| - 1]) + {Join(words, [others[|others| - 1]])}
  }

  /** Every re-joining of `keyword.split(d)`, for each delimiter `d` of `delims`, with every multiword delimiter. */
  function SynonymVariants(keyword: string, delims: seq<char>): set<string>
    decreases |delims|
  {
    if delims == [] then {}
    else SynonymVariants(keyword, delims[..|delims| - 1])
         + Rejoinings(Split(keyword, delims[|delims| - 1]), MultiwordDelimiters)
  }

  lemma {:induction false} RejoiningsAreReplacements(keyword: string, d: char, others: seq<char>, v: string)
    ensures v in Rejoinings(Split(keyword, d), others) <==> exists o :: o in others && v == ReplaceChar(keyword, d, o)
  {
    if others != [] {
      var init := others[..|others| - 1];
      var last := others[|others| - 1];
      RejoiningsAreReplacements(keyword, d, init, v);
      JoinSplitReplace(keyword, d, last);
      assert others == init + [last];
      assert forall o :: o in others <==> o in init || o == last;
    }
  }

  lemma {:induction false} VariantsAreReplacements(keyword: string, delims: seq<char>, v: string)
    ensures v in SynonymVariants(keyword, delims) <==>
              exists d, o :: d in delims && o in MultiwordDelimiters && v == ReplaceChar(keyword, d, o)
  {
    if delims != [] {
      var init := delims[..|delims| - 1];
      var last := delims[|delims| - 1];
      VariantsAreReplacements(keyword, init, v);
      RejoiningsAreReplacements(keyword, last, MultiwordDelimiters, v);
      assert delims == init + [last];
      assert forall d :: d in delims <==> d in init || d == last;
    }
  }

  /**
   * The synonyms of a keyword are the keyword itself and every string obtained
   * by replacing, throughout, one multiword delimiter that occurs in it by a
   * different one.
   */
  lemma SynonymsAreSwaps(keyword: string, v: string)
    ensures v in SynonymVariants(keyword, MultiwordDelimiters) <==>
              v == keyword
              || exists d, o :: d in MultiwordDelimiters && o in MultiwordDelimiters && d != o && d in keyword
                                && v == ReplaceChar(keyword, d, o)
  {
    VariantsAreReplacements(keyword, MultiwordDelimiters, v);
    ReplaceIdentity(keyword, ' ', ' ');
    forall d, o | d in MultiwordDelimiters && o in MultiwordDelimiters && (d == o || d !in keyword)
      ensures ReplaceChar(keyword, d, o) == keyword
    {
      ReplaceIdentity(keyword, d, o);
    }
  }

  /** A set inside another is no larger. */
  lemma SubsetCardinality<T>(a: set<T>, b: set<T>)
    requires a <= b
    ensures |a| <= |b|
  {
    assert b == a + (b - a);
  }

  /** The keyword and its 12 swaps of one multiword delimiter for another. */
  function Swaps(keyword: string): set<string> {
    {keyword,
     ReplaceChar(keyword, ' ', '-'), ReplaceChar(keyword, ' ', '_'), ReplaceChar(keyword, ' ', '/'),
     ReplaceChar(keyword, '-', ' '), ReplaceChar(keyword, '-', '_'), ReplaceChar(keyword, '-', '/'),
     ReplaceChar(keyword, '_', ' '), ReplaceChar(keyword, '_', '-'), ReplaceChar(keyword, '_', '/'),
     ReplaceChar(keyword, '/', ' '), ReplaceChar(keyword, '/', '-'), ReplaceChar(keyword, '/', '_')}
  }

  lemma SwapInSwaps(keyword: string, d: char, o: char)
    requires d in MultiwordDelimiters && o in MultiwordDelimiters && d != o
    ensures ReplaceChar(keyword, d, o) in Swaps(keyword)
  {
    assert d == ' ' || d == '-' || d == '_' || d == '/';
    assert o == ' ' || o == '-' || o == '_' || o == '/';
  }

  /** A keyword has at most 13 synonyms: itself and the 12 ways of swapping one multiword delimiter for another. */
  lemma SynonymCountBound(keyword: string)
    ensures |SynonymVariants(keyword, MultiwordDelimiters)| <= 13
  {
    forall v | v in SynonymVariants(keyword, MultiwordDelimiters)
      ensures v in Swaps(keyword)
    {
      SynonymsAreSwaps(keyword, v);
      if v != keyword {
        var d, o :| d in MultiwordDelimiters && o in MultiwordDelimiters && d != o && d in keyword
                    && v == ReplaceChar(keyword, d, o);
        SwapInSwaps(keyword, d, o);
      }
    }
    SubsetCardinality(SynonymVariants(keyword, MultiwordDelimiters), Swaps(keyword));
  }

  /** A keyword with no multiword delimiter is its only synonym. */
  lemma NoDelimiterSynonyms(keyword: string, v: string)
    requires forall e :: e in MultiwordDelimiters ==> e !in keyword
    ensures v in SynonymVariants(keyword, MultiwordDelimiters) <==> v == keyword
  {
    SynonymsAreSwaps(keyword, v);
  }

  /** A keyword with one kind of delimiter has that delimiter replaced by each of the three others. */
  lemma SingleDelimiterSynonyms(keyword: string, d: char, v: string)
    requires d in MultiwordDelimiters && d in keyword
    requires forall e :: e in MultiwordDelimiters && e != d ==> e !in keyword
    ensures v in SynonymVariants(keyword, MultiwordDelimiters) <==>
              v == keyword || exists o :: o in MultiwordDelimiters && o != d && v == ReplaceChar(keyword, d, o)
  {
    SynonymsAreSwaps(keyword, v);
  }

  lemma DashedExample(k: string)
    requires k == "a-b"
    ensures '-' in k && ' ' !in k && '_' !in k && '/' !in k
    ensures ReplaceChar(k, '-', ' ') == "a b"
    ensures ReplaceChar(k, '-', '_') == "a_b"
    ensures ReplaceChar(k, '-', '/') == "a/b"
  {
  }

  /** Each synonym of "a-b" is one of its four spellings. */
  lemma DashedSynonymWithin(k: string, v: string)
    requires k == "a-b" && v in SynonymVariants(k, MultiwordDelimiters)
    ensures v in {"a b", "a-b", "a_b", "a/b"}
  {
    DashedExample(k);
    SingleDelimiterSynonyms(k, '-', v);
    if v != k {
      var o :| o in MultiwordDelimiters && o != '-' && v == ReplaceChar(k, '-', o);
      assert o == ' ' || o == '_' || o == '/';
    }
  }

  /** The synonyms of "a-b": its dash replaced by each multiword delimiter. */
  lemma DashedSynonyms(k: string)
    requires k == "a-b"
    ensures SynonymVariants(k, MultiwordDelimiters) == {"a b", "a-b", "a_b", "a/b"}
  {
    DashedExample(k);
    var variants := SynonymVariants(k, MultiwordDelimiters);
    forall v | v in variants ensures v in {"a b", "a-b", "a_b", "a/b"} {
      DashedSynonymWithin(k, v);
    }
    DashedSpellingsAreSynonyms(k);
  }

  /** Each of the four spellings of "a-b" is among its synonyms. */
  lemma DashedSpellingsAreSynonyms(k: string)
    requires k == "a-b"
    ensures {"a b", "a-b", "a_b", "a/b"} <= SynonymVariants(k, MultiwordDelimiters)
  {
    DashedExample(k);
    SingleDelimiterSynonyms(k, '-', k);
    DashReplacedIsSynonym(k, ' ');
    DashReplacedIsSynonym(k, '_');
    DashReplacedIsSynonym(k, '/');
  }

  /** "a-b" with its dash replaced by another multiword delimiter is a synonym of it. */
  lemma DashReplacedIsSynonym(k: string, o: char)
    requires k == "a-b" && o in MultiwordDelimiters && o != '-'
    ensures ReplaceChar(k, '-', o) in SynonymVariants(k, MultiwordDelimiters)
  {
    DashedExample(k);
    SingleDelimiterSynonyms(k, '-', ReplaceChar(k, '-', o));
  }

  // ---------------------------------------------------------------------------

  class KeywordsChief {
    const lemmatizer: Normalizer
    const stemmer: Normalizer
    /** `re.fullmatch(pattern, token)` is truthy. */
    const fullMatch: (Pattern, string) -> bool
    /** The parsed taxonomy construction started from. */
    ghost const taxonomy: Taxonomy

    /** `_keywords`: keyword name to entry, in taxonomy order. */
    var keywords: seq<(string, Entry)>
    /** `_keywords_prop`: the cache behind the `keywords` property. */
    var keywordsProp: Option<map<string, PropEntry>>

    ghost predicate Valid()
      reads this
    {
      && DistinctNames(taxonomy)
      && keywords == Normalized(taxonomy, lemmatizer, stemmer)
      && (keywordsProp.Some? ==> keywordsProp.value == KeywordsView(keywords))
    }

    constructor (taxonomy: Taxonomy, lemmatizer: Normalizer, stemmer: Normalizer,
                 fullMatch: (Pattern, string) -> bool)
      requires DistinctNames(taxonomy)
      ensures Valid()
      ensures this.taxonomy == taxonomy
      ensures this.lemmatizer == lemmatizer && this.stemmer == stemmer && this.fullMatch == fullMatch
      ensures keywords == Normalized(taxonomy, lemmatizer, stemmer)
      ensures keywordsProp.None?
    {
      this.lemmatizer := lemmatizer;
      this.stemmer := stemmer;
      this.fullMatch := fullMatch;
      this.taxonomy := taxonomy;
      keywords := [];
      keywordsProp := None;
      new;
      // add missing default values
      var i := 0;
      while i < |taxonomy|
        invariant 0 <= i <= |taxonomy|
        invariant keywordsProp.None?
        invariant keywords == seq(i, j requires 0 <= j < i => (taxonomy[j].0, WithDefaults(taxonomy[j].1)))
      {
        keywords := keywords + [(taxonomy[i].0, WithDefaults(taxonomy[i].1))];
        i := i + 1;
      }
      // append every keyword to its own synonyms and rewrite the synonyms
      i := 0;
      while i < |keywords|
        invariant |keywords| == |taxonomy|
        invariant 0 <= i <= |keywords|
        invariant keywordsProp.None?
        invariant forall j :: 0 <= j < i ==> keywords[j] == Normalized(taxonomy, lemmatizer, stemmer)[j]
        invariant forall j :: i <= j < |keywords| ==> keywords[j] == (taxonomy[j].0, WithDefaults(taxonomy[j].1))
      {
        var name := keywords[i].0;
        var entry := keywords[i].1;
        var synonyms := RewriteSynonyms(name, entry, lemmatizer, stemmer);
        keywords := keywords[i := (name, entry.(synonyms := synonyms))];
        i := i + 1;
      }
      assert keywords == Normalized(taxonomy, lemmatizer, stemmer);
    }

    /**
     * The inner loops of construction for one keyword: its name is appended to
     * its synonyms, then each synonym is rewritten delimiter by delimiter.
     */
    static method RewriteSynonyms(name: string, entry: Entry, lemmatizer: Normalizer, stemmer: Normalizer)
      returns (synonyms: seq<string>)
      ensures synonyms == NormalizeEntry(name, entry, lemmatizer, stemmer).synonyms
    {
      var appended := entry.synonyms + [name];
      synonyms := appended;
      var idx := 0;
      while idx < |synonyms|
        invariant |synonyms| == |appended|
        invariant 0 <= idx <= |synonyms|
        invariant forall j :: 0 <= j < idx ==> synonyms[j] == RewriteSynonym(appended[j], lemmatizer, stemmer)
        invariant forall j :: idx <= j < |synonyms| ==> synonyms[j] == appended[j]
      {
        var synonym := synonyms[idx];
        var k := 0;
        while k < |RewriteDelimiters|
          invariant 0 <= k <= |RewriteDelimiters|
          invariant |synonyms| == |appended|
          invariant forall j :: 0 <= j < |synonyms| && j != idx ==>
                      synonyms[j] == if j < idx then RewriteSynonym(appended[j], lemmatizer, stemmer) else appended[j]
          invariant RewriteFrom(synonym, RewriteDelimiters[k..], synonyms[idx], lemmatizer, stemmer)
                    == RewriteSynonym(synonym, lemmatizer, stemmer)
        {
          var newSynonym := Rejoin(synonym, RewriteDelimiters[k], lemmatizer, stemmer);
          if newSynonym != synonym {
            synonyms := synonyms[idx := newSynonym];
          }
          assert RewriteDelimiters[k..][1..] == RewriteDelimiters[k + 1..];
          k := k + 1;
        }
        idx := idx + 1;
      }
      assert synonyms == NormalizeEntry(name, entry, lemmatizer, stemmer).synonyms;
    }

    /** The `keywords` property: computed on first use, then served from the cache. */
    method Keywords() returns (view: map<string, PropEntry>)
      requires Valid()
      modifies this`keywordsProp
      ensures Valid()
      ensures view == KeywordsView(keywords)
      ensures keywordsProp == Some(view)
    {
      if keywordsProp.None? {
        var prop: map<string, PropEntry> := map[];
        var i := 0;
        while i < |keywords|
          invariant 0 <= i <= |keywords|
          invariant prop == KeywordsView(keywords[..i])
        {
          var keyword := keywords[i].0;
          var entry := keywords[i].1;
          assert keywords[..i + 1][..i] == keywords[..i];
          if AnyTruthy(entry) {
            prop := prop[keyword := PropOf(entry)];
          }
          i := i + 1;
        }
        assert keywords[..|keywords|] == keywords;
        keywordsProp := Some(prop);
      }
      view := keywordsProp.value;
    }

    /** Every keyword of a valid dictionary is in the `keywords` property, with its truthy fields. */
    lemma ViewHoldsEveryKeyword()
      requires Valid()
      ensures |KeywordsView(keywords)| == |keywords|
      ensures forall i :: 0 <= i < |keywords| ==>
                keywords[i].0 in KeywordsView(keywords) && KeywordsView(keywords)[keywords[i].0] == PropOf(keywords[i].1)
    {
      NormalizedSynonymsNonEmpty(taxonomy, lemmatizer, stemmer);
      KeywordsViewOfNormalized(keywords);
      KeywordsViewSize(keywords);
    }

    /** The `keywords` property of a valid dictionary holds exactly the declared keywords. */
    lemma ViewIsDeclared(k: string)
      requires Valid()
      ensures k in KeywordsView(keywords) <==> IsDeclared(k)
    {
      NormalizedSynonymsNonEmpty(taxonomy, lemmatizer, stemmer);
      KeywordsViewOfNormalized(keywords);
    }

    /** `get_keywords_count`: the size of the `keywords` property, which is every keyword. */
    method GetKeywordsCount() returns (n: nat)
      requires Valid()
      modifies this`keywordsProp
      ensures Valid() && keywordsProp.Some?
      ensures n == |KeywordsView(keywords)| == |keywords|
    {
      var view := Keywords();
      n := |view|;
      ViewHoldsEveryKeyword();
    }

    /**
     * `get_average_occurrence_count`: the occurrence counts of the `keywords`
     * property summed in taxonomy order and divided by their number.
     */
    method GetAverageOccurrenceCount() returns (r: Result<real>)
      requires Valid()
      modifies this`keywordsProp
      ensures Valid() && keywordsProp.Some?
      ensures r == AverageOccurrence(keywords)
    {
      var view := Keywords();
      ViewHoldsEveryKeyword();
      var sum := SumOccurrences(keywords, view);
      if sum.Failure? {
        return Failure(sum.error);
      }
      var usage := sum.value;
      var count := GetKeywordsCount();
      if count == 0 {
        return Failure(ZeroDivisionError);
      }
      r := Success(usage as real / count as real);
    }

    /** The summing loop of `get_average_occurrence_count`: a count missing from `view` raises `KeyError`. */
    static method SumOccurrences(ks: seq<(string, Entry)>, view: map<string, PropEntry>) returns (r: Result<int>)
      requires forall i :: 0 <= i < |ks| ==> ks[i].0 in view && view[ks[i].0] == PropOf(ks[i].1)
      ensures r.Failure? <==> exists i :: 0 <= i < |ks| && ks[i].1.occurrenceCount == 0
      ensures r.Failure? ==> r.error == KeyError
      ensures r.Success? ==> r.value == SumCounts(ks)
    {
      var usage := 0;
      var i := 0;
      while i < |ks|
        invariant 0 <= i <= |ks|
        invariant usage == SumCounts(ks[..i])
        invariant forall j :: 0 <= j < i ==> ks[j].1.occurrenceCount != 0
      {
        assert ks[..i + 1][..i] == ks[..i];
        var value := view[ks[i].0];
        if value.occurrenceCount.None? {
          assert ks[i].1.occurrenceCount == 0;
          return Failure(KeyError);
        }
        usage := usage + value.occurrenceCount.value;
        i := i + 1;
      }
      assert ks[..|ks|] == ks;
      r := Success(usage);
    }

    /** `keyword_name in self._keywords`. */
    predicate IsDeclared(k: string)
      reads this
    {
      exists i :: 0 <= i < |keywords| && keywords[i].0 == k
    }

    /** The keyword names in taxonomy order. */
    function Names(): (names: seq<string>)
      reads this
      ensures forall k :: k in names <==> IsDeclared(k)
    {
      var names := seq(|keywords|, i requires 0 <= i < |keywords| reads this => keywords[i].0);
      assert forall i :: 0 <= i < |keywords| ==> names[i] == keywords[i].0;
      names
    }

    /**
     * `get_keyword`: a declared name stands for itself; otherwise the first
     * entry in taxonomy order whose synonyms contain the token, or one of whose
     * regular expressions fully matches it; otherwise None.
     */
    function GetKeyword(token: string): (r: Option<string>)
      reads this
      ensures IsDeclared(token) ==> r == Some(token)
      ensures !IsDeclared(token) ==> r == FirstMatch(fullMatch, keywords, token)
      ensures r.Some? ==> IsDeclared(r.value)
    {
      if token in Names() then Some(token) else FirstMatch(fullMatch, keywords, token)
    }

    /** `get_synonyms`: the synonyms of a declared keyword, or the empty list. */
    function GetSynonyms(keyword: string): (r: seq<string>)
      reads this
      ensures !IsDeclared(keyword) ==> r == []
      ensures IsDeclared(keyword) ==> exists i :: 0 <= i < |keywords| && keywords[i].0 == keyword && r == keywords[i].1.synonyms
    {
      match Lookup(keywords, keyword)
      case Some(e) => e.synonyms
      case None => []
    }

    /** `is_keyword`: every value is non-null after construction, so this is "is declared". */
    function IsKeyword(word: string): (r: bool)
      reads this
      ensures r <==> IsDeclared(word)
    {
      Lookup(keywords, word).Some?
    }

    /** With the default (absent) lemmatizer and stemmer, a keyword is one of its own synonyms. */
    lemma OwnNameIsSynonym(keyword: string)
      requires Valid()
      requires lemmatizer.NoNormalizer? && stemmer.NoNormalizer?
      requires IsDeclared(keyword)
      ensures keyword in GetSynonyms(keyword)
    {
      var i :| 0 <= i < |keywords| && keywords[i].0 == keyword;
      LookupDistinct(keywords, i);
      NormalizedWithoutNormalizers(taxonomy, i);
    }

    /**
     * Every synonym of a keyword resolves to some keyword: to itself when it is
     * a name, otherwise to one declared no later than that keyword.
     */
    lemma SynonymResolves(keyword: string, synonym: string)
      requires synonym in GetSynonyms(keyword)
      ensures GetKeyword(synonym).Some?
      ensures !IsDeclared(synonym) ==>
                exists i, j :: 0 <= i <= j < |keywords| && keywords[i].0 == GetKeyword(synonym).value
                               && keywords[j].0 == keyword
    {
      var j :| 0 <= j < |keywords| && keywords[j].0 == keyword && GetSynonyms(keyword) == keywords[j].1.synonyms;
      assert EntryMatches(fullMatch, keywords[j].1, synonym);
      if !IsDeclared(synonym) {
        var i :| 0 <= i < |keywords| && keywords[i].0 == GetKeyword(synonym).value
                 && EntryMatches(fullMatch, keywords[i].1, synonym)
                 && forall j' :: 0 <= j' < i ==> !EntryMatches(fullMatch, keywords[j'].1, synonym);
        assert i <= j;
      }
    }

    /** Number of tokens that `get_keyword` resolves to `k`. */
    function CountResolving(tokens: seq<string>, k: string): nat
      reads this
    {
      if tokens == [] then 0
      else CountResolving(tokens[..|tokens| - 1], k) + (if GetKeyword(tokens[|tokens| - 1]) == Some(k) then 1 else 0)
    }

    /** One more token adds one to the count of the keyword it resolves to. */
    lemma CountStep(tokens: seq<string>, i: int, k: string)
      requires 0 <= i < |tokens|
      ensures CountResolving(tokens[..i + 1], k) == CountResolving(tokens[..i], k) + (if GetKeyword(tokens[i]) == Some(k) then 1 else 0)
    {
      assert tokens[..i + 1][..i] == tokens[..i];
    }

    /** Only declared keywords are resolved to. */
    lemma {:induction false} CountedIsDeclared(tokens: seq<string>, k: string)
      requires CountResolving(tokens, k) > 0
      ensures IsDeclared(k)
    {
      if GetKeyword(tokens[|tokens| - 1]) != Some(k) {
        CountedIsDeclared(tokens[..|tokens| - 1], k);
      }
    }

    /**
     * `extract_keywords`: every non-empty keyword that some token resolves to,
     * with the number of tokens that resolve to it. An empty keyword is falsy
     * and never counted.
     */
    method ExtractKeywords(tokens: seq<string>) returns (counts: map<string, nat>)
      ensures forall k :: k in counts <==> k != "" && CountResolving(tokens, k) > 0
      ensures forall k :: k in counts ==> counts[k] == CountResolving(tokens, k) && IsDeclared(k)
    {
      counts := map[];
      var i := 0;
      while i < |tokens|
        invariant 0 <= i <= |tokens|
        invariant forall k :: k in counts <==> k != "" && CountResolving(tokens[..i], k) > 0
        invariant forall k :: k in counts ==> counts[k] == CountResolving(tokens[..i], k)
      {
        var keyword := GetKeyword(tokens[i]);
        forall k ensures CountResolving(tokens[..i + 1], k) == CountResolving(tokens[..i], k) + (if keyword == Some(k) then 1 else 0) {
          CountStep(tokens, i, k);
        }
        if keyword.Some? && keyword.value != "" {
          var previous := if keyword.value in counts then counts[keyword.value] else 0;
          counts := counts[keyword.value := previous + 1];
        }
        i := i + 1;
      }
      assert tokens[..|tokens|] == tokens;
      forall k | k in counts ensures IsDeclared(k) {
        CountedIsDeclared(tokens, k);
      }
    }

    /**
     * `compute_ngram_size`: one more than the largest number of spaces in any
     * synonym, and at least 1.
     */
    method ComputeNgramSize() returns (ngramSize: int)
      ensures ngramSize >= 1
      ensures forall i, j :: 0 <= i < |keywords| && 0 <= j < |keywords[i].1.synonyms| ==>
                Count(keywords[i].1.synonyms[j], ' ') + 1 <= ngramSize
      ensures ngramSize == 1 || exists i, j :: 0 <= i < |keywords| && 0 <= j < |keywords[i].1.synonyms|
                                              && Count(keywords[i].1.synonyms[j], ' ') + 1 == ngramSize
    {
      ngramSize := 1;
      var i := 0;
      while i < |keywords|
        invariant 0 <= i <= |keywords|
        invariant ngramSize >= 1
        invariant forall i', j :: 0 <= i' < i && 0 <= j < |keywords[i'].1.synonyms| ==>
                    Count(keywords[i'].1.synonyms[j], ' ') + 1 <= ngramSize
        invariant ngramSize == 1 || exists i', j :: 0 <= i' < i && 0 <= j < |keywords[i'].1.synonyms|
                                                   && Count(keywords[i'].1.synonyms[j], ' ') + 1 == ngramSize
      {
        var widest := WidestSynonym(keywords[i].1.synonyms, ngramSize);
        if widest != ngramSize {
          var j :| 0 <= j < |keywords[i].1.synonyms| && Count(keywords[i].1.synonyms[j], ' ') + 1 == widest;
          ngramSize := widest;
          assert Count(keywords[i].1.synonyms[j], ' ') + 1 == ngramSize;
        }
        i := i + 1;
      }
    }

    /** The inner loop of `compute_ngram_size`: `width` raised to the word count of the widest synonym. */
    static method WidestSynonym(synonyms: seq<string>, width: int) returns (widest: int)
      ensures widest >= width
      ensures forall j :: 0 <= j < |synonyms| ==> Count(synonyms[j], ' ') + 1 <= widest
      ensures widest == width || exists j :: 0 <= j < |synonyms| && Count(synonyms[j], ' ') + 1 == widest
    {
      widest := width;
      var j := 0;
      while j < |synonyms|
        invariant 0 <= j <= |synonyms|
        invariant widest >= width
        invariant forall j' :: 0 <= j' < j ==> Count(synonyms[j'], ' ') + 1 <= widest
        invariant widest == width || exists j' :: 0 <= j' < j && Count(synonyms[j'], ' ') + 1 == widest
      {
        var words := |Split(synonyms[j], ' ')|;
        SplitLength(synonyms[j], ' ');
        if words > widest {
          widest := words;
        }
        j := j + 1;
      }
    }

    /**
     * `filter_keyword`: spaces become dashes, then leading and trailing `.` and
     * `_` are stripped until neither end has one. Synonyms and regular
     * expressions are always empty.
     */
    static method FilterKeyword(keyword: string) returns (filtered: string, synonyms: seq<string>, regexp: seq<Pattern>)
      ensures filtered == Filtered(keyword)
      ensures ' ' !in filtered
      ensures Clean(filtered)
      ensures IsInfix(filtered, ReplaceChar(keyword, ' ', '-'))
      ensures synonyms == [] && regexp == []
    {
      var dashed := Join(Split(keyword, ' '), "-");
      JoinSplitReplace(keyword, ' ', '-');
      filtered := dashed;
      synonyms := [];
      regexp := [];
      var change := true;
      while change
        invariant Trimmed(filtered) == Trimmed(dashed)
        invariant !change ==> Clean(filtered)
        decreases |filtered| + (if change then 1 else 0)
      {
        filtered, change := StripRound(filtered);
      }
      TrimmedClean(filtered);
      TrimmedInfix(dashed);
    }

    /** One pass of the outer loop of `filter_keyword`: `.` then `_` stripped from the front and the back. */
    static method StripRound(s: string) returns (t: string, change: bool)
      ensures Trimmed(t) == Trimmed(s)
      ensures change ==> |t| < |s|
      ensures !change ==> t == s && Clean(t)
    {
      change := false;
      t := s;
      var stripped;
      t, stripped := StripLeading(t, '.');
      change := change || stripped;
      t, stripped := StripTrailing(t, '.');
      change := change || stripped;
      t, stripped := StripLeading(t, '_');
      change := change || stripped;
      t, stripped := StripTrailing(t, '_');
      change := change || stripped;
    }

    /** One `while` of `filter_keyword`: leading copies of the strip character `c` removed. */
    static method StripLeading(s: string, c: char) returns (t: string, stripped: bool)
      requires c in StripChars
      ensures Trimmed(t) == Trimmed(s)
      ensures |t| == 0 || t[0] != c
      ensures stripped ==> |t| < |s|
      ensures !stripped ==> t == s
    {
      t, stripped := s, false;
      while |t| > 0 && t[0] == c
        invariant Trimmed(t) == Trimmed(s)
        invariant stripped ==> |t| < |s|
        invariant !stripped ==> t == s
      {
        t := t[1..];
        stripped := true;
      }
    }

    /** One `while` of `filter_keyword`: trailing copies of the strip character `c` removed. */
    static method StripTrailing(s: string, c: char) returns (t: string, stripped: bool)
      requires c in StripChars
      ensures Trimmed(t) == Trimmed(s)
      ensures |t| == 0 || t[|t| - 1] != c
      ensures stripped ==> |t| < |s|
      ensures !stripped ==> t == s
    {
      t, stripped := s, false;
      while |t| > 0 && t[|t| - 1] == c
        invariant Trimmed(t) == Trimmed(s)
        invariant stripped ==> |t| < |s|
        invariant !stripped ==> t == s
      {
        TrimmedDropLast(t);
        t := t[..|t| - 1];
        stripped := true;
      }
    }

    /**
     * `compute_synonyms`: for every delimiter of `MULTIWORD_DELIMITERS`, the
     * keyword's pieces between that delimiter re-joined with every delimiter.
     */
    static method ComputeSynonyms(keyword: string) returns (synonyms: set<string>)
      ensures synonyms == SynonymVariants(keyword, MultiwordDelimiters)
      ensures keyword in synonyms
      ensures |synonyms| <= 13
    {
      synonyms := {};
      for i := 0 to |MultiwordDelimiters|
        invariant synonyms == SynonymVariants(keyword, MultiwordDelimiters[..i])
      {
        var words := Split(keyword, MultiwordDelimiters[i]);
        ghost var done := synonyms;
        for j := 0 to |MultiwordDelimiters|
          invariant synonyms == done + Rejoinings(words, MultiwordDelimiters[..j])
        {
          synonyms := synonyms + {Join(words, [MultiwordDelimiters[j]])};
          assert MultiwordDelimiters[..j + 1][..j] == MultiwordDelimiters[..j];
        }
        assert MultiwordDelimiters[..i + 1][..i] == MultiwordDelimiters[..i];
        assert MultiwordDelimiters[..|MultiwordDelimiters|] == MultiwordDelimiters;
      }
      assert MultiwordDelimiters[..|MultiwordDelimiters|] == MultiwordDelimiters;
      SynonymsAreSwaps(keyword, keyword);
      SynonymCountBound(keyword);
    }

    /**
     * `matches_keyword_pattern`: at least two characters, an ASCII letter or
     * digit first, then only ASCII letters, digits, `-`, `_` and `.`.
     */
    static function MatchesKeywordPattern(keyword: string): (r: bool)
      ensures r <==> |keyword| >= 2 && IsAsciiAlnum(keyword[0])
                     && forall i :: 1 <= i < |keyword| ==> IsKeywordChar(keyword[i])
    {
      var r := |keyword| >= 2 && PatternFullMatch(keyword);
      assert |keyword| >= 1 ==> forall i :: 1 <= i < |keyword| ==> keyword[i] == keyword[1..][i - 1];
      r
    }
  }
}
