# fabric8-analytics-tagger, modelled in Dafny

This project models the keyword-matching core of the fabric8-analytics tagger.

- **Keyword dictionary (`KeywordsChief`).** Construction normalises a parsed taxonomy of keywords. Each keyword has synonyms, regular expressions and an occurrence count. Tokens are then resolved to keywords and counted. Further operations compute the n-gram size, synonym variants, a filtered keyword and the keyword-shape check.
- **Tokenizer.** It reads a stopword file and cuts text into sentences of lower-cased, lemmatized and stemmed tokens. It then removes stopwords and appends one list of n-grams. As written, only raw stopwords are removed (see Findings).
- **Scoring registry and scorers.** Count, RelativeUsage and TfIdf.
- **`KeywordsSet` counter.** Used by the collectors, with `add` and a left-biased `union`.
- **Character-set `compute_synonyms`** of the synonyms module.
- **Corpus** of token lists.
- **Collector registry.**
- **Content-type dispatch of `CoreParser`.**
- **Command-line decisions.** The log level, the output format and the `diff` of two keyword files.

One Dafny module stands for each source file:

| Module | Source |
|---|---|
| `Chief` | f8a_tagger/keywords_chief.py |
| `Tokenize` | f8a_tagger/tokenizer.py |
| `Scoring` | f8a_tagger/scoring.py |
| `KeywordsSets` | f8a_tagger/keywords_set.py |
| `Synonyms` | f8a_tagger/synonyms.py |
| `Corpora` | f8a_tagger/corpus.py |
| `Collectors` | f8a_tagger/collectors/base.py |
| `CoreParser` | f8a_tagger/parsers/core_parser.py |
| `Cli` | f8a_tagger_cli.py |

Three helper modules:

- `Strings` holds the parts of Python's `str` that the code relies on.
- `Dicts` holds insertion-ordered `dict`s.
- `Sources` holds the file-or-stream argument of the constructors.

`Words` and `Wrappers` hold normalizers, `Option`/`Result` and the exception kinds.

Classes that the source mutates are Dafny classes:

- `KeywordsChief` with its `_keywords` and `_keywords_prop` cache;
- `Tokenizer`, whose `_lemmatize`/`_stem` rewrite an `array` in place;
- `KeywordsSet` together with its shared entry objects;
- `Corpus`;
- the scoring and collector registries.

Their loops are methods with invariants, proved against specification functions. The pure parts are functions and lemmas.

Some things stay abstract and are passed in as parameters:

- the regular-expression engine (`fullMatch`);
- NLTK's sentence and word splitters;
- the stemmer and the lemmatizer;
- the markup converters;
- reading files and decoding YAML/JSON;
- the logistic function of RelativeUsage scoring.

Where the code and its documentation disagree, the model follows the code. The two defects under "## Findings" are modelled both as written and as evidently intended. The members named for the source's own functions (`Tokenizer.Tokenize`, `Cli.DiffAsWritten`) behave as written:

- `KeywordsChief.compute_synonyms` splits and re-joins on `defaults.MULTIWORD_DELIMITERS` (space, `-`, `_`, `/`). No concatenated spelling is produced.
- `is_keyword` only asks whether the name is declared with a non-null entry. There is no blacklist.
- Construction rewrites a synonym once per delimiter of `[' ', '_', '-']`. Each delimiter starts from the original synonym, so the last delimiter whose rewrite differs wins.
- `KeywordsChief.__init__` defaults `lemmatizer` to `False`. It is falsy like `None`, so both are `NoNormalizer`.

## Model

| member | source | states |
|---|---|---|
| Chief.KeywordFileContent | f8a_tagger/keywords_chief.py:34-40 | A keyword-file argument that is neither a path, `None` nor a text stream raises `InvalidInputError`, and only such an argument does. A stream's own text is used. |
| Sources.ReadSource | f8a_tagger/keywords_chief.py:34-40 | `None` or an empty path reads the packaged default file. Any other path yields that file's content, and a missing file raises `FileNotFoundError`, for the default as for a given path. A stream yields its text, and anything else raises `InvalidInputError`. |
| Chief.Normalized | f8a_tagger/keywords_chief.py:47-86 | Construction keeps every keyword name, in taxonomy order, one entry per name. |
| Chief.RewriteWithoutNormalizers | f8a_tagger/keywords_chief.py:73-86 | Without a lemmatizer or stemmer, the split/join rewrite of a synonym gives the synonym back unchanged. |
| Chief.NormalizedEntry | f8a_tagger/keywords_chief.py:50-86 | After construction each entry has a synonym list, a regexp list and an occurrence count (1 when missing or null). The entry has one synonym more than the file gave, the last being the keyword's own (rewritten) name. |
| Chief.NormalizedWithoutNormalizers | f8a_tagger/keywords_chief.py:50-71 | With the default (absent) lemmatizer and stemmer, the synonyms are the file's list followed by the keyword itself, so every keyword is one of its own synonyms. |
| Chief.KeywordsChief.constructor | f8a_tagger/keywords_chief.py:23-86 | The dictionary holds exactly the normalised taxonomy, its normalizers and matcher, and an empty `keywords` cache. |
| Chief.KeywordsChief.RewriteSynonyms | f8a_tagger/keywords_chief.py:71-86 | The nested loops of construction compute what `NormalizeEntry` specifies for one keyword. |
| Chief.KeywordsViewOfNormalized | f8a_tagger/keywords_chief.py:88-109 | Over a constructed dictionary, the `keywords` property holds exactly the declared names, each with the truthy fields of its entry. |
| Chief.KeywordsViewTruthy | f8a_tagger/keywords_chief.py:95-107 | The `keywords` property never holds an empty list or a zero count. |
| Chief.KeywordsViewSize | f8a_tagger/keywords_chief.py:94-109 | The `keywords` property has exactly one entry per keyword of a constructed dictionary. |
| Chief.KeywordsChief.Keywords | f8a_tagger/keywords_chief.py:88-109 | The property is computed on first use and served from the cache afterwards. Its value is `KeywordsView` of the entries. |
| Chief.KeywordsChief.ViewHoldsEveryKeyword | f8a_tagger/keywords_chief.py:88-109 | Every keyword of a valid dictionary appears in the property with its truthy fields, and the property has one entry per keyword. |
| Chief.KeywordsChief.ViewIsDeclared | f8a_tagger/keywords_chief.py:88-109 | A name is in the property if and only if it is declared. |
| Chief.KeywordsChief.GetKeywordsCount | f8a_tagger/keywords_chief.py:111-113 | The count is the size of the property, which equals the number of keywords. |
| Chief.AverageBetween | f8a_tagger/keywords_chief.py:115-121 | For a non-empty dictionary of positive counts, the average exists and lies between the smallest and the largest count. |
| Chief.KeywordsChief.GetAverageOccurrenceCount | f8a_tagger/keywords_chief.py:115-121 | The result is `AverageOccurrence` of the entries: `KeyError` for a keyword whose count is 0 (missing from the property), division by zero for an empty dictionary, otherwise the mean. |
| Chief.KeywordsChief.SumOccurrences | f8a_tagger/keywords_chief.py:117-119 | The summing loop raises `KeyError` exactly when some count is 0, and otherwise yields the sum of the counts. |
| Chief.Lookup | f8a_tagger/keywords_chief.py:146 | Finds the entry of a name if and only if the name is declared. |
| Chief.LookupDistinct | f8a_tagger/keywords_chief.py:146 | With unique names the lookup returns that name's own entry. |
| Chief.FirstMatch | f8a_tagger/keywords_chief.py:160-174 | None if and only if no entry matches (synonym or full regexp match). Otherwise the result names an entry that matches, and it is the first such in taxonomy order. |
| Chief.KeywordsChief.Names | f8a_tagger/keywords_chief.py:156 | The names listed are exactly the declared keywords. |
| Chief.KeywordsChief.GetKeyword | f8a_tagger/keywords_chief.py:149-174 | A declared name resolves to itself before any synonym or regexp is consulted. Otherwise the result is the first matching entry, or None. A result is always a declared keyword. |
| Chief.KeywordsChief.GetSynonyms | f8a_tagger/keywords_chief.py:138-147 | A declared keyword gives its synonym list, and anything else the empty list. |
| Chief.KeywordsChief.IsKeyword | f8a_tagger/keywords_chief.py:246-252 | True if and only if the word is a declared keyword. |
| Chief.KeywordsChief.OwnNameIsSynonym | f8a_tagger/keywords_chief.py:71 | Without lemmatizer and stemmer, a keyword is among its own synonyms. |
| Chief.KeywordsChief.SynonymResolves | f8a_tagger/keywords_chief.py:149-174 | Every synonym resolves to some keyword: to itself when it is a name, otherwise to a keyword declared no later than the one it belongs to. |
| Chief.KeywordsChief.CountedIsDeclared | f8a_tagger/keywords_chief.py:185-188 | A keyword counted at least once is declared. |
| Chief.KeywordsChief.ExtractKeywords | f8a_tagger/keywords_chief.py:176-190 | The keys are exactly the non-empty keywords some token resolves to. Each count is the number of tokens resolving to that keyword, and every key is declared. |
| Chief.KeywordsChief.ComputeNgramSize | f8a_tagger/keywords_chief.py:123-136 | The result is at least 1 and not below 1 + the spaces of any synonym. It is 1 or attained by some synonym. |
| Chief.KeywordsChief.WidestSynonym | f8a_tagger/keywords_chief.py:133-134 | The inner loop raises the running size to the word count of the widest synonym of one entry, and no further. |
| Chief.KeywordsChief.FilterKeyword | f8a_tagger/keywords_chief.py:192-225 | The result is `Filtered(keyword)`. It has no space, neither starts nor ends with `.` or `_`, and is a contiguous piece of the keyword with spaces turned into dashes. The synonym and regexp lists are empty. |
| Chief.KeywordsChief.StripRound | f8a_tagger/keywords_chief.py:207-223 | One pass of the outer loop keeps the trimmed form. It shortens the string when it changes anything, and leaves a clean string otherwise. |
| Chief.KeywordsChief.StripLeading | f8a_tagger/keywords_chief.py:209-211 | A leading-strip loop keeps the trimmed form and leaves no leading copy of the character. |
| Chief.KeywordsChief.StripTrailing | f8a_tagger/keywords_chief.py:213-215 | A trailing-strip loop keeps the trimmed form and leaves no trailing copy of the character. |
| Chief.TrimLeftSuffix | f8a_tagger/keywords_chief.py:209-219 | Stripping the front leaves a suffix that does not start with `.` or `_`. |
| Chief.TrimRightPrefix | f8a_tagger/keywords_chief.py:213-223 | Stripping the back leaves a prefix that does not end with `.` or `_`. |
| Chief.TrimLeftOf | f8a_tagger/keywords_chief.py:209-219 | Dropping exactly the leading strip characters is `TrimLeft`. |
| Chief.TrimRightOf | f8a_tagger/keywords_chief.py:213-223 | Dropping exactly the trailing strip characters is `TrimRight`. |
| Chief.TrimmedOf | f8a_tagger/keywords_chief.py:206-223 | Removing strip characters at both ends until neither end has one is `Trimmed`, whatever order the loops use. |
| Chief.TrimmedDropLast | f8a_tagger/keywords_chief.py:213-215 | Dropping a trailing strip character does not change the trimmed result. |
| Chief.TrimmedClean | f8a_tagger/keywords_chief.py:206-223 | A clean string is left as it is. |
| Chief.TrimmedInfix | f8a_tagger/keywords_chief.py:206-223 | The trimmed string is clean and is a contiguous piece of its input. |
| Chief.FilteredIdempotent | f8a_tagger/keywords_chief.py:192-225 | `filter_keyword` applied twice equals applying it once. |
| Chief.StarMatches | f8a_tagger/keywords_chief.py:21 | `[0-9a-zA-Z-_.]*` matches a whole string if and only if every character is an ASCII letter, a digit, `-`, `_` or `.`. |
| Chief.KeywordsChief.MatchesKeywordPattern | f8a_tagger/keywords_chief.py:254-262 | Truthy if and only if the keyword has at least two characters, an ASCII letter or digit first, and only letters, digits, `-`, `_` and `.` after it. |
| Chief.RejoiningsAreReplacements | f8a_tagger/keywords_chief.py:240-242 | Re-joining `keyword.split(d)` with each other delimiter is exactly replacing every `d` by it. |
| Chief.VariantsAreReplacements | f8a_tagger/keywords_chief.py:239-242 | The variants are exactly the keyword with one delimiter of the list replaced throughout by one of the multiword delimiters. |
| Chief.SynonymsAreSwaps | f8a_tagger/keywords_chief.py:227-244 | The synonyms are the keyword itself plus every spelling with one occurring multiword delimiter replaced throughout by a different one. |
| Chief.NoDelimiterSynonyms | f8a_tagger/keywords_chief.py:227-244 | A keyword without space, `-`, `_` or `/` is its only synonym. |
| Chief.SynonymCountBound | f8a_tagger/keywords_chief.py:227-244 | A keyword has at most 13 synonyms: itself and the 12 swaps of one multiword delimiter for another. |
| Chief.SwapInSwaps | f8a_tagger/keywords_chief.py:227-244 | Every swap of two different multiword delimiters is among those 13 spellings. |
| Chief.SingleDelimiterSynonyms | f8a_tagger/keywords_chief.py:227-244 | A keyword with one kind of delimiter has as synonyms itself and that delimiter replaced by each of the others. |
| Chief.DashedExample | f8a_tagger/keywords_chief.py:239-242 | The three replacements of the dash in "a-b" are "a b", "a_b" and "a/b". |
| Chief.DashedSynonymWithin | f8a_tagger/keywords_chief.py:227-244 | Every synonym of "a-b" is one of its four spellings. |
| Chief.DashedSynonyms | f8a_tagger/keywords_chief.py:227-244 | The synonyms of "a-b" are exactly "a b", "a-b", "a_b" and "a/b". |
| Chief.DashedSpellingsAreSynonyms | f8a_tagger/keywords_chief.py:227-244 | Each of the four spellings of "a-b" is a synonym of it. |
| Chief.DashReplacedIsSynonym | f8a_tagger/keywords_chief.py:239-242 | "a-b" with its dash replaced by another multiword delimiter is a synonym. |
| Chief.KeywordsChief.ComputeSynonyms | f8a_tagger/keywords_chief.py:227-244 | The loops build exactly `SynonymVariants` over `MULTIWORD_DELIMITERS`, which always contains the keyword and has at most 13 members. |
| Tokenize.StopwordsContent | f8a_tagger/tokenizer.py:39-46 | A stopword argument that is neither a path, `None` nor a stream raises `InvalidInputError`, and only such an argument does. A stream's text is used. |
| Tokenize.ClassifyLine | f8a_tagger/tokenizer.py:48-59 | A line is a comment if and only if it starts with `#` and is not `#`. It is a regexp if and only if it starts with `re: ` (the rest being the pattern). Everything else is a raw stopword, including the empty line and `re:` without a space. |
| Tokenize.ClassifyLineRoundTrip | f8a_tagger/tokenizer.py:48-59 | A non-comment line is recovered from what it declares. |
| Tokenize.RegexpLineRoundTrip | f8a_tagger/tokenizer.py:53-54 | `re: ` followed by a pattern is read back as that pattern. |
| Tokenize.RawStopwordsAreLines | f8a_tagger/tokenizer.py:48-59 | A word is a raw stopword if and only if it is a line classified as one. |
| Tokenize.StopwordLinesPartition | f8a_tagger/tokenizer.py:48-59 | Comments, regexp stopwords and raw stopwords account for every line exactly once. |
| Tokenize.Tokenizer.constructor | f8a_tagger/tokenizer.py:21-69 | The regexp stopwords are the `re: ` lines of the content in order. The raw stopwords are the other non-comment lines, lemmatized and then stemmed. |
| Tokenize.Tokenizer.ReadStopwords | f8a_tagger/tokenizer.py:48-59 | The line loop collects exactly `RegexpStopwordsOf` and `RawStopwordsOf`. |
| Tokenize.Tokenizer.Lemmatize | f8a_tagger/tokenizer.py:71-84 | The token array is replaced in place by the lemmatizer's images, and left unchanged without a lemmatizer. |
| Tokenize.Tokenizer.Stem | f8a_tagger/tokenizer.py:86-99 | The token array is replaced in place by the stemmer's images, and left unchanged without a stemmer. |
| Tokenize.Tokenizer.RewriteInPlace | f8a_tagger/tokenizer.py:77-82 | Writing a slot only when the word changes still yields `f` applied to every token. |
| Tokenize.WithoutStopwordsMembers | f8a_tagger/tokenizer.py:108-122 | A token survives if and only if it was there, is not a raw stopword and matches no regexp stopword. |
| Tokenize.WithoutStopwordsCounts | f8a_tagger/tokenizer.py:108-122 | Each surviving token is kept as often as it occurs, and every dropped token is gone entirely. |
| Tokenize.WithoutStopwordsIdempotent | f8a_tagger/tokenizer.py:108-122 | Removing stopwords a second time removes nothing. |
| Tokenize.FiltersAgreeWithoutPatterns | f8a_tagger/tokenizer.py:108-122 | Without regexp stopwords the written and the intended filters agree. |
| Tokenize.Tokenizer.RemoveStopwordsAsWritten | f8a_tagger/tokenizer.py:101-122 | As written, only raw stopwords are dropped, and the regexp loop drops nothing. |
| Tokenize.RegexpStopwordIsIgnored | f8a_tagger/tokenizer.py:115-118 | "0" with stopword `re: [0-9.]+` survives the written filter but not the intended one. |
| Tokenize.Tokenizer.RemoveStopwords | f8a_tagger/tokenizer.py:101-122 | Returns the tokens, in order, minus raw stopwords and tokens a regexp stopword fully matches. |
| Tokenize.WindowsAreSlices | f8a_tagger/tokenizer.py:156 | `zip(*[sentence[j:] for j in range(w)])` joined by spaces gives exactly the windows of `w` consecutive tokens. |
| Tokenize.ShortSentenceNgrams | f8a_tagger/tokenizer.py:154-156 | A sentence of fewer than two tokens yields no n-grams. |
| Tokenize.SentenceNgramsLength | f8a_tagger/tokenizer.py:155-156 | A sentence yields one n-gram per window of each width from 2 to n. |
| Tokenize.SentenceNgramIsWindow | f8a_tagger/tokenizer.py:155-156 | Every n-gram joins 2 to n consecutive tokens of its sentence. |
| Tokenize.WindowIsSentenceNgram | f8a_tagger/tokenizer.py:155-156 | Every window of 2 to n consecutive tokens is an n-gram of the sentence. |
| Tokenize.NgramTailMembers | f8a_tagger/tokenizer.py:151-156 | The appended list holds exactly the n-grams of the sentences before it. |
| Tokenize.NgramTailSound | f8a_tagger/tokenizer.py:154-156 | Every string of the appended list is an n-gram of some sentence. |
| Tokenize.NgramTailComplete | f8a_tagger/tokenizer.py:154-156 | Every n-gram of every sentence is in the appended list. |
| Tokenize.Tokenized | f8a_tagger/tokenizer.py:124-160 | One list per sentence, plus one more if and only if the n-gram size exceeds 1. The regexp stopwords the filter honours are a parameter: none as written, all of them as intended. |
| Tokenize.LoweredWords | f8a_tagger/tokenizer.py:135-136 | Each sentence becomes its word tokens, each lower-cased, in order. |
| Tokenize.NormalizedSentences | f8a_tagger/tokenizer.py:140-142 | Lemmatizing and stemming keep every sentence's length. |
| Tokenize.FilteredSentences | f8a_tagger/tokenizer.py:145-147 | Filtering keeps the number of sentences and never lengthens one. |
| Tokenize.TokenizedHasNoStopwords | f8a_tagger/tokenizer.py:145-147 | As written, with removal on, a sentence keeps exactly its normalized tokens that are not raw stopwords, including tokens a regexp stopword matches. |
| Tokenize.TokenizedIntendedHasNoStopwords | f8a_tagger/tokenizer.py:145-147 | As intended, with removal on, a sentence keeps exactly its normalized tokens that are neither raw stopwords nor matched by a regexp stopword. |
| Tokenize.WithoutStopwordsNoMatch | f8a_tagger/tokenizer.py:108-122 | When no regexp stopword matches any token, the intended filter removes exactly what the written one does. |
| Tokenize.TokenizedAgreeWithoutMatches | f8a_tagger/tokenizer.py:124-160 | The written and the intended `tokenize` give the same result when no regexp stopword matches a normalized token, and in particular when there are no regexp stopwords. |
| Tokenize.TokenizedPlain | f8a_tagger/tokenizer.py:124-160 | Without normalizers, stopword removal or n-grams, the result is the lower-cased word tokens. |
| Tokenize.Tokenizer.Tokenize | f8a_tagger/tokenizer.py:124-160 | The result is `Tokenized` of the lower-cased words of NLTK's sentences. As written, the filter drops raw stopwords only. |
| Tokenize.Tokenizer.TokenizeIntended | f8a_tagger/tokenizer.py:124-160 | The same pipeline with the intended filter, which also drops the tokens a regexp stopword matches. |
| Tokenize.Tokenizer.LowerSentences | f8a_tagger/tokenizer.py:135-136 | The first loop computes `LoweredWords`. |
| Tokenize.Tokenizer.NormalizeSentences | f8a_tagger/tokenizer.py:140-142 | The second loop computes `NormalizedSentences`. |
| Tokenize.Tokenizer.RemoveStopwordsAll | f8a_tagger/tokenizer.py:145-147 | The third loop calls the written `remove_stopwords` on each sentence. It computes `FilteredSentences` with no regexp stopwords. |
| Tokenize.Tokenizer.RemoveStopwordsAllIntended | f8a_tagger/tokenizer.py:145-147 | The third loop with the intended filter computes `FilteredSentences` with the regexp stopwords. |
| Tokenize.Tokenizer.Ngrams | f8a_tagger/tokenizer.py:151-156 | The n-gram loop computes `NgramTail`. |
| Tokenize.Tokenizer.SentenceNgramsOf | f8a_tagger/tokenizer.py:155-156 | The inner loop computes the windows of widths 2 to n of one sentence. |
| Scoring.Instantiate | f8a_tagger/scoring.py:44-46 | Instantiating a scorer succeeds if and only if no keyword arguments are given. Otherwise it raises `TypeError`. |
| Scoring.BuiltinScoringRegistry | f8a_tagger/scoring.py:135-137 | At import the registry names Count, RelativeUsage and TfIdf, in that order, each once and each bound to its class. |
| Scoring.ScoringRegistry.constructor | f8a_tagger/scoring.py:135-137 | The registry as import leaves it. |
| Scoring.ScoringRegistry.BuiltinLookups | f8a_tagger/scoring.py:27-46 | The import-time names are listed in order, and each, asked for without parameters, gives an instance of its class. |
| Scoring.ScoringRegistry.RegisterScoring | f8a_tagger/scoring.py:17-25 | Binds the name to the class and `params or {}`. A re-registration overwrites the binding in place. |
| Scoring.ScoringRegistry.RegisteredScorers | f8a_tagger/scoring.py:27-33 | The listed names are exactly the registered ones. |
| Scoring.ScoringRegistry.GetScoring | f8a_tagger/scoring.py:35-46 | `KeyError` if and only if the name is unregistered. Otherwise it instantiates the registered class with the given parameters, or with the registered ones when none are given. |
| Scoring.ScoringRegistry.RegisteredIsScoring | f8a_tagger/scoring.py:35-46 | A class registered without parameters is instantiated without them, and any non-empty parameters raise `TypeError`. |
| Scoring.ScoringFuncMonotone | f8a_tagger/scoring.py:74-98 | For a monotone sigmoid and a positive average, a keyword found more often never scores lower. |
| Scoring.SumRatiosRemove | f8a_tagger/scoring.py:107-110 | The sum of count ratios over found keywords may take any keyword out first. |
| Scoring.RelativeUsage | f8a_tagger/scoring.py:100-119 | The dictionary-average error comes first. A successful result has exactly the found keywords as keys. |
| Scoring.RelativeUsageKeyError | f8a_tagger/scoring.py:107-110 | When the average exists, `KeyError` is raised exactly when some found keyword is not declared. |
| Scoring.RelativeUsageScore | f8a_tagger/scoring.py:100-119 | The method computes `RelativeUsage` of the dictionary and the found counts. |
| Scoring.SumFoundRatios | f8a_tagger/scoring.py:107-110 | The loop raises `KeyError` exactly for a found keyword without a count, and otherwise yields the sum of ratios. |
| Scoring.ScoreFound | f8a_tagger/scoring.py:115-119 | Every found keyword gets its `_scoring_func` score, and only found keywords do. |
| Scoring.Score | f8a_tagger/scoring.py:61-68 | Count returns the counts unchanged, TfIdf raises `NotImplementedError` (f8a_tagger/scoring.py:125-132), and RelativeUsage is `RelativeUsage`. |
| KeywordsSets.CountEntry.KeepCount | f8a_tagger/keywords_set.py:32 | The entry's count becomes its present count, or 1 when it has none. |
| KeywordsSets.KeywordsSet.Counts | f8a_tagger/keywords_set.py:12-15 | The count view has exactly the set's keywords. |
| KeywordsSets.KeywordsSet.constructor | f8a_tagger/keywords_set.py:8-10 | A new set is empty. |
| KeywordsSets.KeywordsSet.Add | f8a_tagger/keywords_set.py:17-21 | A new keyword gets a fresh entry with count 1, and a present one has its count increased by 1. No other keyword or entry changes. |
| KeywordsSets.KeywordsSet.Union | f8a_tagger/keywords_set.py:23-36 | Returns self. Its keys become the union of both key sets, and a shared keyword keeps self's entry and count. A keyword only in `other` gets `other`'s entry object, and `other` is unchanged. |
| KeywordsSets.KeywordsSet.UnionEntries | f8a_tagger/keywords_set.py:30-34 | The loop leaves self's map equal to `Merged` over all of `other`'s keys, with no count changed. |
| KeywordsSets.KeywordsSet.UnionKeyword | f8a_tagger/keywords_set.py:31-34 | One step adds `other`'s entry for a missing keyword, or keeps self's count for a present one. |
| KeywordsSets.Merged | f8a_tagger/keywords_set.py:30-34 | The merged keys are self's plus those taken from `other`. Self's entries win. |
| KeywordsSets.SharedEntryAfterUnion | f8a_tagger/keywords_set.py:34 | After a union copies an entry, adding that keyword to one set counts it in both. |
| Synonyms.CharsOf | f8a_tagger/synonyms.py:12 | `set().union(s)` is the set of the one-character strings of `s`'s characters. |
| Synonyms.ComputeSynonyms | f8a_tagger/synonyms.py:4-17 | Every element of the result is a single character. |
| Synonyms.RejoinedChars | f8a_tagger/synonyms.py:12-15 | A re-joined spelling holds the characters of the keyword other than the split delimiter, plus the joiner when the delimiter occurred. |
| Synonyms.SynonymMembers | f8a_tagger/synonyms.py:10-17 | For a non-empty keyword the result is exactly its characters, plus a space if it holds `-` or `.`, a `.` if it holds `-`, and a `-` if it holds `.`. |
| Synonyms.NoneIffEmpty | f8a_tagger/synonyms.py:17 | The result is None if and only if the keyword is empty. |
| Synonyms.SynonymsWithinAlphabet | f8a_tagger/synonyms.py:10-17 | No character outside the keyword, space, `-` and `.` appears. |
| Corpora.Corpus.constructor | f8a_tagger/corpus.py:16-19 | A new corpus is empty and has size 0. |
| Corpora.Corpus.GetSize | f8a_tagger/corpus.py:34-40 | The size is the number of entries, which equals the number of names. |
| Corpora.Corpus.EntryAt | f8a_tagger/corpus.py:50-51 | Each position pairs a recorded name with a recorded token list. |
| Corpora.Corpus.Add | f8a_tagger/corpus.py:42-51 | Appends the name and the tokens at the end of their lists, even for a repeated name. The size grows by one, and earlier entries are unchanged. |
| Collectors.BuiltinRegistry | f8a_tagger/collectors/__init__.py:4-7 | The import-time registry lists Maven, NPM, PyPI and StackOverflow, each once and each bound to its class. |
| Collectors.CollectorRegistry.constructor | f8a_tagger/collectors/__init__.py:4-7 | The registry after the collector modules are imported. |
| Collectors.CollectorRegistry.RegisterCollector | f8a_tagger/collectors/base.py:23-34 | A registered name raises `ValueError` and changes nothing. A new name is appended with its class. |
| Collectors.CollectorRegistry.RegisteredCollectors | f8a_tagger/collectors/base.py:36-39 | The listed names are exactly the names the registry resolves. |
| Collectors.CollectorRegistry.GetCollectorClass | f8a_tagger/collectors/base.py:41-50 | `KeyError` if and only if the name is unregistered. Otherwise it returns the class registered under it. |
| Collectors.CollectorRegistry.RegisterThenGet | f8a_tagger/collectors/base.py:34 | After registering a new name, it resolves to its class and every other name resolves as before. |
| Collectors.CollectorRegistry.RegisteredClass | f8a_tagger/collectors/base.py:47-48 | Every registered name resolves to its registered class. |
| CoreParser.ExceptionOf | f8a_tagger/parsers/core_parser.py:64-123 | Unimplemented parsers raise `NotImplementedError`, a missing content type `AttributeError`, and every validation failure `ValueError`. |
| CoreParser.ParsersDistinct | f8a_tagger/parsers/core_parser.py:26-40 | No content type is registered twice. |
| CoreParser.ParserFor | f8a_tagger/parsers/core_parser.py:72 | No parser if and only if the lower-cased content type is not registered. |
| CoreParser.ParserForEntry | f8a_tagger/parsers/core_parser.py:72 | A registered lower-case spelling gets its own parser. |
| CoreParser.RunParser | f8a_tagger/parsers/parsers.py:15-175 | Raises `NotImplementedError` if and only if the parser is not text, markdown, HTML or reStructuredText. Text returns the content itself. |
| CoreParser.Parse | f8a_tagger/parsers/core_parser.py:64-83 | An unregistered type raises if and only if no parser is found. Empty content raises if and only if the type is registered. A parse result implies non-empty content and an implemented parser. |
| CoreParser.ParseIgnoresCase | f8a_tagger/parsers/core_parser.py:72 | The content type is looked up case-insensitively. |
| CoreParser.UnknownIsPlainText | f8a_tagger/parsers/core_parser.py:36-39 | `unknown` and `txt`, in any case, return non-empty content unchanged. |
| CoreParser.UnregisteredTypeFirst | f8a_tagger/parsers/core_parser.py:74-78 | An unregistered type is reported even for empty content. |
| CoreParser.ShortTypes | f8a_tagger/parsers/core_parser.py:26-40 | Every registered content type has at most 16 characters. |
| CoreParser.ParseReadmeJson | f8a_tagger/parsers/core_parser.py:85-105 | Empty or null content, a missing `content` field, and a missing `type` field raise, in that order and each exactly in its case. Otherwise the content is parsed with its type. |
| CoreParser.FirstSuffix | f8a_tagger/parsers/core_parser.py:117-118 | The result is the first table position whose suffix ends the path, or None if and only if there is none. |
| CoreParser.ParseFile | f8a_tagger/parsers/core_parser.py:107-123 | A path raises "unknown file type" if and only if it is not `.json` and has no suffix in the table. |
| CoreParser.ParseFileRoutes | f8a_tagger/parsers/core_parser.py:114-121 | A `.json` path is never read as markup, and another path is never JSON-decoded. |
| CoreParser.JsonPathIsReadme | f8a_tagger/parsers/core_parser.py:114-115 | A `.json` path is exactly `parse_readme_json` of its document. |
| CoreParser.TypedFile | f8a_tagger/parsers/core_parser.py:117-121 | Another path is parsed as the content type of its first matching suffix. |
| CoreParser.ParseRegistered | f8a_tagger/parsers/core_parser.py:72-83 | Non-empty content of a registered type goes to the parser registered for it. |
| CoreParser.MarkdownSuffix | f8a_tagger/parsers/core_parser.py:43-62 | `README.md` takes the `.md` entry, content type `markdown`. |
| CoreParser.PodSuffix | f8a_tagger/parsers/core_parser.py:55 | `README.pod` takes the `.pod` entry, whose content type is `asciidoc`. |
| CoreParser.MarkdownFile | f8a_tagger/parsers/core_parser.py:107-121 | A non-empty `README.md` is converted as markdown. |
| CoreParser.PodFileIsAsciidoc | f8a_tagger/parsers/core_parser.py:55 | A non-empty `README.pod` goes to the asciidoc parser, which raises `NotImplementedError`. |
| CoreParser.UntypedSuffixIsJson | f8a_tagger/parsers/core_parser.py:48 | `.json` is the only suffix without a content type. |
| CoreParser.ParseFileTypesEverySuffix | f8a_tagger/parsers/core_parser.py:114-121 | Because `.json` is routed first, `parse_file` never lowers a missing content type. |
| Cli.LogLevel | f8a_tagger_cli.py:51 | The level is between DEBUG and WARNING and a multiple of 10. It is WARNING if and only if there are no `-v` flags, and DEBUG if and only if there are at least two. |
| Cli.LogLevelAntitone | f8a_tagger_cli.py:51 | More `-v` flags never raise the level, and they strictly lower it until DEBUG. |
| Cli.StdoutFormat | f8a_tagger_cli.py:28-34 | `yaml`/`yml` select YAML, and `json` or no format select JSON. Anything else raises `ValueError`. |
| Cli.GuessedFormat | f8a_tagger_cli.py:36-41 | The guessed format is always `yaml` or `json`. |
| Cli.GuessedFormatOfExtension | f8a_tagger_cli.py:36-41 | A file whose last `.`-part is `json` is written as JSON. Any other last part is written as YAML: `yaml` and `yml` name it, and everything else falls back to the default. |
| Cli.GuessedFormatWithoutDot | f8a_tagger_cli.py:36-41 | A name without a dot is its own extension, so only `json` gives JSON and every other name gives the default YAML. |
| Cli.PrintResult | f8a_tagger_cli.py:27-43 | No file or `-` prints to stdout in the `StdoutFormat` format. Otherwise the file is written in the given format, or, when none is given, in the format `GuessedFormat` guesses from its name. |
| Cli.ItemLines | f8a_tagger_cli.py:162-166 | At most one line per item. |
| Cli.ItemLinesMembers | f8a_tagger_cli.py:162-166 | An item is reported if and only if it is in the list and missing from the other side's list. |
| Cli.ItemLinesShape | f8a_tagger_cli.py:162-173 | Every line of an item loop names that loop's field, keyword and file. |
| Cli.EntryLines | f8a_tagger_cli.py:161-173 | A present keyword yields at most one line per synonym and regexp. |
| Cli.EntryLinesShape | f8a_tagger_cli.py:161-173 | Every such line is an item line of a field compared in the current mode. |
| Cli.KeyLines | f8a_tagger_cli.py:155-173 | A keyword missing from the other file is reported (unless only synonyms or regexps are asked for) and not compared further. A present one has its lists compared. |
| Cli.SideLinesShape | f8a_tagger_cli.py:151-173 | Every line of a direction carries that direction's action and file. |
| Cli.KeywordLineIff | f8a_tagger_cli.py:156-158 | A keyword is reported as removed/added if and only if one file has it, the other does not, and keyword lines are not suppressed. |
| Cli.KeyLinesItem | f8a_tagger_cli.py:159-173 | Item lines for a keyword come only from that keyword, and only when both files have it. |
| Cli.ItemLineIff | f8a_tagger_cli.py:155-173 | An item is reported for a keyword if and only if both files have it, the list is compared in this mode, and the item is in one entry but not the other. A null entry in the other file counts as having no lists, a case `DiffLines` excludes because the source raises there. |
| Cli.DiffLines | f8a_tagger_cli.py:140-176 | `--synonyms-only` with `--keywords-only` raises `ValueError`, and nothing else does. Something is always printed. It requires only that no synonym or regexp loop reads a null entry of the other file. |
| Cli.DoNotDifferIff | f8a_tagger_cli.py:149-176 | "do not differ" is printed (lines 175-176) if and only if no other line is, since `differ` starts false and is set with every other line. |
| Cli.IdenticalFilesDoNotDiffer | f8a_tagger_cli.py:140-176 | A keyword file compared with itself never reads a null entry and does not differ, in every allowed mode. Null entries are allowed. |
| Cli.SelfSideEmpty | f8a_tagger_cli.py:151-173 | A direction compared with itself reports nothing. |
| Cli.KeyLinesAsWritten | f8a_tagger_cli.py:155-173 | As written, with only synonyms or only regexps asked for, a missing keyword raises `KeyError` exactly when its compared list is non-empty. A present keyword whose entry in the other file is null raises `AttributeError` exactly when a compared list is non-empty. Otherwise the corrected lines result. |
| Cli.SideLinesAsWritten | f8a_tagger_cli.py:155-173 | A direction as written either raises `KeyError` or `AttributeError`, or reads no null entry and prints the corrected lines. |
| Cli.SideRaisesIff | f8a_tagger_cli.py:155-173 | A direction raises exactly when one of two things happens while a compared item is present. Either a missing keyword is met while keyword lines are suppressed, or a null entry of the other file is met. |
| Cli.DiffAsWritten | f8a_tagger_cli.py:140-176 | `diff` as written raises `ValueError` exactly for the forbidden pair of flags. Otherwise it raises `KeyError` or `AttributeError`, or prints the corrected lines. |
| Cli.NullEntryRaises | f8a_tagger_cli.py:160-170 | A synonym looked up in a null entry raises `AttributeError`. Shared null entries, or a `--keywords-only` diff, compare without error. |
| Cli.NoNullReadsStep | f8a_tagger_cli.py:155-170 | No null entry is read by a file exactly when none is read by its first keyword and none by the rest. |
| Cli.SelfNoNullReads | f8a_tagger_cli.py:155-170 | A file with distinct keywords compared with itself reads no null entry. |
| Cli.SynonymsOnlyRemovedKeywordRaises | f8a_tagger_cli.py:161-163 | A keyword with a synonym, absent from the second file, diffed with `--synonyms-only`, raises `KeyError`. The corrected diff reports no difference. |
| Cli.Diff | f8a_tagger_cli.py:140-176 | The loops compute `DiffLines`. |
| Cli.SideLinesStep | f8a_tagger_cli.py:155 | One direction is its first keyword's lines followed by the rest's. |
| Cli.ReportSide | f8a_tagger_cli.py:151-173 | One direction prints `SideLines`, and `differ` is set if and only if something was printed. |
| Cli.ReportKeyword | f8a_tagger_cli.py:155-173 | One keyword prints `KeyLines`. |
| Cli.ReportItems | f8a_tagger_cli.py:162-173 | One item loop prints `ItemLines`, and `differ` is set if and only if something was printed. |

## Left out

- Reading files and decoding YAML or JSON. The taxonomy, the stopword file and README.json arrive as already-read text or parsed values, and reading a file is a function parameter.
- Python's regular-expression engine. Whole-token matching is the `fullMatch` parameter. Only the keyword pattern `[0-9a-zA-Z][0-9a-zA-Z-_.]*` is spelled out.
- NLTK's sentence and word splitters, stemmers and lemmatizers are function parameters. The stemmer and lemmatizer modules are not part of this model.
- `str.lower` covers only ASCII letters. Unicode case mapping is not modelled.
- Scoring.RelativeUsage: floating point is modelled as exact `real` arithmetic. The sigmoid is a parameter, so its `OverflowError` clamp to 0 or 1 is not modelled.
- Chief.KeywordsChief.GetAverageOccurrenceCount: true division is exact `real` division.
- Chief.KeywordsChief.ComputeSynonyms: the result is the set the source builds. The order of `list(synonyms)` is not defined and not modelled.
- Synonyms.ComputeSynonyms: the same applies. The list is modelled as the set it is built from.
- KeywordsSets.KeywordsSet: the `keywords_set` dict is a `map`, so its key order is not modelled. The source keeps insertion order, and `union` appends `other`'s new keys in `other`'s order.
- Chief.KeywordsChief.ExtractKeywords: the result is a `map`, so the order in which keywords were first found is not modelled.
- Scoring.Score: the score dicts are `map`s, so their key order is not modelled.
- Chief.RawEntry: a taxonomy entry carries only `synonyms`, `regexp` and `occurrence_count`. Other fields of an entry are not modelled, though the `keywords` property copies every truthy field.
- CoreParser.Parse: parser keyword arguments (`**parser_kwargs`) are not modelled. The markup conversions are an abstract `convert`.
- CoreParser.ParseReadmeJson: the document is a map from field names to strings. A non-object JSON value, or fields that are not strings, are not modelled.
- Cli.DiffLines: the corrected diff requires that no comparison reads a null entry of the other file (`NoNullReads`). The source raises `AttributeError` exactly when a non-null entry has a non-empty compared list and the other file's entry for that keyword is null. `Cli.DiffAsWritten` models this error.
- Cli.ItemLines: a null list in the other file's entry (`get('synonyms', [])` returning None) is read as empty. The source raises `TypeError` there.
- Cli.Diff: lines are returned as a sequence instead of being printed, so output printed before an exception is not modelled.
- Chief.KeywordsChief.constructor: synonyms that are not strings (converted by `str`) and keyword names that are not strings are not modelled. Regexps are kept as their source text instead of compiled patterns.
- Logging, click wiring, daiquiri setup and `setup.py`.
- The collectors' `execute` and their network access, `utils.py`, `prepare()` and `recipes.py`.
- Corpus pickling, JSON dump and load, and `get_memory_usage`.
- The stopword flag that `_lemmatize`/`_stem` take only changes log messages.

## Findings

| source | as written | input that shows it | evidently intended | confidence | as-written member | corrected member |
|---|---|---|---|---|---|---|
| f8a_tagger/tokenizer.py:115-118 | The `continue` after a regexp stopword matches only continues the inner loop over patterns, so the token is appended anyway and regexp stopwords remove nothing. | Stopword line `re: [0-9.]+` and token `0`: the token is kept. tests/test_tokenizer.py:71-73 expects `0`, `123` and `6502` to be removed. | A token that some regexp stopword fully matches is dropped. | not executed | Tokenize.Tokenizer.RemoveStopwordsAsWritten, Tokenize.RegexpStopwordIsIgnored, Tokenize.Tokenizer.Tokenize, Tokenize.TokenizedHasNoStopwords | Tokenize.Tokenizer.RemoveStopwords, Tokenize.WithoutStopwordsMembers, Tokenize.Tokenizer.TokenizeIntended, Tokenize.TokenizedIntendedHasNoStopwords |
| f8a_tagger_cli.py:155-173 | With `--synonyms-only` or `--regexp-only`, a keyword missing from the other file is not skipped, and its synonym or regexp loop indexes `keywords_b[keyword]`. | File 1 `flask: {synonyms: [flask-framework]}`, file 2 empty, `--synonyms-only`: `KeyError`. | A keyword missing from the other file is not compared further, whatever the mode. | not executed | Cli.DiffAsWritten, Cli.SynonymsOnlyRemovedKeywordRaises | Cli.DiffLines, Cli.ItemLineIff |
