/**
 * Keyword scoring: a registry from scoring names to scorer classes with their
 * default constructor parameters, and the three scorers. `Count` hands back
 * the occurrence counts, `RelativeUsage` rates each found keyword by its
 * usage relative to the dictionary, and `TfIdf` is not implemented.
 */
module Scoring {
  import opened Wrappers
  import opened Dicts
  import opened Chief

  /** The scorer classes. None of them declares constructor parameters. */
  datatype ScorerClass = CountScoring | RelativeUsageScoring | TfIdfScoring

  /** Keyword arguments for a scorer's constructor, by name. */
  type Params = map<string, string>

  /** An instance of a scorer class. */
  datatype Scorer = Scorer(kind: ScorerClass)

  /** What `score` returns: the counts themselves, or one real score per keyword. */
  datatype Scores = Counts(counts: map<string, int>) | Relative(scores: map<string, real>)

  /** `scorer(**params)`: a class without constructor parameters rejects any keyword argument. */
  function Instantiate(scorer: ScorerClass, params: Params): (r: Result<Scorer>)
    ensures r.Success? <==> params == map[]
    ensures r.Success? ==> r.value.kind == scorer
    ensures r.Failure? ==> r.error == TypeError
  {
    if params == map[] then Success(Scorer(scorer)) else Failure(TypeError)
  }

  /** The registrations made when the module is imported, in this order, none with parameters. */
  const BuiltinScorers: Dict<(ScorerClass, Params)> :=
    [("Count", (CountScoring, map[])), ("RelativeUsage", (RelativeUsageScoring, map[])), ("TfIdf", (TfIdfScoring, map[]))]

  /** The import-time registry names the three scorers once each, and each name finds its own class. */
  lemma BuiltinScoringRegistry()
    ensures DistinctKeys(BuiltinScorers)
    ensures Keys(BuiltinScorers) == ["Count", "RelativeUsage", "TfIdf"]
    ensures forall i :: 0 <= i < |BuiltinScorers| ==> Get(BuiltinScorers, BuiltinScorers[i].0) == Some(BuiltinScorers[i].1)
  {
    forall i | 0 <= i < |BuiltinScorers| ensures Get(BuiltinScorers, BuiltinScorers[i].0) == Some(BuiltinScorers[i].1) {
      GetAt(BuiltinScorers, i);
    }
  }

  /** The class-level `_scorers` dictionary of `Scoring`. */
  class ScoringRegistry {
    var scorers: Dict<(ScorerClass, Params)>

    ghost predicate Valid()
      reads this
    {
      DistinctKeys(scorers)
    }

    /** The registry as the module's import leaves it: Count, RelativeUsage and TfIdf, without parameters. */
    constructor ()
      ensures Valid()
      ensures scorers == BuiltinScorers
    {
      scorers := [];
      new;
      RegisterScoring("Count", CountScoring, None);
      assert scorers == BuiltinScorers[..1];
      RegisterScoring("RelativeUsage", RelativeUsageScoring, None);
      assert scorers == BuiltinScorers[..2];
      RegisterScoring("TfIdf", TfIdfScoring, None);
    }

    /** Each built-in name, asked for without parameters, gives an instance of its class. */
    lemma BuiltinLookups()
      requires scorers == BuiltinScorers
      ensures RegisteredScorers() == ["Count", "RelativeUsage", "TfIdf"]
      ensures forall i :: 0 <= i < |BuiltinScorers| ==>
                GetScoring(BuiltinScorers[i].0, None) == Success(Scorer(BuiltinScorers[i].1.0))
    {
      BuiltinScoringRegistry();
    }

    /**
     * `register_scoring`: binds the name to the class and `params or {}`,
     * replacing an earlier registration of the name in its place.
     */
    method RegisterScoring(name: string, scorer: ScorerClass, params: Option<Params>)
      requires Valid()
      modifies this
      ensures Valid()
      ensures scorers == Put(old(scorers), name, (scorer, params.GetOr(map[])))
    {
      PutKeys(scorers, name, (scorer, params.GetOr(map[])));
      scorers := Put(scorers, name, (scorer, params.GetOr(map[])));
    }

    /** `get_registered_scorers`: the registered names, in registration order. */
    function RegisteredScorers(): (names: seq<string>)
      reads this
      ensures forall k :: k in names <==> Get(scorers, k).Some?
      ensures |names| == |scorers|
    {
      Keys(scorers)
    }

    /**
     * `get_scoring`: an unregistered name raises `KeyError`; otherwise the
     * class is instantiated with the given parameters, or with the registered
     * ones when none are given.
     */
    function GetScoring(name: string, params: Option<Params>): (r: Result<Scorer>)
      reads this
      ensures r == Failure(KeyError) <==> name !in RegisteredScorers()
      ensures r.Success? ==> Get(scorers, name).Some? && r.value.kind == Get(scorers, name).value.0
      ensures r.Success? <==> Get(scorers, name).Some? && params.GetOr(Get(scorers, name).value.1) == map[]
    {
      match Get(scorers, name)
      case None => Failure(KeyError)
      case Some(registered) => Instantiate(registered.0, params.GetOr(registered.1))
    }

    /** After registering a class without parameters, `get_scoring` of that name gives an instance of it. */
    lemma RegisteredIsScoring(name: string, scorer: ScorerClass)
      requires Valid()
      requires Get(scorers, name) == Some((scorer, map[]))
      ensures GetScoring(name, None) == Success(Scorer(scorer))
      ensures forall params: Params :: params != map[] ==> GetScoring(name, Some(params)) == Failure(TypeError)
    {
    }
  }

  // ---------------------------------------------------------------------------
  // RelativeUsage

  /**
   * `_scoring_func`: the keyword's occurrences in the document plus its
   * occurrences in the dictionary, relative to the found keywords' average,
   * less the dictionary's average, through the logistic function `sigmoid`.
   */
  function ScoringFunc(totalKeywordCount: int, keywordCount: int, keywordsAverage: real, totalAverage: real,
                       sigmoid: real -> real): (r: real)
    requires keywordsAverage != 0.0
  {
    sigmoid(((keywordCount + totalKeywordCount) as real / keywordsAverage) - totalAverage)
  }

  /** For a monotone `sigmoid` and a positive average, a keyword found more often never scores lower. */
  lemma ScoringFuncMonotone(totalKeywordCount: int, c1: int, c2: int, keywordsAverage: real, totalAverage: real,
                            sigmoid: real -> real)
    requires forall a: real, b: real :: a <= b ==> sigmoid(a) <= sigmoid(b)
    requires keywordsAverage > 0.0 && c1 <= c2
    ensures ScoringFunc(totalKeywordCount, c1, keywordsAverage, totalAverage, sigmoid)
            <= ScoringFunc(totalKeywordCount, c2, keywordsAverage, totalAverage, sigmoid)
  {
    var a := (c1 + totalKeywordCount) as real;
    var b := (c2 + totalKeywordCount) as real;
    QuotientMonotone(a, b, keywordsAverage);
  }

  lemma QuotientMonotone(a: real, b: real, d: real)
    requires d > 0.0 && a <= b
    ensures a / d <= b / d
  {
    assert (b / d - a / d) * d == b - a;
  }

  /** One keyword's term of the found keywords' average: its count over its dictionary count. */
  function Ratio(view: map<string, PropEntry>, keywords: map<string, int>, k: string): real {
    if k in keywords && k in view && view[k].occurrenceCount.Some? && view[k].occurrenceCount.value != 0
    then keywords[k] as real / view[k].occurrenceCount.value as real
    else 0.0
  }

  /** The sum of `Ratio` over `keys`, in no particular order. */
  ghost function SumRatios(keys: set<string>, view: map<string, PropEntry>, keywords: map<string, int>): real
    decreases keys
  {
    if keys == {} then 0.0
    else
      var k :| k in keys;
      Ratio(view, keywords, k) + SumRatios(keys - {k}, view, keywords)
  }

  /** Any key may be taken out of the sum first. */
  lemma {:induction false} SumRatiosRemove(keys: set<string>, view: map<string, PropEntry>, keywords: map<string, int>,
                                           k: string)
    requires k in keys
    ensures SumRatios(keys, view, keywords) == Ratio(view, keywords, k) + SumRatios(keys - {k}, view, keywords)
    decreases keys
  {
    var j :| j in keys && SumRatios(keys, view, keywords) == Ratio(view, keywords, j) + SumRatios(keys - {j}, view, keywords);
    if j != k {
      SumRatiosRemove(keys - {j}, view, keywords, k);
      SumRatiosRemove(keys - {k}, view, keywords, j);
      assert keys - {j} - {k} == keys - {k} - {j};
    }
  }

  /** A found keyword the `keywords` property has no occurrence count for. */
  predicate Unknown(view: map<string, PropEntry>, k: string) {
    !(k in view && view[k].occurrenceCount.Some?)
  }

  /**
   * `RelativeUsageScoring.score` over the dictionary `ks` and the found
   * counts: the dictionary's average comes first, with its errors; a found
   * keyword the dictionary does not count raises `KeyError`; a zero sum of
   * ratios over a non-empty map divides by zero; otherwise every found
   * keyword gets its score.
   */
  ghost function RelativeUsage(ks: seq<(string, Entry)>, keywords: map<string, int>, sigmoid: real -> real)
    : (r: Result<map<string, real>>)
    ensures AverageOccurrence(ks).Failure? ==> r == Failure(AverageOccurrence(ks).error)
    ensures r.Success? ==> r.value.Keys == keywords.Keys
  {
    var average := AverageOccurrence(ks);
    if average.Failure? then Failure(average.error)
    else
      var view := KeywordsView(ks);
      if exists k :: k in keywords && Unknown(view, k) then Failure(KeyError)
      else
        var keywordsAverage := SumRatios(keywords.Keys, view, keywords);
        if keywords != map[] && keywordsAverage == 0.0 then Failure(ZeroDivisionError)
        else Success(map k | k in keywords ::
                       ScoringFunc(view[k].occurrenceCount.value, keywords[k], keywordsAverage, average.value, sigmoid))
  }

  /**
   * Over a constructed dictionary whose average exists, the `KeyError` is
   * raised exactly when some found keyword is not declared.
   */
  lemma RelativeUsageKeyError(chief: KeywordsChief, keywords: map<string, int>, sigmoid: real -> real)
    requires chief.Valid()
    requires AverageOccurrence(chief.keywords).Success?
    ensures (RelativeUsage(chief.keywords, keywords, sigmoid) == Failure(KeyError))
            <==> (exists k :: k in keywords && !chief.IsDeclared(k))
  {
    chief.ViewHoldsEveryKeyword();
    var view := KeywordsView(chief.keywords);
    forall k | k in keywords ensures Unknown(view, k) <==> !chief.IsDeclared(k) {
      chief.ViewIsDeclared(k);
      if chief.IsDeclared(k) {
        var i :| 0 <= i < |chief.keywords| && chief.keywords[i].0 == k;
        assert chief.keywords[i].1.occurrenceCount != 0;
      }
    }
    if exists k :: k in keywords && !chief.IsDeclared(k) {
      var k :| k in keywords && !chief.IsDeclared(k);
      assert Unknown(view, k);
    } else {
      assert forall k :: k in keywords ==> !Unknown(view, k);
    }
  }

  /** `RelativeUsageScoring.score`. */
  method RelativeUsageScore(chief: KeywordsChief, keywords: map<string, int>, sigmoid: real -> real)
    returns (r: Result<map<string, real>>)
    requires chief.Valid()
    modifies chief`keywordsProp
    ensures chief.Valid()
    ensures r == RelativeUsage(chief.keywords, keywords, sigmoid)
  {
    var totalAverage := chief.GetAverageOccurrenceCount();
    if totalAverage.Failure? {
      return Failure(totalAverage.error);
    }
    var view := chief.Keywords();
    forall k | k in view ensures view[k].occurrenceCount != Some(0) {
      KeywordsViewTruthy(chief.keywords, k);
    }
    var sum := SumFoundRatios(view, keywords);
    if sum.Failure? {
      return Failure(sum.error);
    }
    var keywordsAverage := sum.value;
    if keywords != map[] && keywordsAverage == 0.0 {
      return Failure(ZeroDivisionError);
    }
    var ret := ScoreFound(view, keywords, keywordsAverage, totalAverage.value, sigmoid);
    r := Success(ret);
  }

  /** The first loop of `RelativeUsageScoring.score`: the sum of count over occurrence count of the found keywords. */
  method SumFoundRatios(view: map<string, PropEntry>, keywords: map<string, int>) returns (r: Result<real>)
    requires forall k :: k in view ==> view[k].occurrenceCount != Some(0)
    ensures r.Failure? <==> exists k :: k in keywords && Unknown(view, k)
    ensures r.Failure? ==> r.error == KeyError
    ensures r.Success? ==> r.value == SumRatios(keywords.Keys, view, keywords)
  {
    var keywordsAverage := 0.0;
    var todo := keywords.Keys;
    ghost var done: set<string> := {};
    while todo != {}
      invariant todo + done == keywords.Keys && todo !! done
      invariant forall k :: k in done ==> !Unknown(view, k)
      invariant keywordsAverage == SumRatios(done, view, keywords)
      decreases todo
    {
      var k :| k in todo;
      if Unknown(view, k) {
        return Failure(KeyError);
      }
      var count := view[k].occurrenceCount.value;
      keywordsAverage := keywordsAverage + keywords[k] as real / count as real;
      SumRatiosRemove(done + {k}, view, keywords, k);
      assert done + {k} - {k} == done;
      todo := todo - {k};
      done := done + {k};
    }
    assert done == keywords.Keys;
    r := Success(keywordsAverage);
  }

  /** The second loop of `RelativeUsageScoring.score`: every found keyword's score. */
  method ScoreFound(view: map<string, PropEntry>, keywords: map<string, int>, keywordsAverage: real, totalAverage: real,
                    sigmoid: real -> real) returns (ret: map<string, real>)
    requires forall k :: k in keywords ==> k in view && view[k].occurrenceCount.Some?
    requires keywords != map[] ==> keywordsAverage != 0.0
    ensures ret == map k | k in keywords :: ScoringFunc(view[k].occurrenceCount.value, keywords[k], keywordsAverage, totalAverage, sigmoid)
  {
    ret := map[];
    var todo := keywords.Keys;
    while todo != {}
      invariant todo <= keywords.Keys
      invariant ret.Keys == keywords.Keys - todo
      invariant forall k :: k in ret ==>
                  ret[k] == ScoringFunc(view[k].occurrenceCount.value, keywords[k], keywordsAverage, totalAverage, sigmoid)
      decreases todo
    {
      var k :| k in todo;
      ret := ret[k := ScoringFunc(view[k].occurrenceCount.value, keywords[k], keywordsAverage, totalAverage, sigmoid)];
      todo := todo - {k};
    }
  }

  /**
   * `score` of each scorer: Count returns the counts it is given, TfIdf raises
   * `NotImplementedError`, RelativeUsage is `RelativeUsage`.
   */
  method Score(scorer: Scorer, chief: KeywordsChief, keywords: map<string, int>, sigmoid: real -> real)
    returns (r: Result<Scores>)
    requires chief.Valid()
    modifies chief`keywordsProp
    ensures chief.Valid()
    ensures scorer.kind == CountScoring ==> r == Success(Counts(keywords))
    ensures scorer.kind == TfIdfScoring ==> r == Failure(NotImplementedError)
    ensures scorer.kind == RelativeUsageScoring ==>
              match RelativeUsage(chief.keywords, keywords, sigmoid)
              case Success(scores) => r == Success(Relative(scores))
              case Failure(e) => r == Failure(e)
  {
    match scorer.kind
    case CountScoring =>
      r := Success(Counts(keywords));
    case TfIdfScoring =>
      r := Failure(NotImplementedError);
    case RelativeUsageScoring =>
      var scores := RelativeUsageScore(chief, keywords, sigmoid);
      r := match scores
        case Success(s) => Success(Relative(s))
        case Failure(e) => Failure(e);
  }
}
