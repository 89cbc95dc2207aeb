/**
 * The decisions of the command-line front end: the logging level `-v`
 * selects, where and in which format a result is written, and the `diff`
 * command, which compares two keyword files and reports keywords, synonyms
 * and regular expressions present in one file and missing from the other.
 */
module Cli {
  import opened Wrappers
  import opened Strings
  import opened Dicts

  /** `logging.WARNING` and `logging.DEBUG`. */
  const Warning := 30
  const Debug := 10

  /** `max(logging.WARNING - verbose * 10, logging.DEBUG)`: each `-v` lowers the level one step, down to DEBUG. */
  function LogLevel(verbose: nat): (level: int)
    ensures Debug <= level <= Warning
    ensures level == Warning <==> verbose == 0
    ensures level == Debug <==> verbose >= 2
    ensures level % 10 == 0
  {
    var lowered := Warning - verbose * 10;
    if lowered > Debug then lowered else Debug
  }

  /** More `-v` flags never raise the level. */
  lemma LogLevelAntitone(v: nat, w: nat)
    requires v <= w
    ensures LogLevel(w) <= LogLevel(v)
    ensures v < w && v < 2 ==> LogLevel(w) < LogLevel(v)
  {
  }

  /** `DEFAULT_OUTPUT_FORMAT`. */
  const DefaultOutputFormat := "yaml"

  /** The two serialisations a result can be printed in. */
  datatype Format = Yaml | Json

  /** Where `_print_result` writes a result: standard output, or a file with the format handed to the serialiser. */
  datatype Destination = Stdout(format: Format) | OutputFile(path: string, fileFormat: string)

  /** The format for standard output: `yaml` and `yml` select YAML, `json` and no format JSON; anything else raises. */
  function StdoutFormat(fmt: Option<string>): (r: Result<Format>)
    ensures r.Success? <==> fmt.None? || fmt.value == "yaml" || fmt.value == "yml" || fmt.value == "json"
    ensures r == Success(Json) <==> fmt.None? || fmt.value == "json"
    ensures r.Failure? ==> r.error == ValueError
  {
    match fmt
    case None => Success(Json)
    case Some(f) =>
      if f == "yaml" || f == "yml" then Success(Yaml)
      else if f == "json" then Success(Json)
      else Failure(ValueError)
  }

  /** The format guessed from an output file name: its text after the last `.`, `yml` read as `yaml`, the default otherwise. */
  function GuessedFormat(outputFile: string): (f: string)
    ensures f == "yaml" || f == "json"
  {
    var parts := Split(outputFile, '.');
    var extension := parts[|parts| - 1];
    if extension == "yaml" || extension == "yml" || extension == "json" then
      (if extension != "yml" then extension else "yaml")
    else DefaultOutputFormat
  }

  /**
   * A file named `<name>.<ext>`, with no dot in `ext`, is written as JSON if
   * and only if `ext` is `json`: `yaml` and `yml` name YAML, and any other
   * extension falls back to the default, YAML.
   */
  lemma GuessedFormatOfExtension(name: string, extension: string)
    requires '.' !in extension
    ensures GuessedFormat(name + "." + extension) == if extension == "json" then "json" else "yaml"
  {
    SplitConcat(name, extension, '.');
    SplitAbsent(extension, '.');
  }

  /** A file name without a dot is its own extension: only `json` is written as JSON. */
  lemma GuessedFormatWithoutDot(outputFile: string)
    requires '.' !in outputFile
    ensures GuessedFormat(outputFile) == if outputFile == "json" then "json" else "yaml"
  {
    SplitAbsent(outputFile, '.');
  }

  /**
   * `_print_result`: no output file or `-` prints to standard output in the
   * format `StdoutFormat` selects; otherwise the file is written in the
   * given format, or in the one its name suggests.
   */
  function PrintResult(outputFile: Option<string>, fmt: Option<string>): (r: Result<Destination>)
    ensures (outputFile.None? || outputFile.value in {"", "-"}) ==>
              (r.Success? <==> StdoutFormat(fmt).Success?) && (r.Success? ==> r.value == Stdout(StdoutFormat(fmt).value))
    ensures outputFile.Some? && outputFile.value !in {"", "-"} ==> r.Success? && r.value.OutputFile? && r.value.path == outputFile.value
    ensures outputFile.Some? && outputFile.value !in {"", "-"} && fmt.Some? ==> r.value.fileFormat == fmt.value
    ensures outputFile.Some? && outputFile.value !in {"", "-"} && fmt.None? ==> r.value.fileFormat == GuessedFormat(outputFile.value)
  {
    if outputFile.None? || outputFile.value == "" || outputFile.value == "-" then
      match StdoutFormat(fmt)
      case Success(f) => Success(Stdout(f))
      case Failure(e) => Failure(e)
    else
      Success(OutputFile(outputFile.value, fmt.GetOr(GuessedFormat(outputFile.value))))
  }

  /** The two directions `diff` reports: keywords of the first file missing from the second, and the reverse. */
  datatype Action = Removed | Added

  /** The lists of a keyword entry that `diff` compares. */
  datatype Field = Synonyms | Regexps

  /** A keyword entry of a keywords file; None stands for a list the entry does not have. */
  datatype Entry = Entry(synonyms: Option<seq<string>>, regexp: Option<seq<string>>)

  /** A parsed keywords file: keyword to entry in file order; None is an entry written as null. */
  type Keywords = Dict<Option<Entry>>

  /** The flags `--synonyms-only`, `--keywords-only` and `--regexp-only`. */
  datatype DiffMode = DiffMode(synonymsOnly: bool, keywordsOnly: bool, regexpOnly: bool)

  /** One line `diff` prints. */
  datatype Line =
    | KeywordLine(action: Action, keyword: string, path: string)
    | ItemLine(action: Action, field: Field, item: string, keyword: string, path: string)
    | NoDifference(path1: string, path2: string)

  /** `entry.get(name) or []` and `entry.get(name, [])` alike, for the lists an entry has. */
  function FieldItems(e: Entry, field: Field): seq<string> {
    (if field == Synonyms then e.synonyms else e.regexp).GetOr([])
  }

  /** Synonyms are compared unless only keywords or only regexps are asked for; regexps unless only keywords or only synonyms are. */
  predicate Compared(mode: DiffMode, field: Field) {
    !mode.keywordsOnly && (if field == Synonyms then !mode.regexpOnly else !mode.synonymsOnly)
  }

  /**
   * The other file's entry for `keyword`, as the synonym and regexp loops
   * read it. A null entry is read only by a loop that runs (`NullRead`), so
   * where it is not read it stands for an entry with no lists.
   */
  function OtherEntry(b: Keywords, keyword: string): Entry {
    var found := Get(b, keyword);
    if found.Some? && found.value.Some? then found.value.value else Entry(None, None)
  }

  /** The lines for the items of one list that the other side's list lacks, in list order and once per occurrence. */
  function ItemLines(action: Action, field: Field, items: seq<string>, other: seq<string>, keyword: string, path: string): (r: seq<Line>)
    ensures |r| <= |items|
  {
    if items == [] then []
    else (if items[0] in other then [] else [ItemLine(action, field, items[0], keyword, path)])
         + ItemLines(action, field, items[1..], other, keyword, path)
  }

  /** An item is reported exactly when it is in the list and missing from the other side's. */
  lemma {:induction false} ItemLinesMembers(action: Action, field: Field, items: seq<string>, other: seq<string>,
                                            keyword: string, path: string, x: string)
    ensures ItemLine(action, field, x, keyword, path) in ItemLines(action, field, items, other, keyword, path)
            <==> x in items && x !in other
  {
    if items != [] {
      ItemLinesMembers(action, field, items[1..], other, keyword, path, x);
      assert items == [items[0]] + items[1..];
    }
  }

  /** Every line of one item list names an item of that list's field, keyword and file. */
  lemma {:induction false} ItemLinesShape(action: Action, field: Field, items: seq<string>, other: seq<string>,
                                          keyword: string, path: string, l: Line)
    requires l in ItemLines(action, field, items, other, keyword, path)
    ensures l.ItemLine? && l.action == action && l.field == field && l.keyword == keyword && l.path == path
  {
    if l !in (if items[0] in other then [] else [ItemLine(action, field, items[0], keyword, path)]) {
      ItemLinesShape(action, field, items[1..], other, keyword, path, l);
    }
  }

  /** The synonym lines, then the regexp lines, of one keyword present on both sides. */
  function EntryLines(action: Action, keyword: string, value: Option<Entry>, other: Entry, path: string, mode: DiffMode): (r: seq<Line>)
    ensures |r| <= if value.Some? then |FieldItems(value.value, Synonyms)| + |FieldItems(value.value, Regexps)| else 0
  {
    (if Compared(mode, Synonyms) && value.Some?
     then ItemLines(action, Synonyms, FieldItems(value.value, Synonyms), FieldItems(other, Synonyms), keyword, path) else [])
    + (if Compared(mode, Regexps) && value.Some?
       then ItemLines(action, Regexps, FieldItems(value.value, Regexps), FieldItems(other, Regexps), keyword, path) else [])
  }

  /** Every line of one keyword's lists is an item line of a compared field, for that keyword. */
  lemma EntryLinesShape(action: Action, keyword: string, value: Option<Entry>, other: Entry, path: string, mode: DiffMode, l: Line)
    requires l in EntryLines(action, keyword, value, other, path, mode)
    ensures l.ItemLine? && l.action == action && l.keyword == keyword && l.path == path && Compared(mode, l.field)
  {
    var syn := if Compared(mode, Synonyms) && value.Some?
               then ItemLines(action, Synonyms, FieldItems(value.value, Synonyms), FieldItems(other, Synonyms), keyword, path) else [];
    if l in syn {
      ItemLinesShape(action, Synonyms, FieldItems(value.value, Synonyms), FieldItems(other, Synonyms), keyword, path, l);
    } else {
      ItemLinesShape(action, Regexps, FieldItems(value.value, Regexps), FieldItems(other, Regexps), keyword, path, l);
    }
  }

  /**
   * The lines for one keyword of side `a`: a keyword missing from `b` is
   * reported (unless only synonyms or only regexps are asked for) and not
   * compared further; one present in `b` has its lists compared.
   */
  function KeyLines(action: Action, keyword: string, value: Option<Entry>, b: Keywords, path: string, mode: DiffMode): (r: seq<Line>)
    ensures keyword !in Keys(b) ==> r == if !mode.synonymsOnly && !mode.regexpOnly then [KeywordLine(action, keyword, path)] else []
    ensures keyword in Keys(b) ==> r == EntryLines(action, keyword, value, OtherEntry(b, keyword), path, mode)
  {
    if keyword !in Keys(b) then
      (if !mode.synonymsOnly && !mode.regexpOnly then [KeywordLine(action, keyword, path)] else [])
    else EntryLines(action, keyword, value, OtherEntry(b, keyword), path, mode)
  }

  /** The lines of one direction: every keyword of `a`, in file order. */
  function SideLines(action: Action, a: Keywords, b: Keywords, path: string, mode: DiffMode): (r: seq<Line>)
  {
    if a == [] then []
    else KeyLines(action, a[0].0, a[0].1, b, path, mode) + SideLines(action, a[1..], b, path, mode)
  }

  /** Every line of a direction names a keyword or an item, with that direction's action and file. */
  lemma {:induction false} SideLinesShape(action: Action, a: Keywords, b: Keywords, path: string, mode: DiffMode, l: Line)
    requires l in SideLines(action, a, b, path, mode)
    ensures (l.KeywordLine? || l.ItemLine?) && l.action == action && l.path == path
  {
    if l !in KeyLines(action, a[0].0, a[0].1, b, path, mode) {
      SideLinesShape(action, a[1..], b, path, mode, l);
    } else if a[0].0 in Keys(b) {
      EntryLinesShape(action, a[0].0, a[0].1, OtherEntry(b, a[0].0), path, mode, l);
    }
  }

  /** A keyword is reported as missing exactly when `a` has it, `b` does not, and keyword lines are not suppressed. */
  lemma {:induction false} KeywordLineIff(action: Action, a: Keywords, b: Keywords, path: string, mode: DiffMode, k: string)
    ensures KeywordLine(action, k, path) in SideLines(action, a, b, path, mode)
            <==> !mode.synonymsOnly && !mode.regexpOnly && k in Keys(a) && k !in Keys(b)
  {
    if a != [] {
      KeywordLineIff(action, a[1..], b, path, mode, k);
      assert Keys(a) == [a[0].0] + Keys(a[1..]);
      var line := KeywordLine(action, k, path);
      if a[0].0 in Keys(b) && line in KeyLines(action, a[0].0, a[0].1, b, path, mode) {
        EntryLinesShape(action, a[0].0, a[0].1, OtherEntry(b, a[0].0), path, mode, line);
      }
    }
  }

  /** An item line for keyword `k` comes from the lines of keyword `keyword` only when `k` is that keyword and present on both sides. */
  lemma KeyLinesItem(action: Action, keyword: string, value: Option<Entry>, b: Keywords, path: string, mode: DiffMode,
                     field: Field, x: string, k: string)
    ensures ItemLine(action, field, x, k, path) in KeyLines(action, keyword, value, b, path, mode)
            <==> k == keyword && k in Keys(b) && Compared(mode, field) && value.Some?
                 && x in FieldItems(value.value, field)
                 && x !in FieldItems(OtherEntry(b, k), field)
  {
    var line := ItemLine(action, field, x, k, path);
    if keyword in Keys(b) && value.Some? {
      var other := OtherEntry(b, keyword);
      var syn := if Compared(mode, Synonyms)
                 then ItemLines(action, Synonyms, FieldItems(value.value, Synonyms), FieldItems(other, Synonyms), keyword, path) else [];
      var reg := if Compared(mode, Regexps)
                 then ItemLines(action, Regexps, FieldItems(value.value, Regexps), FieldItems(other, Regexps), keyword, path) else [];
      assert EntryLines(action, keyword, value, other, path, mode) == syn + reg;
      if line in syn {
        ItemLinesShape(action, Synonyms, FieldItems(value.value, Synonyms), FieldItems(other, Synonyms), keyword, path, line);
      }
      if line in reg {
        ItemLinesShape(action, Regexps, FieldItems(value.value, Regexps), FieldItems(other, Regexps), keyword, path, line);
      }
      if k == keyword && Compared(mode, field) {
        ItemLinesMembers(action, field, FieldItems(value.value, field), FieldItems(other, field), keyword, path, x);
      }
    }
  }

  /**
   * An item is reported for keyword `k` exactly when both files have `k`,
   * its list is compared in this mode, and the item is in `a`'s non-null
   * entry but not in `b`'s.
   */
  lemma {:induction false} ItemLineIff(action: Action, a: Keywords, b: Keywords, path: string, mode: DiffMode,
                                       field: Field, x: string, k: string)
    requires DistinctKeys(a)
    ensures ItemLine(action, field, x, k, path) in SideLines(action, a, b, path, mode)
            <==> k in Keys(a) && k in Keys(b) && Compared(mode, field) && Get(a, k).value.Some?
                 && x in FieldItems(Get(a, k).value.value, field)
                 && x !in FieldItems(OtherEntry(b, k), field)
  {
    if a != [] {
      SideLinesStep(action, a, b, path, mode);
      assert DistinctKeys(a[1..]) by {
        forall i, j | 0 <= i < j < |a[1..]| ensures a[1..][i].0 != a[1..][j].0 {
          assert a[1..][i] == a[i + 1] && a[1..][j] == a[j + 1];
        }
      }
      ItemLineIff(action, a[1..], b, path, mode, field, x, k);
      KeyLinesItem(action, a[0].0, a[0].1, b, path, mode, field, x, k);
      assert Keys(a) == [a[0].0] + Keys(a[1..]);
      if k == a[0].0 {
        GetAt(a, 0);
        assert k !in Keys(a[1..]);
      }
    }
  }

  /** Whether the synonym or regexp loop of `diff` runs at least once for this entry, and so reads the other file's entry. */
  predicate ReadsOther(value: Option<Entry>, mode: DiffMode) {
    value.Some? && ((Compared(mode, Synonyms) && FieldItems(value.value, Synonyms) != [])
                    || (Compared(mode, Regexps) && FieldItems(value.value, Regexps) != []))
  }

  /**
   * The synonym or regexp loop of `diff` runs for this entry of `a` while the
   * other file's entry for it is null: `keywords_b[keyword].get` raises
   * `AttributeError`.
   */
  predicate NullRead(keyword: string, value: Option<Entry>, b: Keywords, mode: DiffMode) {
    ReadsOther(value, mode) && Get(b, keyword) == Some(None)
  }

  /** No keyword of `a` makes the comparison read a null entry of `b`. */
  predicate NoNullReads(a: Keywords, b: Keywords, mode: DiffMode) {
    forall i :: 0 <= i < |a| ==> !NullRead(a[i].0, a[i].1, b, mode)
  }

  /** What holds of a file holds of its first keyword and of the keywords after it. */
  lemma NoNullReadsStep(a: Keywords, b: Keywords, mode: DiffMode)
    requires a != []
    ensures NoNullReads(a, b, mode) <==> !NullRead(a[0].0, a[0].1, b, mode) && NoNullReads(a[1..], b, mode)
  {
    if !NullRead(a[0].0, a[0].1, b, mode) && NoNullReads(a[1..], b, mode) {
      forall i | 0 < i < |a|
        ensures !NullRead(a[i].0, a[i].1, b, mode)
      {
        assert a[i] == a[1..][i - 1];
      }
    }
    if NoNullReads(a, b, mode) {
      forall i | 0 <= i < |a[1..]|
        ensures !NullRead(a[1..][i].0, a[1..][i].1, b, mode)
      {
        assert a[1..][i] == a[i + 1];
      }
    }
  }

  /** With distinct keywords, comparing a file with itself never reads a null entry. */
  lemma SelfNoNullReads(keywords: Keywords, mode: DiffMode)
    requires DistinctKeys(keywords)
    ensures NoNullReads(keywords, keywords, mode)
  {
    forall i | 0 <= i < |keywords|
      ensures !NullRead(keywords[i].0, keywords[i].1, keywords, mode)
    {
      GetAt(keywords, i);
    }
  }

  /**
   * `diff`: asking for only synonyms and only keywords at once raises before
   * anything is compared; otherwise the removed lines, then the added lines,
   * or a single "do not differ" line when there are none.
   */
  function DiffLines(keywords1: Keywords, keywords2: Keywords, path1: string, path2: string, mode: DiffMode): (r: Result<seq<Line>>)
    requires NoNullReads(keywords1, keywords2, mode) && NoNullReads(keywords2, keywords1, mode)
    ensures r.Failure? <==> mode.synonymsOnly && mode.keywordsOnly
    ensures r.Failure? ==> r.error == ValueError
    ensures r.Success? ==> r.value != []
  {
    if mode.synonymsOnly && mode.keywordsOnly then Failure(ValueError)
    else
      var lines := SideLines(Removed, keywords1, keywords2, path1, mode) + SideLines(Added, keywords2, keywords1, path2, mode);
      Success(if lines == [] then [NoDifference(path1, path2)] else lines)
  }

  /** "do not differ" is printed exactly when nothing else is. */
  lemma DoNotDifferIff(keywords1: Keywords, keywords2: Keywords, path1: string, path2: string, mode: DiffMode)
    requires NoNullReads(keywords1, keywords2, mode) && NoNullReads(keywords2, keywords1, mode)
    requires DiffLines(keywords1, keywords2, path1, path2, mode).Success?
    ensures var lines := DiffLines(keywords1, keywords2, path1, path2, mode).value;
            NoDifference(path1, path2) in lines <==> lines == [NoDifference(path1, path2)]
  {
    var removed := SideLines(Removed, keywords1, keywords2, path1, mode);
    var added := SideLines(Added, keywords2, keywords1, path2, mode);
    var line := NoDifference(path1, path2);
    if removed + added != [] && line in removed + added {
      if line in removed {
        SideLinesShape(Removed, keywords1, keywords2, path1, mode, line);
      } else {
        SideLinesShape(Added, keywords2, keywords1, path2, mode, line);
      }
    }
  }

  /** A keywords file compared with itself does not differ, whatever mode is allowed. */
  lemma IdenticalFilesDoNotDiffer(keywords: Keywords, path1: string, path2: string, mode: DiffMode)
    requires DistinctKeys(keywords)
    requires !(mode.synonymsOnly && mode.keywordsOnly)
    ensures NoNullReads(keywords, keywords, mode)
    ensures DiffLines(keywords, keywords, path1, path2, mode) == Success([NoDifference(path1, path2)])
  {
    SelfNoNullReads(keywords, mode);
    SelfSideEmpty(Removed, keywords, path1, mode);
    SelfSideEmpty(Added, keywords, path2, mode);
  }

  /** No line of one direction is reported when a file is compared with itself. */
  lemma SelfSideEmpty(action: Action, keywords: Keywords, path: string, mode: DiffMode)
    requires DistinctKeys(keywords)
    ensures SideLines(action, keywords, keywords, path, mode) == []
  {
    var lines := SideLines(action, keywords, keywords, path, mode);
    if lines != [] {
      var l := lines[0];
      SideLinesShape(action, keywords, keywords, path, mode, l);
      if l.KeywordLine? {
        KeywordLineIff(action, keywords, keywords, path, mode, l.keyword);
      } else {
        ItemLineIff(action, keywords, keywords, path, mode, l.field, l.item, l.keyword);
      }
    }
  }

  /**
   * The lines for one keyword as the command is written: with only synonyms
   * or only regexps asked for, a keyword missing from `b` is not skipped, and
   * its first synonym or regexp looks it up in `b` and raises `KeyError`; a
   * null entry in `b` that a loop reads raises `AttributeError`.
   */
  function KeyLinesAsWritten(action: Action, keyword: string, value: Option<Entry>, b: Keywords, path: string, mode: DiffMode): (r: Result<seq<Line>>)
    ensures r.Failure? <==> (keyword !in Keys(b) && (mode.synonymsOnly || mode.regexpOnly) && ReadsOther(value, mode))
                            || NullRead(keyword, value, b, mode)
    ensures r.Failure? ==> r.error == if keyword in Keys(b) then AttributeError else KeyError
    ensures r.Success? ==> r.value == KeyLines(action, keyword, value, b, path, mode)
  {
    if !mode.synonymsOnly && !mode.regexpOnly && keyword !in Keys(b) then Success([KeywordLine(action, keyword, path)])
    else if keyword !in Keys(b) then (if ReadsOther(value, mode) then Failure(KeyError) else Success([]))
    else if Get(b, keyword).value.None? && ReadsOther(value, mode) then Failure(AttributeError)
    else Success(EntryLines(action, keyword, value, OtherEntry(b, keyword), path, mode))
  }

  /** One direction as written: the first keyword that raises ends the command. */
  function SideLinesAsWritten(action: Action, a: Keywords, b: Keywords, path: string, mode: DiffMode): (r: Result<seq<Line>>)
    ensures r.Failure? ==> r.error == KeyError || r.error == AttributeError
    ensures r.Success? ==> NoNullReads(a, b, mode) && r.value == SideLines(action, a, b, path, mode)
  {
    if a == [] then Success([])
    else
      NoNullReadsStep(a, b, mode);
      match KeyLinesAsWritten(action, a[0].0, a[0].1, b, path, mode)
      case Failure(e) => Failure(e)
      case Success(head) =>
        match SideLinesAsWritten(action, a[1..], b, path, mode)
        case Failure(e) => Failure(e)
        case Success(tail) => Success(head + tail)
  }

  /** Keyword `i` of `a` makes the written comparison raise. */
  predicate RaisesAt(a: Keywords, b: Keywords, mode: DiffMode, i: int)
    requires 0 <= i < |a|
  {
    (a[i].0 !in Keys(b) && (mode.synonymsOnly || mode.regexpOnly) && ReadsOther(a[i].1, mode))
    || NullRead(a[i].0, a[i].1, b, mode)
  }

  /**
   * A direction raises exactly when a keyword missing from `b` has a compared
   * synonym or regexp while keyword lines are suppressed, or a compared
   * synonym or regexp meets a null entry in `b`.
   */
  lemma {:induction false} SideRaisesIff(action: Action, a: Keywords, b: Keywords, path: string, mode: DiffMode)
    ensures SideLinesAsWritten(action, a, b, path, mode).Failure?
            <==> exists i :: 0 <= i < |a| && RaisesAt(a, b, mode, i)
  {
    if a != [] {
      SideRaisesIff(action, a[1..], b, path, mode);
      assert KeyLinesAsWritten(action, a[0].0, a[0].1, b, path, mode).Failure? <==> RaisesAt(a, b, mode, 0);
      if exists i :: 0 <= i < |a| && RaisesAt(a, b, mode, i) {
        var i :| 0 <= i < |a| && RaisesAt(a, b, mode, i);
        if i > 0 {
          assert a[1..][i - 1] == a[i];
          assert RaisesAt(a[1..], b, mode, i - 1);
        }
      }
      if exists i :: 0 <= i < |a[1..]| && RaisesAt(a[1..], b, mode, i) {
        var i :| 0 <= i < |a[1..]| && RaisesAt(a[1..], b, mode, i);
        assert a[i + 1] == a[1..][i];
        assert RaisesAt(a, b, mode, i + 1);
      }
    }
  }

  /**
   * `diff` as written: `ValueError` for the forbidden pair of flags, else the
   * first `KeyError` or `AttributeError` a direction raises, else what
   * `DiffLines` reports.
   */
  function DiffAsWritten(keywords1: Keywords, keywords2: Keywords, path1: string, path2: string, mode: DiffMode): (r: Result<seq<Line>>)
    ensures (r.Failure? && r.error == ValueError) <==> mode.synonymsOnly && mode.keywordsOnly
    ensures r.Failure? ==> r.error == ValueError || r.error == KeyError || r.error == AttributeError
    ensures r.Success? ==> NoNullReads(keywords1, keywords2, mode) && NoNullReads(keywords2, keywords1, mode)
                           && r == DiffLines(keywords1, keywords2, path1, path2, mode)
  {
    if mode.synonymsOnly && mode.keywordsOnly then Failure(ValueError)
    else
      match SideLinesAsWritten(Removed, keywords1, keywords2, path1, mode)
      case Failure(e) => Failure(e)
      case Success(removed) =>
        match SideLinesAsWritten(Added, keywords2, keywords1, path2, mode)
        case Failure(e) => Failure(e)
        case Success(added) =>
          Success(if removed + added == [] then [NoDifference(path1, path2)] else removed + added)
  }

  /**
   * A keyword with a synonym that the second file lacks, diffed with
   * `--synonyms-only`, stops the command with `KeyError`; the corrected
   * comparison skips it and reports that the files do not differ in synonyms.
   */
  lemma SynonymsOnlyRemovedKeywordRaises(keywords1: Keywords, keywords2: Keywords, mode: DiffMode)
    requires keywords1 == [("flask", Some(Entry(Some(["flask-framework"]), None)))] && keywords2 == []
    requires mode == DiffMode(true, false, false)
    ensures NoNullReads(keywords1, keywords2, mode) && NoNullReads(keywords2, keywords1, mode)
    ensures DiffAsWritten(keywords1, keywords2, "a.yaml", "b.yaml", mode) == Failure(KeyError)
    ensures DiffLines(keywords1, keywords2, "a.yaml", "b.yaml", mode) == Success([NoDifference("a.yaml", "b.yaml")])
  {
    assert FieldItems(keywords1[0].1.value, Synonyms) == ["flask-framework"];
    assert keywords1[1..] == [];
    assert KeyLines(Removed, "flask", keywords1[0].1, keywords2, "a.yaml", mode) == [];
    assert SideLines(Removed, keywords1, keywords2, "a.yaml", mode) == [];
  }

  /**
   * A keyword whose entry is null in the second file raises `AttributeError`
   * as soon as a compared synonym looks it up, while a shared null entry, or
   * a `--keywords-only` diff, compares without error.
   */
  lemma NullEntryRaises(entry: Entry)
    requires entry == Entry(Some(["flask-framework"]), None)
    ensures DiffAsWritten([("flask", Some(entry))], [("flask", None)], "a.yaml", "b.yaml", DiffMode(false, false, false))
            == Failure(AttributeError)
    ensures DiffAsWritten([("flask", Some(entry))], [("flask", None)], "a.yaml", "b.yaml", DiffMode(false, true, false))
            == Success([NoDifference("a.yaml", "b.yaml")])
    ensures DiffAsWritten([("flask", None)], [("flask", None)], "a.yaml", "b.yaml", DiffMode(false, false, false))
            == Success([NoDifference("a.yaml", "b.yaml")])
  {
    assert FieldItems(entry, Synonyms) == ["flask-framework"];
    var file1: Keywords := [("flask", Some(entry))];
    assert file1[1..] == [];
    assert Keys(file1)[0] == "flask";
    var nullFile: Keywords := [("flask", None)];
    assert nullFile[1..] == [];
    assert Keys(nullFile)[0] == "flask";
    assert !ReadsOther(None, DiffMode(false, false, false));
    assert KeyLinesAsWritten(Removed, "flask", None, nullFile, "a.yaml", DiffMode(false, false, false)) == Success([]);
    assert SideLinesAsWritten(Removed, nullFile, nullFile, "a.yaml", DiffMode(false, false, false)) == Success([]);
    assert SideLinesAsWritten(Added, nullFile, nullFile, "b.yaml", DiffMode(false, false, false)) == Success([]);
    assert DiffAsWritten(nullFile, nullFile, "a.yaml", "b.yaml", DiffMode(false, false, false))
           == Success([NoDifference("a.yaml", "b.yaml")]);
    var keywordsOnly := DiffMode(false, true, false);
    assert !ReadsOther(Some(entry), keywordsOnly) && !ReadsOther(None, keywordsOnly);
    assert KeyLinesAsWritten(Removed, "flask", Some(entry), nullFile, "a.yaml", keywordsOnly) == Success([]);
    assert KeyLinesAsWritten(Added, "flask", None, file1, "b.yaml", keywordsOnly) == Success([]);
    assert SideLinesAsWritten(Removed, file1, nullFile, "a.yaml", keywordsOnly) == Success([]);
    assert SideLinesAsWritten(Added, nullFile, file1, "b.yaml", keywordsOnly) == Success([]);
  }

  /** `diff` with its loops: each direction in file order, each keyword's synonyms and then its regexps. */
  method Diff(keywords1: Keywords, keywords2: Keywords, path1: string, path2: string, mode: DiffMode)
    returns (r: Result<seq<Line>>)
    requires NoNullReads(keywords1, keywords2, mode) && NoNullReads(keywords2, keywords1, mode)
    ensures r == DiffLines(keywords1, keywords2, path1, path2, mode)
  {
    if mode.synonymsOnly && mode.keywordsOnly {
      return Failure(ValueError);
    }
    var removed, differRemoved := ReportSide(Removed, keywords1, keywords2, path1, mode);
    var added, differAdded := ReportSide(Added, keywords2, keywords1, path2, mode);
    var differ := differRemoved || differAdded;
    var lines := removed + added;
    assert differ <==> lines != [];
    if !differ {
      lines := lines + [NoDifference(path1, path2)];
    }
    assert lines == if removed + added == [] then [NoDifference(path1, path2)] else removed + added;
    r := Success(lines);
  }

  lemma AppendAssoc<T>(x: seq<T>, y: seq<T>, z: seq<T>)
    ensures (x + y) + z == x + (y + z)
  {
  }

  /** One keyword of a direction: its lines, then those of the keywords after it. */
  lemma SideLinesStep(action: Action, a: Keywords, b: Keywords, path: string, mode: DiffMode)
    requires a != []
    ensures SideLines(action, a, b, path, mode) == KeyLines(action, a[0].0, a[0].1, b, path, mode) + SideLines(action, a[1..], b, path, mode)
  {
  }

  /** One pass of the outer loop of `diff`; `differ` tells whether it printed anything. */
  method ReportSide(action: Action, a: Keywords, b: Keywords, path: string, mode: DiffMode)
    returns (lines: seq<Line>, differ: bool)
    requires NoNullReads(a, b, mode)
    ensures lines == SideLines(action, a, b, path, mode)
    ensures differ <==> lines != []
  {
    lines, differ := [], false;
    var rest := a;
    while rest != []
      invariant NoNullReads(rest, b, mode)
      invariant lines + SideLines(action, rest, b, path, mode) == SideLines(action, a, b, path, mode)
      invariant differ <==> lines != []
      decreases |rest|
    {
      SideLinesStep(action, rest, b, path, mode);
      NoNullReadsStep(rest, b, mode);
      var printed := ReportKeyword(action, rest[0].0, rest[0].1, b, path, mode);
      ghost var tail := SideLines(action, rest[1..], b, path, mode);
      AppendAssoc(lines, printed, tail);
      lines := lines + printed;
      differ := differ || printed != [];
      rest := rest[1..];
    }
  }

  /** One pass of the loop over a file's keywords: the keyword line, or its synonym and regexp loops. */
  method ReportKeyword(action: Action, keyword: string, value: Option<Entry>, b: Keywords, path: string, mode: DiffMode)
    returns (printed: seq<Line>)
    requires !NullRead(keyword, value, b, mode)
    ensures printed == KeyLines(action, keyword, value, b, path, mode)
  {
    printed := [];
    if !mode.synonymsOnly && !mode.regexpOnly && keyword !in Keys(b) {
      printed := [KeywordLine(action, keyword, path)];
    } else if keyword in Keys(b) {
      var other := OtherEntry(b, keyword);
      if Compared(mode, Synonyms) && value.Some? {
        var found, _ := ReportItems(action, Synonyms, FieldItems(value.value, Synonyms), FieldItems(other, Synonyms), keyword, path);
        printed := printed + found;
      }
      if Compared(mode, Regexps) && value.Some? {
        var found, _ := ReportItems(action, Regexps, FieldItems(value.value, Regexps), FieldItems(other, Regexps), keyword, path);
        printed := printed + found;
      }
    }
  }

  /** One item of a list: its line, if any, then those of the items after it. */
  lemma ItemLinesStep(action: Action, field: Field, items: seq<string>, other: seq<string>, keyword: string, path: string)
    requires items != []
    ensures ItemLines(action, field, items, other, keyword, path)
            == (if items[0] in other then [] else [ItemLine(action, field, items[0], keyword, path)])
               + ItemLines(action, field, items[1..], other, keyword, path)
  {
  }

  /** One inner loop of `diff`: the items of `items` missing from `other`. */
  method ReportItems(action: Action, field: Field, items: seq<string>, other: seq<string>, keyword: string, path: string)
    returns (lines: seq<Line>, differ: bool)
    ensures lines == ItemLines(action, field, items, other, keyword, path)
    ensures differ <==> lines != []
  {
    lines, differ := [], false;
    var rest := items;
    while rest != []
      invariant lines + ItemLines(action, field, rest, other, keyword, path) == ItemLines(action, field, items, other, keyword, path)
      invariant differ <==> lines != []
      decreases |rest|
    {
      ItemLinesStep(action, field, rest, other, keyword, path);
      ghost var tail := ItemLines(action, field, rest[1..], other, keyword, path);
      var found := [];
      if rest[0] !in other {
        found := [ItemLine(action, field, rest[0], keyword, path)];
        differ := true;
      }
      AppendAssoc(lines, found, tail);
      lines := lines + found;
      rest := rest[1..];
    }
  }
}
