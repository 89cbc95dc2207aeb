/**
 * `CoreParser` of the parsers package: it picks a markup parser by content
 * type, validates the content type before the content, reads the type and the
 * content of a preprocessed README.json, and guesses the content type of a
 * file from its suffix. The markup conversions themselves, reading files and
 * decoding JSON are parameters.
 */
module CoreParser {
  import opened Wrappers
  import opened Strings
  import opened Dicts

  /** The parser classes of the parsers module. */
  datatype ParserClass =
    | AsciidocParser
    | CreoleParser
    | MarkdownParser
    | MediawikiParser
    | OrgParser
    | PodParser
    | RdocParser
    | ReStructuredTextParser
    | TextileParser
    | TextParser
    | HtmlParser

  /** Why a parse raised, with the detail its message names. */
  datatype ParseError =
    | NoParserRegistered(contentType: string)
    | NoContentToParse
    | NoReadmeContent(path: string)
    | ReadmeWithoutContent(path: string)
    | ReadmeWithoutType(path: string)
    | UnknownFileType(path: string)
    | NotImplemented(parser: ParserClass)
    | NoContentType(extension: string)
    | Io(error: Error)

  /** The text a parse returns or the reason it raised. */
  datatype ParseResult = Parsed(text: string) | Raised(reason: ParseError)

  /** The exception class each reason is raised as. */
  function ExceptionOf(e: ParseError): (r: Error)
    ensures e.NotImplemented? ==> r == NotImplementedError
    ensures e.NoContentType? ==> r == AttributeError
    ensures !e.NotImplemented? && !e.NoContentType? && !e.Io? ==> r == ValueError
  {
    match e
    case NotImplemented(_) => NotImplementedError
    case NoContentType(_) => AttributeError
    case Io(error) => error
    case _ => ValueError
  }

  /** `_PARSERS`; `'unknown'` falls back to the plain-text parser. */
  const Parsers: Dict<ParserClass> := [
    ("asciidoc", AsciidocParser),
    ("creole", CreoleParser),
    ("markdown", MarkdownParser),
    ("mediawiki", MediawikiParser),
    ("org", OrgParser),
    ("pod", PodParser),
    ("rdoc", RdocParser),
    ("restructuredtext", ReStructuredTextParser),
    ("textile", TextileParser),
    ("txt", TextParser),
    ("html", HtmlParser),
    ("unknown", TextParser)
  ]

  /** `_FILE_EXTENSIONS` in its declaration order; `.json` has no content type since it is handled first. */
  const FileExtensions: seq<(string, Option<string>)> := [
    (".adoc", Some("asciidoc")),
    (".asc", Some("asciidoc")),
    (".asciidoc", Some("asciidoc")),
    (".creole", Some("creole")),
    (".json", None),
    (".markdown", Some("markdown")),
    (".md", Some("markdown")),
    (".mdown", Some("markdown")),
    (".mediawiki", Some("mediawiki")),
    (".mkdn", Some("markdown")),
    (".org", Some("org")),
    (".pod", Some("asciidoc")),
    (".rdoc", Some("rdoc")),
    (".rst", Some("restructuredtext")),
    (".textile", Some("textile")),
    (".txt", Some("txt")),
    (".wiki", Some("mediawiki")),
    (".html", Some("html"))
  ]

  /** No content type is registered twice. */
  lemma ParsersDistinct()
    ensures DistinctKeys(Parsers)
  {
    forall i, j | 0 <= i < j < |Parsers| ensures Parsers[i].0 != Parsers[j].0 {
      assert |Parsers[i].0| != |Parsers[j].0| || Parsers[i].0[0] != Parsers[j].0[0];
    }
  }

  /** `_PARSERS.get(content_type.lower())`. */
  function ParserFor(contentType: string): (r: Option<ParserClass>)
    ensures r.None? <==> Lower(contentType) !in Keys(Parsers)
  {
    Get(Parsers, Lower(contentType))
  }

  /** A content type whose lower-case spelling is registered gets the parser registered for it. */
  lemma ParserForEntry(contentType: string, i: int)
    requires 0 <= i < |Parsers| && Lower(contentType) == Parsers[i].0
    ensures ParserFor(contentType) == Some(Parsers[i].1)
  {
    ParsersDistinct();
    GetAt(Parsers, i);
  }

  /** The parsers that produce text; the others raise `NotImplementedError`. */
  predicate Implemented(p: ParserClass) {
    p == TextParser || p == MarkdownParser || p == HtmlParser || p == ReStructuredTextParser
  }

  /**
   * `parser.parse(content)`: the plain-text parser returns the content itself,
   * the markdown, HTML and reStructuredText parsers return its conversion by
   * `convert`, and the rest raise.
   */
  function RunParser(p: ParserClass, content: string, convert: (ParserClass, string) -> string): (r: ParseResult)
    ensures r.Raised? <==> !Implemented(p)
    ensures r.Raised? ==> r.reason == NotImplemented(p)
  {
    match p
    case TextParser => Parsed(content)
    case MarkdownParser => Parsed(convert(p, content))
    case HtmlParser => Parsed(convert(p, content))
    case ReStructuredTextParser => Parsed(convert(p, content))
    case _ => Raised(NotImplemented(p))
  }

  /**
   * `parse`: an unregistered content type raises whatever the content; a
   * registered one with empty content raises; otherwise the parser runs.
   */
  function Parse(content: string, contentType: string, convert: (ParserClass, string) -> string): (r: ParseResult)
    ensures r == Raised(NoParserRegistered(contentType)) <==> ParserFor(contentType).None?
    ensures r == Raised(NoContentToParse) <==> ParserFor(contentType).Some? && content == ""
    ensures r.Parsed? ==> content != "" && ParserFor(contentType).Some? && Implemented(ParserFor(contentType).value)
  {
    match ParserFor(contentType)
    case None => Raised(NoParserRegistered(contentType))
    case Some(p) => if content == "" then Raised(NoContentToParse) else RunParser(p, content, convert)
  }

  /** Lookup lower-cases the content type, so two spellings that differ only in case parse alike. */
  lemma ParseIgnoresCase(content: string, contentType: string, convert: (ParserClass, string) -> string)
    ensures ParserFor(contentType) == ParserFor(Lower(contentType))
    ensures Parse(content, contentType, convert).Parsed? ==> Parse(content, contentType, convert) == Parse(content, Lower(contentType), convert)
  {
    LowerIdempotent(contentType);
  }

  /** `'unknown'` and `'txt'` (in any case) hand back non-empty content unchanged. */
  lemma UnknownIsPlainText(content: string, contentType: string, convert: (ParserClass, string) -> string)
    requires Lower(contentType) == "unknown" || Lower(contentType) == "txt"
    ensures Parse(content, contentType, convert) == if content == "" then Raised(NoContentToParse) else Parsed(content)
  {
    PlainTextTypes(contentType);
  }

  /** `'unknown'` and `'txt'` both select the plain-text parser. */
  lemma PlainTextTypes(contentType: string)
    requires Lower(contentType) == "unknown" || Lower(contentType) == "txt"
    ensures ParserFor(contentType) == Some(TextParser)
  {
    if Lower(contentType) == "unknown" {
      ParserForEntry(contentType, 11);
    } else {
      ParserForEntry(contentType, 9);
    }
  }

  /** A content type that is not registered is reported even for empty content. */
  lemma UnregisteredTypeFirst(contentType: string, convert: (ParserClass, string) -> string)
    requires contentType == "unknown-content-type"
    ensures Parse("", contentType, convert) == Raised(NoParserRegistered(contentType))
  {
    ShortTypes();
    assert |Lower(contentType)| == 20;
  }

  /** Every registered content type has at most 16 characters. */
  lemma ShortTypes()
    ensures forall k :: k in Keys(Parsers) ==> |k| <= 16
  {
    forall i | 0 <= i < |Parsers| ensures |Parsers[i].0| <= 16 {
    }
  }

  /**
   * `parse_readme_json` once the file is loaded (`None` for a JSON `null`):
   * empty content, no `content` field and no `type` field raise, in that
   * order; otherwise the content is parsed with the given type.
   */
  function ParseReadmeJson(path: string, doc: Option<map<string, string>>, convert: (ParserClass, string) -> string): (r: ParseResult)
    ensures r == Raised(NoReadmeContent(path)) <==> doc.None? || doc.value == map[]
    ensures r == Raised(ReadmeWithoutContent(path)) <==> doc.Some? && doc.value != map[] && "content" !in doc.value
    ensures r == Raised(ReadmeWithoutType(path)) <==>
              doc.Some? && "content" in doc.value && "type" !in doc.value
    ensures doc.Some? && "content" in doc.value && "type" in doc.value ==>
              r == Parse(doc.value["content"], doc.value["type"], convert)
  {
    if doc.None? || doc.value == map[] then Raised(NoReadmeContent(path))
    else if "content" !in doc.value then Raised(ReadmeWithoutContent(path))
    else if "type" !in doc.value then Raised(ReadmeWithoutType(path))
    else Parse(doc.value["content"], doc.value["type"], convert)
  }

  /** The position of the first entry of `exts` whose suffix ends `path`. */
  function FirstSuffix(path: string, exts: seq<(string, Option<string>)>): (r: Option<nat>)
    ensures r.None? <==> forall i :: 0 <= i < |exts| ==> !EndsWith(path, exts[i].0)
    ensures r.Some? ==> r.value < |exts| && EndsWith(path, exts[r.value].0)
    ensures r.Some? ==> forall i :: 0 <= i < r.value ==> !EndsWith(path, exts[i].0)
  {
    if exts == [] then None
    else if EndsWith(path, exts[0].0) then Some(0)
    else match FirstSuffix(path, exts[1..])
      case None => None
      case Some(i) => Some(i + 1)
  }

  /** The first matching suffix is the one at `i` exactly when `i` matches and no earlier one does. */
  lemma FirstSuffixAt(path: string, exts: seq<(string, Option<string>)>, i: int)
    requires 0 <= i < |exts| && EndsWith(path, exts[i].0)
    requires forall j :: 0 <= j < i ==> !EndsWith(path, exts[j].0)
    ensures FirstSuffix(path, exts) == Some(i)
  {
  }

  /**
   * `parse_file`: a `.json` path goes to `parse_readme_json`; any other path
   * takes the content type of the first suffix in `_FILE_EXTENSIONS` it ends
   * with and its content is read and parsed; a path with no such suffix
   * raises. `readFile` and `loadReadme` stand for opening and reading or
   * JSON-decoding the file.
   */
  function ParseFile(path: string, readFile: string -> Result<string>,
                     loadReadme: string -> Result<Option<map<string, string>>>,
                     convert: (ParserClass, string) -> string): (r: ParseResult)
    ensures r == Raised(UnknownFileType(path)) <==> !EndsWith(path, ".json") && FirstSuffix(path, FileExtensions).None?
  {
    if EndsWith(path, ".json") then
      match loadReadme(path)
      case Failure(e) => Raised(Io(e))
      case Success(doc) => ParseReadmeJson(path, doc, convert)
    else
      match FirstSuffix(path, FileExtensions)
      case None => Raised(UnknownFileType(path))
      case Some(i) =>
        match FileExtensions[i].1
        case None => Raised(NoContentType(FileExtensions[i].0))
        case Some(contentType) =>
          match readFile(path)
          case Failure(e) => Raised(Io(e))
          case Success(content) => Parse(content, Lower(contentType), convert)
  }

  /** A `.json` path is never read as markup, and any other path is never JSON-decoded. */
  lemma ParseFileRoutes(path: string, readFile: string -> Result<string>, readFile': string -> Result<string>,
                        loadReadme: string -> Result<Option<map<string, string>>>,
                        loadReadme': string -> Result<Option<map<string, string>>>,
                        convert: (ParserClass, string) -> string)
    ensures EndsWith(path, ".json") ==> ParseFile(path, readFile, loadReadme, convert) == ParseFile(path, readFile', loadReadme, convert)
    ensures !EndsWith(path, ".json") ==> ParseFile(path, readFile, loadReadme, convert) == ParseFile(path, readFile, loadReadme', convert)
  {
  }

  /** A `.json` path whose document loads is exactly `parse_readme_json` of that document. */
  lemma JsonPathIsReadme(path: string, doc: Option<map<string, string>>, readFile: string -> Result<string>,
                         loadReadme: string -> Result<Option<map<string, string>>>,
                         convert: (ParserClass, string) -> string)
    requires EndsWith(path, ".json") && loadReadme(path) == Success(doc)
    ensures ParseFile(path, readFile, loadReadme, convert) == ParseReadmeJson(path, doc, convert)
  {
  }

  /** `README.md` takes the `.md` entry. */
  lemma MarkdownSuffix(path: string)
    requires path == "README.md"
    ensures !EndsWith(path, ".json") && FirstSuffix(path, FileExtensions) == Some(6)
    ensures FileExtensions[6].1 == Some("markdown")
  {
    forall j | 0 <= j < 6 ensures !EndsWith(path, FileExtensions[j].0) {
      EndsWithLastTwo(path, FileExtensions[j].0);
    }
    FirstSuffixAt(path, FileExtensions, 6);
  }

  /** `README.pod` takes the `.pod` entry, whose content type is `asciidoc`. */
  lemma PodSuffix(path: string)
    requires path == "README.pod"
    ensures !EndsWith(path, ".json") && FirstSuffix(path, FileExtensions) == Some(11)
    ensures FileExtensions[11].1 == Some("asciidoc")
  {
    forall j | 0 <= j < 11 ensures !EndsWith(path, FileExtensions[j].0) {
      EndsWithLastTwo(path, FileExtensions[j].0);
    }
    FirstSuffixAt(path, FileExtensions, 11);
  }

  /** A non-`.json` path whose first matching suffix has content type `contentType` is read and parsed as that type. */
  lemma TypedFile(path: string, i: nat, contentType: string, content: string, readFile: string -> Result<string>,
                  loadReadme: string -> Result<Option<map<string, string>>>,
                  convert: (ParserClass, string) -> string)
    requires !EndsWith(path, ".json") && FirstSuffix(path, FileExtensions) == Some(i)
    requires i < |FileExtensions| && FileExtensions[i].1 == Some(contentType) && readFile(path) == Success(content)
    ensures ParseFile(path, readFile, loadReadme, convert) == Parse(content, Lower(contentType), convert)
  {
  }

  /** Non-empty content of a registered type goes to the parser registered for it. */
  lemma ParseRegistered(content: string, contentType: string, i: int, convert: (ParserClass, string) -> string)
    requires 0 <= i < |Parsers| && Lower(contentType) == Parsers[i].0 && content != ""
    ensures Parse(content, contentType, convert) == RunParser(Parsers[i].1, content, convert)
  {
    ParserForEntry(contentType, i);
  }

  /** `_PARSERS['markdown']`. */
  lemma MarkdownEntry()
    ensures Parsers[2] == ("markdown", MarkdownParser)
  {
  }

  /** The content types the suffix lemmas use are already lower-case. */
  lemma LowerCaseTypes()
    ensures Lower("markdown") == "markdown" && Lower("asciidoc") == "asciidoc"
  {
    LowerOfLowerCase("markdown");
    LowerOfLowerCase("asciidoc");
  }

  /** A `.md` file is converted as markdown. */
  lemma MarkdownFile(path: string, content: string, readFile: string -> Result<string>,
                     loadReadme: string -> Result<Option<map<string, string>>>,
                     convert: (ParserClass, string) -> string)
    requires path == "README.md" && readFile(path) == Success(content) && content != ""
    ensures ParseFile(path, readFile, loadReadme, convert) == Parsed(convert(MarkdownParser, content))
  {
    MarkdownSuffix(path);
    TypedFile(path, 6, "markdown", content, readFile, loadReadme, convert);
    LowerCaseTypes();
    MarkdownEntry();
    ParseRegistered(content, "markdown", 2, convert);
  }

  /** A `.pod` file is handed to the asciidoc parser, which raises. */
  lemma PodFileIsAsciidoc(path: string, content: string, readFile: string -> Result<string>,
                          loadReadme: string -> Result<Option<map<string, string>>>,
                          convert: (ParserClass, string) -> string)
    requires path == "README.pod" && readFile(path) == Success(content) && content != ""
    ensures ParseFile(path, readFile, loadReadme, convert) == Raised(NotImplemented(AsciidocParser))
  {
    PodSuffix(path);
    TypedFile(path, 11, "asciidoc", content, readFile, loadReadme, convert);
    LowerCaseTypes();
    ParseRegistered(content, "asciidoc", 0, convert);
  }

  /** `.json` is the only suffix without a content type. */
  lemma UntypedSuffixIsJson(i: int)
    requires 0 <= i < |FileExtensions| && FileExtensions[i].1.None?
    ensures FileExtensions[i].0 == ".json"
  {
  }

  /** Since `.json` paths are routed first, the untyped `.json` entry is never used, so `parse_file` never reaches `None.lower()`. */
  lemma ParseFileTypesEverySuffix(path: string, readFile: string -> Result<string>,
                                  loadReadme: string -> Result<Option<map<string, string>>>,
                                  convert: (ParserClass, string) -> string)
    ensures !ParseFile(path, readFile, loadReadme, convert).Raised?
            || !ParseFile(path, readFile, loadReadme, convert).reason.NoContentType?
  {
    if !EndsWith(path, ".json") {
      var i := FirstSuffix(path, FileExtensions);
      if i.Some? && FileExtensions[i.value].1.None? {
        UntypedSuffixIsJson(i.value);
      }
    }
  }
}
