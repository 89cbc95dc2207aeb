/**
 * The source argument that `KeywordsChief` and `Tokenizer` accept for their
 * data file: a path (a string), nothing (`None`: the file packaged with the
 * tagger), an open text stream, or anything else.
 */
module Sources {
  import opened Wrappers

  datatype TextSource = Path(path: string) | NoSource | Stream(content: string) | Unsupported

  /** Opening the file at `path`; a missing file raises `FileNotFoundError`. */
  function ReadPath(path: string, readFile: string -> Option<string>): Result<string> {
    match readFile(path)
    case Some(content) => Success(content)
    case None => Failure(FileNotFoundError)
  }

  /**
   * The text a constructor reads from `src`. `readFile(p)` is the content of
   * the file at `p`, or None when there is no such file. An empty path is
   * falsy in Python, so `path or default` reads the default file for it.
   */

  function ReadSource(src: TextSource, defaultPath: string, readFile: string -> Option<string>): (r: Result<string>)
    ensures r == Failure(InvalidInputError) <==> src.Unsupported?
    ensures src.Stream? ==> r == Success(src.content)
    ensures src.NoSource? || (src.Path? && src.path == "") ==>
              r == (if readFile(defaultPath).Some? then Success(readFile(defaultPath).value) else Failure(FileNotFoundError))
    ensures src.Path? && src.path != "" ==>
              r == (if readFile(src.path).Some? then Success(readFile(src.path).value) else Failure(FileNotFoundError))
  {
    match src
    case Stream(content) => Success(content)
    case Unsupported => Failure(InvalidInputError)
    case NoSource => ReadPath(defaultPath, readFile)
    case Path(p) => ReadPath(if p != "" then p else defaultPath, readFile)
  }
}
