/**
 * What the keyword dictionary and the tokenizer share about single words: the
 * optional lemmatizer and stemmer, and regular expressions kept as their
 * source text.
 */
module Words {

  /** The source text of a regular expression; matching it is a parameter wherever it is needed. */
  type Pattern = string

  /**
   * An optional lemmatizer or stemmer, reduced to what it does to one word.
   * None stands for the default, which is no lemmatizer and no stemmer.
   */
  datatype Normalizer = NoNormalizer | Normalizer(apply: string -> string)

  function Apply(f: Normalizer, w: string): string {
    match f
    case NoNormalizer => w
    case Normalizer(g) => g(w)
  }

  /** `f` applied to every token; without a normalizer the tokens are kept. */
  function ApplyAll(f: Normalizer, tokens: seq<string>): (r: seq<string>)
    ensures |r| == |tokens|
    ensures f.NoNormalizer? ==> r == tokens
  {
    seq(|tokens|, i requires 0 <= i < |tokens| => Apply(f, tokens[i]))
  }
}
