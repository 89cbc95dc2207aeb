/**
 * `compute_synonyms` of the synonyms module. It unions an empty set with four
 * re-joined spellings of the keyword, and `set.union` takes a string as the
 * collection of its characters, so the result holds one-character strings.
 * The list the function returns is modelled as the set it is built from,
 * since its order is not defined.
 */
module Synonyms {
  import opened Wrappers
  import opened Strings

  /** `set().union(s)`: the characters of `s`, each as a one-character string. */
  function CharsOf(s: string): (r: set<string>)
    ensures forall t :: t in r <==> |t| == 1 && t[0] in s
  {
    var r := set i | 0 <= i < |s| :: [s[i]];
    assert forall t :: |t| == 1 && t[0] in s ==> t in r by {
      forall t | |t| == 1 && t[0] in s ensures t in r {
        var i :| 0 <= i < |s| && s[i] == t[0];
        assert t == [s[i]];
      }
    }
    r
  }

  /**
   * `compute_synonyms`: the characters of the keyword with `-` joined by a
   * space, `.` joined by a space, `.` joined by `-` and `-` joined by `.`;
   * None when that set is empty.
   */
  function ComputeSynonyms(keyword: string): (r: Option<set<string>>)
    ensures r.Some? ==> forall t :: t in r.value ==> |t| == 1
  {
    var synonyms := CharsOf(Join(Split(keyword, '-'), " "))
                  + CharsOf(Join(Split(keyword, '.'), " "))
                  + CharsOf(Join(Split(keyword, '.'), "-"))
                  + CharsOf(Join(Split(keyword, '-'), "."));
    if synonyms == {} then None else Some(synonyms)
  }

  /** The characters one re-joined spelling contributes. */
  lemma RejoinedChars(s: string, d: char, r: char, c: char)
    ensures c in Join(Split(s, d), [r]) <==> (c in s && c != d) || (c == r && d in s)
  {
    JoinSplitReplace(s, d, r);
    var t := ReplaceChar(s, d, r);
    if c in t {
      var i :| 0 <= i < |t| && t[i] == c;
      assert s[i] == d || s[i] == c;
    }
    if c in s && c != d {
      var i :| 0 <= i < |s| && s[i] == c;
      assert t[i] == c;
    }
    if c == r && d in s {
      var i :| 0 <= i < |s| && s[i] == d;
      assert t[i] == r;
    }
  }

  /**
   * The characters a keyword's synonyms consist of: its own characters, a
   * space when it holds `-` or `.`, a `.` when it holds `-`, and a `-` when it
   * holds `.`.
   */
  predicate SynonymChar(keyword: string, c: char) {
    || c in keyword
    || (c == ' ' && ('-' in keyword || '.' in keyword))
    || (c == '.' && '-' in keyword)
    || (c == '-' && '.' in keyword)
  }

  /** The result is exactly the one-character strings of `SynonymChar`. */
  lemma {:induction false} SynonymMembers(keyword: string, t: string)
    requires keyword != ""
    ensures ComputeSynonyms(keyword).Some?
    ensures t in ComputeSynonyms(keyword).value <==> |t| == 1 && SynonymChar(keyword, t[0])
  {
    var c := keyword[0];
    RejoinedChars(keyword, '-', ' ', c);
    RejoinedChars(keyword, '-', '.', c);
    RejoinedChars(keyword, '.', ' ', c);
    RejoinedChars(keyword, '.', '-', c);
    assert [c] in CharsOf(Join(Split(keyword, '-'), " ")) + CharsOf(Join(Split(keyword, '.'), "-"));
    if |t| == 1 {
      RejoinedChars(keyword, '-', ' ', t[0]);
      RejoinedChars(keyword, '-', '.', t[0]);
      RejoinedChars(keyword, '.', ' ', t[0]);
      RejoinedChars(keyword, '.', '-', t[0]);
    }
  }

  /** The result is None exactly for the empty keyword. */
  lemma NoneIffEmpty(keyword: string)
    ensures ComputeSynonyms(keyword).None? <==> keyword == ""
  {
    if keyword != "" {
      SynonymMembers(keyword, [keyword[0]]);
    }
  }

  /** No character outside the keyword's own, a space, `-` and `.` ever appears. */
  lemma SynonymsWithinAlphabet(keyword: string, t: string)
    requires ComputeSynonyms(keyword).Some? && t in ComputeSynonyms(keyword).value
    ensures t[0] in keyword || t[0] in {' ', '-', '.'}
  {
    NoneIffEmpty(keyword);
    SynonymMembers(keyword, t);
  }
}
