/**
 * The parts of Python's `str` that the tagger relies on, for the cases it
 * uses: `split` and `join` with a one-character separator, `startswith`,
 * `endswith`, and `lower` restricted to ASCII letters.
 */
module Strings {

  /** Number of occurrences of `c` in `s`. */
  function Count(s: string, c: char): (n: nat)
    ensures n <= |s|
    ensures n == 0 <==> c !in s
  {
    if |s| == 0 then 0 else (if s[0] == c then 1 else 0) + Count(s[1..], c)
  }

  /** `s.split(d)`: the pieces between occurrences of `d`, empty pieces included. */
  function Split(s: string, d: char): (parts: seq<string>)
    ensures |parts| >= 1
  {
    if |s| == 0 then [""]
    else
      var rest := Split(s[1..], d);
      if s[0] == d then [""] + rest
      else [[s[0]] + rest[0]] + rest[1..]
  }

  /** `sep.join(parts)`. */
  function Join(parts: seq<string>, sep: string): string
  {
    if |parts| == 0 then ""
    else if |parts| == 1 then parts[0]
    else parts[0] + sep + Join(parts[1..], sep)
  }

  /** `s` with every `d` replaced by `r`. */
  function ReplaceChar(s: string, d: char, r: char): (t: string)
    ensures |t| == |s|
    ensures forall i :: 0 <= i < |s| ==> t[i] == (if s[i] == d then r else s[i])
  {
    if |s| == 0 then "" else [if s[0] == d then r else s[0]] + ReplaceChar(s[1..], d, r)
  }

  predicate StartsWith(s: string, prefix: string) {
    |prefix| <= |s| && s[..|prefix|] == prefix
  }

  predicate EndsWith(s: string, suffix: string) {
    |suffix| <= |s| && s[|s| - |suffix|..] == suffix
  }

  /** A string ends with the last two characters of any suffix it has. */
  lemma EndsWithLastTwo(s: string, suffix: string)
    requires |suffix| >= 2
    ensures EndsWith(s, suffix) ==> s[|s| - 1] == suffix[|suffix| - 1] && s[|s| - 2] == suffix[|suffix| - 2]
  {
    if EndsWith(s, suffix) {
      assert s[|s| - |suffix|..][|suffix| - 1] == s[|s| - 1];
      assert s[|s| - |suffix|..][|suffix| - 2] == s[|s| - 2];
    }
  }

  /** `s` occurs as a contiguous piece of `t`. */
  predicate IsInfix(s: string, t: string) {
    exists lo, hi :: 0 <= lo <= hi <= |t| && t[lo..hi] == s
  }

  predicate IsAsciiUpper(c: char) {
    'A' <= c <= 'Z'
  }

  predicate IsAsciiLower(c: char) {
    'a' <= c <= 'z'
  }

  predicate IsAsciiDigit(c: char) {
    '0' <= c <= '9'
  }

  predicate IsAsciiAlnum(c: char) {
    IsAsciiUpper(c) || IsAsciiLower(c) || IsAsciiDigit(c)
  }

  function LowerChar(c: char): (l: char)
    ensures !IsAsciiUpper(l)
    ensures !IsAsciiUpper(c) ==> l == c
  {
    if IsAsciiUpper(c) then (c as int - 'A' as int + 'a' as int) as char else c
  }

  /** `s.lower()` on ASCII letters; every other character is kept. */
  function Lower(s: string): (l: string)
    ensures |l| == |s|
    ensures forall i :: 0 <= i < |l| ==> !IsAsciiUpper(l[i])
  {
    seq(|s|, i requires 0 <= i < |s| => LowerChar(s[i]))
  }

  lemma LowerIdempotent(s: string)
    ensures Lower(Lower(s)) == Lower(s)
  {
  }

  /** A string without upper-case ASCII letters is its own lower-case form. */
  lemma LowerOfLowerCase(s: string)
    requires forall i :: 0 <= i < |s| ==> !IsAsciiUpper(s[i])
    ensures Lower(s) == s
  {
  }

  lemma {:induction false} SplitLength(s: string, d: char)
    ensures |Split(s, d)| == Count(s, d) + 1
  {
    if |s| > 0 {
      SplitLength(s[1..], d);
    }
  }

  /** Splitting on a character that does not occur yields the whole string. */
  lemma {:induction false} SplitAbsent(s: string, d: char)
    requires d !in s
    ensures Split(s, d) == [s]
  {
    if |s| > 0 {
      assert d !in s[1..];
      SplitAbsent(s[1..], d);
      assert [s[0]] + s[1..] == s;
    }
  }

  /** Splitting at a separator that joins two strings splits each of them. */
  lemma {:induction false} SplitConcat(s: string, t: string, d: char)
    ensures Split(s + [d] + t, d) == Split(s, d) + Split(t, d)
  {
    if |s| > 0 {
      assert (s + [d] + t)[1..] == s[1..] + [d] + t;
      SplitConcat(s[1..], t, d);
    } else {
      assert s + [d] + t == [d] + t;
      assert ([d] + t)[1..] == t;
    }
  }

  /** Re-joining the pieces of a split with another one-character separator replaces it. */
  lemma {:induction false} JoinSplitReplace(s: string, d: char, r: char)
    ensures Join(Split(s, d), [r]) == ReplaceChar(s, d, r)
  {
    if |s| > 0 {
      var rest := Split(s[1..], d);
      JoinSplitReplace(s[1..], d, r);
      if s[0] == d {
        assert Split(s, d) == [""] + rest;
        assert ([""] + rest)[1..] == rest;
      } else {
        assert Split(s, d) == [[s[0]] + rest[0]] + rest[1..];
        if |rest| > 1 {
          assert ([[s[0]] + rest[0]] + rest[1..])[1..] == rest[1..];
        }
      }
    }
  }

  /** `sep.join(s.split(sep))` is `s` again. */
  lemma JoinSplit(s: string, d: char)
    ensures Join(Split(s, d), [d]) == s
  {
    JoinSplitReplace(s, d, d);
    assert ReplaceChar(s, d, d) == s;
  }

  /** Replacing a character that does not occur, or replacing a character by itself, changes nothing. */
  lemma ReplaceIdentity(s: string, d: char, r: char)
    requires d !in s || d == r
    ensures ReplaceChar(s, d, r) == s
  {
  }
}
