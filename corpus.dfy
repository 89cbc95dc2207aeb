/**
 * The corpus of tokenized documents: two parallel lists, the token lists and
 * the names of the files they were extracted from.
 */
module Corpora {

  class Corpus {
    /** `_entries`: one list of extracted tokens per document. */
    var entries: seq<seq<string>>
    /** `_names`: the file name each entry came from, at the same position. */
    var names: seq<string>

    /** The two lists stay parallel. */
    ghost predicate Valid()
      reads this
    {
      |entries| == |names|
    }

    /** An empty corpus. */
    constructor ()
      ensures Valid()
      ensures entries == [] && names == []
      ensures GetSize() == 0
    {
      entries := [];
      names := [];
    }

    /** `get_size`: the number of entries, which is also the number of names. */
    function GetSize(): (n: nat)
      reads this
      requires Valid()
      ensures n == |entries| == |names|
    {
      |entries|
    }

    /** The document recorded at position `i`: its name and its tokens. */
    function EntryAt(i: nat): (r: (string, seq<string>))
      reads this
      requires Valid() && i < GetSize()
      ensures r.0 in names && r.1 in entries
    {
      (names[i], entries[i])
    }

    /**
     * `add`: the name and the tokens go at the end of their lists, even when
     * the name is already there; earlier entries stay as they were.
     */
    method Add(name: string, entry: seq<string>)
      requires Valid()
      modifies this
      ensures Valid()
      ensures entries == old(entries) + [entry] && names == old(names) + [name]
      ensures GetSize() == old(GetSize()) + 1
      ensures EntryAt(GetSize() - 1) == (name, entry)
      ensures forall i :: 0 <= i < old(GetSize()) ==> EntryAt(i) == old(EntryAt(i))
    {
      entries := entries + [entry];
      names := names + [name];
    }
  }
}
