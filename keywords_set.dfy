/**
 * The keyword counter the collectors fill: keyword name to an entry dict that
 * holds its `occurrence_count`. Entries are objects: `union` stores the other
 * set's entry itself, so after it both sets share that entry.
 */
module KeywordsSets {
  import opened Wrappers

  /** One keyword's entry dict; `occurrence_count` is its only key the code sets. */
  class CountEntry {
    /** The keyword this entry was created for by `add`; a union stores it under the same name. */
    ghost const keyword: string
    var occurrenceCount: Option<int>

    /** The `{}` that `add` creates for a new keyword. */
    constructor (ghost keyword: string)
      ensures this.keyword == keyword && occurrenceCount.None?
    {
      this.keyword := keyword;
      occurrenceCount := None;
    }

    /** `entry['occurrence_count'] = entry.get('occurrence_count', 1)`. */
    method KeepCount()
      modifies this
      ensures occurrenceCount == Some(old(occurrenceCount).GetOr(1))
    {
      occurrenceCount := Some(occurrenceCount.GetOr(1));
    }
  }

  class KeywordsSet {
    /** `_keywords_set`, which the `keywords` property hands out as it is. */
    var keywordsSet: map<string, CountEntry>

    /** Every keyword is stored under its own entry, and every entry has been counted at least once. */
    ghost predicate Valid()
      reads this, keywordsSet.Values
    {
      forall k :: k in keywordsSet ==>
        keywordsSet[k].keyword == k && keywordsSet[k].occurrenceCount.Some? && keywordsSet[k].occurrenceCount.value >= 1
    }

    /** The `occurrence_count` of every keyword, None where the entry has none. */
    function Counts(): (m: map<string, Option<int>>)
      reads this, keywordsSet.Values
      ensures m.Keys == keywordsSet.Keys
    {
      map k | k in keywordsSet :: keywordsSet[k].occurrenceCount
    }

    /** An empty set. */
    constructor ()
      ensures Valid()
      ensures keywordsSet == map[] && Counts() == map[]
    {
      keywordsSet := map[];
    }

    /**
     * `add`: a new keyword gets an entry with count 1; a present one has its
     * count increased by 1. The entries of the other keywords stay as they are.
     */
    method Add(keyword: string)
      requires Valid()
      modifies this, keywordsSet.Values
      ensures Valid()
      ensures keywordsSet.Keys == old(keywordsSet.Keys) + {keyword}
      ensures forall k :: k in old(keywordsSet) ==> keywordsSet[k] == old(keywordsSet[k])
      ensures keyword !in old(keywordsSet) ==> fresh(keywordsSet[keyword])
      ensures Counts() == old(Counts())[keyword := Some(if keyword in old(keywordsSet)
                                                        then old(keywordsSet[keyword].occurrenceCount.value) + 1 else 1)]
    {
      if keyword !in keywordsSet {
        var created := new CountEntry(keyword);
        keywordsSet := keywordsSet[keyword := created];
      }
      var entry := keywordsSet[keyword];
      entry.occurrenceCount := Some(entry.occurrenceCount.GetOr(0) + 1);
    }

    /**
     * `union`: every keyword of `other` that this set lacks is added with
     * `other`'s entry object; a keyword both have keeps this set's count. No
     * count changes, in this set or in `other`, and `self` is returned.
     */
    method Union(other: KeywordsSet) returns (r: KeywordsSet)
      requires Valid() && other.Valid()
      modifies this, keywordsSet.Values
      ensures r == this && Valid()
      ensures keywordsSet.Keys == old(keywordsSet.Keys) + old(other.keywordsSet.Keys)
      ensures forall k :: k in old(keywordsSet) ==> keywordsSet[k] == old(keywordsSet[k])
      ensures forall k :: k in old(other.keywordsSet) && k !in old(keywordsSet) ==> keywordsSet[k] == old(other.keywordsSet[k])
      ensures other.keywordsSet == old(other.keywordsSet)
      ensures other.Counts() == old(other.Counts())
      ensures Counts() == map k | k in old(keywordsSet.Keys) + old(other.keywordsSet.Keys) ::
                            if k in old(keywordsSet) then old(Counts())[k] else old(other.Counts())[k]
    {
      ghost var mine, theirs := keywordsSet, other.keywordsSet;
      ghost var mineCounts, theirCounts := Counts(), other.Counts();
      UnionEntries(other);
      forall k | k in keywordsSet
        ensures keywordsSet[k].occurrenceCount == if k in mine then mineCounts[k] else theirCounts[k]
      {
        if k in mine {
          assert mine[k] in mine.Values;
        } else {
          assert theirs[k] in theirs.Values;
        }
      }
      forall k | k in theirs
        ensures theirs[k].occurrenceCount == theirCounts[k]
      {
        assert theirs[k] in theirs.Values;
      }
      r := this;
    }

    /** The loop of `union`, over the keywords of `other`. */
    method UnionEntries(other: KeywordsSet)
      requires Valid() && other.Valid()
      modifies this, keywordsSet.Values
      ensures other.keywordsSet == old(other.keywordsSet)
      ensures keywordsSet == Merged(old(keywordsSet), other.keywordsSet, other.keywordsSet.Keys)
      ensures forall o :: o in old(keywordsSet.Values) + other.keywordsSet.Values ==> o.occurrenceCount == old(o.occurrenceCount)
    {
      ghost var mine := keywordsSet;
      ghost var theirs := other.keywordsSet;
      ghost var entries := mine.Values + theirs.Values;
      ghost var done: set<string> := {};
      var todo := other.keywordsSet.Keys;
      while todo != {}
        invariant other.keywordsSet == theirs
        invariant todo !! done && todo + done == theirs.Keys
        invariant keywordsSet == Merged(mine, theirs, done)
        invariant forall o :: o in entries ==> o.occurrenceCount == old(o.occurrenceCount)
        decreases todo
      {
        var keyword :| keyword in todo;
        UnionKeyword(other, keyword, mine, theirs, done);
        todo := todo - {keyword};
        done := done + {keyword};
      }
    }

    /** One step of the loop of `union`: the keyword of `other` is added, or this set's count kept. */
    method UnionKeyword(other: KeywordsSet, keyword: string, ghost mine: map<string, CountEntry>,
                        ghost theirs: map<string, CountEntry>, ghost done: set<string>)
      requires other.keywordsSet == theirs && done <= theirs.Keys && keyword in theirs && keyword !in done
      requires keywordsSet == Merged(mine, theirs, done)
      requires keyword in mine ==> mine[keyword].occurrenceCount.Some?
      modifies this, mine.Values
      ensures other.keywordsSet == theirs
      ensures keywordsSet == Merged(mine, theirs, done + {keyword})
      ensures forall o :: o in mine.Values + theirs.Values ==> o.occurrenceCount == old(o.occurrenceCount)
    {
      MergedStep(mine, theirs, done, keyword);
      if keyword in keywordsSet {
        var entry := keywordsSet[keyword];
        assert keyword in mine && entry == mine[keyword] && entry in mine.Values;
        entry.KeepCount();
      } else {
        assert other != this;
        keywordsSet := keywordsSet[keyword := other.keywordsSet[keyword]];
      }
    }
  }

  /** This set's entries, plus the entries of `theirs` for the keys of `done` this set lacks. */
  function Merged(mine: map<string, CountEntry>, theirs: map<string, CountEntry>, done: set<string>): (m: map<string, CountEntry>)
    requires done <= theirs.Keys
    ensures m.Keys == mine.Keys + done
    ensures forall k :: k in m ==> m[k] == if k in mine then mine[k] else theirs[k]
  {
    map k | k in mine.Keys + done :: if k in mine then mine[k] else theirs[k]
  }

  /** Taking one more key of `theirs` adds its entry exactly when this set lacks the key. */
  lemma MergedStep(mine: map<string, CountEntry>, theirs: map<string, CountEntry>, done: set<string>, k: string)
    requires done <= theirs.Keys && k in theirs
    ensures Merged(mine, theirs, done + {k}) ==
            if k in Merged(mine, theirs, done) then Merged(mine, theirs, done)
            else Merged(mine, theirs, done)[k := theirs[k]]
  {
  }

  /**
   * Because `union` shares entries, a keyword added to either set after a
   * union is counted in both.
   */
  method SharedEntryAfterUnion() returns (a: KeywordsSet, b: KeywordsSet)
    ensures a != b
    ensures a.Counts() == map["x" := Some(2)] && b.Counts() == map["x" := Some(2)]
  {
    a := new KeywordsSet();
    b := new KeywordsSet();
    b.Add("x");
    var _ := a.Union(b);
    a.Add("x");
  }
}
