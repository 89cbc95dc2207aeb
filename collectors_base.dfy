/**
 * The collector registry: the class-level `_collectors` dictionary of
 * `CollectorBase`, from collector name to collector class, which refuses a
 * second registration of a name.
 */
module Collectors {
  import opened Wrappers
  import opened Dicts

  /** The collector classes the package defines. */
  datatype CollectorClass = MavenCollector | NpmCollector | PypiCollector | StackOverflowCollector

  /** The registrations the collector modules make on import, in import order. */
  const BuiltinCollectors: Dict<CollectorClass> :=
    [("Maven", MavenCollector), ("NPM", NpmCollector), ("PyPI", PypiCollector), ("StackOverflow", StackOverflowCollector)]

  /** The registry after import lists the four names in import order, each bound to its class. */
  lemma BuiltinRegistry()
    ensures DistinctKeys(BuiltinCollectors)
    ensures Keys(BuiltinCollectors) == ["Maven", "NPM", "PyPI", "StackOverflow"]
    ensures forall i :: 0 <= i < |BuiltinCollectors| ==> Get(BuiltinCollectors, BuiltinCollectors[i].0) == Some(BuiltinCollectors[i].1)
  {
    BuiltinDistinct();
    BuiltinNames();
    forall i | 0 <= i < |BuiltinCollectors| ensures Get(BuiltinCollectors, BuiltinCollectors[i].0) == Some(BuiltinCollectors[i].1) {
      GetAt(BuiltinCollectors, i);
    }
  }

  lemma BuiltinDistinct()
    ensures DistinctKeys(BuiltinCollectors)
  {
  }

  lemma BuiltinNames()
    ensures Keys(BuiltinCollectors) == ["Maven", "NPM", "PyPI", "StackOverflow"]
  {
  }

  class CollectorRegistry {
    var collectors: Dict<CollectorClass>

    ghost predicate Valid()
      reads this
    {
      DistinctKeys(collectors)
    }

    /**
     * The registry once the collectors package is imported: its modules
     * register Maven, NPM, PyPI and StackOverflow, in their import order.
     */
    constructor ()
      ensures Valid()
      ensures collectors == BuiltinCollectors
    {
      collectors := [];
      new;
      var _ := RegisterCollector("Maven", MavenCollector);
      var _ := RegisterCollector("NPM", NpmCollector);
      var _ := RegisterCollector("PyPI", PypiCollector);
      var _ := RegisterCollector("StackOverflow", StackOverflowCollector);
    }

    /**
     * `register_collector`: a name that is already registered raises
     * `ValueError` and changes nothing; a new name is bound to the class at
     * the end of the registry.
     */
    method RegisterCollector(name: string, collector: CollectorClass) returns (r: Outcome)
      requires Valid()
      modifies this
      ensures Valid()
      ensures old(GetCollectorClass(name)).Success? ==> r == Fail(ValueError) && collectors == old(collectors)
      ensures old(GetCollectorClass(name)).Failure? ==> r == Pass && collectors == old(collectors) + [(name, collector)]
    {
      if name in Keys(collectors) {
        return Fail(ValueError);
      }
      PutKeys(collectors, name, collector);
      collectors := Put(collectors, name, collector);
      r := Pass;
    }

    /** `get_registered_collectors`: the registered names, in registration order. */
    function RegisteredCollectors(): (names: seq<string>)
      reads this
      ensures |names| == |collectors|
      ensures forall n :: n in names <==> GetCollectorClass(n).Success?
    {
      Keys(collectors)
    }

    /** `get_collector_class`: the class registered under the name, or `KeyError`. */
    function GetCollectorClass(name: string): (r: Result<CollectorClass>)
      reads this
      ensures r.Failure? ==> r.error == KeyError
      ensures r.Failure? <==> name !in Keys(collectors)
      ensures r.Success? ==> exists i :: 0 <= i < |collectors| && collectors[i] == (name, r.value)
    {
      match Get(collectors, name)
      case Some(c) => Success(c)
      case None => Failure(KeyError)
    }

    /**
     * After registering a new name, that name gives the class and every other
     * name gives what it gave before.
     */
    lemma RegisterThenGet(name: string, collector: CollectorClass, other: string)
      requires Valid() && name !in Keys(collectors)
      ensures var after := collectors + [(name, collector)];
              && Get(after, name) == Some(collector)
              && (other != name ==> Get(after, other) == Get(collectors, other))
    {
      assert Put(collectors, name, collector) == collectors + [(name, collector)];
      PutGet(collectors, name, collector, name);
      PutGet(collectors, name, collector, other);
    }

    /** Each registered name gives back the class registered under it. */
    lemma RegisteredClass(i: int)
      requires Valid() && 0 <= i < |collectors|
      ensures GetCollectorClass(collectors[i].0) == Success(collectors[i].1)
    {
      GetAt(collectors, i);
    }
  }
}
