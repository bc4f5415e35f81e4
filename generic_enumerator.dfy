/**
 * The enumerator object itself: the fields the benchmark's `GenericEnumerator` updates
 * in place, and the loop that drains it. Every method is proved against the state
 * machine of module EnumeratorSpec, whose properties are proved there.
 */
module GenericEnumeration {
  import opened EnumeratorSpec

  /** Number of elements in the benchmark's collection. */
  const CollectionCount := 50000

  /**
   * An enumerator over the array `collection`, from `begin` up to (not including) `end`,
   * with the operations of ArrayEnumerator. `defaultValue` stands for default(T).
   */
  class GenericEnumerator<T> {
    const collection: array<T>
    const begin: int
    const end: int
    const defaultValue: T
    var version: int
    var current: T
    var position: int

    /** The readonly fields, as the specification's Config. */
    function Fixed(): (c: Config<T>)
    {
      Config(begin, end, defaultValue)
    }

    /** The mutable fields, as the specification's Cursor. */
    function State(): (s: Cursor<T>)
      reads this
    {
      Cursor(version, current, position)
    }

    /**
     * The element yielded by the last successful MoveNext; the default value after
     * construction, Reset, Dispose or a MoveNext that returned false.
     */
    function Current(): (x: T)
      reads this
      ensures x == State().current
    {
      current
    }

    constructor (collection: array<T>, begin: int, end: int, defaultValue: T)
      ensures this.collection == collection && this.begin == begin && this.end == end
      ensures this.defaultValue == defaultValue
      ensures State() == EnumeratorSpec.Reset(Fixed(), collection[..])
    {
      this.collection := collection;
      this.begin := begin;
      this.end := end;
      this.defaultValue := defaultValue;
      this.current := defaultValue;
      new;
      Reset();
    }

    method MoveLast() returns (r: Result<bool>)
      modifies this
      ensures (r, State()) == EnumeratorSpec.MoveLast(Fixed(), collection[..], old(State()))
    {
      if GetVersion(collection[..]) != version {
        return Err(InvalidOperation);
      }
      current := defaultValue;
      return Ok(false);
    }

    method MoveNext() returns (r: Result<bool>)
      modifies this
      ensures (r, State()) == EnumeratorSpec.MoveNext(Fixed(), collection[..], old(State()))
    {
      var pos := position;
      if GetVersion(collection[..]) == version && !PositionEquals(pos, end) {
        var v := GetValue(collection[..], pos);
        if v.Err? {
          return Err(v.error);
        }
        current := v.value;
        position := StepForward(pos);
        return Ok(true);
      }
      r := MoveLast();
    }

    method Reset()
      modifies this
      ensures State() == EnumeratorSpec.Reset(Fixed(), collection[..])
    {
      current := defaultValue;
      version := GetVersion(collection[..]);
      position := begin;
    }

    method Dispose()
      modifies this
      ensures State() == EnumeratorSpec.Dispose(Fixed(), collection[..])
    {
      Reset();
      version := -1;
    }
  }

  /**
   * `while (enumerator.MoveNext()) continue;` The loop ends, and the exception that
   * ends it (if any) and the values `Current` took along the way are those of the
   * specification's Drain from the enumerator's initial state.
   */
  method Bench<T>(e: GenericEnumerator<T>) returns (thrown: Option<Error>, ghost yielded: seq<T>)
    modifies e
    ensures Drain(e.Fixed(), e.collection[..], old(e.State())) ==
      (if thrown.Some? then Err(thrown.value) else Ok(yielded))
  {
    ghost var start := e.State();
    thrown, yielded := None, [];
    PrependNothing(Drain(e.Fixed(), e.collection[..], start));
    while true
      invariant Drain(e.Fixed(), e.collection[..], start) ==
        Prepend(yielded, Drain(e.Fixed(), e.collection[..], e.State()))
      decreases Remaining(e.end, e.collection.Length, e.position)
    {
      ghost var before := e.State();
      var more := e.MoveNext();
      if more.Err? {
        thrown := Some(more.error);
        assert Drain(e.Fixed(), e.collection[..], before) == Err(more.error);
        return;
      }
      if !more.value {
        assert Drain(e.Fixed(), e.collection[..], before) == Ok([]);
        assert yielded + [] == yielded;
        return;
      }
      assert Drain(e.Fixed(), e.collection[..], before) ==
        Prepend([e.Current()], Drain(e.Fixed(), e.collection[..], e.State()));
      PrependTwice(yielded, [e.Current()], Drain(e.Fixed(), e.collection[..], e.State()));
      yielded := yielded + [e.Current()];
    }
  }

  /**
   * The benchmark body: an enumerator over all of a fresh array of CollectionCount
   * integers, drained to the end. It never throws, and yields every element (all zero)
   * in order.
   */
  method RunBench() returns (thrown: Option<Error>, ghost yielded: seq<int>)
    ensures thrown == None
    ensures yielded == seq(CollectionCount, _ => 0)
  {
    var collection := new int[CollectionCount](_ => 0);
    assert collection[..] == seq(CollectionCount, _ => 0);
    var e := new GenericEnumerator(collection, 0, CollectionCount, 0);
    EnumeratesInOrder(e.Fixed(), collection[..]);
    thrown, yielded := Bench(e);
  }
}
