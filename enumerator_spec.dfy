/**
 * The fail-fast generic enumerator of the generic-enumeration benchmark, as a pure
 * state machine. The enumerator's readonly fields (begin, end and the element type's
 * default value) form a `Config`; its mutable fields (the captured version, the current
 * element and the position) form a `Cursor`. Each operation maps a cursor and the
 * collection's contents to an outcome and the next cursor.
 *
 * The operations are those of `ArrayEnumerator<T>`, the only operations record the
 * benchmark instantiates: positions are integers, the step is +1, the version of an
 * array is always 0 and values are read by indexing.
 */
module EnumeratorSpec {

  /** The exceptions a call to MoveNext can raise. */
  datatype Error =
    | InvalidOperation   // the collection's version no longer matches the captured one
    | IndexOutOfRange    // the array was indexed outside its bounds

  /** A call's outcome: a returned value, or the exception it threw. */
  datatype Result<+R> = Ok(value: R) | Err(error: Error)

  datatype Option<+T> = None | Some(value: T)

  // ---------------------------------------------------------------------------
  // ArrayEnumerator<T>: the operations record for collections that are arrays
  // ---------------------------------------------------------------------------

  /** The largest `int`; no C# array has more elements than this. */
  const Int32Max: int := 0x7fff_ffff

  /** The version of an array never changes, whatever its contents. */
  function GetVersion<T>(collection: seq<T>): (v: int)
    ensures v == 0
  {
    0
  }

  /** The next position: one further into the array. */
  function StepForward(position: int): (r: int)
    ensures r == position + 1
  {
    position + 1
  }

  function PositionEquals(lhs: int, rhs: int): (r: bool)
    ensures r <==> lhs == rhs
  {
    lhs == rhs
  }

  /** Array indexing, which throws when the position is outside the array. */
  function GetValue<T>(collection: seq<T>, position: int): (r: Result<T>)
    ensures r.Ok? <==> 0 <= position < |collection|
    ensures r.Ok? ==> r.value == collection[position]
    ensures r.Err? ==> r.error == IndexOutOfRange
  {
    if 0 <= position < |collection| then Ok(collection[position]) else Err(IndexOutOfRange)
  }

  // ---------------------------------------------------------------------------
  // GenericEnumerator: state and transitions
  // ---------------------------------------------------------------------------

  /** The fields fixed at construction: m_begin, m_end, and default(T). */
  datatype Config<T> = Config(begin: int, end: int, defaultValue: T)

  /** The fields the enumerator updates: m_version, m_current, m_position. */
  datatype Cursor<T> = Cursor(version: int, current: T, position: int)

  /** True when the captured version still agrees with the collection's. */
  predicate InSync<T>(collection: seq<T>, s: Cursor<T>)
  {
    s.version == GetVersion(collection)
  }

  /** The state Reset establishes: back at begin, no current element, version recaptured. */
  function Reset<T>(c: Config<T>, collection: seq<T>): (s: Cursor<T>)
    ensures s.position == c.begin && s.current == c.defaultValue
    ensures InSync(collection, s)
  {
    Cursor(GetVersion(collection), c.defaultValue, c.begin)
  }

  /** The state Dispose leaves: Reset, then the captured version poisoned with -1. */
  function Dispose<T>(c: Config<T>, collection: seq<T>): (s: Cursor<T>)
    ensures s.position == c.begin && s.current == c.defaultValue && s.version == -1
    ensures MoveNext(c, collection, s) == (Err(InvalidOperation), s)
  {
    Reset(c, collection).(version := -1)
  }

  /**
   * The step is applied only after a successful read, so for an array of at most
   * Int32Max elements the stepped position is still an `int`: the unchecked `+ 1` of
   * ArrayEnumerator.StepForward never overflows.
   */
  lemma StepAfterReadFitsInt32<T>(collection: seq<T>, position: int)
    requires |collection| <= Int32Max
    requires GetValue(collection, position).Ok?
    ensures 0 < StepForward(position) <= Int32Max
  {
  }

  /**
   * The end-of-sequence path: throws if the version changed, otherwise clears the
   * current element and reports that there is nothing more.
   */
  function MoveLast<T>(c: Config<T>, collection: seq<T>, s: Cursor<T>): (r: (Result<bool>, Cursor<T>))
    ensures !InSync(collection, s) ==> r == (Err(InvalidOperation), s)
    ensures InSync(collection, s) ==> r == (Ok(false), s.(current := c.defaultValue))
  {
    if GetVersion(collection) != s.version then (Err(InvalidOperation), s)
    else (Ok(false), s.(current := c.defaultValue))
  }

  /**
   * One call of MoveNext: when the version matches and the position is not the end,
   * yield the value at the position and step forward; otherwise take MoveLast's path.
   * A call that throws changes nothing.
   */
  function MoveNext<T>(c: Config<T>, collection: seq<T>, s: Cursor<T>): (r: (Result<bool>, Cursor<T>))
    ensures r.0 == Err(InvalidOperation) <==> !InSync(collection, s)
    ensures r.0 == Err(IndexOutOfRange) <==>
      InSync(collection, s) && s.position != c.end && !(0 <= s.position < |collection|)
    ensures r.0 == Ok(false) <==> InSync(collection, s) && s.position == c.end
    ensures r.0 == Ok(true) <==>
      InSync(collection, s) && s.position != c.end && 0 <= s.position < |collection|
    ensures r.0 == Ok(true) ==>
      r.1 == Cursor(s.version, collection[s.position], s.position + 1)
    ensures r.0 == Ok(false) ==> r.1 == s.(current := c.defaultValue)
    ensures r.0.Err? ==> r.1 == s
  {
    var position := s.position;
    if GetVersion(collection) == s.version && !PositionEquals(position, c.end) then
      match GetValue(collection, position)
      case Err(e) => (Err(e), s)
      case Ok(v) => (Ok(true), s.(current := v, position := StepForward(position)))
    else
      MoveLast(c, collection, s)
  }

  // ---------------------------------------------------------------------------
  // Draining: `while (enumerator.MoveNext()) continue;`
  // ---------------------------------------------------------------------------

  /**
   * A bound on the number of further successful MoveNext calls from `position`:
   * up to `end` when below it, otherwise up to the array's length, past which
   * indexing throws.
   */
  function Remaining(end: int, length: nat, position: int): (n: nat)
  {
    if position < end then end - position + length
    else if position < length then length - position
    else 0
  }

  /** Prefixes the values of a successful drain with `xs`; an exception stays as it is. */
  function Prepend<T>(xs: seq<T>, r: Result<seq<T>>): (p: Result<seq<T>>)
  {
    match r
    case Ok(ys) => Ok(xs + ys)
    case Err(e) => Err(e)
  }

  lemma PrependNothing<T>(r: Result<seq<T>>)
    ensures Prepend([], r) == r
  {
    if r.Ok? {
      assert [] + r.value == r.value;
    }
  }

  lemma PrependTwice<T>(xs: seq<T>, ys: seq<T>, r: Result<seq<T>>)
    ensures Prepend(xs, Prepend(ys, r)) == Prepend(xs + ys, r)
  {
    if r.Ok? {
      assert xs + (ys + r.value) == (xs + ys) + r.value;
    }
  }

  /**
   * The values `Current` takes after each successful MoveNext when the enumerator is
   * drained from state `s`, or the exception that ends the loop.
   */
  function Drain<T>(c: Config<T>, collection: seq<T>, s: Cursor<T>): (r: Result<seq<T>>)
    ensures !InSync(collection, s) ==> r == Err(InvalidOperation)
    decreases Remaining(c.end, |collection|, s.position)
  {
    var (outcome, next) := MoveNext(c, collection, s);
    match outcome
    case Err(e) => Err(e)
    case Ok(more) =>
      if more then Prepend([next.current], Drain(c, collection, next)) else Ok([])
  }

  /** The outcomes of `n` consecutive MoveNext calls from state `s`. */
  function Repeat<T>(c: Config<T>, collection: seq<T>, s: Cursor<T>, n: nat): (r: seq<Result<bool>>)
    ensures |r| == n
    decreases n
  {
    if n == 0 then []
    else
      var (outcome, next) := MoveNext(c, collection, s);
      [outcome] + Repeat(c, collection, next, n - 1)
  }

  // ---------------------------------------------------------------------------
  // Properties
  // ---------------------------------------------------------------------------

  /**
   * From any in-sync position between 0 and end (end within the array), draining
   * yields exactly the elements from that position up to end, in order, without
   * indexing outside the array.
   */
  lemma {:induction false} DrainYieldsRange<T>(c: Config<T>, collection: seq<T>, s: Cursor<T>)
    requires InSync(collection, s)
    requires 0 <= s.position <= c.end <= |collection|
    ensures Drain(c, collection, s) == Ok(collection[s.position..c.end])
    decreases c.end - s.position
  {
    if s.position < c.end {
      var next := Cursor(s.version, collection[s.position], s.position + 1);
      assert MoveNext(c, collection, s) == (Ok(true), next);
      assert Drain(c, collection, s) == Prepend([collection[s.position]], Drain(c, collection, next));
      DrainYieldsRange(c, collection, next);
      assert [collection[s.position]] + collection[s.position + 1..c.end] == collection[s.position..c.end];
    } else {
      assert MoveNext(c, collection, s).0 == Ok(false);
      assert Drain(c, collection, s) == Ok([]);
      assert collection[s.position..c.end] == [];
    }
  }

  /**
   * From an in-sync position p with 0 <= p <= end <= length, the next end - p calls of
   * MoveNext return true and the one after returns false.
   */
  lemma {:induction false} TrueUntilEnd<T>(c: Config<T>, collection: seq<T>, s: Cursor<T>)
    requires InSync(collection, s)
    requires 0 <= s.position <= c.end <= |collection|
    ensures Repeat(c, collection, s, c.end - s.position + 1) ==
      seq(c.end - s.position, _ => Ok(true)) + [Ok(false)]
    decreases c.end - s.position
  {
    var n := c.end - s.position;
    if n == 0 {
      assert Repeat(c, collection, s, 1) == [Ok(false)] + Repeat(c, collection, s.(current := c.defaultValue), 0);
    } else {
      var next := Cursor(s.version, collection[s.position], s.position + 1);
      TrueUntilEnd(c, collection, next);
      assert Repeat(c, collection, s, n + 1) == [Ok(true)] + Repeat(c, collection, next, n);
      assert [Ok(true)] + (seq(n - 1, _ => Ok(true)) + [Ok(false)]) == seq(n, _ => Ok(true)) + [Ok(false)];
    }
  }

  /**
   * After construction or Reset with 0 <= begin <= end <= length, MoveNext returns true
   * exactly end - begin times and then false, and the enumerator yields a[begin], ...,
   * a[end-1] in order.
   */
  lemma EnumeratesInOrder<T>(c: Config<T>, collection: seq<T>)
    requires 0 <= c.begin <= c.end <= |collection|
    ensures Repeat(c, collection, Reset(c, collection), c.end - c.begin + 1) ==
      seq(c.end - c.begin, _ => Ok(true)) + [Ok(false)]
    ensures Drain(c, collection, Reset(c, collection)) == Ok(collection[c.begin..c.end])
  {
    TrueUntilEnd(c, collection, Reset(c, collection));
    DrainYieldsRange(c, collection, Reset(c, collection));
  }

  /**
   * Once the position is end and the version matches, every further MoveNext returns
   * false, and the cursor stays put with the default value as its current element.
   */
  lemma {:induction false} FinishedStaysFinished<T>(c: Config<T>, collection: seq<T>, s: Cursor<T>, n: nat)
    requires InSync(collection, s) && s.position == c.end
    ensures Repeat(c, collection, s, n) == seq(n, _ => Ok(false))
    decreases n
  {
    if n > 0 {
      var next := s.(current := c.defaultValue);
      FinishedStaysFinished(c, collection, next, n - 1);
      assert Repeat(c, collection, s, n) == [Ok(false)] + Repeat(c, collection, next, n - 1);
    }
  }

  /**
   * Once the captured version differs from the collection's, every MoveNext throws
   * InvalidOperation, whatever the position, and no element is ever yielded.
   */
  lemma {:induction false} StaleVersionAlwaysThrows<T>(c: Config<T>, collection: seq<T>, s: Cursor<T>, n: nat)
    requires !InSync(collection, s)
    ensures Repeat(c, collection, s, n) == seq(n, _ => Err(InvalidOperation))
    decreases n
  {
    if n > 0 {
      StaleVersionAlwaysThrows(c, collection, s, n - 1);
      assert Repeat(c, collection, s, n) == [Err(InvalidOperation)] + Repeat(c, collection, s, n - 1);
    }
  }
}
