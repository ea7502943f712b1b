/**
 * `src/query/query_processor.rs`: the serializer default of `QueryResult` and
 * the bounded counter exposed to the host as an async iterator. The counter's
 * state is a pair of `i32`; each call returns the iterator result and the new
 * state, which is how the source's `&mut self` methods are modelled.
 */
module AsyncIterator {
  import opened Wrappers
  import opened Numbers

  /**
   * `crate::serializer::Serializer`: the enum `QueryResult` holds. It has the
   * same variants as the clients' enum but is a type of its own, without a
   * `Default`.
   */
  datatype Serializer = Unsafe | Library | Raw

  /** `QueryResult`, with the response stream left out. */
  datatype QueryResult = QueryResult(serializer: Serializer)

  /** `QueryResult::new`: a given serializer is kept and a missing one becomes `Unsafe`. */
  function NewQueryResult(serializer: Option<Serializer>): (q: QueryResult)
    ensures serializer.Some? ==> q.serializer == serializer.value
    ensures serializer.None? ==> q.serializer == Unsafe
  {
    QueryResult(serializer.GetOr(Unsafe))
  }

  /** `MyAsyncIterator`. */
  datatype Counter = Counter(current: I32, max: I32)

  /** `AsyncIteratorWrapper`: the state the host iterates over. */
  datatype Wrapper = Wrapper(current: I32, max: I32)

  /** `IteratorResult`. */
  datatype IteratorResult = IteratorResult(value: Option<I32>, done: bool)

  /** The error `throw` reports. */
  datatype Status = GenericFailure
  datatype IteratorError = IteratorError(status: Status, reason: string)

  /** `MyAsyncIterator::new`: counting from zero. */
  function NewCounter(max: I32): (c: Counter)
    ensures c.current == 0 && c.max == max
  {
    Counter(0, max)
  }

  /** `async_iterator`: a wrapper starting where the counter stands. */
  function Iterate(c: Counter): (w: Wrapper)
    ensures w.current == c.current && w.max == c.max
  {
    Wrapper(c.current, c.max)
  }

  /**
   * `next`: below the bound, the current value is yielded and the counter
   * moves up by one (which cannot overflow, being below an `i32`); at or above
   * it, the iterator is done and nothing changes.
   */
  function Next(w: Wrapper): (r: (IteratorResult, Wrapper))
    ensures w.current < w.max ==> r.0 == IteratorResult(Some(w.current), false)
                                  && r.1 == Wrapper(w.current + 1, w.max)
    ensures w.current >= w.max ==> r.0 == IteratorResult(None, true) && r.1 == w
    ensures r.0.done <==> r.0.value.None?
    ensures r.1.max == w.max && w.current <= r.1.current <= w.current + 1
  {
    if w.current < w.max then
      (IteratorResult(Some(w.current), false), Wrapper(w.current + 1, w.max))
    else
      (IteratorResult(None, true), w)
  }

  /** `return_`: always done, whatever it is given; the state is kept. */
  function Return(w: Wrapper, value: Option<I32>): (r: (IteratorResult, Wrapper))
    ensures r.0.done && r.0.value.None? && r.1 == w
  {
    (IteratorResult(None, true), w)
  }

  /** `throw`: always an error; the state is kept. */
  function Throw(w: Wrapper, error: string): (r: (Result<IteratorResult, IteratorError>, Wrapper))
    ensures r.0.Failure? && r.0.error.status == GenericFailure && r.1 == w
  {
    (Failure(IteratorError(GenericFailure, "Iterator was thrown")), w)
  }

  /** `n` successive calls of `next`: the results in order and the final state. */
  function Drain(w: Wrapper, n: nat): (r: (seq<IteratorResult>, Wrapper))
    ensures |r.0| == n
    decreases n
  {
    if n == 0 then ([], w)
    else
      var (first, w1) := Next(w);
      var (rest, last) := Drain(w1, n - 1);
      ([first] + rest, last)
  }

  /** What the `k`-th call of `next` yields from `w`. */
  function Expected(w: Wrapper, k: nat): IteratorResult {
    if w.current + k < w.max then IteratorResult(Some(w.current + k), false) else IteratorResult(None, true)
  }

  /**
   * From any state, `next` yields `current`, `current + 1`, ... up to `max - 1`
   * and then reports done for ever; the counter stops at `max` (or stays where
   * it was, if it started above), so it never passes the bound.
   */
  lemma {:induction false} DrainCounts(w: Wrapper, n: nat)
    ensures forall k :: 0 <= k < n ==> Drain(w, n).0[k] == Expected(w, k)
    ensures Drain(w, n).1.max == w.max
    ensures Drain(w, n).1.current == if w.current >= w.max then w.current
                                     else if w.current + n < w.max then w.current + n else w.max
    decreases n
  {
    if n > 0 {
      var (first, w1) := Next(w);
      DrainCounts(w1, n - 1);
      var rs := Drain(w, n).0;
      assert rs == [first] + Drain(w1, n - 1).0;
      forall k | 0 < k < n
        ensures rs[k] == Expected(w, k)
      {
        assert rs[k] == Drain(w1, n - 1).0[k - 1];
        assert Expected(w1, k - 1) == Expected(w, k);
      }
    }
  }

  /** A fresh counter over `max >= 0` yields exactly `0, 1, ..., max - 1` and is then done. */
  lemma CounterYieldsRange(max: I32, n: nat)
    requires max >= 0 && n > max
    ensures var rs := Drain(Iterate(NewCounter(max)), n).0;
            (forall k :: 0 <= k < max ==> rs[k] == IteratorResult(Some(k), false))
            && forall k :: max <= k < n ==> rs[k].done
  {
    var w := Iterate(NewCounter(max));
    assert w == Wrapper(0, max);
    DrainCounts(w, n);
    var rs := Drain(w, n).0;
    forall k | 0 <= k < n
      ensures rs[k] == if k < max then IteratorResult(Some(k), false) else IteratorResult(None, true)
    {
      assert rs[k] == Expected(w, k);
    }
  }
}
