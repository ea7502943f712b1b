/**
 * The publishing loop of `into_stream` (`src/query/common/query_processor.rs`)
 * as a fold over the batches the server sends. Each batch goes through the
 * serializer; its items are sent one by one as `Ok(item)`; a failed send ends
 * that batch, and the loop goes on to the next one. Whether the `k`-th send
 * succeeds is an oracle `accepts(k)`, standing for the channel's receiver.
 */
module Stream {
  import opened Wrappers

  /** What a failed receive would carry; the loop never sends one. */
  datatype StreamError = StreamError(reason: string)

  /** `Ok(item)` for every item. */
  function Oks<T>(xs: seq<T>): (r: seq<Result<T, StreamError>>)
    ensures |r| == |xs| && forall i :: 0 <= i < |xs| ==> r[i] == Success(xs[i])
  {
    seq(|xs|, i requires 0 <= i < |xs| => Success(xs[i]))
  }

  lemma OksAppend<T>(a: seq<T>, b: seq<T>)
    ensures Oks(a + b) == Oks(a) + Oks(b)
  {
  }

  /**
   * The inner loop: send items from attempt number `attempt` on, stopping at the
   * first refused send. What got through is a prefix of the items; the attempts
   * are one per item sent, plus the refused one if there was one.
   */
  function SendItems<T>(items: seq<T>, attempt: nat, accepts: nat -> bool): (r: (seq<T>, nat))
    ensures r.0 <= items
    ensures forall j: nat :: attempt <= j < attempt + |r.0| ==> accepts(j)
    ensures |r.0| < |items| ==> !accepts(attempt + |r.0|) && r.1 == attempt + |r.0| + 1
    ensures |r.0| == |items| ==> r.1 == attempt + |items|
    decreases |items|
  {
    if |items| == 0 then ([], attempt)
    else if !accepts(attempt) then ([], attempt + 1)
    else
      var (rest, next) := SendItems(items[1..], attempt + 1, accepts);
      ([items[0]] + rest, next)
  }

  /**
   * The outer loop: every batch is pulled and serialized; a batch the serializer
   * rejects (`None`) contributes nothing; every item sent is `Ok`.
   */
  function Publish<B, T>(batches: seq<B>, serialize: B -> Option<seq<T>>, attempt: nat, accepts: nat -> bool)
    : (out: seq<Result<T, StreamError>>)
    ensures forall i :: 0 <= i < |out| ==> out[i].Success?
    decreases |batches|
  {
    if |batches| == 0 then []
    else
      match serialize(batches[0])
      case None => Publish(batches[1..], serialize, attempt, accepts)
      case Some(data) =>
        var (sent, next) := SendItems(data, attempt, accepts);
        Oks(sent) + Publish(batches[1..], serialize, next, accepts)
  }

  /** Everything the serializer produced, batch after batch. */
  function Produced<B, T>(batches: seq<B>, serialize: B -> Option<seq<T>>): seq<T>
    decreases |batches|
  {
    if |batches| == 0 then []
    else
      match serialize(batches[0])
      case None => Produced(batches[1..], serialize)
      case Some(data) => data + Produced(batches[1..], serialize)
  }

  /**
   * When the send of item `i` of the first batch is refused, the items before it
   * have been delivered, the rest of that batch is dropped, and publishing goes
   * on with the next batch from the following attempt.
   */
  lemma FailedSendDropsBatchRest<B, T>(batches: seq<B>, serialize: B -> Option<seq<T>>, attempt: nat,
                                       accepts: nat -> bool, i: nat)
    requires |batches| > 0 && serialize(batches[0]).Some? && i < |serialize(batches[0]).value|
    requires forall j: nat :: attempt <= j < attempt + i ==> accepts(j)
    requires !accepts(attempt + i)
    ensures Publish(batches, serialize, attempt, accepts)
         == Oks(serialize(batches[0]).value[..i]) + Publish(batches[1..], serialize, attempt + i + 1, accepts)
  {
    var data := serialize(batches[0]).value;
    var (sent, next) := SendItems(data, attempt, accepts);
    assert sent == data[..i];
  }

  /** With a receiver that takes everything, all items arrive, in batch order and in order within a batch. */
  lemma {:induction false} AllAccepted<B, T>(batches: seq<B>, serialize: B -> Option<seq<T>>, attempt: nat, accepts: nat -> bool)
    requires forall k :: accepts(k)
    ensures Publish(batches, serialize, attempt, accepts) == Oks(Produced(batches, serialize))
    decreases |batches|
  {
    if |batches| > 0 {
      match serialize(batches[0])
      case None =>
        AllAccepted(batches[1..], serialize, attempt, accepts);
      case Some(data) =>
        var (sent, next) := SendItems(data, attempt, accepts);
        AllAccepted(batches[1..], serialize, next, accepts);
        assert sent == data;
        OksAppend(data, Produced(batches[1..], serialize));
    }
  }

  /**
   * A receiver that goes away after `k` sends (every later send fails, as on a
   * closed channel) receives exactly the first `k` items, counted from attempt
   * `attempt`: a prefix of what was produced. The loop keeps pulling batches
   * afterwards but delivers nothing more.
   */
  lemma {:induction false} ClosedReceiverPrefix<B, T>(batches: seq<B>, serialize: B -> Option<seq<T>>, attempt: nat,
                                                       accepts: nat -> bool, k: nat)
    requires forall j: nat :: accepts(j) <==> j < k
    ensures var all := Produced(batches, serialize);
            Publish(batches, serialize, attempt, accepts) == Oks(all[..if attempt >= k then 0 else Min(k - attempt, |all|)])
    decreases |batches|
  {
    if |batches| > 0 {
      var all := Produced(batches, serialize);
      match serialize(batches[0])
      case None =>
        ClosedReceiverPrefix(batches[1..], serialize, attempt, accepts, k);
      case Some(data) =>
        var rest := Produced(batches[1..], serialize);
        assert all == data + rest;
        var (sent, next) := SendItems(data, attempt, accepts);
        ClosedReceiverPrefix(batches[1..], serialize, next, accepts, k);
        var want := if attempt >= k then 0 else Min(k - attempt, |all|);
        var restWant := if next >= k then 0 else Min(k - next, |rest|);
        if |sent| == |data| {
          assert sent == data;
          if |data| > 0 {
            assert accepts(attempt + |data| - 1);
          }
          assert all[..want] == data + rest[..restWant];
        } else {
          assert attempt + |sent| >= k;
          if |sent| > 0 {
            assert accepts(attempt + |sent| - 1);
          }
          assert restWant == 0;
          assert all[..want] == sent;
        }
        OksAppend(sent, rest[..restWant]);
    }
  }

  function Min(a: nat, b: nat): nat {
    if a < b then a else b
  }
}
