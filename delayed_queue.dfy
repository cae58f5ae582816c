/** `DelayedQueue` of `delayed_queue.py`: items wait in FIFO order until their delay has
    elapsed and `update` hands the ready ones at the head to their processing callbacks.
    The wall clock is the parameter `now`, and each callback is an identifier whose calls
    are recorded in order. */
module DelayedQueues {

  datatype QueueItem<D> = QueueItem(data: D, timestamp: real, delay: real, handler: nat)

  /** One invocation `process_func(data)`. */
  datatype Call<D> = Call(handler: nat, data: D)

  predicate Ready<D>(item: QueueItem<D>, now: real)
  {
    now >= item.timestamp + item.delay
  }

  /** How many items at the head of the queue are ready at `now`. */
  function ReadyCount<D>(q: seq<QueueItem<D>>, now: real): (n: nat)
    ensures n <= |q|
    ensures forall k :: 0 <= k < n ==> Ready(q[k], now)
    ensures n < |q| ==> !Ready(q[n], now)
  {
    if |q| == 0 || !Ready(q[0], now) then 0 else 1 + ReadyCount(q[1..], now)
  }

  /** The callback invocations for items processed in queue order. */
  function CallsOf<D>(items: seq<QueueItem<D>>): (calls: seq<Call<D>>)
    ensures |calls| == |items|
    ensures forall k :: 0 <= k < |items| ==> calls[k] == Call(items[k].handler, items[k].data)
  {
    if |items| == 0 then [] else [Call(items[0].handler, items[0].data)] + CallsOf(items[1..])
  }

  /** After an update the head, if any, is not yet ready. */
  lemma HeadUnreadyAfterUpdate<D>(q: seq<QueueItem<D>>, now: real)
    ensures var rest := q[ReadyCount(q, now)..];
            |rest| == 0 || !Ready(rest[0], now)
  {
  }

  /** A second update at the same time finds nothing ready. */
  lemma UpdateIdempotent<D>(q: seq<QueueItem<D>>, now: real)
    ensures ReadyCount(q[ReadyCount(q, now)..], now) == 0
  {
  }

  /** Only a prefix is taken: an item behind an unready item stays queued, ready or not. */
  lemma {:induction false} OnlyPrefixTaken<D>(q: seq<QueueItem<D>>, now: real, j: nat, k: nat)
    requires j < k < |q| && !Ready(q[j], now)
    ensures ReadyCount(q, now) <= j
  {
    if j > 0 && |q| > 0 && Ready(q[0], now) {
      assert q[1..][j - 1] == q[j];
      OnlyPrefixTaken(q[1..], now, j - 1, k - 1);
    }
  }

  /** Waiting longer never takes fewer items. */
  lemma {:induction false} ReadyCountMonotone<D>(q: seq<QueueItem<D>>, now: real, later: real)
    requires now <= later
    ensures ReadyCount(q, now) <= ReadyCount(q, later)
  {
    if |q| > 0 && Ready(q[0], now) {
      ReadyCountMonotone(q[1..], now, later);
    }
  }

  class DelayedQueue<D> {
    var queue: seq<QueueItem<D>>
    /** The callback invocations made so far, in order. */
    var calls: seq<Call<D>>

    constructor()
      ensures queue == [] && calls == []
    {
      queue := [];
      calls := [];
    }

    /** `add`, stamped with the current time `now`. */
    method Add(data: D, delay: real, handler: nat, now: real)
      modifies this
      ensures queue == old(queue) + [QueueItem(data, now, delay, handler)]
      ensures calls == old(calls)
    {
      queue := queue + [QueueItem(data, now, delay, handler)];
    }

    /** `update` at time `now`: pops and processes ready items from the head. */
    method Update(now: real)
      modifies this
      ensures var n := ReadyCount(old(queue), now);
              queue == old(queue)[n..] && calls == old(calls) + CallsOf(old(queue)[..n])
    {
      ghost var q0 := queue;
      ghost var taken: nat := 0;
      while |queue| > 0 && Ready(queue[0], now)
        invariant taken <= |q0| && queue == q0[taken..]
        invariant ReadyCount(q0, now) == taken + ReadyCount(queue, now)
        invariant calls == old(calls) + CallsOf(q0[..taken])
        decreases |queue|
      {
        var item := queue[0];
        queue := queue[1..];
        calls := calls + [Call(item.handler, item.data)];
        assert q0[..taken + 1] == q0[..taken] + [item];
        CallsAppend(q0[..taken], item);
        taken := taken + 1;
      }
    }
  }

  lemma {:induction false} CallsAppend<D>(items: seq<QueueItem<D>>, item: QueueItem<D>)
    ensures CallsOf(items + [item]) == CallsOf(items) + [Call(item.handler, item.data)]
  {
    if |items| > 0 {
      assert (items + [item])[1..] == items[1..] + [item];
      CallsAppend(items[1..], item);
    }
  }

  /** The queue's own ordering scenario: items with delays 0.2, 0.1 and 0.3 added at time
      0; at 0.25 the first two are processed in queue order, at 0.35 the third. At 0.15
      nothing is processed although the second item is ready, because the head is not. */
  method OrderScenario() returns (early: seq<Call<string>>, first: seq<Call<string>>, second: seq<Call<string>>)
    ensures early == []
    ensures first == [Call(0, "item2"), Call(0, "item1")]
    ensures second == [Call(0, "item3")]
  {
    var q := new DelayedQueue<string>();
    q.Add("item2", 0.2, 0, 0.0);
    q.Add("item1", 0.1, 0, 0.0);
    q.Add("item3", 0.3, 0, 0.0);
    assert !Ready(q.queue[0], 0.15);
    q.Update(0.15);
    early := q.calls;
    assert Ready(q.queue[0], 0.25) && Ready(q.queue[1], 0.25) && !Ready(q.queue[2], 0.25);
    assert ReadyCount(q.queue, 0.25) == 2;
    q.Update(0.25);
    first := q.calls;
    assert ReadyCount(q.queue, 0.35) == 1;
    q.Update(0.35);
    second := q.calls[|first|..];
  }
}
