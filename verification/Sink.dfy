/** The bounded, non-blocking event queue between request handlers and the writer. */
module Sink {
  import opened Options
  import opened Sequences

  /** The events among queue slots; the close sentinel is not one. */
  function Items<T>(queue: seq<Option<T>>): seq<T> {
    if queue == [] then []
    else (if queue[0].Some? then [queue[0].value] else []) + Items(queue[1..])
  }

  lemma {:induction false} ItemsSnoc<T>(queue: seq<Option<T>>, slot: Option<T>)
    ensures Items(queue + [slot]) == Items(queue) + (if slot.Some? then [slot.value] else [])
    decreases |queue|
  {
    if queue == [] {
      assert queue + [slot] == [slot];
      assert [slot][1..] == [];
    } else {
      TailOfAppend(queue, [slot]);
      ItemsSnoc(queue[1..], slot);
    }
  }

  class CaptureSink<T> {
    const maxPending: nat
    var queue: seq<Option<T>>
    var closed: bool
    var consumers: nat
    var eventsTotal: nat
    var eventsDropped: nat

    /** Every event ever enqueued, and the part of it already handed to the consumer. */
    ghost var accepted: seq<T>
    ghost var taken: seq<T>
    ghost var attempts: nat

    ghost predicate Valid()
      reads this
    {
      && |queue| <= maxPending && maxPending >= 1
      && accepted == taken + Items(queue)
      && eventsTotal == |accepted| && attempts == eventsTotal + eventsDropped
      && (!closed ==> forall i :: 0 <= i < |queue| ==> queue[i].Some?)
    }

    constructor (maxPendingEvents: int)
      ensures Valid() && accepted == [] && taken == [] && attempts == 0 && !closed && queue == []
      ensures maxPending == if maxPendingEvents < 1 then 1 else maxPendingEvents
    {
      maxPending := if maxPendingEvents < 1 then 1 else maxPendingEvents;
      queue, closed, consumers, eventsTotal, eventsDropped := [], false, 0, 0, 0;
      accepted, taken, attempts := [], [], 0;
    }

    method RegisterConsumer()
      modifies `consumers
      ensures consumers == old(consumers) + 1
    {
      consumers := consumers + 1;
    }

    method UnregisterConsumer()
      modifies `consumers
      ensures consumers == if old(consumers) == 0 then 0 else old(consumers) - 1
    {
      consumers := if consumers == 0 then 0 else consumers - 1;
    }

    /** Never blocks: the event joins the queue, or is counted as dropped when closed or full. */
    method TryPut(e: T) returns (ok: bool)
      requires Valid()
      modifies `queue, `eventsTotal, `eventsDropped, `accepted, `attempts
      ensures Valid() && attempts == old(attempts) + 1
      ensures ok <==> !closed && |old(queue)| < maxPending
      ensures queue == old(queue) + (if ok then [Some(e)] else [])
      ensures accepted == old(accepted) + (if ok then [e] else [])
    {
      attempts := attempts + 1;
      if closed || |queue| >= maxPending {
        eventsDropped := eventsDropped + 1;
        return false;
      }
      ItemsSnoc(queue, Some(e));
      queue := queue + [Some(e)];
      eventsTotal := eventsTotal + 1;
      accepted := accepted + [e];
      return true;
    }

    /** The moment `get` returns: something is queued, or the sink is closed and the wait timed out. */
    method Get() returns (item: Option<T>)
      requires Valid() && (queue != [] || closed)
      modifies `queue, `taken
      ensures Valid()
      ensures item == if old(queue) == [] then None else old(queue)[0]
      ensures queue == if old(queue) == [] then [] else old(queue)[1..]
      ensures item.Some? ==> taken == old(taken) + [item.value] && old(queue) == [item] + queue
      ensures item.None? ==>
        taken == old(taken) && closed && Items(queue) == Items(old(queue)) && |queue| <= |old(queue)|
    {
      if queue == [] {
        return None;
      }
      item := queue[0];
      if item.Some? {
        taken := taken + [item.value];
      }
      assert queue == [queue[0]] + queue[1..];
      queue := queue[1..];
    }

    /** All queued events in order, sentinels skipped. */
    method DrainRemaining() returns (events: seq<T>)
      requires Valid()
      modifies `queue, `taken
      ensures Valid() && queue == [] && taken == accepted
      ensures old(accepted) == old(taken) + events
    {
      events := [];
      while queue != []
        invariant Valid()
        invariant taken == old(taken) + events
        decreases |queue|
      {
        var item := queue[0];
        queue := queue[1..];
        if item.Some? {
          events := events + [item.value];
          taken := taken + [item.value];
        }
      }
    }

    /** No event is accepted from here on; the sentinel only fits if the queue is not full. */
    method Close()
      requires Valid()
      modifies `queue, `closed
      ensures Valid() && closed && Items(queue) == Items(old(queue))
      ensures queue == old(queue) + (if |old(queue)| < maxPending then [None] else [])
    {
      closed := true;
      if |queue| < maxPending {
        ItemsSnoc(queue, None);
        queue := queue + [None];
      }
    }
  }
}
