/** The `Debouncer`: each `debounce` cancels the work item it stored last (if any),
    stores a new work item wrapping the given action, and schedules that item on its
    queue after the given delay. The action is never run by `debounce` itself.

    A `DispatchWorkItem` is an object; its identity is modelled by a generation
    number, the position of its `asyncAfter` call in the log of scheduled items, and
    `cancel()` by adding that number to the set of cancelled items. The action is an
    uninterpreted value of type `A`, and the clock is left out: a scheduled entry
    records the delay after the moment of the call. */
module Timing {
  import opened Model

  /** The dispatch queue a debouncer schedules on. */
  datatype Queue = MainQueue | CustomQueue(name: string)

  datatype WorkItem<A> = WorkItem(generation: nat, action: A)

  /** One `asyncAfter` call: the item, the queue it went to and the delay before its deadline. */
  datatype Scheduled<A> = Scheduled(item: WorkItem<A>, queue: Queue, delay: real)

  /** The stored `workItem`, the log of scheduled items and the generations cancelled so far. */
  datatype DebouncerState<A> = DebouncerState(
    workItem: Option<WorkItem<A>>,
    scheduled: seq<Scheduled<A>>,
    cancelled: set<nat>)

  /** Before any `debounce` call nothing is stored, scheduled or cancelled. */
  function Initial<A>(): DebouncerState<A> {
    DebouncerState(None, [], {})
  }

  /** The state after `debounce(delay:action:)` on a debouncer bound to `queue`: one
      more item is scheduled, the earlier ones stay as they were, and at most the item
      stored before is newly cancelled (a cancellation is never undone). */
  function Debounced<A>(s: DebouncerState<A>, queue: Queue, delay: real, action: A): (d: DebouncerState<A>)
    ensures |d.scheduled| == |s.scheduled| + 1 && d.scheduled[..|s.scheduled|] == s.scheduled
    ensures s.cancelled <= d.cancelled
    ensures d.cancelled - s.cancelled <= if s.workItem.Some? then {s.workItem.value.generation} else {}
  {
    var cancelled := if s.workItem.Some? then s.cancelled + {s.workItem.value.generation} else s.cancelled;
    var item := WorkItem(|s.scheduled|, action);
    DebouncerState(Some(item), s.scheduled + [Scheduled(item, queue, delay)], cancelled)
  }

  /** The scheduled entries whose item has not been cancelled: the ones whose action
      will still run when their deadline passes. */
  function Live<A>(scheduled: seq<Scheduled<A>>, cancelled: set<nat>): seq<Scheduled<A>>
    decreases |scheduled|
  {
    if scheduled == [] then []
    else
      var last := scheduled[|scheduled| - 1];
      Live(scheduled[..|scheduled| - 1], cancelled) + (if last.item.generation in cancelled then [] else [last])
  }

  /** The actions of the scheduled items no later call cancelled, in scheduling order
      (when each one's delay elapses is not modelled). */
  function Fired<A>(s: DebouncerState<A>): seq<A> {
    var live := Live(s.scheduled, s.cancelled);
    seq(|live|, i requires 0 <= i < |live| => live[i].item.action)
  }

  /** The debouncer's invariant: generations number the scheduled items in order, all
      of them on the debouncer's queue; every item but the latest is cancelled; the
      latest one is the stored work item and is not cancelled. */
  ghost predicate Coalesced<A>(s: DebouncerState<A>, queue: Queue) {
    && (forall k :: 0 <= k < |s.scheduled| ==> s.scheduled[k].item.generation == k && s.scheduled[k].queue == queue)
    && (forall k :: 0 <= k < |s.scheduled| - 1 ==> k in s.cancelled)
    && (forall g :: g in s.cancelled ==> g < |s.scheduled|)
    && (s.scheduled == [] <==> s.workItem.None?)
    && (s.scheduled != [] ==>
          s.workItem == Some(s.scheduled[|s.scheduled| - 1].item) && |s.scheduled| - 1 !in s.cancelled)
  }

  lemma {:induction false} NothingLiveWhenAllCancelled<A>(scheduled: seq<Scheduled<A>>, cancelled: set<nat>)
    requires forall k :: 0 <= k < |scheduled| ==> scheduled[k].item.generation in cancelled
    ensures Live(scheduled, cancelled) == []
  {
    if scheduled != [] {
      NothingLiveWhenAllCancelled(scheduled[..|scheduled| - 1], cancelled);
    }
  }

  /** Under the invariant exactly the latest scheduled item is live. */
  lemma LiveIsLatest<A>(s: DebouncerState<A>, queue: Queue)
    requires Coalesced(s, queue)
    ensures Live(s.scheduled, s.cancelled) == if s.scheduled == [] then [] else [s.scheduled[|s.scheduled| - 1]]
  {
    if s.scheduled != [] {
      var n := |s.scheduled| - 1;
      var prefix := s.scheduled[..n];
      NothingLiveWhenAllCancelled(prefix, s.cancelled);
    }
  }

  /** `debounce` keeps the invariant: it cancels the item stored before (if any),
      leaves every earlier item cancelled, and stores and schedules a fresh item
      wrapping the action on the debouncer's queue after exactly `delay`; that new item
      is the only live one. */
  lemma DebouncedCoalesces<A>(s: DebouncerState<A>, queue: Queue, delay: real, action: A)
    requires Coalesced(s, queue)
    ensures Coalesced(Debounced(s, queue, delay, action), queue)
    ensures s.workItem.Some? ==> s.workItem.value.generation in Debounced(s, queue, delay, action).cancelled
    ensures forall k :: 0 <= k < |s.scheduled| ==> s.scheduled[k].item.generation != |s.scheduled|
    ensures Live(Debounced(s, queue, delay, action).scheduled, Debounced(s, queue, delay, action).cancelled)
      == [Scheduled(WorkItem(|s.scheduled|, action), queue, delay)]
  {
    var t := Debounced(s, queue, delay, action);
    var n := |s.scheduled|;
    var latest := Scheduled(WorkItem(n, action), queue, delay);
    assert t.scheduled == s.scheduled + [latest];
    assert t.cancelled == if n == 0 then s.cancelled else s.cancelled + {n - 1};
    assert forall k :: 0 <= k < n ==> t.scheduled[k] == s.scheduled[k];
    assert forall k :: 0 <= k < |t.scheduled| ==> t.scheduled[k].item.generation == k && t.scheduled[k].queue == queue;
    assert forall k :: 0 <= k < |t.scheduled| - 1 ==> k in t.cancelled;
    assert forall g :: g in t.cancelled ==> g < |t.scheduled|;
    assert t.workItem == Some(t.scheduled[n].item) && n !in t.cancelled;
    LiveIsLatest(t, queue);
  }

  /** One `debounce(delay:action:)` call. */
  datatype Call<A> = Call(delay: real, action: A)

  /** The state after a sequence of `debounce` calls on a fresh debouncer. */
  function Replay<A>(calls: seq<Call<A>>, queue: Queue): DebouncerState<A>
    decreases |calls|
  {
    if calls == [] then Initial()
    else
      var last := calls[|calls| - 1];
      Debounced(Replay(calls[..|calls| - 1], queue), queue, last.delay, last.action)
  }

  /** Across any sequence of `debounce` calls on a fresh debouncer the invariant
      holds, and each call scheduled exactly one item. */
  lemma {:induction false} ReplayCoalesces<A>(calls: seq<Call<A>>, queue: Queue)
    ensures Coalesced(Replay(calls, queue), queue)
    ensures |Replay(calls, queue).scheduled| == |calls|
  {
    if calls != [] {
      var n := |calls| - 1;
      var before := Replay(calls[..n], queue);
      ReplayCoalesces(calls[..n], queue);
      DebouncedCoalesces(before, queue, calls[n].delay, calls[n].action);
      assert Replay(calls, queue) == Debounced(before, queue, calls[n].delay, calls[n].action);
    }
  }

  /** The k-th `debounce` call scheduled an item of generation k wrapping its own
      action, on the debouncer's queue, after its own delay. */
  lemma {:induction false} ReplayScheduled<A>(calls: seq<Call<A>>, queue: Queue, k: nat)
    requires k < |calls|
    ensures k < |Replay(calls, queue).scheduled|
    ensures Replay(calls, queue).scheduled[k] == Scheduled(WorkItem(k, calls[k].action), queue, calls[k].delay)
  {
    var n := |calls| - 1;
    var before := Replay(calls[..n], queue);
    ReplayCoalesces(calls[..n], queue);
    var after := Replay(calls, queue);
    assert after.scheduled == before.scheduled + [Scheduled(WorkItem(n, calls[n].action), queue, calls[n].delay)];
    if k < n {
      ReplayScheduled(calls[..n], queue, k);
      assert calls[..n][k] == calls[k];
    }
  }

  /** When a burst of `debounce` calls is made before the first deadline passes, at
      most one item is still uncancelled, the one of the latest call, so exactly one
      action runs: the one passed last. */
  lemma ReplayFiresLatest<A>(calls: seq<Call<A>>, queue: Queue)
    ensures Fired(Replay(calls, queue)) == if calls == [] then [] else [calls[|calls| - 1].action]
  {
    ReplayCoalesces(calls, queue);
    LiveIsLatest(Replay(calls, queue), queue);
  }

  class Debouncer<A> {
    var workItem: Option<WorkItem<A>>
    const queue: Queue
    /** Every `asyncAfter` call made so far. */
    var scheduled: seq<Scheduled<A>>
    var cancelled: set<nat>

    function State(): DebouncerState<A>
      reads this
    {
      DebouncerState(workItem, scheduled, cancelled)
    }

    ghost predicate Valid()
      reads this
    {
      Coalesced(State(), queue)
    }

    /** `init(queue:)`: nothing is stored yet. */
    constructor (queue: Queue)
      ensures Valid() && this.queue == queue && State() == Initial()
    {
      this.queue := queue;
      workItem := None;
      scheduled := [];
      cancelled := {};
    }

    /** `init()`: the queue defaults to the main queue. */
    constructor OnMain()
      ensures Valid() && queue == MainQueue && State() == Initial()
    {
      queue := MainQueue;
      workItem := None;
      scheduled := [];
      cancelled := {};
    }

    /** `debounce(delay:action:)`: what it does to the stored item, the scheduling log
        and the cancelled set is `Debounced`, and the invariant is kept. */
    method Debounce(delay: real, action: A)
      requires Valid()
      modifies this`workItem, this`scheduled, this`cancelled
      ensures Valid()
      ensures State() == Debounced(old(State()), queue, delay, action)
    {
      ghost var before := State();
      // the item stored before, if any, will not run
      if workItem.Some? {
        cancelled := cancelled + {workItem.value.generation};
      }
      // the new item takes the next generation number
      workItem := Some(WorkItem(|scheduled|, action));
      if workItem.Some? {
        scheduled := scheduled + [Scheduled(workItem.value, queue, delay)];
      }
      assert State() == Debounced(before, queue, delay, action);
      DebouncedCoalesces(before, queue, delay, action);
    }
  }
}
