/**
 * The Python client's queue and its one thread, in a process that does not fork. Each method is what happens while
 * the lock is held, or one step of the thread outside it.
 */
module HeartbeatSender {
  import opened Prelude

  datatype Item = Item(job: string, suffix: string, durationMs: Option<int>)

  /** Where the thread is: waiting for work, sending an item, or on its way back to the queue, or out, from there. */
  datatype Thread = NoThread | Waiting | Sending(item: Item) | Leaving(dies: bool)

  /** What a ping comes to: it went through, it did not (an `Exception` included), or it raised what kills a thread. */
  datatype Outcome = Through | Lost | Killed

  /** `deque(maxlen=capacity)` after an append: the oldest item goes when there is one too many. */
  function Bounded(queue: seq<Item>, item: Item, capacity: nat): (r: seq<Item>)
    requires |queue| <= capacity
    ensures |r| == Min(|queue| + 1, capacity)
  {
    if |queue| == capacity && capacity > 0 then queue[1..] + [item]
    else if capacity == 0 then []
    else queue + [item]
  }

  /** `n` positions in a row. */
  function Consecutive(first: nat, n: nat): (r: seq<nat>)
    ensures |r| == n && forall i :: 0 <= i < n ==> r[i] == first + i
  {
    seq(n, i requires 0 <= i => first + i)
  }

  lemma ConsecutiveGrows(first: nat, n: nat, before: seq<nat>)
    ensures before + Consecutive(first, n) + [first + n] == before + Consecutive(first, n + 1)
  {
    assert Consecutive(first, n) + [first + n] == Consecutive(first, n + 1);
  }

  /**
   * What is left queued is the newest of what was accepted, what was attempted came before it and was attempted in
   * the order it was submitted, and what is being sent was attempted last.
   */
  ghost predicate InOrder(accepted: seq<Item>, queue: seq<Item>, taken: seq<nat>, sending: Option<Item>) {
    && |queue| <= |accepted| && queue == accepted[|accepted| - |queue|..]
    && (forall i, j :: 0 <= i < j < |taken| ==> taken[i] < taken[j])
    && (forall i :: 0 <= i < |taken| ==> taken[i] < |accepted| - |queue|)
    && (sending.Some? ==> taken != [] && accepted[taken[|taken| - 1]] == sending.value)
  }

  lemma {:induction false} SubmittingKeepsOrder(
      accepted: seq<Item>, queue: seq<Item>, taken: seq<nat>, sending: Option<Item>, item: Item, capacity: nat)
    requires InOrder(accepted, queue, taken, sending) && |queue| <= capacity && 1 <= capacity
    ensures InOrder(accepted + [item], Bounded(queue, item, capacity), taken, sending)
  {
    var after := accepted + [item];
    var bounded := Bounded(queue, item, capacity);
    forall k | 0 <= k < |bounded|
      ensures bounded[k] == after[|after| - |bounded| + k]
    {
    }
    assert bounded == after[|after| - |bounded|..];
  }

  lemma {:induction false} TakingKeepsOrder(accepted: seq<Item>, queue: seq<Item>, taken: seq<nat>)
    requires InOrder(accepted, queue, taken, None) && queue != []
    ensures InOrder(accepted, queue[1..], taken + [|accepted| - |queue|], Some(queue[0]))
  {
  }

  class HeartbeatSender {
    const capacity: nat
    var pingKeys: map<string, string>
    var queue: seq<Item>
    var thread: Thread
    var inFlight: nat
    var deliveredCount: nat
    var failureCount: nat
    var droppedCount: nat

    /** Everything that was queued, in order, and which of it the thread took. */
    ghost var accepted: seq<Item>
    ghost var taken: seq<nat>
    /** Items whose job had lost its ping key when their turn came. */
    ghost var unroutable: nat
    /** Items whose delivery took the thread with it. */
    ghost var killed: nat

    ghost function Ended(): nat
      reads this
    {
      deliveredCount + failureCount + unroutable + killed
    }

    ghost function Uncounted(): nat
      reads this
    {
      if thread.Sending? then 1 else 0
    }

    ghost predicate Valid()
      reads this
    {
      && 1 <= capacity && |queue| <= capacity
      && InOrder(accepted, queue, taken, Sent())
      // One item in flight at most.
      && inFlight == (if thread.Sending? || thread.Leaving? then 1 else 0)
      // Nothing is lost and nothing is counted twice.
      && |accepted| == droppedCount + Ended() + |queue| + Uncounted()
      && |taken| == Ended() + Uncounted()
    }

    ghost function Sent(): Option<Item>
      reads this
    {
      if thread.Sending? then Some(thread.item) else None
    }

    constructor (queueCapacity: int)
      ensures Valid() && capacity == Max(1, queueCapacity)
      ensures queue == [] && accepted == [] && taken == [] && thread == NoThread && pingKeys == map[]
    {
      capacity := Max(1, queueCapacity);
      pingKeys, queue, thread, inFlight := map[], [], NoThread, 0;
      deliveredCount, failureCount, droppedCount := 0, 0, 0;
      accepted, taken, unroutable, killed := [], [], 0, 0;
    }

    method Register(keys: map<string, string>)
      requires Valid()
      modifies this`pingKeys
      ensures Valid() && pingKeys == keys
    {
      pingKeys := keys;
    }

    /**
     * A job that was never declared has nowhere to send to; otherwise the item is queued, at the cost of the oldest.
     */
    method Submit(job: string, suffix: string, durationMs: Option<int>)
      requires Valid()
      modifies this`queue, this`thread, this`droppedCount, this`accepted
      ensures Valid()
      ensures job !in pingKeys ==>
                queue == old(queue) && thread == old(thread) && droppedCount == old(droppedCount) && accepted == old(accepted)
      ensures job in pingKeys ==>
                && accepted == old(accepted) + [Item(job, suffix, durationMs)]
                && queue == Bounded(old(queue), Item(job, suffix, durationMs), capacity)
                && droppedCount == old(droppedCount) + (if |old(queue)| == capacity then 1 else 0)
                && thread == if old(thread).NoThread? then Waiting else old(thread)
    {
      if job !in pingKeys {
        return;
      }
      EnsureThread();
      Append(Item(job, suffix, durationMs));
    }

    /** `deque.append`, with the item it pushes out counted first. */
    method Append(item: Item)
      requires Valid()
      modifies this`queue, this`droppedCount, this`accepted
      ensures Valid()
      ensures accepted == old(accepted) + [item] && queue == Bounded(old(queue), item, capacity)
      ensures droppedCount == old(droppedCount) + (if |old(queue)| == capacity then 1 else 0)
    {
      SubmittingKeepsOrder(accepted, queue, taken, Sent(), item, capacity);
      if |queue| == capacity {
        droppedCount := droppedCount + 1;
      }
      queue := Bounded(queue, item, capacity);
      accepted := accepted + [item];
    }

    method EnsureThread()
      requires Valid()
      modifies this`thread
      ensures Valid() && thread == if old(thread).NoThread? then Waiting else old(thread)
    {
      if thread.NoThread? {
        thread := Waiting;
      }
    }

    /** The thread takes the oldest item that is left. */
    method Take()
      requires Valid() && thread.Waiting? && queue != []
      modifies this`queue, this`thread, this`inFlight, this`taken
      ensures Valid() && thread == Sending(old(queue)[0]) && queue == old(queue)[1..]
      ensures taken == old(taken) + [|accepted| - |old(queue)|]
    {
      var item := queue[0];
      TakingKeepsOrder(accepted, queue, taken);
      taken := taken + [|accepted| - |queue|];
      queue := queue[1..];
      inFlight := inFlight + 1;
      thread := Sending(item);
    }

    /** `_deliver`. */
    method Deliver(outcome: Outcome)
      requires Valid() && thread.Sending?
      modifies this`thread, this`deliveredCount, this`failureCount, this`unroutable, this`killed
      ensures Valid()
      ensures var routable := old(thread).item.job in pingKeys;
              && thread == Leaving(routable && outcome == Killed)
              && deliveredCount == old(deliveredCount) + (if routable && outcome == Through then 1 else 0)
              && failureCount == old(failureCount) + (if routable && outcome == Lost then 1 else 0)
              && killed == old(killed) + (if routable && outcome == Killed then 1 else 0)
              && unroutable == old(unroutable) + (if routable then 0 else 1)
    {
      var dies := false;
      if thread.item.job !in pingKeys {
        unroutable := unroutable + 1;
      } else {
        match outcome
        case Through => deliveredCount := deliveredCount + 1;
        case Lost => failureCount := failureCount + 1;
        case Killed =>
          killed := killed + 1;
          dies := true;
      }
      thread := Leaving(dies);
    }

    /** The `finally` of the loop. */
    method Finish()
      requires Valid() && thread.Leaving?
      modifies this`thread, this`inFlight
      ensures Valid() && inFlight == 0 && thread == if old(thread).dies then NoThread else Waiting
    {
      inFlight := inFlight - 1;
      thread := if thread.dies then NoThread else Waiting;
    }

    /** Once round the loop of `_run`, with a ping that raises nothing worse than an `Exception`. */
    method Round(through: bool)
      requires Valid() && thread.Waiting? && queue != []
      modifies this`queue, this`thread, this`inFlight, this`taken
      modifies this`deliveredCount, this`failureCount, this`unroutable, this`killed
      ensures Valid() && thread.Waiting? && inFlight == 0
      ensures queue == old(queue)[1..] && taken == old(taken) + [|accepted| - |old(queue)|]
      ensures Ended() == old(Ended()) + 1 && killed == old(killed)
      ensures old(queue)[0].job in pingKeys ==> unroutable == old(unroutable)
    {
      Take();
      Deliver(if through then Through else Lost);
      Finish();
    }

    /** The thread left to itself: it takes everything that is queued, in order, and ends with nothing in flight. */
    method Run(answers: nat -> bool)
      requires Valid() && thread.Waiting?
      modifies this`queue, this`thread, this`inFlight, this`taken
      modifies this`deliveredCount, this`failureCount, this`unroutable, this`killed
      ensures Valid() && thread.Waiting? && queue == [] && inFlight == 0
      ensures taken == old(taken) + Consecutive(|accepted| - |old(queue)|, |old(queue)|)
      ensures Ended() == old(Ended()) + |old(queue)| && killed == old(killed)
      ensures (forall i :: 0 <= i < |old(queue)| ==> old(queue)[i].job in pingKeys) ==> unroutable == old(unroutable)
    {
      ghost var before, first := queue, |accepted| - |queue|;
      var n := 0;
      while queue != []
        invariant Valid() && thread.Waiting? && n <= |before| && queue == before[n..]
        invariant taken == old(taken) + Consecutive(first, n)
        invariant Ended() == old(Ended()) + n && killed == old(killed)
        invariant (forall i :: 0 <= i < |before| ==> before[i].job in pingKeys) ==> unroutable == old(unroutable)
        decreases |queue|
      {
        assert queue[0] == before[n];
        ConsecutiveGrows(first, n, old(taken));
        Round(answers(n));
        n := n + 1;
      }
    }

    /** The test of `flush`. */
    method Idle() returns (idle: bool)
      requires Valid()
      ensures idle <==> |accepted| == droppedCount + Ended() && inFlight == 0
    {
      idle := queue == [] && inFlight == 0;
    }
  }
}
