/** The kernel signal queue and its dispatcher (kernel/src/signals.c). */
module KernelSignals {
  import opened Rings

  const MAX_KERNEL_SIGNALS: int := 32
  const QUEUE_CAPACITY: nat := 64

  datatype KernelSignal = KernelSignal(signal: int, value: nat)

  /** What a dispatcher handles that empties a queue of at most limit elements while batches arrive, one after each
      element it takes out. */
  ghost function Drained<T>(queue: seq<T>, batches: seq<seq<T>>, limit: nat): seq<T>
    requires |queue| <= limit
    decreases |batches|
  {
    if queue == [] then [] else if batches == [] then queue else
    [queue[0]] + Drained(queue[1..] + Admitted(queue[1..], batches[0], limit), batches[1..], limit)
  }

  /** What was pending is handled first, in order. */
  lemma {:induction false} DrainedStarts<T>(queue: seq<T>, batches: seq<seq<T>>, limit: nat)
    requires |queue| <= limit
    ensures queue <= Drained(queue, batches, limit)
    decreases |batches|
  {
    if queue != [] && batches != [] {
      var rest := queue[1..] + Admitted(queue[1..], batches[0], limit);
      DrainedStarts(rest, batches[1..], limit);
      assert [queue[0]] + rest <= Drained(queue, batches, limit);
    }
  }

  function Joined<T>(batches: seq<seq<T>>): seq<T> {
    if batches == [] then [] else batches[0] + Joined(batches[1..])
  }

  /** While everything fits and the dispatcher does not run dry before the last batch, all of it is handled, in order.
      */
  lemma {:induction false} DrainedAll<T>(queue: seq<T>, batches: seq<seq<T>>, limit: nat)
    requires |queue| + |Joined(batches)| <= limit && |batches| <= |queue|
    ensures Drained(queue, batches, limit) == queue + Joined(batches)
    decreases |batches|
  {
    if batches != [] {
      var rest := queue[1..] + Admitted(queue[1..], batches[0], limit);
      assert rest == queue[1..] + batches[0];
      DrainedAll(rest, batches[1..], limit);
      assert [queue[0]] + (rest + Joined(batches[1..])) == queue + Joined(batches);
    }
  }

  /** The dispatcher's next turn: x is taken out of the queue, and the next batch arrives. */
  lemma DrainedStep<T>(queue: seq<T>, batches: seq<seq<T>>, i: nat, limit: nat, x: T, rest: seq<T>)
    requires |queue| <= limit && i <= |batches| && queue == [x] + rest
    ensures Drained(queue, batches[i..], limit) ==
            if i == |batches| then [x] + Drained(rest, batches[i..], limit)
            else [x] + Drained(rest + Admitted(rest, batches[i], limit), batches[i + 1..], limit)
  {
  }

  /** The range check of schedule_signal. */
  predicate InRange(s: KernelSignal) {
    0 < s.signal < MAX_KERNEL_SIGNALS
  }

  /** The signals of an interrupt that pass the range check. */
  function Passing(batch: seq<KernelSignal>): (r: seq<KernelSignal>) {
    if batch == [] then [] else
    var r := Passing(batch[..|batch| - 1]);
    if InRange(batch[|batch| - 1]) then r + [batch[|batch| - 1]] else r
  }

  ghost function AllPassing(batches: seq<seq<KernelSignal>>): (r: seq<seq<KernelSignal>>)
    ensures |r| == |batches| && forall i | 0 <= i < |batches| :: r[i] == Passing(batches[i])
  {
    seq(|batches|, i requires 0 <= i < |batches| => Passing(batches[i]))
  }

  /** One signal more of an interrupt: taken in when it passes the check and finds room. */
  lemma ScheduleStep(queue: seq<KernelSignal>, batch: seq<KernelSignal>, i: nat, limit: nat)
    requires |queue| <= limit && i < |batch|
    ensures var before := Admitted(queue, Passing(batch[..i]), limit);
            var after := Admitted(queue, Passing(batch[..i + 1]), limit);
            after == before + if InRange(batch[i]) && |queue + before| < limit then [batch[i]] else []
  {
    assert batch[..i + 1][..i] == batch[..i];
  }

  class SignalQueue {
    const ring: RingBuffer<KernelSignal>

    ghost predicate Valid()
      reads this, ring, ring.slots
    {
      ring.Valid() && ring.slots.Length == QUEUE_CAPACITY
    }

    /** signals_init. */
    constructor ()
      ensures Valid() && fresh(ring) && fresh(ring.slots) && ring.Queue() == []
    {
      ring := new RingBuffer(QUEUE_CAPACITY, KernelSignal(0, 0));
    }

    /** schedule_signal: signals 1 to 31 are queued while fewer than 63 are pending. */
    method Schedule(s: KernelSignal) returns (ok: bool)
      requires Valid()
      modifies ring`tail, ring.slots
      ensures Valid() && (ok <==> 0 < s.signal < MAX_KERNEL_SIGNALS && |old(ring.Queue())| < QUEUE_CAPACITY - 1)
      ensures ring.Queue() == if ok then old(ring.Queue()) + [s] else old(ring.Queue())
    {
      if s.signal <= 0 || s.signal >= MAX_KERNEL_SIGNALS {
        return false;
      }
      ok := ring.TryPut(s);
    }

    /** The schedule_signal calls of one interrupt. */
    method Interrupt(batch: seq<KernelSignal>) returns (ghost accepted: seq<KernelSignal>)
      requires Valid()
      modifies ring`tail, ring.slots
      ensures Valid() && |old(ring.Queue())| < QUEUE_CAPACITY
      ensures accepted == Admitted(old(ring.Queue()), Passing(batch), QUEUE_CAPACITY - 1)
      ensures ring.Queue() == old(ring.Queue()) + accepted
    {
      hide Contents, Admitted, Passing, InRange;
      ghost var queue := ring.Queue();
      ring.Capacity();
      accepted := [];
      NoneYet(queue, batch);
      for i := 0 to |batch|
        invariant Valid() && ring.Queue() == queue + accepted
        invariant accepted == Admitted(queue, Passing(batch[..i]), QUEUE_CAPACITY - 1)
      {
        ScheduleStep(queue, batch, i, QUEUE_CAPACITY - 1);
        InRangeIs(batch[i]);
        var ok := Schedule(batch[i]);
        accepted := if ok then accepted + [batch[i]] else accepted;
      }
      assert batch[..|batch|] == batch;
    }

    /** signal_dispatch_pending, where the signals interrupts[k] are scheduled after its k-th critical section.
        Everything that was pending or is accepted meanwhile is handled once, in order, and the queue is left
        empty. */
    method DispatchPending(interrupts: seq<seq<KernelSignal>>) returns (dispatched: nat, handled: seq<KernelSignal>)
      requires Valid()
      modifies ring`head, ring`tail, ring.slots
      ensures Valid() && ring.Queue() == [] && dispatched == |handled| && |old(ring.Queue())| < QUEUE_CAPACITY
      ensures handled == Drained(old(ring.Queue()), AllPassing(interrupts), QUEUE_CAPACITY - 1)
    {
      hide Contents, Drained, Admitted, Passing;
      handled, dispatched := [], 0;
      ring.Capacity();
      ghost var batches, limit := AllPassing(interrupts), QUEUE_CAPACITY - 1;
      ghost var all := Drained(ring.Queue(), batches, limit);
      var i := 0;
      while true
        invariant Valid() && i <= |interrupts| && dispatched == |handled| && |ring.Queue()| <= limit
        invariant all == handled + Drained(ring.Queue(), batches[i..], limit)
        decreases |interrupts| - i, |ring.Queue()|
      {
        var pending;
        pending, i := DispatchOne(interrupts, i);
        if pending == None {
          return;
        }
        handled := handled + [pending.value];
        dispatched := dispatched + 1;
      }
    }

    /** One turn of the dispatcher: the oldest signal is taken out, and then the next interrupt comes. */
    method DispatchOne(interrupts: seq<seq<KernelSignal>>, i: nat) returns (pending: Option<KernelSignal>, next: nat)
      requires Valid() && i <= |interrupts|
      modifies ring`head, ring`tail, ring.slots
      ensures Valid() && i <= next <= |interrupts| && |old(ring.Queue())| < QUEUE_CAPACITY
              && |ring.Queue()| < QUEUE_CAPACITY
      ensures var before := Drained(old(ring.Queue()), AllPassing(interrupts)[i..], QUEUE_CAPACITY - 1);
              if pending == None then ring.Queue() == [] && before == [] && next == i
              else
                && before == [pending.value] + Drained(ring.Queue(), AllPassing(interrupts)[next..], QUEUE_CAPACITY - 1)
                && (next == i ==> |ring.Queue()| < |old(ring.Queue())|)
    {
      hide Contents, Drained, Admitted, Passing;
      ring.Capacity();
      ghost var queue, batches := ring.Queue(), AllPassing(interrupts);
      next := i;
      pending := ring.TryTake();
      if pending == None {
        NothingDrained(batches[i..]);
        return;
      }
      DrainedStep(queue, batches, i, QUEUE_CAPACITY - 1, pending.value, ring.Queue());
      if i < |interrupts| {
        ghost var more := Interrupt(interrupts[i]);
        next := i + 1;
        ring.Capacity();
      }
    }
  }

  lemma NoneYet(queue: seq<KernelSignal>, batch: seq<KernelSignal>)
    requires |queue| < QUEUE_CAPACITY
    ensures Admitted(queue, Passing(batch[..0]), QUEUE_CAPACITY - 1) == []
  {
  }

  lemma InRangeIs(s: KernelSignal)
    ensures InRange(s) <==> 0 < s.signal < MAX_KERNEL_SIGNALS
  {
  }

  lemma NothingDrained(batches: seq<seq<KernelSignal>>)
    ensures Drained([], batches, QUEUE_CAPACITY - 1) == []
  {
  }
}
