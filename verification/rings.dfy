/** Ring buffers with a head and a tail index, as kernel/src/signals.c, kernel/src/keyboard.c and kernel/src/process.c
    keep them, and the bounded queues they realise. */
module Rings {
  datatype Ring<T> = Ring(slots: seq<T>, head: nat, tail: nat)

  ghost predicate Ok<T>(r: Ring<T>) {
    |r.slots| >= 2 && r.head < |r.slots| && r.tail < |r.slots|
  }

  function EmptyRing<T>(capacity: nat, fill: T): (r: Ring<T>)
    ensures |r.slots| == capacity && r.head == 0 && r.tail == 0
  {
    Ring(seq(capacity, _ => fill), 0, 0)
  }

  /** The pending count as the code computes it. */
  function Count<T>(r: Ring<T>): int {
    if r.tail >= r.head then r.tail - r.head else |r.slots| - r.head + r.tail
  }

  /** The place k behind the head. */
  function Place<T>(r: Ring<T>, k: nat): nat {
    if r.head + k < |r.slots| then r.head + k else r.head + k - |r.slots|
  }

  /** The queue that the ring holds, oldest first. */
  ghost function Contents<T>(r: Ring<T>): (s: seq<T>)
    requires Ok(r)
    ensures |s| == Count(r) < |r.slots|
  {
    seq(Count(r), k requires 0 <= k < Count(r) => r.slots[Place(r, k)])
  }

  predicate Full<T>(r: Ring<T>)
    requires |r.slots| > 0
  {
    (r.tail + 1) % |r.slots| == r.head
  }

  function Enqueue<T>(r: Ring<T>, x: T): Ring<T>
    requires r.tail < |r.slots|
  {
    r.(slots := r.slots[r.tail := x], tail := (r.tail + 1) % |r.slots|)
  }

  function Dequeue<T>(r: Ring<T>): Ring<T>
    requires |r.slots| > 0
  {
    r.(head := (r.head + 1) % |r.slots|)
  }

  lemma Next(i: nat, n: nat)
    requires i < n
    ensures (i + 1) % n == if i + 1 < n then i + 1 else 0
  {
  }

  /** One place always stays unused: the ring is full at capacity minus one. */
  lemma FullMeans<T>(r: Ring<T>)
    requires Ok(r)
    ensures Full(r) <==> |Contents(r)| == |r.slots| - 1
    ensures r.head == r.tail <==> Contents(r) == []
  {
    Next(r.tail, |r.slots|);
  }

  lemma EnqueueAppends<T>(r: Ring<T>, x: T)
    requires Ok(r) && !Full(r)
    ensures Ok(Enqueue(r, x)) && Contents(Enqueue(r, x)) == Contents(r) + [x]
  {
    Next(r.tail, |r.slots|);
    var e := Enqueue(r, x);
    assert Count(e) == Count(r) + 1;
    forall k | 0 <= k < Count(e)
      ensures Contents(e)[k] == (Contents(r) + [x])[k]
    {
      assert Place(e, k) == Place(r, k);
      if k == Count(r) {
        assert Place(r, k) == r.tail;
      } else {
        assert Place(r, k) != r.tail;
      }
    }
  }

  lemma DequeueDrops<T>(r: Ring<T>)
    requires Ok(r) && r.head != r.tail
    ensures Ok(Dequeue(r)) && Contents(r) == [r.slots[r.head]] + Contents(Dequeue(r))
  {
    Next(r.head, |r.slots|);
    var d := Dequeue(r);
    assert Count(d) == Count(r) - 1;
    forall k | 0 <= k < Count(r)
      ensures Contents(r)[k] == ([r.slots[r.head]] + Contents(d))[k]
    {
      if k > 0 {
        assert Place(d, k - 1) == Place(r, k);
      }
    }
  }

  // ---- Any interleaving of producers and consumers ----

  /** One critical section. */
  datatype Op<T> = Insert(x: T) | Extract

  /** The ring after the critical sections, what was accepted and what was removed. */
  function Play<T>(r: Ring<T>, ops: seq<Op<T>>): (out: (Ring<T>, seq<T>, seq<T>))
    requires |r.slots| > 0 && r.tail < |r.slots| && r.head < |r.slots|
    decreases |ops|
  {
    if ops == [] then (r, [], []) else
    match ops[0]
    case Insert(x) =>
      if Full(r) then Play(r, ops[1..]) else
      var (e, accepted, removed) := Play(Enqueue(r, x), ops[1..]);
      (e, [x] + accepted, removed)
    case Extract =>
      if r.head == r.tail then Play(r, ops[1..]) else
      var (e, accepted, removed) := Play(Dequeue(r), ops[1..]);
      (e, accepted, [r.slots[r.head]] + removed)
  }

  /** First in, first out, whatever the interleaving: what was there and what was accepted, in order, is what was
      removed and what is there now. */
  lemma {:induction false} FirstInFirstOut<T>(r: Ring<T>, ops: seq<Op<T>>)
    requires Ok(r)
    ensures var (e, accepted, removed) := Play(r, ops);
            Ok(e) && |e.slots| == |r.slots| && Contents(r) + accepted == removed + Contents(e)
    decreases |ops|
  {
    if ops != [] {
      match ops[0] {
        case Insert(x) =>
          if Full(r) {
            FirstInFirstOut(r, ops[1..]);
          } else {
            EnqueueAppends(r, x);
            FirstInFirstOut(Enqueue(r, x), ops[1..]);
            var accepted := Play(Enqueue(r, x), ops[1..]).1;
            assert Contents(r) + ([x] + accepted) == Contents(r) + [x] + accepted;
          }
        case Extract =>
          if r.head == r.tail {
            FirstInFirstOut(r, ops[1..]);
          } else {
            DequeueDrops(r);
            FirstInFirstOut(Dequeue(r), ops[1..]);
            var (e, accepted, removed) := Play(Dequeue(r), ops[1..]);
            var x := r.slots[r.head];
            assert [x] + Contents(Dequeue(r)) + accepted == [x] + (Contents(Dequeue(r)) + accepted);
            assert [x] + removed + Contents(e) == [x] + (removed + Contents(e));
          }
      }
    }
  }

  datatype Option<T> = None | Some(value: T)

  /** A ring in place, as a static array with two indices. */
  class RingBuffer<T> {
    const slots: array<T>
    var head: nat
    var tail: nat

    ghost function View(): Ring<T>
      reads this, slots
    {
      Ring(slots[..], head, tail)
    }

    ghost predicate Valid()
      reads this, slots
    {
      Ok(View())
    }

    ghost function Queue(): seq<T>
      requires Valid()
      reads this, slots
    {
      Contents(View())
    }

    constructor (capacity: nat, fill: T)
      requires capacity >= 2
      ensures Valid() && fresh(slots) && slots.Length == capacity && Queue() == []
    {
      slots := new T[capacity](_ => fill);
      head, tail := 0, 0;
    }

    lemma Capacity()
      requires Valid()
      ensures |Queue()| < slots.Length
    {
      FullMeans(View());
    }

    /** Accepted exactly when fewer than capacity minus one elements are queued. */
    method TryPut(x: T) returns (ok: bool)
      requires Valid()
      modifies this`tail, slots
      ensures Valid() && (ok <==> |old(Queue())| < slots.Length - 1)
      ensures Queue() == if ok then old(Queue()) + [x] else old(Queue())
    {
      FullMeans(View());
      var nextTail := (tail + 1) % slots.Length;
      if nextTail == head {
        return false;
      }
      EnqueueAppends(View(), x);
      slots[tail] := x;
      tail := nextTail;
      assert View() == Enqueue(old(View()), x);
      ok := true;
    }

    method TryTake() returns (x: Option<T>)
      requires Valid()
      modifies this`head
      ensures Valid() && (x == None <==> old(Queue()) == []) && (x == None ==> Queue() == [])
      ensures x.Some? ==> old(Queue()) == [x.value] + Queue()
    {
      FullMeans(View());
      if head == tail {
        return None;
      }
      DequeueDrops(View());
      x := Some(slots[head]);
      head := (head + 1) % slots.Length;
      assert View() == Dequeue(old(View()));
    }

    /** The pending count is the length of the queue. */
    method Pending() returns (n: nat)
      requires Valid()
      ensures n == |Queue()|
    {
      if tail >= head {
        return tail - head;
      }
      return slots.Length - head + tail;
    }

    /** A batch of interrupts, each putting one element: the queue takes as many as fit, in order. */
    method Arrive(batch: seq<T>) returns (ghost accepted: seq<T>)
      requires Valid()
      modifies this`tail, slots
      ensures Valid() && accepted == Admitted(old(Queue()), batch, slots.Length - 1)
              && Queue() == old(Queue()) + accepted
    {
      hide Contents;
      ghost var room := slots.Length - 1 - |Queue()|;
      accepted := [];
      for i := 0 to |batch|
        invariant Valid() && Queue() == old(Queue()) + accepted && accepted == batch[..if i <= room then i else room]
      {
        var ok := TryPut(batch[i]);
        accepted := if ok then accepted + [batch[i]] else accepted;
      }
    }
  }

  /** The part of a batch that a queue of at most limit elements takes in. */
  ghost function Admitted<T>(queue: seq<T>, batch: seq<T>, limit: nat): seq<T>
    requires |queue| <= limit
  {
    batch[..if |queue| + |batch| <= limit then |batch| else limit - |queue|]
  }

  /** One element more of a batch is taken in exactly when there is room behind those before it. */
  lemma AdmittedStep<T>(queue: seq<T>, batch: seq<T>, x: T, limit: nat)
    requires |queue| <= limit
    ensures var taken := Admitted(queue, batch, limit);
            Admitted(queue, batch + [x], limit) == taken + if |queue + taken| < limit then [x] else []
  {
  }

  lemma AdmittedNone<T>(queue: seq<T>, limit: nat)
    requires |queue| <= limit
    ensures Admitted(queue, [], limit) == []
  {
  }
}
