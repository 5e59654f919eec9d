/** Liveness of the scheduler: no wait deadlock, and bounded waiting. */
module Scheduling {
  import opened ProcessModel
  import opened ProcessLaws

  // ---- What pick_next_process returns ----

  /** How many steps of the circular list lead from the cursor to x. */
  function Distance(m: Machine, x: nat): (d: nat)
    requires Sound(m) && x in m.order
    ensures 1 <= d <= |m.order| && Candidate(m, d) == x
  {
    var a, b := IndexOf(m.order, m.cursor), IndexOf(m.order, x);
    if b > a then b - a else b - a + |m.order|
  }

  /** The candidates follow the list from the cursor on, and from its end go on at its head; the last is the cursor. */
  lemma CandidateMeaning(m: Machine, d: nat, k: nat)
    requires Sound(m) && NoRepeats(m) && d < |m.order| && k < |m.order|
    requires m.order[k] == if d == 0 then m.cursor else Candidate(m, d)
    ensures Candidate(m, d + 1) == m.order[if k + 1 < |m.order| then k + 1 else 0]
    ensures Candidate(m, |m.order|) == m.cursor
  {
  }

  ghost predicate NoRepeats(m: Machine) {
    forall j, k | 0 <= j < k < |m.order| :: m.order[j] != m.order[k]
  }

  lemma ListNoRepeats(m: Machine)
    requires Shape(m)
    ensures NoRepeats(m)
  {
  }

  lemma CandidateDistance(m: Machine, d: nat)
    requires Sound(m) && NoRepeats(m) && 1 <= d <= |m.order|
    ensures Candidate(m, d) in m.order && Distance(m, Candidate(m, d)) == d
  {
  }

  /** Nothing runnable comes before the picked candidate. */
  lemma {:induction false} PickFromFirst(m: Machine, d: nat) returns (k: nat)
    requires Sound(m) && 1 <= d <= |m.order| + 1
    ensures d <= k <= |m.order| + 1 && (forall j | d <= j < k :: !m.procs[Candidate(m, j)].Runnable())
    ensures PickFrom(m, d) == (if k <= |m.order| then Candidate(m, k) else -1)
    ensures k <= |m.order| ==> m.procs[Candidate(m, k)].Runnable()
    decreases |m.order| + 1 - d
  {
    k := d;
    if d <= |m.order| && !m.procs[Candidate(m, d)].Runnable() {
      k := PickFromFirst(m, d + 1);
    }
  }

  /** The picked process is the nearest runnable one after the cursor; NULL means nobody can run. */
  lemma PickIsNearest(m: Machine, x: nat)
    requires Sound(m) && NoRepeats(m) && x in m.order && m.procs[x].Runnable()
    ensures Pick(m) != -1 && Pick(m) in m.order && m.procs[Pick(m)].Runnable()
    ensures Distance(m, Pick(m)) <= Distance(m, x)
  {
    hide Candidate, Sound, Distance;
    assert Candidate(m, Distance(m, x)) == x;
    var k := PickFromFirst(m, 1);
    CandidateDistance(m, k);
  }

  // ---- Waiting for one another ----

  /** Neither waiting nor ended. */
  ghost predicate Active(p: Proc) {
    p.status == Ready || p.status == Run || p.status == Thread
  }

  ghost predicate WaitsFor(m: Machine, i: nat, j: nat)
    requires Sound(m)
  {
    i in m.order && m.procs[i].status == Waiting && Find(m, m.procs[i].waitTarget) == j
  }

  /** Whoever i waits for has a larger pid and has not ended. */
  lemma WaitsForYounger(m: Machine, i: nat, j: nat)
    requires Inv(m, Rules(true, false)) && WaitsFor(m, i, j)
    ensures i in m.order && j in m.order && j != 0
    ensures m.procs[i].pid < m.procs[j].pid && m.procs[j].status != Zombie
  {
    assert WaitOk(m, i);
    Listed(m, j);
    assert ParentOlder(m, j);
  }

  /** No circular wait: along any chain of waiting processes the pid only grows. */
  lemma {:induction false} NoCircularWait(m: Machine, path: seq<nat>)
    requires Inv(m, Rules(true, false)) && |path| >= 2
    requires forall j, k | 0 <= j && k == j + 1 && k < |path| :: WaitsFor(m, path[j], path[k])
    ensures path[0] in m.order && path[|path| - 1] in m.order
    ensures m.procs[path[0]].pid < m.procs[path[|path| - 1]].pid && path[0] != path[|path| - 1]
  {
    hide Inv, Sound, WaitsFor;
    var n := |path|;
    assert WaitsFor(m, path[n - 2], path[n - 1]);
    WaitsForYounger(m, path[n - 2], path[n - 1]);
    if n > 2 {
      NoCircularWait(m, path[..n - 1]);
    }
  }

  /** Following the waits from i ends at an active process. */
  lemma {:induction false} WaitLeadsToActive(m: Machine, i: nat) returns (j: nat)
    requires Inv(m, Rules(true, false)) && i in m.order && m.procs[i].status == Waiting
    ensures j in m.order && j != 0 && Active(m.procs[j])
    decreases m.nextPid - m.procs[i].pid
  {
    assert WaitOk(m, i);
    j := Find(m, m.procs[i].waitTarget);
    WaitsForYounger(m, i, j);
    Listed(m, j);
    if m.procs[j].status == Waiting {
      j := WaitLeadsToActive(m, j);
    }
  }

  /** No wait deadlock: while anyone waits the scheduler finds a process to run, or an active process has no entry. */
  lemma NoWaitDeadlock(m: Machine, i: nat)
    requires Inv(m, Rules(true, false)) && i in m.order && m.procs[i].status == Waiting
    ensures Pick(m) != -1 || exists j :: j in m.order && j != 0 && Active(m.procs[j]) && !m.procs[j].hasEntry
  {
    var j := WaitLeadsToActive(m, i);
    if m.procs[j].hasEntry {
      ListNoRepeats(m);
      PickIsNearest(m, j);
    }
  }

  // ---- Bounded waiting ----

  /** The process picked at each tick of a run. */
  ghost function Picks(m: Machine, es: seq<Event>): seq<int>
    requires Sound(m)
    decreases |es|
  {
    if es == [] then [] else
    (if es[0].TickEvent? then [Pick(DeliverAll(m))] else []) + Picks(Happen(m, es[0]).0, es[1..])
  }

  /** Throughout the run the list stays the same and x can run at every tick. */
  ghost predicate Steady(m: Machine, es: seq<Event>, x: nat)
    requires Sound(m) && x < SLOTS
    decreases |es|
  {
    es != [] ==>
      && (es[0].TickEvent? ==> DeliverAll(m).procs[x].Runnable())
      && Happen(m, es[0]).0.order == m.order && Steady(Happen(m, es[0]).0, es[1..], x)
  }

  /** Calls move the cursor only by releasing the process it is on. */
  lemma CallCursor(m: Machine, c: Call)
    requires Sound(m) && (m.cursor == m.current || Perform(m, c).0.order == m.order)
    ensures Perform(m, c).0.cursor == m.cursor
  {
  }

  lemma {:induction false} CallsCursor(m: Machine, cs: seq<Call>)
    requires Sound(m) && m.cursor == m.current
    ensures PerformAll(m, cs).0.cursor == m.cursor
    decreases |cs|
  {
    hide Perform;
    if cs != [] {
      CallCursor(m, cs[0]);
      CallsCursor(Perform(m, cs[0]).0, cs[1..]);
    }
  }

  lemma TickCursor(m: Machine, body: seq<Call>)
    requires Sound(m) && Pick(DeliverAll(m)) != -1
    ensures Tick(m, body).0.cursor == Pick(DeliverAll(m))
  {
    hide PerformAll, PickFrom, DeliverFrom, Deliver, Sound;
    var d := DeliverAll(m);
    PickListed(d);
    var e := Dispatch(d, Pick(d));
    CallsCursor(e, body);
  }

  lemma MovedCloser(m: Machine, r: Machine, x: nat)
    requires Sound(m) && Sound(r) && r.order == m.order && x in m.order
    requires Distance(m, r.cursor) < Distance(m, x)
    ensures Distance(r, x) == Distance(m, x) - Distance(m, r.cursor)
  {
  }

  lemma SameDistance(m: Machine, r: Machine, x: nat)
    requires Sound(m) && Sound(r) && r.order == m.order && r.cursor == m.cursor && x in m.order
    ensures Distance(r, x) == Distance(m, x)
  {
  }

  /** A tick picks x, or brings the cursor strictly closer to it. */
  lemma TickMovesCloser(m: Machine, body: seq<Call>, x: nat)
    requires Sound(m) && NoRepeats(m) && x in m.order && DeliverAll(m).procs[x].Runnable()
    requires Tick(m, body).0.order == m.order
    ensures Pick(DeliverAll(m)) == x || Distance(Tick(m, body).0, x) < Distance(m, x)
  {
    hide Tick, Distance, Sound, PickFrom, DeliverFrom;
    var d, r := DeliverAll(m), Tick(m, body).0;
    PickIsNearest(d, x);
    TickCursor(m, body);
    SameDistance(m, d, x);
    SameDistance(m, d, r.cursor);
    if Pick(d) != x {
      assert Candidate(m, Distance(m, x)) == x && Candidate(m, Distance(m, r.cursor)) == r.cursor;
      MovedCloser(m, r, x);
    }
  }

  /** Bounded waiting: x is picked within as many ticks as the cursor is steps away from it, at most the list's
      length. */
  lemma {:induction false} BoundedWaiting(m: Machine, es: seq<Event>, x: nat)
    requires Sound(m) && NoRepeats(m) && x in m.order && Steady(m, es, x)
    requires |Picks(m, es)| >= Distance(m, x)
    ensures Distance(m, x) <= |m.order| && x in Picks(m, es)[..Distance(m, x)]
    decreases |es|
  {
    hide Tick, Perform, Distance, Sound, PickFrom, DeliverFrom;
    var e, r := es[0], Happen(m, es[0]).0;
    match e {
      case KernelCall(call) =>
        CallCursor(m, call);
        SameDistance(m, r, x);
        BoundedWaiting(r, es[1..], x);
        assert Picks(m, es) == Picks(r, es[1..]);
      case TickEvent(body) =>
        var p, rest := Pick(DeliverAll(m)), Picks(r, es[1..]);
        TickMovesCloser(m, body, x);
        assert Picks(m, es) == [p] + rest;
        if p == x {
          assert Picks(m, es)[..Distance(m, x)][0] == x;
        } else {
          BoundedWaiting(r, es[1..], x);
          PrefixHas(p, rest, Distance(r, x), Distance(m, x), x);
        }
    }
  }

  lemma PrefixHas(p: int, rest: seq<int>, short: nat, long: nat, x: int)
    requires short < long <= |rest| + 1 && x in rest[..short]
    ensures x in ([p] + rest)[..long]
  {
    var k :| 0 <= k < short && rest[k] == x;
    assert ([p] + rest)[..long][k + 1] == x;
  }
}
