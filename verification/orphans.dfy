/** Why collection must be childless: a run in which two orphaned processes wait for each other for ever. */
module Orphans {
  import opened Words
  import opened ProcessModel
  import opened ProcessLaws
  import opened Scheduling

  const ANY_ORDER: Rules := Rules(false, true)

  /** A process of owner 0 with an entry and empty queues. */
  function Plain(pid: nat, parent: int, status: Status, exitCode: int, waitTarget: nat): Proc {
    NewProc(parent, 0, true).(pid := pid, status := status, exitCode := exitCode, waitTarget := waitTarget)
  }

  /** A machine in which only slots 1 and 2 may be used besides the kernel's. */
  function Stage(a: Proc, b: Proc, order: seq<nat>, cursor: nat, current: nat, nextPid: nat): Machine {
    Booted().(procs := Booted().procs[1 := a][2 := b], order := order, cursor := cursor, current := current,
        nextPid := nextPid)
  }

  /** Nobody in the list has a signal pending. */
  lemma {:induction false} NothingToDeliver(m: Machine, k: nat)
    requires Sound(m) && k <= |m.order| && forall i | i in m.order :: m.procs[i].signals == []
    ensures DeliverFrom(m, k) == m
    decreases |m.order| - k
  {
    if k < |m.order| {
      assert Deliver(m, m.order[k]) == m;
      NothingToDeliver(m, k + 1);
    }
  }

  /** The scheduler picks x when x is the d-th candidate and those before it cannot run. */
  lemma {:induction false} PicksAt(m: Machine, x: nat, d: nat, e: nat)
    requires Sound(m) && 1 <= e <= d <= |m.order| && Candidate(m, d) == x && m.procs[x].Runnable()
    requires forall k | e <= k < d :: !m.procs[Candidate(m, k)].Runnable()
    ensures PickFrom(m, e) == x
    decreases d - e
  {
    if e < d {
      PicksAt(m, x, d, e + 1);
    }
  }

  /** A tick in which x, the d-th candidate, makes one call. */
  lemma TickTo(m: Machine, x: nat, d: nat, c: Call)
    requires Sound(m) && forall i | i in m.order :: m.procs[i].signals == []
    requires 1 <= d <= |m.order| && Candidate(m, d) == x && m.procs[x].Runnable()
    requires forall k | 1 <= k < d :: !m.procs[Candidate(m, k)].Runnable()
    ensures x in m.order && x != 0
    ensures var e := Put(m.(cursor := x, current := x), x, m.procs[x].(status := Run));
            && Sound(e) && Happen(m, TickEvent([c])).0 == Settle(Perform(e, c).0)
            && (Allowed(e, c, ANY_ORDER) ==> AllowedEvent(m, TickEvent([c]), ANY_ORDER))
  {
    hide Perform, Settle, Allowed, PickFrom;
    NothingToDeliver(m, 0);
    PicksAt(m, x, d, 1);
    var e := Put(m.(cursor := x, current := x), x, m.procs[x].(status := Run));
    assert Started(m) == e;
    OneCall(e, c);
  }

  lemma OneCall(m: Machine, c: Call)
    requires Sound(m)
    ensures PerformAll(m, [c]).0 == Perform(m, c).0
    ensures Allowed(m, c, ANY_ORDER) ==> AllowedCalls(m, [c], ANY_ORDER)
  {
  }

  // A is created by the kernel and forked into B; A ends and is collected although B is its child; B is forked into C,
  // which takes over A's slot and so becomes B's parent as well as its child; B and C wait for each other.
  const S1: Machine := Stage(Plain(2, 0, Ready, 0, 0), EMPTY, [0, 1], 0, 0, 3)
  const S2: Machine := Stage(Plain(2, 0, Ready, 0, 0), Plain(3, 1, Ready, 0, 0), [0, 1, 2], 0, 0, 4)
  const S3: Machine := Stage(Plain(2, 0, Zombie, 7, 0), Plain(3, 1, Ready, 0, 0), [0, 1, 2], 1, 0, 4)
  const S4: Machine := Stage(EMPTY, Plain(3, 1, Ready, 0, 0), [0, 2], 0, 0, 4)
  const S5: Machine := Stage(Plain(4, 2, Ready, 0, 0), Plain(3, 1, Ready, 0, 0), [0, 2, 1], 0, 0, 5)
  const S6: Machine := Stage(Plain(4, 2, Ready, 0, 0), Plain(3, 1, Waiting, 0, 4), [0, 2, 1], 2, 0, 5)
  const S7: Machine := Stage(Plain(4, 2, Waiting, 0, 3), Plain(3, 1, Waiting, 0, 4), [0, 2, 1], 1, 0, 5)

  // The machine as the picked process sees it, and as it leaves it, in the three ticks.
  const E3: Machine := Stage(Plain(2, 0, Run, 0, 0), Plain(3, 1, Ready, 0, 0), [0, 1, 2], 1, 1, 4)
  const F3: Machine := Stage(Plain(2, 0, Zombie, 7, 0), Plain(3, 1, Ready, 0, 0), [0, 1, 2], 1, 1, 4)
  const E6: Machine := Stage(Plain(4, 2, Ready, 0, 0), Plain(3, 1, Run, 0, 0), [0, 2, 1], 2, 2, 5)
  const F6: Machine := Stage(Plain(4, 2, Ready, 0, 0), Plain(3, 1, Waiting, 0, 4), [0, 2, 1], 2, 2, 5)
  const E7: Machine := Stage(Plain(4, 2, Run, 0, 0), Plain(3, 1, Waiting, 0, 4), [0, 2, 1], 1, 1, 5)
  const F7: Machine := Stage(Plain(4, 2, Waiting, 0, 3), Plain(3, 1, Waiting, 0, 4), [0, 2, 1], 1, 1, 5)

  const RUN: seq<Event> := [KernelCall(CreateCall(0, true, true)), KernelCall(ForkCall(2, true)),
                            TickEvent([ExitCall(7)]), KernelCall(WaitCall(2)), KernelCall(ForkCall(3, true)),
                            TickEvent([WaitCall(4)]), TickEvent([WaitCall(3)])]

  /** The k-th process of the list is the one found under its pid, when no earlier one has that pid. */
  lemma FoundAt(m: Machine, pid: nat, k: nat)
    requires Sound(m) && k < |m.order| && m.procs[m.order[k]].pid == pid
    requires forall j | 0 <= j < k :: m.procs[m.order[j]].pid != pid
    ensures Find(m, pid) == m.order[k]
  {
    FoundAfter(m, pid, k, 0);
  }

  lemma {:induction false} FoundAfter(m: Machine, pid: nat, k: nat, i: nat)
    requires Sound(m) && i <= k < |m.order| && m.procs[m.order[k]].pid == pid
    requires forall j | 0 <= j < k :: m.procs[m.order[j]].pid != pid
    ensures FindFrom(m, pid, i) == m.order[k]
    decreases k - i
  {
    if i < k {
      FoundAfter(m, pid, k, i + 1);
    }
  }

  lemma StageSound(a: Proc, b: Proc, order: seq<nat>, cursor: nat, current: nat, nextPid: nat)
    requires -1 <= a.parent < SLOTS && a.parent != 1 && -1 <= b.parent < SLOTS && b.parent != 2
    requires order != [] && order[0] == 0 && (forall k | 0 <= k < |order| :: order[k] < SLOTS) && cursor in order
             && current in order
    ensures Sound(Stage(a, b, order, cursor, current, nextPid))
  {
  }

  lemma Step1()
    ensures Sound(Booted()) && Happen(Booted(), RUN[0]).0 == S1 && AllowedEvent(Booted(), RUN[0], ANY_ORDER)
  {
    assert FreeSlot([0], 1) == 1;
  }

  /** Forking slot i of a stage puts the child into the first free slot. */
  lemma ForkTo(m: Machine, pid: nat, k: nat, s: nat)
    requires Sound(m) && 0 < k < |m.order| && m.procs[m.order[k]].pid == pid != 0 && m.nextPid + 1 < U32
    requires forall j | 0 <= j < k :: m.procs[m.order[j]].pid != pid
    requires m.procs[m.order[k]].hasEntry && m.order[k] != 0 && FreeSlot(m.order, 1) == s < SLOTS
    ensures var i := m.order[k];
            var p := m.procs[i];
            var child := NewProc(i, p.owner, true).(lastSignal := p.lastSignal, lastSignalValue := p.lastSignalValue);
            && Happen(m, KernelCall(ForkCall(pid, true))).0 ==
               Put(m, s, child.(pid := m.nextPid)).(order := m.order + [s], nextPid := m.nextPid + 1)
            && AllowedEvent(m, KernelCall(ForkCall(pid, true)), ANY_ORDER)
  {
    FoundAt(m, pid, k);
  }

  lemma Step2()
    ensures Sound(S1) && Happen(S1, RUN[1]).0 == S2 && AllowedEvent(S1, RUN[1], ANY_ORDER)
  {
    hide Happen, AllowedEvent, Find, Sound;
    StageSound(Plain(2, 0, Ready, 0, 0), EMPTY, [0, 1], 0, 0, 3);
    assert FreeSlot([0, 1], 1) == 2;
    ForkTo(S1, 2, 1, 2);
  }

  lemma Step3()
    ensures Sound(S2) && Happen(S2, RUN[2]).0 == S3 && AllowedEvent(S2, RUN[2], ANY_ORDER)
  {
    hide Happen, AllowedEvent, Sound, Perform, Settle;
    StageSound(Plain(2, 0, Ready, 0, 0), Plain(3, 1, Ready, 0, 0), [0, 1, 2], 0, 0, 4);
    TickTo(S2, 1, 1, ExitCall(7));
    Tick3();
  }

  lemma Tick3()
    ensures Put(S2.(cursor := 1, current := 1), 1, S2.procs[1].(status := Run)) == E3
    ensures Sound(E3) && Perform(E3, ExitCall(7)).0 == F3 && Settle(F3) == S3
  {
    StageSound(Plain(2, 0, Run, 0, 0), Plain(3, 1, Ready, 0, 0), [0, 1, 2], 1, 1, 4);
  }

  lemma Step4()
    ensures Sound(S3) && Happen(S3, RUN[3]).0 == S4 && AllowedEvent(S3, RUN[3], ANY_ORDER)
  {
    hide Sound, Find;
    StageSound(Plain(2, 0, Zombie, 7, 0), Plain(3, 1, Ready, 0, 0), [0, 1, 2], 1, 0, 4);
    FoundAt(S3, 2, 1);
    assert IndexOf([0, 1, 2], 1) == 1 && [0, 1, 2][..1] + [0, 1, 2][2..] == [0, 2];
    assert Release(S3, 1) == S4;
  }

  lemma Step5()
    ensures Sound(S4) && Happen(S4, RUN[4]).0 == S5 && AllowedEvent(S4, RUN[4], ANY_ORDER)
  {
    hide Happen, AllowedEvent, Find, Sound;
    StageSound(EMPTY, Plain(3, 1, Ready, 0, 0), [0, 2], 0, 0, 4);
    assert FreeSlot([0, 2], 1) == 1;
    ForkTo(S4, 3, 1, 1);
  }

  /** A process waits for its k-th listed child. */
  lemma WaitTo(m: Machine, pid: nat, k: nat)
    requires Sound(m) && k < |m.order| && m.procs[m.order[k]].pid == pid && m.procs[m.order[k]].parent == m.current != 0
    requires forall j | 0 <= j < k :: m.procs[m.order[j]].pid != pid
    requires m.procs[m.order[k]].status != Zombie && m.procs[m.current].status != Zombie
    ensures Perform(m, WaitCall(pid)).0 == Put(m, m.current, m.procs[m.current].(waitTarget := pid, status := Waiting))
    ensures Allowed(m, WaitCall(pid), ANY_ORDER)
  {
    FoundAt(m, pid, k);
  }

  lemma Step6()
    ensures Sound(S5) && Happen(S5, RUN[5]).0 == S6 && AllowedEvent(S5, RUN[5], ANY_ORDER)
  {
    hide Happen, AllowedEvent, Sound, Perform, Settle, Allowed;
    StageSound(Plain(4, 2, Ready, 0, 0), Plain(3, 1, Ready, 0, 0), [0, 2, 1], 0, 0, 5);
    TickTo(S5, 2, 1, WaitCall(4));
    Tick6();
  }

  lemma Tick6()
    ensures Put(S5.(cursor := 2, current := 2), 2, S5.procs[2].(status := Run)) == E6
    ensures Sound(E6) && Perform(E6, WaitCall(4)).0 == F6 && Settle(F6) == S6 && Allowed(E6, WaitCall(4), ANY_ORDER)
  {
    hide Perform, Allowed, Sound;
    StageSound(Plain(4, 2, Ready, 0, 0), Plain(3, 1, Run, 0, 0), [0, 2, 1], 2, 2, 5);
    WaitTo(E6, 4, 2);
  }

  lemma Step7()
    ensures Sound(S6) && Happen(S6, RUN[6]).0 == S7 && AllowedEvent(S6, RUN[6], ANY_ORDER)
  {
    hide Happen, AllowedEvent, Sound, Perform, Settle, Allowed;
    StageSound(Plain(4, 2, Ready, 0, 0), Plain(3, 1, Waiting, 0, 4), [0, 2, 1], 2, 0, 5);
    assert IndexOf([0, 2, 1], 2) == 1;
    TickTo(S6, 1, 1, WaitCall(3));
    Tick7();
  }

  lemma Tick7()
    ensures Put(S6.(cursor := 1, current := 1), 1, S6.procs[1].(status := Run)) == E7
    ensures Sound(E7) && Perform(E7, WaitCall(3)).0 == F7 && Settle(F7) == S7 && Allowed(E7, WaitCall(3), ANY_ORDER)
  {
    hide Perform, Allowed, Sound;
    StageSound(Plain(4, 2, Run, 0, 0), Plain(3, 1, Waiting, 0, 4), [0, 2, 1], 1, 1, 5);
    WaitTo(E7, 3, 1);
  }

  /** From m, the rest of the run from event k on is allowed and ends in S7. */
  ghost predicate Leads(m: Machine, k: nat) {
    Sound(m) && k <= |RUN| && AllowedRun(m, RUN[k..], ANY_ORDER) && RunAll(m, RUN[k..]).0 == S7
  }

  lemma Before(m: Machine, k: nat)
    requires Sound(m) && k < |RUN| && AllowedEvent(m, RUN[k], ANY_ORDER) && Leads(Happen(m, RUN[k]).0, k + 1)
    ensures Leads(m, k)
  {
    hide Happen, AllowedEvent, Sound;
    var es := RUN[k..];
    assert es[0] == RUN[k] && es[1..] == RUN[k + 1..];
  }

  /** The run respects every premise but childless collection, and ends with two processes, both with entries, each
      waiting for the other and nobody to run. */
  lemma OrphansDeadlock()
    ensures Sound(Booted()) && AllowedRun(Booted(), RUN, ANY_ORDER) && RunAll(Booted(), RUN).0 == S7
    ensures WaitsFor(S7, 1, 2) && WaitsFor(S7, 2, 1) && S7.procs[1].hasEntry && S7.procs[2].hasEntry && Pick(S7) == -1
  {
    Deadlocked();
    assert Leads(S7, 7);
    AllSteps();
    assert RUN[0..] == RUN;
  }

  lemma AllSteps()
    requires Leads(S7, 7)
    ensures Leads(Booted(), 0)
  {
    hide Happen, AllowedEvent, Stage, Sound, Leads;
    Step7();
    Before(S6, 6);
    Step6();
    Before(S5, 5);
    Step5();
    Before(S4, 4);
    Step4();
    Before(S3, 3);
    Step3();
    Before(S2, 2);
    Step2();
    Before(S1, 1);
    Step1();
    Before(Booted(), 0);
  }

  lemma Deadlocked()
    ensures Sound(S7) && WaitsFor(S7, 1, 2) && WaitsFor(S7, 2, 1) && Pick(S7) == -1
    ensures S7.procs[1].hasEntry && S7.procs[2].hasEntry
  {
    FoundAt(S7, 3, 1);
    FoundAt(S7, 4, 2);
    NobodyRuns(S7);
  }

  lemma NobodyRuns(m: Machine)
    requires Sound(m) && forall i | i in m.order :: !m.procs[i].Runnable()
    ensures Pick(m) == -1
  {
  }
}
