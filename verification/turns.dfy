/** What a tick does beside the calls of the picked process, and how an exit or a fatal signal reaches the process that
    waits for it (scheduler_run_pending, schedule_next_process and process_exit in kernel/src/process.c). */
module Turns {
  import opened Words
  import opened ProcessModel
  import opened ProcessLaws
  import opened Zombies
  import opened CallMeanings
  import opened Deliveries

  // ---- The parts of a tick ----

  /** Up to the context switch a tick delivers all pending signals; then the picked process, if there is one, runs, and
      cursor and current process are its own. Its own delivery finds nothing left. */
  lemma StartedMeaning(m: Machine)
    requires Shape(m)
    ensures var (d, p, r) := (DeliverAll(m), Pick(DeliverAll(m)), Started(m));
            if p == -1 then r == d
            else
              && 0 < p < SLOTS && p in m.order && CanRun(d.procs[p]) && d.procs[p].signals == []
              && r == d.(cursor := p, current := p, procs := d.procs[p := d.procs[p].(status := Run)])
  {
    hide Shape, DeliverFrom, PickFrom, Sound, LosesChild;
    var (d, p) := (DeliverAll(m), Pick(DeliverAll(m)));
    DeliverFromEvolves(m, 0);
    Evolved(m, d);
    PickListed(d);
    if p != -1 {
      DeliverAllMeaning(m, p);
      DispatchIdle(d, p);
    }
  }

  lemma DispatchIdle(d: Machine, p: nat)
    requires Sound(d) && p in d.order && p != 0 && d.procs[p].signals == []
    requires d.procs[p].status != Zombie && d.procs[p].status != Waiting
    ensures Dispatch(d, p) == d.(cursor := p, current := p, procs := d.procs[p := d.procs[p].(status := Run)])
  {
  }

  /** schedule_next_process for any listed process, whatever is pending for it: its signals are handed over first, and
      it runs unless it waits or has ended. */
  lemma DispatchMeaning(m: Machine, p: nat)
    requires Shape(m) && p in m.order && p != 0
    ensures var (h, r) := (Handed(m.procs[p], false), Dispatch(m, p));
            && r.cursor == p == r.current && r.order == m.order && r.nextPid == m.nextPid && |r.procs| == SLOTS
            && r.procs[p] == (if h.status == Zombie || h.status == Waiting then h else h.(status := Run))
            && forall k: nat | k < SLOTS && k != p ::
                 r.procs[k] == if Dies(m.procs[p], false) then Bereaved(m, p, k) else m.procs[k]
  {
    hide Shape, Evolves, Handed, Dies, Bereaved, Deliver, Sound;
    var c := m.(cursor := p, current := p);
    SwitchEvolves(m, p, p);
    Evolved(m, c);
    DeliverOne(c, p);
    forall k: nat | k < SLOTS && k != p
      ensures Bereaved(c, p, k) == Bereaved(m, p, k)
    {
      SameBereaved(m, c, p, k);
    }
  }

  /** Whether anyone can run, the calls of the picked process, and back to the kernel. */
  lemma TickMeaning(m: Machine, body: seq<Call>)
    requires Shape(m)
    ensures Tick(m, body) ==
            if Pick(DeliverAll(m)) == -1 then (DeliverAll(m), [])
            else (Settle(PerformAll(Started(m), body).0), PerformAll(Started(m), body).1)
  {
    hide Shape, DeliverFrom, PickFrom, Sound, Dispatch, PerformAll, Settle;
    StartedMeaning(m);
    PickListed(DeliverAll(m));
  }

  /** After the switch back a process that still runs is ready, the kernel is current, and nothing else has changed. */
  lemma SettleMeaning(m: Machine)
    requires Sound(m)
    ensures var (i, r) := (m.current, Settle(m));
            && r == m.(current := 0, procs := r.procs) && |r.procs| == SLOTS
            && r.procs[i] == (if m.procs[i].status == Run then m.procs[i].(status := Ready) else m.procs[i])
            && forall k: nat | k < SLOTS && k != i :: r.procs[k] == m.procs[k]
  {
  }

  /** When the picked process gets the processor, no live process has a signal pending. */
  lemma QueuesEmpty(m: Machine, i: nat)
    requires Shape(m) && i in m.order
    ensures Started(m).procs[i].status != Zombie ==> Started(m).procs[i].signals == []
  {
    hide Shape, DeliverFrom, PickFrom, Sound, LosesChild, Started;
    StartedMeaning(m);
    DeliverAllMeaning(m, i);
  }

  // ---- Nobody runs between ticks ----

  /** Only the current process may be running. */
  ghost predicate OneRuns(m: Machine)
    requires Sound(m)
  {
    forall k | k in m.order && k != m.current :: m.procs[k].status != Run
  }

  lemma CallKeepsTurn(m: Machine, c: Call)
    requires Shape(m) && OneRuns(m) && (c.CreateCall? || c.ForkCall? ==> m.nextPid + 1 < U32)
    ensures OneRuns(Perform(m, c).0)
  {
    hide Shape, Sound, Find, Perform;
    match c {
      case CreateCall(owner, hasEntry, memoryOk) => CreateMeaning(m, owner, hasEntry, memoryOk);
      case ForkCall(pid, memoryOk) => ForkKeepsTurn(m, pid, memoryOk);
      case WaitCall(pid) => WaitKeepsTurn(m, pid);
      case ExitCall(code) => ExitMeaning(m, code); ExitList(m, code);
      case SignalCall(pid, pending) => SignalMeaning(m, pid, pending);
      case SendCall(pid, value) => SendMeaning(m, pid, value);
      case ReceiveCall => ReceiveMeaning(m);
    }
  }

  lemma ExitList(m: Machine, code: int)
    requires Sound(m)
    ensures Perform(m, ExitCall(code)).0.order == m.order
  {
  }

  lemma ForkKeepsTurn(m: Machine, pid: nat, memoryOk: bool)
    requires Shape(m) && OneRuns(m) && m.nextPid + 1 < U32
    ensures OneRuns(Perform(m, ForkCall(pid, memoryOk)).0)
  {
    hide Shape, Sound, Perform;
    if pid == 0 {
      ForkMeaning(m, pid, memoryOk, m.current);
    } else if i :| i in m.order && Has(m, i, pid) {
      ForkMeaning(m, pid, memoryOk, i);
    } else {
      ForkNobody(m, pid, memoryOk);
    }
  }

  lemma WaitKeepsTurn(m: Machine, pid: nat)
    requires Shape(m) && OneRuns(m)
    ensures OneRuns(Perform(m, WaitCall(pid)).0)
  {
    hide Shape, Sound, Perform;
    WaitAnswers(m, pid);
    WaitBlocks(m, pid);
    if j :| j in m.order && Has(m, j, pid) && MayWait(m, j) && m.procs[j].status == Zombie {
      WaitCollects(m, pid, j);
    }
  }

  lemma {:induction false} CallsKeepTurn(m: Machine, cs: seq<Call>, rules: Rules)
    requires Shape(m) && OneRuns(m) && AllowedCalls(m, cs, rules)
    ensures OneRuns(PerformAll(m, cs).0) && Shape(PerformAll(m, cs).0)
    decreases |cs|
  {
    hide Shape, Sound, OneRuns, Perform;
    if cs != [] {
      CallKeepsTurn(m, cs[0]);
      CallKeepsShape(m, cs[0], rules);
      CallsKeepTurn(Perform(m, cs[0]).0, cs[1..], rules);
    }
  }

  lemma CallKeepsShape(m: Machine, c: Call, rules: Rules)
    requires Shape(m) && Allowed(m, c, rules)
    ensures Shape(Perform(m, c).0)
  {
    hide Shape, Sound, Perform, Find, Create;
    match c {
      case CreateCall(owner, hasEntry, memoryOk) =>
        CreateShape(m, NewProc(m.current, owner, hasEntry), memoryOk);
        CreateCallIs(m, owner, hasEntry, memoryOk);
      case ForkCall(source, memoryOk) =>
        ForkCorpse(m, if source == 0 then m.current else Find(m, source), memoryOk, 0, 0);
        ForkCallIs(m, source, memoryOk);
      case WaitCall(target) =>
        WaitShape(m, target);
        WaitCallIs(m, target);
      case _ =>
        OtherCallEvolves(m, c);
        Evolved(m, Perform(m, c).0);
    }
  }

  lemma CreateCallIs(m: Machine, owner: nat, hasEntry: bool, memoryOk: bool)
    requires Sound(m)
    ensures Perform(m, CreateCall(owner, hasEntry, memoryOk))
            == Create(m, NewProc(m.current, owner, hasEntry), memoryOk)
  {
  }

  lemma ForkCallIs(m: Machine, pid: nat, memoryOk: bool)
    requires Sound(m)
    ensures Perform(m, ForkCall(pid, memoryOk)) == Fork(m, if pid == 0 then m.current else Find(m, pid), memoryOk)
  {
  }

  lemma WaitCallIs(m: Machine, pid: nat)
    requires Sound(m)
    ensures Perform(m, WaitCall(pid)) == Wait(m, pid)
  {
  }

  /** Between events the kernel is current and nobody has the status of a running process. */
  ghost predicate Rested(m: Machine)
    requires Sound(m)
  {
    m.current == 0 && forall k | k in m.order :: m.procs[k].status != Run
  }

  lemma EventRests(m: Machine, e: Event, rules: Rules)
    requires Shape(m) && Rested(m) && AllowedEvent(m, e, rules)
    ensures Shape(Happen(m, e).0) && Rested(Happen(m, e).0)
  {
    hide Shape, Sound, Perform, PerformAll, DeliverFrom, PickFrom, Settle, AllowedCalls, Tick, Started, DeliverAll,
         Pick;
    match e {
      case KernelCall(call) =>
        CallKeepsTurn(m, call);
        CallKeepsShape(m, call, rules);
        KernelThread(Perform(m, call).0);
      case TickEvent(body) =>
        TickMeaning(m, body);
        DeliveryRests(m);
        StartedTurn(m);
        if Pick(DeliverAll(m)) != -1 {
          CallsKeepTurn(Started(m), body, rules);
          SettleRests(PerformAll(Started(m), body).0);
        }
    }
  }

  lemma KernelThread(m: Machine)
    requires Sound(m)
    ensures m.procs[0].status == Thread
  {
  }

  lemma DeliveryRests(m: Machine)
    requires Shape(m) && Rested(m)
    ensures Shape(DeliverAll(m)) && Rested(DeliverAll(m))
  {
    hide Shape, Sound, DeliverFrom, Evolves, LosesChild;
    var d := DeliverAll(m);
    DeliverFromEvolves(m, 0);
    Evolved(m, d);
    forall k | k in d.order
      ensures d.procs[k].status != Run
    {
      DeliverAllMeaning(m, k);
    }
  }

  lemma StartedTurn(m: Machine)
    requires Shape(m) && Rested(m)
    ensures Shape(Started(m)) && OneRuns(Started(m))
  {
    hide Shape, Sound, DeliverAll, Pick, Evolves, Started;
    DeliveryRests(m);
    StartedMeaning(m);
    StartedEvolves(m);
    Evolved(m, Started(m));
  }

  lemma SettleRests(m: Machine)
    requires Shape(m) && OneRuns(m)
    ensures Shape(Settle(m)) && Rested(Settle(m))
  {
    hide Shape, Sound, Evolves, Settle;
    SettleMeaning(m);
    SettleEvolves(m);
    Evolved(m, Settle(m));
  }

  /** Over every allowed run: whenever the kernel is back, nobody is left with the status of a running process. */
  lemma {:induction false} RunRests(m: Machine, es: seq<Event>, rules: Rules)
    requires Shape(m) && Rested(m) && AllowedRun(m, es, rules)
    ensures Rested(RunAll(m, es).0)
    decreases |es|
  {
    hide Shape, Sound, Rested, Happen, AllowedEvent;
    if es != [] {
      EventRests(m, es[0], rules);
      RunRests(Happen(m, es[0]).0, es[1..], rules);
    }
  }
}
