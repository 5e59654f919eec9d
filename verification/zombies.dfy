/** What happens to a process once it has ended, and how signals end it. */
module Zombies {
  import opened Words
  import opened ProcessModel
  import opened ProcessLaws

  // ---- Signal delivery ----

  /** Place of the first signal that ends a process, or the length of the queue. */
  function FirstFatal(s: seq<Pending>): (k: nat)
    ensures k <= |s| && (k < |s| ==> Fatal(s[k])) && forall j | 0 <= j < k :: !Fatal(s[j])
  {
    if s == [] then 0 else if Fatal(s[0]) then 0 else 1 + FirstFatal(s[1..])
  }

  lemma HandleOne(m: Machine, i: nat)
    requires Shape(m) && i in m.order && m.procs[i].signals != []
    ensures var (p, q) := (m.procs[i], HandleSignal(m, i).procs[i]);
            && q.signals == p.signals[1..]
            && (if i != 0 && p.status != Zombie && Fatal(p.signals[0])
                then q.status == Zombie && q.exitCode == 128 + p.signals[0].signal
                else q.status == p.status && q.exitCode == p.exitCode)
  {
  }

  /** A live process is handed its signals up to and including the first fatal one, which ends it with code
      128 + signal; without a fatal one it is handed them all. */
  lemma {:induction false} DeliverMeaning(m: Machine, i: nat)
    requires Shape(m) && i in m.order && i != 0 && m.procs[i].status != Zombie
    ensures var (p, q, k) := (m.procs[i], Deliver(m, i).procs[i], FirstFatal(m.procs[i].signals));
            if k == |p.signals| then q.signals == [] && q.status == p.status && q.exitCode == p.exitCode
            else q.signals == p.signals[k + 1..] && q.status == Zombie && q.exitCode == 128 + p.signals[k].signal
    decreases |m.procs[i].signals|
  {
    hide HandleSignal, Shape, Sound, Evolves, Fatal;
    var s := m.procs[i].signals;
    if s != [] {
      HandleOne(m, i);
      HandleEvolves(m, i);
      Evolved(m, HandleSignal(m, i));
      if !Fatal(s[0]) {
        DeliverMeaning(HandleSignal(m, i), i);
        var k := FirstFatal(s[1..]);
        assert k < |s[1..]| ==> s[1..][k + 1..] == s[k + 2..] && s[1..][k] == s[k + 1];
      }
    }
  }

  /** A zombie is handed one signal at a time, to no effect on its status and exit code. */
  lemma DeliverToZombie(m: Machine, i: nat)
    requires Shape(m) && i in m.order && i != 0 && m.procs[i].status == Zombie
    ensures var (p, q) := (m.procs[i], Deliver(m, i).procs[i]);
            && q.status == Zombie && q.exitCode == p.exitCode
            && q.signals == if p.signals == [] then [] else p.signals[1..]
  {
  }

  /** The kernel process is handed everything and survives. */
  lemma {:induction false} DeliverToKernel(m: Machine)
    requires Shape(m)
    ensures Deliver(m, 0).procs[0].signals == [] && Deliver(m, 0).procs[0].status == Thread
    decreases |m.procs[0].signals|
  {
    if m.procs[0].signals != [] {
      HandleOne(m, 0);
      HandleEvolves(m, 0);
      Evolved(m, HandleSignal(m, 0));
      DeliverToKernel(HandleSignal(m, 0));
    }
  }

  // ---- Zombies are final ----

  /** The process with this pid has ended with this code and waits to be collected. */
  ghost predicate Corpse(m: Machine, pid: nat, code: int)
    requires Sound(m)
  {
    var j := Find(m, pid);
    j != -1 && m.procs[j].status == Zombie && m.procs[j].exitCode == code
  }

  /** The pid was given out and is found no more. */
  ghost predicate Gone(m: Machine, pid: nat)
    requires Sound(m)
  {
    pid < m.nextPid && Find(m, pid) == -1
  }

  /** The exit codes that waits for pid returned, in order. */
  ghost function Codes(log: seq<Answer>, pid: nat): seq<int> {
    if log == [] then [] else CodeOf(log[0], pid) + Codes(log[1..], pid)
  }

  ghost function CodeOf(a: Answer, pid: nat): seq<int> {
    if a.Collected? && a.pid == pid then [a.code] else []
  }

  lemma {:induction false} CodesConcat(a: seq<Answer>, b: seq<Answer>, pid: nat)
    ensures Codes(a + b, pid) == Codes(a, pid) + Codes(b, pid)
  {
    hide CodeOf;
    if a == [] {
      assert a + b == b;
    } else {
      CodesConcat(a[1..], b, pid);
      assert (a + b)[1..] == a[1..] + b && (a + b)[0] == a[0];
    }
  }

  /** Still a corpse and never collected, or collected once, with its code, and gone. */
  ghost predicate Laid(m: Machine, pid: nat, code: int, codes: seq<int>)
    requires Sound(m)
  {
    (Corpse(m, pid, code) && codes == []) || (Gone(m, pid) && codes == [code])
  }

  lemma EvolvesCorpse(m: Machine, r: Machine, pid: nat, code: int)
    requires Evolves(m, r)
    ensures Corpse(m, pid, code) ==> Corpse(r, pid, code)
    ensures Gone(m, pid) ==> Gone(r, pid)
  {
    SameFind(m, r, pid);
  }

  /** A pid that no listed process has is not found. */
  lemma NotFound(m: Machine, pid: nat)
    requires Sound(m) && forall i | i in m.order :: m.procs[i].pid != pid
    ensures Find(m, pid) == -1
  {
  }

  lemma FindNone(m: Machine, pid: nat)
    requires Sound(m) && Find(m, pid) == -1
    ensures forall i | i in m.order :: m.procs[i].pid != pid
  {
  }

  lemma CreateCorpse(m: Machine, p: Proc, memoryOk: bool, pid: nat, code: int)
    requires Shape(m) && p.parent in m.order && Fits(p) && m.nextPid + 1 < U32
    ensures Corpse(m, pid, code) ==> Corpse(Create(m, p, memoryOk).0, pid, code)
    ensures Gone(m, pid) ==> Gone(Create(m, p, memoryOk).0, pid)
    ensures !Create(m, p, memoryOk).1.Collected?
  {
    hide Create, Shape, Sound, Find;
    CreateFrame(m, p, memoryOk);
    CreateShape(m, p, memoryOk);
    var r := Create(m, p, memoryOk).0;
    if Corpse(m, pid, code) {
      var j := Find(m, pid);
      Found(r, j);
    }
    if Gone(m, pid) {
      FindNone(m, pid);
      NotFound(r, pid);
    }
  }

  lemma ReleaseCorpse(m: Machine, j: nat, pid: nat, code: int)
    requires Shape(m) && j in m.order && j != 0 && j != m.current
    ensures Corpse(m, pid, code) && m.procs[j].pid != pid ==> Corpse(Release(m, j), pid, code)
    ensures Gone(m, pid) || m.procs[j].pid == pid ==> Gone(Release(m, j), pid)
  {
    hide Release, Shape, Sound, Find;
    ReleaseFrame(m, j);
    ReleaseShape(m, j);
    var r := Release(m, j);
    Listed(m, j);
    if Corpse(m, pid, code) && m.procs[j].pid != pid {
      Found(r, Find(m, pid));
    }
    if Gone(m, pid) {
      FindNone(m, pid);
      NotFound(r, pid);
    }
    if m.procs[j].pid == pid {
      forall i | i in r.order
        ensures r.procs[i].pid != pid
      {
        Found(m, i);
        Found(m, j);
      }
      NotFound(r, pid);
    }
  }

  lemma WaitCorpse(m: Machine, target: nat, pid: nat, code: int)
    requires Shape(m) && !Revives(m, WaitCall(target))
    ensures Corpse(m, pid, code) ==> Laid(Wait(m, target).0, pid, code, Codes([Wait(m, target).1], pid))
    ensures Gone(m, pid) ==> Gone(Wait(m, target).0, pid) && Codes([Wait(m, target).1], pid) == []
  {
    var (r, a) := Wait(m, target);
    match a {
      case Waits =>
        BlockFrame(m, target);
        BlockKeeps(m, target);
        SameFind(m, r, pid);
      case Collected(_, _) => CollectCorpse(m, target, pid, code);
      case _ =>
    }
  }

  lemma CollectCorpse(m: Machine, target: nat, pid: nat, code: int)
    requires Shape(m) && Wait(m, target).1.Collected?
    ensures Corpse(m, pid, code) ==> Laid(Wait(m, target).0, pid, code, Codes([Wait(m, target).1], pid))
    ensures Gone(m, pid) ==> Gone(Wait(m, target).0, pid) && Codes([Wait(m, target).1], pid) == []
  {
    hide Wait, Release, Shape, Sound, Find, LetGo, Evolves, Corpse, Gone;
    CollectFrame(m, target);
    LetGoEvolves(m);
    var d, j := LetGo(m), Find(m, target);
    Evolved(m, d);
    EvolvesCorpse(m, d, pid, code);
    ReleaseCorpse(d, j, pid, code);
    OneCode(m, target, pid, code);
  }

  lemma OneCode(m: Machine, target: nat, pid: nat, code: int)
    requires Sound(m) && Wait(m, target).1.Collected?
    ensures Codes([Wait(m, target).1], pid) == if pid == target then [m.procs[Find(m, target)].exitCode] else []
    ensures Corpse(m, target, code) ==> m.procs[Find(m, target)].exitCode == code
    ensures !Gone(m, target)
  {
  }

  lemma CallCorpse(m: Machine, c: Call, rules: Rules, pid: nat, code: int)
    requires Shape(m) && Allowed(m, c, rules) && rules.living
    ensures Corpse(m, pid, code) ==> Laid(Perform(m, c).0, pid, code, Codes([Perform(m, c).1], pid))
    ensures Gone(m, pid) ==> Gone(Perform(m, c).0, pid) && Codes([Perform(m, c).1], pid) == []
    ensures Shape(Perform(m, c).0)
  {
    hide Shape, Sound, Find, Corpse, Gone, Create, Evolves;
    match c {
      case CreateCall(owner, hasEntry, memoryOk) =>
        CreateCorpse(m, NewProc(m.current, owner, hasEntry), memoryOk, pid, code);
        CreateShape(m, NewProc(m.current, owner, hasEntry), memoryOk);
      case ForkCall(source, memoryOk) =>
        ForkCorpse(m, if source == 0 then m.current else Find(m, source), memoryOk, pid, code);
      case WaitCall(target) =>
        WaitCorpse(m, target, pid, code);
        WaitShape(m, target);
      case _ =>
        OtherCallEvolves(m, c);
        Evolved(m, Perform(m, c).0);
        EvolvesCorpse(m, Perform(m, c).0, pid, code);
        assert !Perform(m, c).1.Collected?;
    }
  }

  lemma ForkCorpse(m: Machine, i: int, memoryOk: bool, pid: nat, code: int)
    requires Shape(m) && (i == -1 || i in m.order) && m.nextPid + 1 < U32
    ensures Corpse(m, pid, code) ==> Corpse(Fork(m, i, memoryOk).0, pid, code)
    ensures Gone(m, pid) ==> Gone(Fork(m, i, memoryOk).0, pid)
    ensures !Fork(m, i, memoryOk).1.Collected? && Shape(Fork(m, i, memoryOk).0)
  {
    hide Create, Shape, Corpse, Gone;
    if i != -1 && i != 0 && m.procs[i].hasEntry {
      var p := m.procs[i];
      var child := NewProc(i, p.owner, true).(lastSignal := p.lastSignal, lastSignalValue := p.lastSignalValue);
      CreateCorpse(m, child, memoryOk, pid, code);
      CreateShape(m, child, memoryOk);
    }
  }

  lemma WaitShape(m: Machine, pid: nat)
    requires Shape(m)
    ensures Shape(Wait(m, pid).0)
  {
    hide Shape, Sound, Find, Release, LetGo;
    var a := Wait(m, pid).1;
    if a == Waits {
      BlockKeeps(m, pid);
    } else if a.Collected? {
      CollectFrame(m, pid);
      LetGoEvolves(m);
      Evolved(m, LetGo(m));
      ReleaseShape(LetGo(m), Find(m, pid));
    }
  }

  /** A fact about log entries carries over a sequence of steps. */
  lemma LaidTwice(m: Machine, d: Machine, r: Machine, pid: nat, code: int, a: seq<int>, b: seq<int>)
    requires Sound(m) && Sound(d) && Sound(r) && Laid(d, pid, code, a)
    requires Corpse(d, pid, code) ==> Laid(r, pid, code, b)
    requires Gone(d, pid) ==> Gone(r, pid) && b == []
    ensures Laid(r, pid, code, a + b)
  {
  }

  lemma {:induction false} CallsCorpse(m: Machine, cs: seq<Call>, rules: Rules, pid: nat, code: int)
    requires Shape(m) && AllowedCalls(m, cs, rules) && rules.living
    ensures Corpse(m, pid, code) ==> Laid(PerformAll(m, cs).0, pid, code, Codes(PerformAll(m, cs).1, pid))
    ensures Gone(m, pid) ==> Gone(PerformAll(m, cs).0, pid) && Codes(PerformAll(m, cs).1, pid) == []
    ensures Shape(PerformAll(m, cs).0)
    decreases |cs|
  {
    hide Shape, Sound, Corpse, Gone, Laid, Perform, Allowed;
    if cs == [] {
      NothingLaid(m, pid, code);
    } else {
      var (d, a) := Perform(m, cs[0]);
      CallCorpse(m, cs[0], rules, pid, code);
      CallsCorpse(d, cs[1..], rules, pid, code);
      var (r, rest) := PerformAll(d, cs[1..]);
      CodesConcat([a], rest, pid);
      if Corpse(m, pid, code) {
        LaidTwice(m, d, r, pid, code, Codes([a], pid), Codes(rest, pid));
      }
    }
  }

  lemma NothingLaid(m: Machine, pid: nat, code: int)
    requires Sound(m)
    ensures Corpse(m, pid, code) ==> Laid(m, pid, code, [])
  {
  }

  lemma TickCorpse(m: Machine, body: seq<Call>, rules: Rules, pid: nat, code: int)
    requires Shape(m) && AllowedCalls(Started(m), body, rules) && rules.living
    ensures Corpse(m, pid, code) ==> Laid(Tick(m, body).0, pid, code, Codes(Tick(m, body).1, pid))
    ensures Gone(m, pid) ==> Gone(Tick(m, body).0, pid) && Codes(Tick(m, body).1, pid) == []
    ensures Shape(Tick(m, body).0)
  {
    hide Shape, Sound, Corpse, Gone, Evolves, PickFrom, Dispatch, DeliverFrom, Settle, PerformAll, AllowedCalls;
    var s := Started(m);
    StartedEvolves(m);
    EvolvesCorpse(m, s, pid, code);
    PickListed(DeliverAll(m));
    CallsCorpse(s, body, rules, pid, code);
    SettledCorpse(PerformAll(s, body).0, pid, code);
    SettledCorpse(s, pid, code);
  }

  lemma SettledCorpse(m: Machine, pid: nat, code: int)
    requires Shape(m)
    ensures Shape(Settle(m)) && (Corpse(m, pid, code) ==> Corpse(Settle(m), pid, code))
            && (Gone(m, pid) ==> Gone(Settle(m), pid))
  {
    hide Evolves, Shape, Corpse, Gone, Settle;
    SettleEvolves(m);
    Evolved(m, Settle(m));
    EvolvesCorpse(m, Settle(m), pid, code);
  }

  /** Zombies are final: after any run in which no zombie waits for a live child, a process that had ended is still
      there with its first exit code, or was collected exactly once, with that code, and its pid is never found
      again. */
  lemma {:induction false} ZombiesAreFinal(m: Machine, es: seq<Event>, rules: Rules, pid: nat, code: int)
    requires Shape(m) && AllowedRun(m, es, rules) && rules.living
    ensures Corpse(m, pid, code) ==> Laid(RunAll(m, es).0, pid, code, Codes(RunAll(m, es).1, pid))
    ensures Gone(m, pid) ==> Gone(RunAll(m, es).0, pid) && Codes(RunAll(m, es).1, pid) == []
    decreases |es|
  {
    hide Shape, Sound, Corpse, Gone, Laid, Perform, Tick, Allowed, AllowedCalls;
    if es == [] {
      NothingLaid(m, pid, code);
    } else {
      var (d, log) := Happen(m, es[0]);
      match es[0] {
        case KernelCall(call) => CallCorpse(m, call, rules, pid, code);
        case TickEvent(body) => TickCorpse(m, body, rules, pid, code);
      }
      ZombiesAreFinal(d, es[1..], rules, pid, code);
      var (r, rest) := RunAll(d, es[1..]);
      CodesConcat(log, rest, pid);
      if Corpse(m, pid, code) {
        LaidTwice(m, d, r, pid, code, Codes(log, pid), Codes(rest, pid));
      }
    }
  }

  /** A wait takes its caller out of the zombie state exactly when the target is a live child of the caller. */
  lemma WaitRevives(m: Machine, pid: nat)
    requires Shape(m) && m.procs[m.current].status == Zombie
    ensures var j := Find(m, pid);
            Wait(m, pid).0.procs[m.current].status != Zombie
            <==> j != -1 && m.procs[j].parent == m.current && m.procs[j].status != Zombie
  {
  }

  /** socket_send queues the value whenever the socket has room, but reports failure when the signal queue is full. */
  lemma SocketSendReport(m: Machine, pid: nat, value: nat)
    requires Shape(m) && Find(m, pid) != -1
    ensures var (j, (r, a)) := (Find(m, pid), SocketSend(m, pid, value));
            && r.procs[j].socket ==
               (if |m.procs[j].socket| < SOCKET_CAPACITY - 1 then m.procs[j].socket + [value] else m.procs[j].socket)
            && (r.procs[j].socket != m.procs[j].socket && a == Refused
                <==> |m.procs[j].socket| < SOCKET_CAPACITY - 1 && |m.procs[j].signals| == SIGNAL_CAPACITY - 1)
  {
  }
}
