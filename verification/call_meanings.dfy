/** What each call of the process manager answers and changes, told by pids, owners, statuses and queue lengths
    (kernel/src/process.c). */
module CallMeanings {
  import opened Words
  import opened ProcessModel
  import opened ProcessLaws
  import Scheduling

  /** The process in slot j is listed under this pid. */
  predicate Has(m: Machine, j: nat, pid: nat)
    requires Sound(m)
  {
    j in m.order && m.procs[j].pid == pid
  }

  /** Find looks a pid up; no two listed processes share one. */
  lemma FindHas(m: Machine, pid: nat)
    requires Shape(m)
    ensures Find(m, pid) == -1 <==> forall j | j in m.order :: !Has(m, j, pid)
    ensures forall j | j in m.order && Has(m, j, pid) :: Find(m, pid) == j
    ensures Find(m, pid) != -1 ==> Find(m, pid) in m.order && Has(m, Find(m, pid), pid)
  {
    hide Shape, Sound;
    forall j | j in m.order && Has(m, j, pid)
      ensures Find(m, pid) == j
    {
      Found(m, j);
    }
  }

  // ---- Signals and sockets ----

  /** One process changed, and nothing else. */
  ghost predicate OnlySlot(m: Machine, r: Machine, j: nat, q: Proc) {
    j < |m.procs| && r == m.(procs := m.procs[j := q])
  }

  /** The sender's owner is root, or the target is the sender, or both belong to the same owner; and the target has room
      for one more of its fifteen signals. */
  ghost predicate Signallable(m: Machine, j: nat)
    requires Sound(m) && j < SLOTS
  {
    var i := m.current;
    (m.procs[i].owner == 0 || j == i || m.procs[i].owner == m.procs[j].owner) && |m.procs[j].signals| < 15
  }

  /** send_signal_to_process: Done exactly when some listed process has the pid, may be signalled and has room; then
      exactly that signal is appended to its queue. Refused changes nothing. */
  lemma SignalMeaning(m: Machine, pid: nat, s: Pending)
    requires Shape(m)
    ensures var (r, a) := Perform(m, SignalCall(pid, s));
            && (a == Done || (a == Refused && r == m))
            && (a == Done <==> exists j :: j in m.order && Has(m, j, pid) && Signallable(m, j))
            && forall j | j in m.order && Has(m, j, pid) && Signallable(m, j) ::
                 OnlySlot(m, r, j, m.procs[j].(signals := m.procs[j].signals + [s]))
  {
    hide Shape, Find;
    FindHas(m, pid);
  }

  /** socket_send: without a listed process or with seven values pending nothing changes. Otherwise the value is
      appended to the socket, and a signal 17 that carries it to the signals while fewer than fifteen are pending; the
      answer is that of the signal alone. */
  lemma SendMeaning(m: Machine, pid: nat, value: nat)
    requires Shape(m)
    ensures var (r, a) := Perform(m, SendCall(pid, value));
            && (a == Done || a == Refused)
            && (a == Done <==>
                  exists j :: j in m.order && Has(m, j, pid) && |m.procs[j].socket| < 7 && |m.procs[j].signals| < 15)
            && (r != m <==> exists j :: j in m.order && Has(m, j, pid) && |m.procs[j].socket| < 7)
            && forall j | j in m.order && Has(m, j, pid) && |m.procs[j].socket| < 7 ::
                 var p := m.procs[j];
                 OnlySlot(m, r, j,
                          p.(socket := p.socket + [value],
                             signals := if |p.signals| < 15 then p.signals + [Pending(17, value)] else p.signals))
  {
    hide Shape, Find;
    FindHas(m, pid);
    var j := Find(m, pid);
    if j != -1 && |m.procs[j].socket| < 7 {
      assert |m.procs[j].socket + [value]| != |m.procs[j].socket|;
      assert Perform(m, SendCall(pid, value)).0.procs[j].socket != m.procs[j].socket;
    }
  }

  /** socket_recv: the oldest value comes out and is recorded; an empty socket refuses. */
  lemma ReceiveMeaning(m: Machine)
    requires Sound(m)
    ensures var (p, (r, a)) := (m.procs[m.current], Perform(m, ReceiveCall));
            if p.socket == [] then a == Refused && r == m
            else a == Received(p.socket[0])
                 && OnlySlot(m, r, m.current, p.(socket := p.socket[1..], lastSocketValue := p.socket[0]))
  {
  }

  function Receives(n: nat): (cs: seq<Call>)
    ensures |cs| == n && forall i | 0 <= i < n :: cs[i] == ReceiveCall
  {
    seq(n, i => ReceiveCall)
  }

  function Values(s: seq<nat>): (log: seq<Answer>)
    ensures |log| == |s| && forall i | 0 <= i < |s| :: log[i] == Received(s[i])
  {
    seq(|s|, i requires 0 <= i < |s| => Received(s[i]))
  }

  /** As many receives as values are pending return them all in order and leave the socket empty. */
  lemma {:induction false} ReceiveAll(m: Machine)
    requires Sound(m)
    ensures var (r, log) := PerformAll(m, Receives(|m.procs[m.current].socket|));
            && log == Values(m.procs[m.current].socket) && r.procs[m.current].socket == []
            && (m.procs[m.current].socket != [] ==>
                  r.procs[m.current].lastSocketValue == m.procs[m.current].socket[|m.procs[m.current].socket| - 1])
    decreases |m.procs[m.current].socket|
  {
    hide Sound;
    var s := m.procs[m.current].socket;
    if s != [] {
      ReceiveMeaning(m);
      var (d, a) := Perform(m, ReceiveCall);
      ReceiveAll(d);
      assert Receives(|s|)[1..] == Receives(|s| - 1);
      assert Values(s) == [Received(s[0])] + Values(s[1..]);
    }
  }

  /** What is sent arrives: once its turn comes the receiver reads the values sent before and then this one. */
  lemma SentArrives(m: Machine, pid: nat, value: nat, j: nat)
    requires Shape(m) && j in m.order && Has(m, j, pid) && |m.procs[j].socket| < 7
    ensures var d := Perform(m, SendCall(pid, value)).0.(current := j);
            var (r, log) := PerformAll(d, Receives(|m.procs[j].socket| + 1));
            && log == Values(m.procs[j].socket) + [Received(value)] && r.procs[j].socket == []
            && r.procs[j].lastSocketValue == value
  {
    hide Shape, Perform;
    SendMeaning(m, pid, value);
    var d := Perform(m, SendCall(pid, value)).0.(current := j);
    ReceiveAll(d);
    assert Values(m.procs[j].socket + [value]) == Values(m.procs[j].socket) + [Received(value)];
  }

  // ---- Waiting ----

  /** The caller may wait for j: the kernel for anyone, a process for its children. */
  ghost predicate MayWait(m: Machine, j: nat)
    requires Sound(m) && j < SLOTS
  {
    m.current == 0 || m.procs[j].parent == m.current
  }

  /** process_wait: refused exactly without a listed process that the caller may wait for, blocking exactly on one that
      has not ended, and collecting exactly a zombie, with its exit code. */
  lemma WaitAnswers(m: Machine, pid: nat)
    requires Shape(m)
    ensures var a := Perform(m, WaitCall(pid)).1;
            && (a == Refused <==> forall j | j in m.order :: !(Has(m, j, pid) && MayWait(m, j)))
            && (a == Waits <==>
                  exists j :: j in m.order && Has(m, j, pid) && MayWait(m, j) && m.procs[j].status != Zombie)
            && (a.Collected? <==>
                  exists j :: j in m.order && Has(m, j, pid) && MayWait(m, j) && m.procs[j].status == Zombie)
            && (a.Collected? ==> a.pid == pid)
            && forall j | j in m.order && Has(m, j, pid) && a.Collected? :: a.code == m.procs[j].exitCode
  {
    hide Shape, Find, Release;
    FindHas(m, pid);
  }

  /** A refused wait changes nothing; one that blocks changes the caller alone, and the kernel goes on running. */
  lemma WaitBlocks(m: Machine, pid: nat)
    requires Shape(m)
    ensures var (i, (r, a)) := (m.current, Perform(m, WaitCall(pid)));
            && (a == Refused ==> r == m)
            && (a == Waits ==>
                  OnlySlot(m, r, i, m.procs[i].(waitTarget := pid, status := if i == 0 then Thread else Waiting)))
  {
    hide Find, Release;
  }

  /** A wait that collects blanks the slot of exactly that process, takes it out of the list, moves the cursor to the
      kernel if it was there, and turns a waiting caller into a thread; nothing else changes. */
  lemma WaitCollects(m: Machine, pid: nat, j: nat)
    requires Shape(m) && j in m.order && Has(m, j, pid) && MayWait(m, j) && m.procs[j].status == Zombie
    ensures var (i, r) := (m.current, Perform(m, WaitCall(pid)).0);
            && j != i && r.nextPid == m.nextPid && r.current == i && r.cursor == (if m.cursor == j then 0 else m.cursor)
            && r.procs[j] == EMPTY && (forall x :: x in r.order <==> x in m.order && x != j)
            && (forall k: nat | k < SLOTS && k != j && k != i :: r.procs[k] == m.procs[k])
            && r.procs[i] == (if m.procs[i].status == Waiting then m.procs[i].(status := Thread) else m.procs[i])
  {
    hide Shape, Find, Release, Wait, Sound;
    FindHas(m, pid);
    WaitAnswers(m, pid);
    CollectFrame(m, pid);
    LetGoEvolves(m);
    Evolved(m, LetGo(m));
    ReleaseFrame(LetGo(m), j);
    ReleaseCursor(LetGo(m), j);
  }

  lemma ReleaseCursor(m: Machine, j: nat)
    requires Sound(m) && j in m.order && j != 0 && j != m.current
    ensures Release(m, j).cursor == if m.cursor == j then 0 else m.cursor
  {
  }

  // ---- Exit ----

  /** The parent of i waits for i, or for anyone. */
  ghost predicate Awaited(m: Machine, i: nat, parent: nat)
    requires Sound(m) && i < SLOTS && parent < SLOTS
  {
    && m.procs[i].parent == parent && m.procs[parent].status == Waiting
    && (m.procs[parent].waitTarget == 0 || m.procs[parent].waitTarget == m.procs[i].pid)
  }

  /** process_exit: a live process other than the kernel becomes a zombie with exactly the given code, and a parent that
      waits for it becomes ready; nothing else changes. The kernel and zombies exit to no effect. */
  lemma ExitMeaning(m: Machine, code: int)
    requires Sound(m)
    ensures var (i, (r, a)) := (m.current, Perform(m, ExitCall(code)));
            && a == Done && (i == 0 || m.procs[i].status == Zombie ==> r == m)
            && (i != 0 && m.procs[i].status != Zombie ==>
                  && r == m.(procs := r.procs) && |r.procs| == SLOTS
                  && r.procs[i] == m.procs[i].(status := Zombie, exitCode := code)
                  && forall k: nat | k < SLOTS && k != i ::
                       r.procs[k] == if Awaited(m, i, k) then m.procs[k].(status := Ready) else m.procs[k])
  {
    var i := m.current;
    if i != 0 && m.procs[i].status != Zombie {
      TerminateSlots(m, i, code);
    }
  }

  // ---- Creation ----

  /** The lowest slot that is not in use; the kernel's is never free. */
  ghost predicate LowestFree(m: Machine, s: nat) {
    s < 16 && s !in m.order && forall k: nat | 0 < k < s :: k in m.order
  }

  /** A process just created: ready, with empty queues and a blank record. */
  ghost predicate Newborn(p: Proc, pid: nat, parent: nat, owner: nat, hasEntry: bool, signal: nat, value: nat) {
    && p.pid == pid && p.parent == parent && p.owner == owner && p.hasEntry == hasEntry && p.status == Ready
    && p.exitCode == 0 && p.waitTarget == 0 && p.signals == [] && p.socket == [] && p.lastSocketValue == 0
    && p.lastSignal == signal && p.lastSignalValue == value
  }

  /** r is m with the process in slot s, at the end of the list, under the next pid. */
  ghost predicate Born(m: Machine, r: Machine, s: nat) {
    && s < SLOTS == |m.procs| == |r.procs| && LowestFree(m, s) && s != 0
    && r == m.(procs := m.procs[s := r.procs[s]], order := m.order + [s], nextPid := m.nextPid + 1)
  }

  /** Creation, seen from the slot it finds. */
  lemma CreateIs(m: Machine, p: Proc, memoryOk: bool)
    requires Sound(m) && p.parent in m.order && m.nextPid + 1 < U32
    ensures var (s, (r, a)) := (FreeSlot(m.order, 1), Create(m, p, memoryOk));
            if s == SLOTS then r == m && a == Refused && forall k: nat :: !LowestFree(m, k)
            else
              && LowestFree(m, s)
              && if memoryOk then a == Created(m.nextPid) && Born(m, r, s) && r.procs[s] == p.(pid := m.nextPid)
                 else a == Refused && r == m.(nextPid := m.nextPid + 1)
  {
    hide FreeSlot;
  }

  /** process_create_internal: a process is created exactly when a slot is free and memory is found. A request without
      memory uses up its pid; one without a slot changes nothing. */
  lemma CreateMeaning(m: Machine, owner: nat, hasEntry: bool, memoryOk: bool)
    requires Shape(m) && m.nextPid + 1 < U32
    ensures var (r, a) := Perform(m, CreateCall(owner, hasEntry, memoryOk));
            && (a.Created? <==> memoryOk && exists s: nat :: LowestFree(m, s))
            && (a.Created? ==>
                  && a.pid == m.nextPid
                  && exists s: nat :: Born(m, r, s) && Newborn(r.procs[s], m.nextPid, m.current, owner, hasEntry, 0, 0))
            && (!a.Created? ==>
                  && a == Refused
                  && r == if exists s: nat :: LowestFree(m, s) then m.(nextPid := m.nextPid + 1) else m)
  {
    hide Shape, Sound, Create, FreeSlot, LowestFree;
    var s := FreeSlot(m.order, 1);
    CreateIs(m, NewProc(m.current, owner, hasEntry), memoryOk);
    var (r, a) := Perform(m, CreateCall(owner, hasEntry, memoryOk));
    if a.Created? {
      assert Born(m, r, s) && Newborn(r.procs[s], m.nextPid, m.current, owner, hasEntry, 0, 0);
    }
  }

  /** Whom fork_process copies: 0 names the caller. */
  ghost predicate Source(m: Machine, pid: nat, i: nat)
    requires Sound(m)
  {
    if pid == 0 then i == m.current else i in m.order && Has(m, i, pid)
  }

  /** fork_process: only a listed process other than the kernel, and with an entry, is forked. The child has its owner
      and last signal, and is its child. */
  lemma ForkMeaning(m: Machine, pid: nat, memoryOk: bool, i: nat)
    requires Shape(m) && m.nextPid + 1 < U32 && Source(m, pid, i)
    ensures i in m.order && i < SLOTS
    ensures var (p, (r, a)) := (m.procs[i], Perform(m, ForkCall(pid, memoryOk)));
            && (a.Created? <==> i != 0 && p.hasEntry && memoryOk && exists s: nat :: LowestFree(m, s))
            && (a.Created? ==>
                  && a.pid == m.nextPid
                  && exists s: nat ::
                       && Born(m, r, s)
                       && Newborn(r.procs[s], m.nextPid, i, p.owner, true, p.lastSignal, p.lastSignalValue))
            && (!a.Created? ==>
                  && a == Refused
                  && r == if i != 0 && p.hasEntry && exists s: nat :: LowestFree(m, s)
                          then m.(nextPid := m.nextPid + 1) else m)
  {
    hide Shape, Find, Create, FreeSlot, LowestFree;
    FindHas(m, pid);
    var (s, p) := (FreeSlot(m.order, 1), m.procs[i]);
    var child := NewProc(i, p.owner, true).(lastSignal := p.lastSignal, lastSignalValue := p.lastSignalValue);
    CreateIs(m, child, memoryOk);
    var (r, a) := Perform(m, ForkCall(pid, memoryOk));
    assert Perform(m, ForkCall(pid, memoryOk)) == if i == 0 || !p.hasEntry then (m, Refused)
           else Create(m, child, memoryOk);
    hide Perform, Sound;
    if a.Created? {
      assert Born(m, r, s) && Newborn(r.procs[s], m.nextPid, i, p.owner, true, p.lastSignal, p.lastSignalValue);
    }
  }

  /** Forking a pid that nobody has is refused. */
  lemma ForkNobody(m: Machine, pid: nat, memoryOk: bool)
    requires Shape(m) && pid != 0 && forall j | j in m.order :: !Has(m, j, pid)
    ensures Perform(m, ForkCall(pid, memoryOk)) == (m, Refused)
  {
    hide Shape, Find;
    FindHas(m, pid);
  }

  /** After process_init: the kernel alone, in slot 0 with pid 1, as a thread of root without an entry. */
  lemma BootMeaning()
    ensures var (m, p) := (Booted(), Booted().procs[0]);
            && m.order == [0] && m.current == m.cursor == 0 && m.nextPid == 2 && |m.procs| == 16
            && p.pid == 1 && p.status == Thread && p.owner == 0 && p.parent == -1 && !p.hasEntry
            && p.signals == [] && p.socket == [] && forall k | 1 <= k < 16 :: m.procs[k] == EMPTY
  {
  }

  // ---- The picker ----

  /** pick_next_process returns a listed process that has an entry and is ready, running or a thread, and NULL exactly
      when there is none. */
  lemma PickMeaning(m: Machine)
    requires Shape(m)
    ensures Pick(m) == -1 <==> forall x | x in m.order :: !CanRun(m.procs[x])
    ensures Pick(m) != -1 ==> Pick(m) in m.order && CanRun(m.procs[Pick(m)])
  {
    hide Shape, PickFrom, Candidate;
    Scheduling.ListNoRepeats(m);
    PickListed(m);
    forall x | x in m.order && CanRun(m.procs[x])
      ensures Pick(m) != -1
    {
      Scheduling.PickIsNearest(m, x);
    }
  }

  ghost predicate CanRun(p: Proc) {
    p.hasEntry && p.status != Waiting && p.status != Zombie
  }
}
