/** What the delivery of pending signals does to every process (deliver_process_signal and
    process_deliver_all_pending_signals in kernel/src/process.c), and what a tick makes of it. */
module Deliveries {
  import opened Words
  import opened ProcessModel
  import opened ProcessLaws
  import opened Zombies
  import opened CallMeanings
  import Scheduling

  // ---- One process ----

  /** A pending signal ends the process: it is neither the kernel nor ended, and TERM or KILL is in its queue. */
  predicate Dies(p: Proc, kernel: bool) {
    !kernel && p.status != Zombie && FirstFatal(p.signals) < |p.signals|
  }

  /** How many signals are handed over: to the kernel all, to a zombie one, to a live process those up to the first
      fatal one. */
  function Count(p: Proc, kernel: bool): (n: nat)
    ensures n <= |p.signals| && (p.signals != [] ==> n > 0)
  {
    if p.signals == [] then 0
    else if kernel then |p.signals|
    else if p.status == Zombie then 1
    else if Dies(p, kernel) then FirstFatal(p.signals) + 1
    else |p.signals|
  }

  /** The process when they have been: the last of them is recorded, and a fatal one has ended it. */
  function Handed(p: Proc, kernel: bool): Proc {
    var n := Count(p, kernel);
    if n == 0 then p else
    var last := p.signals[n - 1];
    var q := p.(signals := p.signals[n..], lastSignal := Wrap(last.signal), lastSignalValue := last.value);
    if Dies(p, kernel) then q.(status := Zombie, exitCode := 128 + last.signal) else q
  }

  lemma HandedStep(p: Proc, kernel: bool)
    requires p.signals != [] && !(p.status == Zombie && !kernel) && (kernel || !Fatal(p.signals[0]))
    ensures var s := p.signals[0];
            var q := p.(signals := p.signals[1..], lastSignal := Wrap(s.signal), lastSignalValue := s.value);
            Handed(p, kernel) == Handed(q, kernel) && Dies(q, kernel) == Dies(p, kernel)
  {
    hide Fatal, FirstFatal;
    var (s, rest) := (p.signals, p.signals[1..]);
    var k := FirstFatal(rest);
    if !kernel {
      FirstFatalStep(s);
      assert k < |rest| ==> rest[k + 1..] == s[k + 2..] && rest[k] == s[k + 1];
    }
    assert rest != [] ==> rest[|rest| - 1] == s[|s| - 1];
    assert rest[|rest|..] == [] == s[|s|..];
  }

  lemma FirstFatalStep(s: seq<Pending>)
    requires s != [] && !Fatal(s[0])
    ensures FirstFatal(s) == 1 + FirstFatal(s[1..])
  {
  }

  /** The process in slot k when i has died. */
  ghost function Bereaved(m: Machine, i: nat, k: nat): Proc
    requires Sound(m) && i < SLOTS && k < SLOTS
  {
    if Awaited(m, i, k) then m.procs[k].(status := Ready) else m.procs[k]
  }

  /** deliver_process_signal, process by process: the target, and a parent that waits for it when it dies. */
  lemma {:induction false} DeliverOne(m: Machine, i: nat)
    requires Shape(m) && i in m.order
    ensures var d := Deliver(m, i);
            && d == m.(procs := d.procs) && |d.procs| == SLOTS && d.procs[i] == Handed(m.procs[i], i == 0)
            && forall k: nat | k < SLOTS && k != i ::
                 d.procs[k] == if Dies(m.procs[i], i == 0) then Bereaved(m, i, k) else m.procs[k]
    decreases |m.procs[i].signals|
  {
    hide Shape, Sound, HandleSignal, Terminate, Evolves, Fatal, Bereaved, Handed, Dies;
    var p := m.procs[i];
    NoSignals(p, i == 0);
    if p.signals != [] {
      var d := HandleSignal(m, i);
      HandleOnce(m, i);
      HandleEvolves(m, i);
      Evolved(m, d);
      OneSignal(p, i == 0);
      KernelLives(m);
      if d.procs[i].status != Zombie {
        HandedStep(p, i == 0);
        DeliverOne(d, i);
        forall k: nat | k < SLOTS && k != i
          ensures Bereaved(d, i, k) == Bereaved(m, i, k)
        {
          SameBereaved(m, d, i, k);
        }
      }
    }
  }

  lemma KernelLives(m: Machine)
    requires Sound(m)
    ensures m.procs[0].status == Thread
  {
  }

  lemma NoSignals(p: Proc, kernel: bool)
    ensures p.signals == [] ==> Handed(p, kernel) == p && !Dies(p, kernel)
  {
  }

  /** The cases in which one signal is all. */
  lemma OneSignal(p: Proc, kernel: bool)
    requires p.signals != []
    ensures var s := p.signals[0];
            var q := p.(signals := p.signals[1..], lastSignal := Wrap(s.signal), lastSignalValue := s.value);
            && (!kernel && p.status == Zombie ==> Handed(p, kernel) == q && !Dies(p, kernel))
            && (!kernel && p.status != Zombie && Fatal(s) ==>
                  Dies(p, kernel) && Handed(p, kernel) == q.(status := Zombie, exitCode := 128 + s.signal))
  {
  }

  /** One turn of the delivery loop, process by process. */
  lemma HandleOnce(m: Machine, i: nat)
    requires Shape(m) && i in m.order && m.procs[i].signals != []
    ensures var (d, p) := (HandleSignal(m, i), m.procs[i]);
            var s := p.signals[0];
            var q := p.(signals := p.signals[1..], lastSignal := Wrap(s.signal), lastSignalValue := s.value);
            var ends := i != 0 && p.status != Zombie && Fatal(s);
            && d == m.(procs := d.procs) && |d.procs| == SLOTS
            && d.procs[i] == (if ends then q.(status := Zombie, exitCode := 128 + s.signal) else q)
            && forall k: nat | k < SLOTS && k != i :: d.procs[k] == if ends then Bereaved(m, i, k) else m.procs[k]
  {
    hide Terminate, Fatal, Shape;
    var (t, s) := (Taken(m, i), m.procs[i].signals[0]);
    HandleIs(m, i);
    if i != 0 && m.procs[i].status != Zombie && Fatal(s) {
      TerminateSlots(t, i, 128 + s.signal);
      TerminateRest(t, i, 128 + s.signal);
    } else if Fatal(s) {
      TerminateNot(t, i, 128 + s.signal);
    }
  }

  lemma TerminateRest(m: Machine, i: nat, code: int)
    requires Sound(m) && i < SLOTS
    ensures var r := Terminate(m, i, code); r == m.(procs := r.procs) && |r.procs| == SLOTS
  {
  }

  lemma TerminateNot(m: Machine, i: nat, code: int)
    requires Sound(m) && i < SLOTS && (i == 0 || m.procs[i].status == Zombie)
    ensures Terminate(m, i, code) == m
  {
  }

  lemma SameBereaved(m: Machine, d: Machine, i: nat, k: nat)
    requires Sound(m) && Sound(d) && i < SLOTS && k < SLOTS && d.procs[k] == m.procs[k]
    requires d.procs[i].parent == m.procs[i].parent && d.procs[i].pid == m.procs[i].pid
    ensures Bereaved(d, i, k) == Bereaved(m, i, k)
  {
  }

  // ---- Everyone ----

  /** A child that k waits for dies when the processes of rest have their signals handed over. */
  ghost predicate Woken(m: Machine, rest: seq<nat>, k: nat)
    requires Sound(m) && k < SLOTS
  {
    exists c :: c in rest && c < SLOTS && Dies(m.procs[c], c == 0) && Awaited(m, c, k)
  }

  /** The process in slot k once the processes of rest have had their signals handed over. */
  ghost function Result(m: Machine, rest: seq<nat>, k: nat): Proc
    requires Sound(m) && k < SLOTS
  {
    var h := if k in rest then Handed(m.procs[k], k == 0) else m.procs[k];
    if h.status == Waiting && Woken(m, rest, k) then h.(status := Ready) else h
  }

  /** d is m after delivery to x. */
  ghost predicate First(m: Machine, d: Machine, x: nat)
    requires Sound(m) && Sound(d) && x < SLOTS
  {
    && d.procs[x] == Handed(m.procs[x], x == 0)
    && forall j: nat | j < SLOTS && j != x ::
         d.procs[j] == if Dies(m.procs[x], x == 0) then Bereaved(m, x, j) else m.procs[j]
  }

  /** Delivery to x first, and then to the others, is delivery to all of them. */
  lemma ResultStep(m: Machine, d: Machine, x: nat, rest: seq<nat>, k: nat)
    requires Sound(m) && Sound(d) && x < SLOTS && k < SLOTS && x !in rest && First(m, d, x)
    ensures Result(d, rest, k) == Result(m, [x] + rest, k)
  {
    hide Sound, Handed, Dies, Woken;
    HandedKeeps(m.procs[x], x == 0);
    HandedKeeps(d.procs[k], k == 0);
    if k == x || d.procs[k] == m.procs[k] {
      if d.procs[k].status == Waiting {
        StillWaits(m, d, x, rest, k);
      }
    } else {
      HandedReady(m.procs[k], k == 0);
      HandedKeeps(m.procs[k], k == 0);
      WokenByFirst(m, x, rest, k);
    }
  }

  /** Who still waits after delivery to x is woken by the others alone. */
  lemma StillWaits(m: Machine, d: Machine, x: nat, rest: seq<nat>, k: nat)
    requires Sound(m) && Sound(d) && x < SLOTS && k < SLOTS && x !in rest && First(m, d, x)
    requires d.procs[k].status == Waiting
    ensures Woken(d, rest, k) == Woken(m, [x] + rest, k)
  {
    hide Sound, Handed, Dies;
    HandedKeeps(m.procs[x], x == 0);
    ParentsDiffer(m, x);
    forall c: nat | c < SLOTS && c != x
      ensures Dies(d.procs[c], c == 0) == Dies(m.procs[c], c == 0) && Awaited(d, c, k) == Awaited(m, c, k)
    {
      DiesAlike(m.procs[c], d.procs[c], c == 0);
    }
    if c :| c in [x] + rest && c < SLOTS && Dies(m.procs[c], c == 0) && Awaited(m, c, k) {
      assert c != x && Dies(d.procs[c], c == 0);
    }
    if c :| c in rest && c < SLOTS && Dies(d.procs[c], c == 0) && Awaited(d, c, k) {
      assert c in [x] + rest;
    }
  }

  lemma WokenByFirst(m: Machine, x: nat, rest: seq<nat>, k: nat)
    requires Sound(m) && x < SLOTS && k < SLOTS && Dies(m.procs[x], x == 0) && Awaited(m, x, k)
    ensures Woken(m, [x] + rest, k)
  {
    assert x in [x] + rest;
  }

  lemma DiesAlike(p: Proc, q: Proc, kernel: bool)
    requires q.signals == p.signals && (q.status == Zombie <==> p.status == Zombie)
    ensures Dies(q, kernel) == Dies(p, kernel)
  {
  }

  lemma ParentsDiffer(m: Machine, x: nat)
    requires Sound(m) && x < SLOTS
    ensures m.procs[x].parent != x
  {
  }

  /** Handing over touches neither the tree nor the wait; it only ever ends a process. */
  lemma HandedKeeps(p: Proc, kernel: bool)
    ensures var q := Handed(p, kernel);
            && q.pid == p.pid && q.parent == p.parent && q.waitTarget == p.waitTarget
            && (if Dies(p, kernel) then q.status == Zombie else q.status == p.status)
  {
  }

  lemma HandedReady(p: Proc, kernel: bool)
    requires p.status == Waiting
    ensures var q := Handed(p.(status := Ready), kernel);
            q == if Dies(p, kernel) then Handed(p, kernel) else Handed(p, kernel).(status := Ready)
  {
  }

  /** process_deliver_all_pending_signals from place n of the list on, process by process. */
  lemma {:induction false} DeliverRest(m: Machine, n: nat)
    requires Shape(m) && n <= |m.order|
    ensures var d := DeliverFrom(m, n);
            && d == m.(procs := d.procs) && |d.procs| == SLOTS
            && forall k: nat | k < SLOTS :: d.procs[k] == Result(m, m.order[n..], k)
    decreases |m.order| - n
  {
    hide Shape, Sound, Deliver, Result;
    if n == |m.order| {
      NobodyLeft(m);
    } else {
      DeliverNext(m, n);
      DeliverRest(Deliver(m, m.order[n]), n + 1);
    }
  }

  lemma DeliverNext(m: Machine, n: nat)
    requires Shape(m) && n < |m.order|
    ensures m.order[n] in m.order && m.order[n] < SLOTS
    ensures var d := Deliver(m, m.order[n]);
            && Shape(d) && d == m.(procs := d.procs)
            && forall k: nat | k < SLOTS :: Result(d, m.order[n + 1..], k) == Result(m, m.order[n..], k)
  {
    hide Shape, Sound, Deliver, Result, Evolves, First;
    var (x, rest) := (m.order[n], m.order[n + 1..]);
    assert x in m.order;
    var d := Deliver(m, x);
    DeliverIsFirst(m, x);
    DeliverEvolves(m, x);
    Evolved(m, d);
    Scheduling.ListNoRepeats(m);
    assert m.order[n..] == [x] + rest && x !in rest;
    forall k: nat | k < SLOTS
      ensures Result(d, rest, k) == Result(m, m.order[n..], k)
    {
      ResultStep(m, d, x, rest, k);
    }
  }

  lemma DeliverIsFirst(m: Machine, x: nat)
    requires Shape(m) && x in m.order
    ensures var d := Deliver(m, x);
            x < SLOTS && First(m, d, x) && d == m.(procs := d.procs)
  {
    hide Shape, Deliver, Handed, Dies, Bereaved;
    DeliverOne(m, x);
  }

  lemma NobodyLeft(m: Machine)
    requires Sound(m)
    ensures m.order[|m.order|..] == [] && forall k: nat | k < SLOTS :: m.procs[k] == Result(m, [], k)
  {
  }

  // ---- The outcome, from the queues before ----

  /** A child that k waits for, neither the kernel nor ended, has a fatal signal pending. */
  ghost predicate LosesChild(m: Machine, k: nat)
    requires Sound(m) && k < SLOTS
  {
    exists c :: c in m.order && c != 0 && m.procs[c].status != Zombie
                && FirstFatal(m.procs[c].signals) < |m.procs[c].signals| && Awaited(m, c, k)
  }

  lemma LosesWoken(m: Machine, k: nat)
    requires Sound(m) && k < SLOTS
    ensures LosesChild(m, k) == Woken(m, m.order, k)
  {
    if c :| c in m.order && c != 0 && m.procs[c].status != Zombie
            && FirstFatal(m.procs[c].signals) < |m.procs[c].signals| && Awaited(m, c, k) {
      assert Dies(m.procs[c], c == 0);
    }
  }

  /** process_deliver_all_pending_signals, told for each listed process by what was pending. The kernel is handed
      everything. A zombie is handed one signal, to no effect on status and code. A live process with TERM or KILL
      pending is a zombie with code 128 + signal, with what came behind that signal still queued. Any other has an empty
      queue, and keeps its status, except that a waiting process whose child dies here is ready. */
  lemma DeliverAllMeaning(m: Machine, i: nat)
    requires Shape(m) && i in m.order
    ensures var (p, q, s) := (m.procs[i], DeliverAll(m).procs[i], m.procs[i].signals);
            var k := FirstFatal(s);
            if i == 0 then q.signals == [] && q.status == Thread && q.exitCode == p.exitCode
            else if p.status == Zombie then
              && q.signals == (if s == [] then [] else s[1..]) && q.status == Zombie && q.exitCode == p.exitCode
            else if k < |s| then q.signals == s[k + 1..] && q.status == Zombie && q.exitCode == 128 + s[k].signal
            else
              && q.signals == [] && q.exitCode == p.exitCode
              && q.status == if p.status == Waiting && LosesChild(m, i) then Ready else p.status
  {
    hide Shape, Woken, LosesChild;
    DeliverRest(m, 0);
    assert m.order[0..] == m.order;
    LosesWoken(m, i);
    KernelLives(m);
  }

  /** Delivery changes nothing but queues, statuses, codes and the record of the last signal: list, cursor, pids,
      tree, owners, entries, sockets and waits stay, and so does everything about a process without signals that does
      not wait; the record is that of the last signal handed over. */
  lemma DeliverAllKeeps(m: Machine, i: nat)
    requires Shape(m) && i in m.order
    ensures var (d, p, q) := (DeliverAll(m), m.procs[i], DeliverAll(m).procs[i]);
            && d == m.(procs := d.procs)
            && q == p.(signals := q.signals, status := q.status, exitCode := q.exitCode,
                       lastSignal := q.lastSignal, lastSignalValue := q.lastSignalValue)
            && (p.signals == [] && p.status != Waiting ==> q == p)
            && var n := |p.signals| - |q.signals|;
               if n <= 0 then q.lastSignal == p.lastSignal && q.lastSignalValue == p.lastSignalValue
               else q.lastSignal == Wrap(p.signals[n - 1].signal) && q.lastSignalValue == p.signals[n - 1].value
  {
    hide Shape, Woken, Dies, Handed, DeliverAll;
    AllIsRest(m);
    DeliverRest(m, 0);
    assert m.order[0..] == m.order;
    HandedRecord(m.procs[i], i == 0);
  }

  lemma AllIsRest(m: Machine)
    requires Sound(m)
    ensures DeliverAll(m) == DeliverFrom(m, 0)
  {
  }

  lemma HandedRecord(p: Proc, kernel: bool)
    ensures var q := Handed(p, kernel);
            var n := |p.signals| - |q.signals|;
            && q == p.(signals := q.signals, status := q.status, exitCode := q.exitCode,
                       lastSignal := q.lastSignal, lastSignalValue := q.lastSignalValue)
            && (p.signals == [] ==> q == p)
            && if n <= 0 then q.lastSignal == p.lastSignal && q.lastSignalValue == p.lastSignalValue
               else
                 && n <= |p.signals| && q.lastSignal == Wrap(p.signals[n - 1].signal)
                 && q.lastSignalValue == p.signals[n - 1].value
  {
    hide FirstFatal;
  }
}
