/** From an exit or a fatal signal to the wait that collects it: whole runs (process_exit, send_signal_to_process and
    process_wait in kernel/src/process.c). */
module Exits {
  import opened Words
  import opened ProcessModel
  import opened ProcessLaws
  import opened Zombies
  import opened CallMeanings
  import opened Deliveries
  import opened Turns

  // ---- Runs in parts ----

  lemma {:induction false} CallsSplit(m: Machine, a: seq<Call>, b: seq<Call>, rules: Rules)
    requires Shape(m) && AllowedCalls(m, a + b, rules)
    ensures var (s, log) := PerformAll(m, a);
            && Shape(s) && |log| == |a| && AllowedCalls(s, b, rules)
            && PerformAll(m, a + b) == (PerformAll(s, b).0, log + PerformAll(s, b).1)
    decreases |a|
  {
    hide Shape, Sound, Perform, Allowed;
    if a == [] {
      assert a + b == b && [] + PerformAll(m, b).1 == PerformAll(m, b).1;
    } else {
      assert (a + b)[0] == a[0] && (a + b)[1..] == a[1..] + b;
      var (d, x) := Perform(m, a[0]);
      CallKeepsShape(m, a[0], rules);
      CallsSplit(d, a[1..], b, rules);
      var (s, log) := PerformAll(d, a[1..]);
      assert [x] + (log + PerformAll(s, b).1) == [x] + log + PerformAll(s, b).1;
    }
  }

  /** Every collection of the pid in the log returns the code. */
  ghost predicate Returns(log: seq<Answer>, pid: nat, code: int) {
    forall i | 0 <= i < |log| && log[i].Collected? && log[i].pid == pid :: log[i].code == code
  }

  lemma {:induction false} CodesReturn(log: seq<Answer>, pid: nat, code: int)
    requires Codes(log, pid) == [] || Codes(log, pid) == [code]
    ensures Returns(log, pid, code)
  {
    if log != [] {
      assert |CodeOf(log[0], pid)| <= 1;
      CodesReturn(log[1..], pid, code);
      forall i | 0 <= i < |log| && log[i].Collected? && log[i].pid == pid
        ensures log[i].code == code
      {
        if i == 0 {
          assert Codes(log, pid)[0] == log[0].code;
        } else {
          assert log[1..][i - 1] == log[i];
        }
      }
    }
  }

  // ---- Exit ----

  /** A live process other than the kernel that exits is a zombie with exactly the code it gave. */
  lemma ExitCorpse(m: Machine, code: int)
    requires Shape(m) && m.current != 0 && m.procs[m.current].status != Zombie
    ensures Corpse(Perform(m, ExitCall(code)).0, m.procs[m.current].pid, code)
    ensures Shape(Perform(m, ExitCall(code)).0)
  {
    hide Shape, Sound, Perform, Find, Evolves;
    ExitMeaning(m, code);
    OtherCallEvolves(m, ExitCall(code));
    var r := Perform(m, ExitCall(code)).0;
    Evolved(m, r);
    CurrentListed(m, r);
    Found(r, m.current);
  }

  lemma CurrentListed(m: Machine, r: Machine)
    requires Sound(m) && r.order == m.order
    ensures m.current in r.order && m.current < SLOTS
  {
  }

  /** The calls from an exit to the end of its tick, and the run after it. */
  lemma AfterExit(m: Machine, code: int, rest: seq<Call>, es: seq<Event>, rules: Rules)
    requires Shape(m) && m.current != 0 && m.procs[m.current].status != Zombie && rules.living
    requires AllowedCalls(m, [ExitCall(code)] + rest, rules)
    requires AllowedRun(Settle(PerformAll(m, [ExitCall(code)] + rest).0), es, rules)
    ensures var (e, log) := PerformAll(m, [ExitCall(code)] + rest);
            var (f, more) := RunAll(Settle(e), es);
            Laid(f, m.procs[m.current].pid, code, Codes(log + more, m.procs[m.current].pid))
  {
    hide Shape, Sound, Perform, Corpse, Gone, Laid, Allowed, RunAll, AllowedRun, AllowedCalls, PerformAll, Settle,
         Codes;
    var (d, pid) := (Perform(m, ExitCall(code)).0, m.procs[m.current].pid);
    ExitCorpse(m, code);
    ExitFirst(m, code, rest, rules);
    AfterCorpse(d, pid, code, rest, es, rules);
    var (log, more) := (PerformAll(d, rest).1, RunAll(Settle(PerformAll(d, rest).0), es).1);
    CodesConcat([Done], log + more, pid);
    assert [Done] + log + more == [Done] + (log + more);
    DoneHasNoCode(pid, Codes(log + more, pid));
  }

  /** The calls from a death to the end of its tick, and the run after it. */
  lemma AfterCorpse(d: Machine, pid: nat, code: int, rest: seq<Call>, es: seq<Event>, rules: Rules)
    requires Shape(d) && Corpse(d, pid, code) && rules.living && AllowedCalls(d, rest, rules)
    requires AllowedRun(Settle(PerformAll(d, rest).0), es, rules)
    ensures var (e, log) := PerformAll(d, rest);
            var (f, more) := RunAll(Settle(e), es);
            Laid(f, pid, code, Codes(log + more, pid))
  {
    hide Shape, Sound, Corpse, Gone, Laid, RunAll, AllowedRun, AllowedCalls, PerformAll, Settle, Codes;
    CallsCorpse(d, rest, rules, pid, code);
    var (e, log) := PerformAll(d, rest);
    SettledLaid(e, pid, code, Codes(log, pid));
    ZombiesAreFinal(Settle(e), es, rules, pid, code);
    var (f, more) := RunAll(Settle(e), es);
    LaidTwice(Settle(e), Settle(e), f, pid, code, Codes(log, pid), Codes(more, pid));
    CodesConcat(log, more, pid);
  }

  lemma DoneHasNoCode(pid: nat, codes: seq<int>)
    ensures Codes([Done], pid) + codes == codes
  {
  }

  lemma ExitFirst(m: Machine, code: int, rest: seq<Call>, rules: Rules)
    requires Sound(m) && AllowedCalls(m, [ExitCall(code)] + rest, rules)
    ensures var d := Perform(m, ExitCall(code)).0;
            && AllowedCalls(d, rest, rules)
            && PerformAll(m, [ExitCall(code)] + rest) == (PerformAll(d, rest).0, [Done] + PerformAll(d, rest).1)
  {
    assert ([ExitCall(code)] + rest)[1..] == rest;
  }

  lemma SettledLaid(e: Machine, pid: nat, code: int, codes: seq<int>)
    requires Shape(e) && Laid(e, pid, code, codes)
    ensures Shape(Settle(e)) && Laid(Settle(e), pid, code, codes)
  {
    hide Shape, Corpse, Gone, Settle;
    SettledCorpse(e, pid, code);
  }

  /** What a process exits with is what its collection returns: in any allowed run from a tick on in which the picked
      process, after any calls, exits with a code while it lives, every later wait that collects it returns that code,
      and at most one does; until then it stays a zombie with that code. */
  lemma ExitCodeReturned(m: Machine, before: seq<Call>, code: int, rest: seq<Call>, es: seq<Event>, rules: Rules)
    requires Shape(m) && rules.living && Pick(DeliverAll(m)) != -1
    requires AllowedRun(m, [TickEvent(before + [ExitCall(code)] + rest)] + es, rules)
    requires var s := PerformAll(Started(m), before).0; s.current != 0 && s.procs[s.current].status != Zombie
    ensures var (s, (f, log)) :=
              (PerformAll(Started(m), before).0, RunAll(m, [TickEvent(before + [ExitCall(code)] + rest)] + es));
            var pid := s.procs[s.current].pid;
            && |before| <= |log| && Laid(f, pid, code, Codes(log[|before|..], pid))
            && Returns(log[|before|..], pid, code) && |Codes(log[|before|..], pid)| <= 1
  {
    hide Shape, Sound, Corpse, Gone, Settle, Started, Pick, DeliverAll, Happen, PerformAll, RunAll, AllowedCalls,
         AllowedRun, AllowedEvent, Laid, Returns, Codes;
    var (s, body) := (PerformAll(Started(m), before).0, before + [ExitCall(code)] + rest);
    assert body == before + ([ExitCall(code)] + rest);
    FirstEvent(m, TickEvent(body), es, rules);
    TickInParts(m, before, [ExitCall(code)] + rest, rules);
    AfterExit(s, code, rest, es, rules);
    var (log0, (e, log1)) := (PerformAll(Started(m), before).1, PerformAll(s, [ExitCall(code)] + rest));
    var log2 := RunAll(Settle(e), es).1;
    assert (log0 + log1 + log2)[|before|..] == log1 + log2;
    LaidOnce(RunAll(Settle(e), es).0, s.procs[s.current].pid, code, log1 + log2);
  }

  lemma LaidOnce(f: Machine, pid: nat, code: int, log: seq<Answer>)
    requires Sound(f) && Laid(f, pid, code, Codes(log, pid))
    ensures Returns(log, pid, code) && |Codes(log, pid)| <= 1
  {
    hide Corpse, Gone;
    CodesReturn(log, pid, code);
  }

  /** A tick whose calls come in two parts. */
  lemma TickInParts(m: Machine, before: seq<Call>, last: seq<Call>, rules: Rules)
    requires Shape(m) && Pick(DeliverAll(m)) != -1 && AllowedEvent(m, TickEvent(before + last), rules)
    ensures var (s, log0) := PerformAll(Started(m), before);
            var (e, log1) := PerformAll(s, last);
            && Shape(s) && |log0| == |before| && AllowedCalls(s, last, rules)
            && Happen(m, TickEvent(before + last)) == (Settle(e), log0 + log1)
  {
    hide Shape, Sound, Settle, Started, Pick, DeliverAll, PerformAll, AllowedCalls, Tick, Evolves;
    TickMeaning(m, before + last);
    StartedEvolves(m);
    CallsSplit(Started(m), before, last, rules);
  }

  lemma FirstEvent(m: Machine, e: Event, es: seq<Event>, rules: Rules)
    requires Sound(m) && AllowedRun(m, [e] + es, rules)
    ensures var (d, log) := Happen(m, e);
            && AllowedEvent(m, e, rules) && AllowedRun(d, es, rules)
            && RunAll(m, [e] + es) == (RunAll(d, es).0, log + RunAll(d, es).1)
  {
    hide Happen, AllowedEvent;
    assert ([e] + es)[1..] == es;
  }

  // ---- Fatal signals ----

  /** A live process other than the kernel with a fatal signal pending is dead once the next tick has begun. */
  lemma FatalCorpse(m: Machine, i: nat)
    requires Shape(m) && i in m.order && i != 0 && i < SLOTS && m.procs[i].status != Zombie
    requires FirstFatal(m.procs[i].signals) < |m.procs[i].signals|
    ensures var s := m.procs[i].signals;
            Corpse(Started(m), m.procs[i].pid, 128 + s[FirstFatal(s)].signal) && Shape(Started(m))
  {
    hide Shape, Sound, Find, Evolves, DeliverAll, Pick, LosesChild, Started, FirstFatal, DeliverFrom;
    DeliverAllMeaning(m, i);
    DeliverAllKeeps(m, i);
    StartedMeaning(m);
    StartedEvolves(m);
    StartedList(m);
    Found(Started(m), i);
  }

  lemma StartedList(m: Machine)
    requires Shape(m)
    ensures Started(m).order == m.order
  {
    hide Shape, Evolves, DeliverAll, Pick;
    StartedEvolves(m);
  }

  /** The tick that finds a fatal signal pending, and the run after it. */
  lemma FatalTick(m: Machine, i: nat, body: seq<Call>, es: seq<Event>, rules: Rules)
    requires Shape(m) && i in m.order && i != 0 && i < SLOTS && m.procs[i].status != Zombie && rules.living
    requires FirstFatal(m.procs[i].signals) < |m.procs[i].signals|
    requires AllowedRun(m, [TickEvent(body)] + es, rules)
    ensures var (s, (f, log)) := (m.procs[i].signals, RunAll(m, [TickEvent(body)] + es));
            Laid(f, m.procs[i].pid, 128 + s[FirstFatal(s)].signal, Codes(log, m.procs[i].pid))
  {
    hide Shape, Sound, Corpse, Gone, Laid, Settle, Started, Pick, DeliverAll, Happen, PerformAll, RunAll, AllowedCalls,
         AllowedRun, AllowedEvent, FirstFatal, Evolves;
    var (pid, code) := (m.procs[i].pid, 128 + m.procs[i].signals[FirstFatal(m.procs[i].signals)].signal);
    FirstEvent(m, TickEvent(body), es, rules);
    FatalCorpse(m, i);
    FatalBody(m, body, rules, pid, code);
    var (e, log) := Happen(m, TickEvent(body));
    ZombiesAreFinal(e, es, rules, pid, code);
    var (f, more) := RunAll(e, es);
    LaidTwice(e, e, f, pid, code, Codes(log, pid), Codes(more, pid));
    CodesConcat(log, more, pid);
  }

  lemma FatalBody(m: Machine, body: seq<Call>, rules: Rules, pid: nat, code: int)
    requires Shape(m) && AllowedEvent(m, TickEvent(body), rules) && rules.living
    requires Shape(Started(m)) && Corpse(Started(m), pid, code)
    ensures var (e, log) := Happen(m, TickEvent(body));
            Shape(e) && Laid(e, pid, code, Codes(log, pid))
  {
    hide Shape, Sound, Corpse, Gone, Laid, Settle, Started, Pick, DeliverAll, PerformAll, AllowedCalls, Evolves, Tick;
    TickMeaning(m, body);
    if Pick(DeliverAll(m)) == -1 {
      NotStarted(m);
      NothingLaid(Started(m), pid, code);
    } else {
      CallsCorpse(Started(m), body, rules, pid, code);
      SettledLaid(PerformAll(Started(m), body).0, pid, code, Codes(PerformAll(Started(m), body).1, pid));
    }
  }

  lemma NotStarted(m: Machine)
    requires Shape(m) && Pick(DeliverAll(m)) == -1
    ensures Started(m) == DeliverAll(m)
  {
  }

  /** The code that the first fatal signal of a queue gives. */
  function FatalCode(s: seq<Pending>): int
    requires FirstFatal(s) < |s|
  {
    128 + s[FirstFatal(s)].signal
  }

  lemma FatalIsQueued(s: seq<Pending>, x: Pending)
    requires Fatal(x)
    ensures FirstFatal(s + [x]) < |s + [x]|
    ensures FirstFatal(s) == |s| ==> FatalCode(s + [x]) == 128 + x.signal
  {
    var k := FirstFatal(s + [x]);
    assert (s + [x])[|s|] == x;
    if k < |s| {
      assert (s + [x])[k] == s[k];
    }
  }

  /** kill reaches its target: a TERM or KILL that is sent with success to a live process other than the kernel makes
      it, with the next tick and whatever runs in it, a zombie with the code of the first fatal signal in its queue,
      which is 128 plus this one unless another came before; every later wait that collects it returns that code, and
      at most one does. */
  lemma KillLands(m: Machine, pid: nat, x: Pending, i: nat, body: seq<Call>, es: seq<Event>, rules: Rules)
    requires Shape(m) && i in m.order && Has(m, i, pid) && i != 0 && m.procs[i].status != Zombie && rules.living
    requires (x.signal == 9 || x.signal == 15) && Perform(m, SignalCall(pid, x)).1 == Done
    requires AllowedRun(m, [KernelCall(SignalCall(pid, x))] + ([TickEvent(body)] + es), rules)
    ensures FirstFatal(m.procs[i].signals + [x]) < |m.procs[i].signals + [x]|
    ensures var code := FatalCode(m.procs[i].signals + [x]);
            var (f, log) := RunAll(m, [KernelCall(SignalCall(pid, x))] + ([TickEvent(body)] + es));
            && (FirstFatal(m.procs[i].signals) == |m.procs[i].signals| ==> code == 128 + x.signal)
            && Laid(f, pid, code, Codes(log, pid)) && Returns(log, pid, code)
  {
    hide Shape, Sound, Corpse, Gone, Laid, Happen, RunAll, AllowedRun, AllowedEvent, FirstFatal, FatalCode, Codes,
         Returns;
    FatalIsQueued(m.procs[i].signals, x);
    var d := Perform(m, SignalCall(pid, x)).0;
    FirstEvent(m, KernelCall(SignalCall(pid, x)), [TickEvent(body)] + es, rules);
    SignalledShape(m, pid, x, i);
    SignalEvent(m, pid, x);
    FatalTick(d, i, body, es, rules);
    FatalCodeIs(d.procs[i].signals);
    var (f, log) := RunAll(d, [TickEvent(body)] + es);
    DoneHasNoCode(pid, Codes(log, pid));
    CodesConcat([Done], log, pid);
    LaidOnce(f, pid, FatalCode(d.procs[i].signals), [Done] + log);
  }

  lemma FatalCodeIs(s: seq<Pending>)
    requires FirstFatal(s) < |s|
    ensures FatalCode(s) == 128 + s[FirstFatal(s)].signal
  {
  }

  lemma SignalEvent(m: Machine, pid: nat, x: Pending)
    requires Sound(m)
    ensures Happen(m, KernelCall(SignalCall(pid, x))) ==
            (Perform(m, SignalCall(pid, x)).0, [Perform(m, SignalCall(pid, x)).1])
  {
  }

  lemma SignalledShape(m: Machine, pid: nat, x: Pending, i: nat)
    requires Shape(m) && i in m.order && Has(m, i, pid) && Perform(m, SignalCall(pid, x)).1 == Done
    ensures var d := Perform(m, SignalCall(pid, x)).0;
            && Shape(d) && d.order == m.order && i < SLOTS
            && d.procs[i] == m.procs[i].(signals := m.procs[i].signals + [x])
  {
    hide Shape, Sound, Perform, Evolves, Find;
    SignalMeaning(m, pid, x);
    FindHas(m, pid);
    OtherCallEvolves(m, SignalCall(pid, x));
    Evolved(m, Perform(m, SignalCall(pid, x)).0);
  }
}
