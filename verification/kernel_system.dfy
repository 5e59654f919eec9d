/** Processes and memory together: every process in the list owns five frames, from creation to collection
    (kernel/src/process.c over kernel/src/pmm.c, kernel/src/paging.c and kernel/src/vmalloc.c). */
module KernelSystem {
  import opened ProcessModel
  import PL = ProcessLaws
  import PT = ProcessTable
  import KM = KernelMemory
  import ML = MemoryLaws
  import Ownership
  import Paging
  import Zombies
  import Pmm
  import VmallocModel
  import Kmalloc
  import HeapMemory

  /** Exactly the listed processes other than the kernel hold memory. */
  ghost predicate Agrees(order: seq<nat>, procs: seq<Ownership.ProcMem>) {
    |procs| == SLOTS && forall s: nat | s < SLOTS :: procs[s].live <==> s in order && s != 0
  }

  /** The same call, up to how its request for memory ends. */
  ghost predicate SameCall(c: Call, d: Call) {
    match c
    case CreateCall(owner, hasEntry, _) => d.CreateCall? && d.owner == owner && d.hasEntry == hasEntry
    case ForkCall(pid, _) => d.ForkCall? && d.pid == pid
    case _ => d == c
  }

  ghost predicate SameCalls(cs: seq<Call>, ds: seq<Call>) {
    |ds| == |cs| && forall i | 0 <= i < |cs| :: SameCall(cs[i], ds[i])
  }

  lemma AgreesMore(order: seq<nat>, procs: seq<Ownership.ProcMem>, s: nat, p: Ownership.ProcMem)
    requires Agrees(order, procs) && s < SLOTS && s != 0 && p.live
    ensures Agrees(order + [s], procs[s := p])
  {
  }

  lemma AgreesLess(order: seq<nat>, procs: seq<Ownership.ProcMem>, j: nat, p: Ownership.ProcMem, rest: seq<nat>)
    requires Agrees(order, procs) && j < SLOTS && !p.live && forall x :: x in rest <==> x in order && x != j
    ensures Agrees(rest, procs[j := p])
  {
  }

  lemma FreeIsDead(order: seq<nat>, procs: seq<Ownership.ProcMem>)
    requires Agrees(order, procs)
    ensures var s := FreeSlot(order, 1); |procs| == SLOTS && (s < SLOTS ==> s != 0 && !procs[s].live)
  {
  }

  /** The list and the memory agree again once both have ended a creation the same way: ok when a slot is free and
      memory was found. */
  lemma CreateEnds(m: Machine, p: Proc, found: bool, procs0: seq<Ownership.ProcMem>, procs: seq<Ownership.ProcMem>)
    requires PL.Shape(m) && p.parent in m.order && PL.Fits(p) && m.nextPid + 1 < 0x1_0000_0000
             && Agrees(m.order, procs0)
    requires var s := FreeSlot(m.order, 1);
             if s < SLOTS && found then |procs| == SLOTS && procs == procs0[s := procs[s]] && procs[s].live
             else procs == procs0
    ensures var (r, a) := ProcessModel.Create(m, p, found);
            && PL.Shape(r) && Agrees(r.order, procs) && (a.Created? <==> FreeSlot(m.order, 1) < SLOTS && found)
            && |r.order| == |m.order| + if a.Created? then 1 else 0
  {
    hide Sound, PL.Shape, Agrees, FreeSlot;
    FreeIsDead(m.order, procs0);
    PL.CreateShape(m, p, found);
    PT.CreateCases(m, p, found);
    hide ProcessModel.Create;
    var s := FreeSlot(m.order, 1);
    if s < SLOTS && found {
      AgreesMore(m.order, procs0, s, procs[s]);
    }
  }

  lemma BootAgrees(procs: seq<Ownership.ProcMem>)
    requires procs == seq(Ownership.SLOTS, i => Ownership.NO_MEMORY)
    ensures Agrees(Booted().order, procs)
  {
  }

  lemma ListedIsLive(order: seq<nat>, procs: seq<Ownership.ProcMem>, i: nat)
    requires Agrees(order, procs) && i in order && i != 0 && i < SLOTS
    ensures |procs| == SLOTS && procs[i].live
  {
  }

  lemma ForkEnds(m: Machine, i: nat, found: bool, procs0: seq<Ownership.ProcMem>, procs: seq<Ownership.ProcMem>)
    requires PL.Shape(m) && i in m.order && i != 0 && i < SLOTS && m.procs[i].hasEntry
    requires m.nextPid + 1 < 0x1_0000_0000 && Agrees(m.order, procs0)
    requires var s := FreeSlot(m.order, 1);
             if s < SLOTS && found then |procs| == SLOTS && procs == procs0[s := procs[s]] && procs[s].live
             else procs == procs0
    ensures var (r, a) := ProcessModel.Fork(m, i, found);
            && PL.Shape(r) && Agrees(r.order, procs) && (a.Created? <==> FreeSlot(m.order, 1) < SLOTS && found)
            && |r.order| == |m.order| + if a.Created? then 1 else 0
  {
    hide Sound, PL.Shape, Agrees, FreeSlot, ProcessModel.Create;
    var p := m.procs[i];
    var child := NewProc(i, p.owner, true).(lastSignal := p.lastSignal, lastSignalValue := p.lastSignalValue);
    CreateEnds(m, child, found, procs0, procs);
  }

  /** A wait that collects takes out exactly the process whose memory is then released. */
  lemma WaitEnds(m: Machine, pid: nat, procs: seq<Ownership.ProcMem>)
    requires PL.Shape(m) && Agrees(m.order, procs)
    ensures var ((r, a), j) := (ProcessModel.Wait(m, pid), Find(m, pid));
            && PL.Shape(r) && |procs| == SLOTS && |r.order| == |m.order| - (if a.Collected? then 1 else 0)
            && (a.Collected? ==> m.current == 0 || j != m.current)
            && (if a.Collected? then 0 <= j < SLOTS && procs[j].live && Agrees(r.order, procs[j := Ownership.NO_MEMORY])
                else Agrees(r.order, procs))
  {
    hide PL.Shape, Sound, Find, ProcessModel.Release, PL.LetGo;
    Zombies.WaitShape(m, pid);
    var (r, a) := ProcessModel.Wait(m, pid);
    if a.Collected? {
      var j := Find(m, pid);
      PL.CollectFrame(m, pid);
      CollectsOther(m, pid);
      PL.LetGoEvolves(m);
      PL.Evolved(m, PL.LetGo(m));
      PL.ReleaseFrame(PL.LetGo(m), j);
      AgreesLess(m.order, procs, j, Ownership.NO_MEMORY, r.order);
      assert |Remove(m.order, j)| == |m.order| - 1;
    } else if a == Waits {
      PL.BlockKeeps(m, pid);
    }
  }

  /** Nobody collects itself. */
  lemma CollectsOther(m: Machine, pid: nat)
    requires Sound(m) && ProcessModel.Wait(m, pid).1.Collected?
    ensures m.current == 0 || Find(m, pid) != m.current
  {
    hide Find, ProcessModel.Release;
  }

  lemma {:induction false} PerformAppend(m: Machine, cs: seq<Call>, c: Call)
    requires Sound(m)
    ensures var (d, log) := PerformAll(m, cs);
            PerformAll(m, cs + [c]) == (Perform(d, c).0, log + [Perform(d, c).1])
    decreases |cs|
  {
    hide Perform, Sound;
    if cs == [] {
      assert cs + [c] == [c] && [c][1..] == [];
      assert [Perform(m, c).1] + [] == [] + [Perform(m, c).1];
    } else {
      PerformAppend(Perform(m, cs[0]).0, cs[1..], c);
      assert (cs + [c])[1..] == cs[1..] + [c];
      var (d, log) := PerformAll(Perform(m, cs[0]).0, cs[1..]);
      var a, b := Perform(m, cs[0]).1, Perform(d, c).1;
      assert [a] + (log + [b]) == [a] + log + [b];
    }
  }

  lemma {:induction false} RunAppend(m: Machine, es: seq<Event>, e: Event)
    requires Sound(m)
    ensures var (d, log) := RunAll(m, es);
            RunAll(m, es + [e]) == (Happen(d, e).0, log + Happen(d, e).1)
    decreases |es|
  {
    hide Happen, Sound;
    if es == [] {
      assert (es + [e])[1..] == [];
      assert Happen(m, e).1 + [] == [] + Happen(m, e).1;
    } else {
      RunAppend(Happen(m, es[0]).0, es[1..], e);
      assert (es + [e])[1..] == es[1..] + [e];
      var (d, log) := RunAll(Happen(m, es[0]).0, es[1..]);
      var a, b := Happen(m, es[0]).1, Happen(d, e).1;
      assert a + (log + b) == a + log + b;
    }
  }

  /** Going is a normal end and Halted is panic. Astray means that the code goes on through the address of a frame that
      does not lead to that frame. Outside means that a premise failed: pids would wrap, or the kernel directory has a
      table at the process region, or a vmalloc request would wrap or reach it. */
  datatype Ending = Going | Halted | Astray | Outside

  function EndingOf(r: ML.Outcome): Ending {
    match r
    case Halted => Halted
    case Stray => Astray
    case Outside => Outside
    case _ => Going
  }

  lemma OtherCallKeepsList(m: Machine, c: Call)
    requires PL.Shape(m) && !c.CreateCall? && !c.ForkCall? && !c.WaitCall?
    ensures PL.Shape(Perform(m, c).0) && Perform(m, c).0.order == m.order
  {
    hide PL.Shape, Sound, Perform, PL.Evolves;
    PL.OtherCallEvolves(m, c);
    PL.Evolved(m, Perform(m, c).0);
  }

  lemma NoCalls(m: Machine)
    requires Sound(m)
    ensures PerformAll(m, []) == (m, [])
  {
  }

  datatype Step =
    | KernelStep(call: Call)
    | TickStep(body: seq<Call>)
    | AllocateStep(size: nat)
    | DeallocateStep(ptr: nat)

  // ---- What happened, action by action ----

  /** Between ticks the kernel runs. In a tick either nobody was picked, or the picked process was found waiting or
      dead, or it runs. */
  datatype Phase = Kernel | Idle | Chosen | Running

  datatype Snap = Snap(machine: Machine, mem: ML.MemoryState, phase: Phase)

  datatype Action =
    | Enter
    | InTick(call: Call)
    | Leave
    | AtTop(call: Call)
    | Allocate(size: nat)
    | Deallocate(ptr: nat)

  /** The frames free below 16 MB decide whether a creation finds its memory. */
  function Resolved(c: Call, low: nat): Call {
    match c
    case CreateCall(owner, hasEntry, _) => CreateCall(owner, hasEntry, low >= 5)
    case ForkCall(pid, _) => ForkCall(pid, low >= 5)
    case _ => c
  }

  datatype Option<T> = None | Some(value: T)

  /** Who is forked; -1 and 0 are refused, and so is a process without an entry. */
  function ForkSource(m: Machine, pid: nat): int
    requires Sound(m)
  {
    if pid == 0 then m.current else Find(m, pid)
  }

  /** What a call asks of memory. */
  ghost function Asks(m: Machine, c: Call): Option<ML.MemoryOp>
    requires Sound(m)
  {
    var s := FreeSlot(m.order, 1);
    match c
    case CreateCall(_, _, _) => if s < SLOTS then Some(ML.Create(s)) else None
    case ForkCall(pid, _) =>
      var i := ForkSource(m, pid);
      if s < SLOTS && Forkable(m, i) then Some(ML.Fork(i, s)) else None
    case WaitCall(pid) =>
      var j := Find(m, pid);
      if ProcessModel.Wait(m, pid).1.Collected? && j >= 0 then Some(ML.Collect(j)) else None
    case _ => None
  }

  /** Memory did what the operation does, and the call went on. */
  ghost predicate MemoryDid(L: Ownership.Layout, limit: nat, s: ML.MemoryState, op: ML.MemoryOp, t: ML.MemoryState) {
    exists r: ML.Outcome :: (r.Done? || r.Failed?) && ML.Did(L, limit, s, op, r, t)
  }

  ghost predicate CallDid(L: Ownership.Layout, limit: nat, s: Snap, c: Call, t: Snap) {
    && Sound(s.machine) && t.phase == s.phase
    && t.machine == Perform(s.machine, Resolved(c, |ML.LowFrames(limit, s.mem.used)|)).0
    && match Asks(s.machine, c) {
         case None => t.mem == s.mem
         case Some(op) => MemoryDid(L, limit, s.mem, op, t.mem)
       }
  }

  /** A call that has to create a process cannot go on, and why. */
  ghost predicate CallStops(L: Ownership.Layout, limit: nat, s: Snap, c: Call, e: Ending) {
    var n, low := |ML.FreeFrames(limit, s.mem.used)|, |ML.LowFrames(limit, s.mem.used)|;
    && Sound(s.machine) && (c.CreateCall? || c.ForkCall?)
    && if s.machine.nextPid + 1 >= 0x1_0000_0000
          || (c.CreateCall? && Paging.HasTable(s.mem.ram, L.kdir, Ownership.REGION_DIR))
       then e == Outside
       else Asks(s.machine, c) != None && ((e == Halted && n == 1) || (e == Astray && n >= 2 && low < 5 && low < n))
  }

  ghost predicate Next(L: Ownership.Layout, limit: nat, s: Snap, act: Action, t: Snap) {
    && Sound(s.machine)
    && match act {
         case Enter =>
           && t.mem == s.mem && t.machine == PL.Started(s.machine)
           && t.phase == (if Pick(DeliverAll(s.machine)) == -1 then Idle
                          else if t.machine.procs[t.machine.current].status == Run then Running else Chosen)
         case InTick(c) => if s.phase == Running then CallDid(L, limit, s, c, t) else t == s
         case Leave =>
           && t.mem == s.mem && t.phase == Kernel
           && t.machine == (if s.phase == Idle then s.machine else Settle(s.machine))
         case AtTop(c) => CallDid(L, limit, s, c, t)
         case Allocate(size) =>
           t.machine == s.machine && t.phase == s.phase && MemoryDid(L, limit, s.mem, ML.Vmalloc(size), t.mem)
         case Deallocate(ptr) =>
           t.machine == s.machine && t.phase == s.phase && MemoryDid(L, limit, s.mem, ML.Vfree(ptr), t.mem)
       }
  }

  /** The action cannot go on from s, and why. */
  ghost predicate Stops(L: Ownership.Layout, limit: nat, s: Snap, act: Action, e: Ending) {
    match act
    case Enter => false
    case InTick(c) => s.phase == Running && CallStops(L, limit, s, c, e)
    case Leave => false
    case AtTop(c) => CallStops(L, limit, s, c, e)
    case Allocate(size) =>
      if !ML.Permitted(L, s.mem, ML.Vmalloc(size)) then e == Outside
      else (e == Halted && ML.VmallocEnds(L, limit, s.mem, size, ML.Halted))
           || (e == Astray && ML.VmallocEnds(L, limit, s.mem, size, ML.Stray))
    case Deallocate(ptr) => e == Halted && ptr != 0 && ML.NoRegionAt(s.mem.regions, ptr)
  }

  datatype Move = Move(before: Snap, act: Action, after: Snap)

  /** The moves lead from s to t. */
  ghost predicate Trail(L: Ownership.Layout, limit: nat, s: Snap, moves: seq<Move>, t: Snap) {
    && (forall i | 0 <= i < |moves| :: Next(L, limit, moves[i].before, moves[i].act, moves[i].after))
    && (forall i, j | 0 <= i && j == i + 1 && j < |moves| :: moves[j].before == moves[i].after)
    && (if moves == [] then s == t else s == moves[0].before && t == moves[|moves| - 1].after)
  }

  lemma TrailJoin(L: Ownership.Layout, limit: nat, s: Snap, a: seq<Move>, t: Snap, b: seq<Move>, u: Snap)
    requires Trail(L, limit, s, a, t) && Trail(L, limit, t, b, u)
    ensures Trail(L, limit, s, a + b, u)
  {
    hide Next;
  }

  lemma TrailOne(L: Ownership.Layout, limit: nat, s: Snap, act: Action, t: Snap)
    requires Next(L, limit, s, act, t)
    ensures Trail(L, limit, s, [Move(s, act, t)], t)
  {
  }

  /** The moves carry out the first actions of acts. */
  ghost predicate CarryOut(moves: seq<Move>, acts: seq<Action>) {
    |moves| <= |acts| && forall i | 0 <= i < |moves| :: moves[i].act == acts[i]
  }

  lemma CarryOutMore(a: seq<Move>, acts: seq<Action>, b: seq<Move>, more: seq<Action>)
    requires CarryOut(a, acts) && |a| == |acts| && CarryOut(b, more)
    ensures CarryOut(a + b, acts + more)
    ensures |b| < |more| ==> (acts + more)[|a + b|] == more[|b|]
  {
  }

  function Calls(cs: seq<Call>): (acts: seq<Action>)
    ensures |acts| == |cs| && forall i | 0 <= i < |cs| :: acts[i] == InTick(cs[i])
  {
    seq(|cs|, i requires 0 <= i < |cs| => InTick(cs[i]))
  }

  function TickActions(body: seq<Call>): (acts: seq<Action>)
    ensures |acts| == |body| + 2 && acts[0] == Enter && acts[|body| + 1] == Leave
    ensures forall i | 0 <= i < |body| :: acts[i + 1] == InTick(body[i])
  {
    [Enter] + Calls(body) + [Leave]
  }

  function ActionsOf(s: Step): seq<Action> {
    match s
    case KernelStep(call) => [AtTop(call)]
    case TickStep(body) => TickActions(body)
    case AllocateStep(size) => [Allocate(size)]
    case DeallocateStep(ptr) => [Deallocate(ptr)]
  }

  function Expand(steps: seq<Step>): seq<Action> {
    if steps == [] then [] else Expand(steps[..|steps| - 1]) + ActionsOf(steps[|steps| - 1])
  }

  lemma {:induction false} ExpandPrefix(steps: seq<Step>, i: nat)
    requires i <= |steps|
    ensures Expand(steps[..i]) <= Expand(steps)
    decreases |steps|
  {
    if i < |steps| {
      assert steps[..|steps| - 1][..i] == steps[..i];
      ExpandPrefix(steps[..|steps| - 1], i);
    } else {
      assert steps[..i] == steps;
    }
  }

  lemma ExpandMore(steps: seq<Step>, i: nat)
    requires i < |steps|
    ensures Expand(steps[..i + 1]) == Expand(steps[..i]) + ActionsOf(steps[i]) <= Expand(steps)
  {
    assert steps[..i + 1][..i] == steps[..i];
    ExpandPrefix(steps, i + 1);
  }

  /** The events are the kernel calls and ticks among the steps, with creations ending as they did. */
  ghost predicate SameRun(steps: seq<Step>, done: seq<Event>) {
    if steps == [] then done == [] else
    var rest := steps[..|steps| - 1];
    match steps[|steps| - 1]
    case KernelStep(call) =>
      && done != [] && SameRun(rest, done[..|done| - 1])
      && done[|done| - 1].KernelCall? && SameCall(call, done[|done| - 1].call)
    case TickStep(body) =>
      && done != [] && SameRun(rest, done[..|done| - 1])
      && done[|done| - 1].TickEvent? && SameCalls(body, done[|done| - 1].body)
    case _ => SameRun(rest, done)
  }

  lemma SameRunMore(steps: seq<Step>, i: nat, done: seq<Event>, e: Event)
    requires i < |steps| && SameRun(steps[..i], done)
    ensures steps[i].KernelStep? && e.KernelCall? && SameCall(steps[i].call, e.call) ==>
            SameRun(steps[..i + 1], done + [e])
    ensures steps[i].TickStep? && e.TickEvent? && SameCalls(steps[i].body, e.body) ==>
            SameRun(steps[..i + 1], done + [e])
    ensures steps[i].AllocateStep? || steps[i].DeallocateStep? ==> SameRun(steps[..i + 1], done)
  {
    hide SameCall, SameCalls;
    assert steps[..i + 1][..i] == steps[..i] && (done + [e])[..|done|] == done;
  }

  /** While the picked process does not run, its calls do nothing. */
  function Skipped(s: Snap, body: seq<Call>): (moves: seq<Move>)
    ensures |moves| == |body| && forall i | 0 <= i < |body| :: moves[i] == Move(s, InTick(body[i]), s)
  {
    seq(|body|, i requires 0 <= i < |body| => Move(s, InTick(body[i]), s))
  }

  lemma SkippedTrail(L: Ownership.Layout, limit: nat, s: Snap, body: seq<Call>)
    requires Sound(s.machine) && s.phase != Running
    ensures Trail(L, limit, s, Skipped(s, body), s)
  {
    hide Sound;
  }

  lemma NoEvents(m: Machine)
    requires Sound(m)
    ensures RunAll(m, []) == (m, [])
  {
  }

  /** Delivery keeps list and shape. */
  lemma DeliverShape(m: Machine)
    requires PL.Shape(m)
    ensures PL.Shape(DeliverAll(m)) && DeliverAll(m).order == m.order
  {
    hide PL.Shape, Sound, DeliverFrom, PL.Evolves;
    PL.DeliverFromEvolves(m, 0);
    PL.Evolved(m, DeliverAll(m));
  }

  lemma DispatchShape(m: Machine, p: nat)
    requires PL.Shape(m) && p in m.order && p != 0
    ensures PL.Shape(Dispatch(m, p)) && Dispatch(m, p).order == m.order
  {
    hide PL.Shape, Sound, Dispatch, PL.Evolves;
    PL.DispatchEvolves(m, p);
    PL.Evolved(m, Dispatch(m, p));
  }

  /** The three ends of a tick. */
  lemma TickCases(m: Machine, body: seq<Call>)
    requires Sound(m)
    ensures var (p, s) := (Pick(DeliverAll(m)), PL.Started(m));
            && (p != -1 ==> 0 <= p < SLOTS)
            && Tick(m, body) ==
               if p == -1 then (s, [])
               else if s.procs[p].status != Run then (Settle(s), [])
               else (Settle(PerformAll(s, body).0), PerformAll(s, body).1)
  {
  }

  lemma SettleShape(m: Machine)
    requires PL.Shape(m)
    ensures PL.Shape(Settle(m)) && Settle(m).order == m.order
  {
    hide PL.Shape, Sound, Settle, PL.Evolves;
    PL.SettleEvolves(m);
    PL.Evolved(m, Settle(m));
  }

  /** What a creation does, as far as the process table has to know. */
  lemma CreateDid(L: Ownership.Layout, limit: nat, s: ML.MemoryState, slot: nat, r: ML.Outcome, t: ML.MemoryState)
    requires ML.Did(L, limit, s, ML.Create(slot), r, t) && ML.Permitted(L, s, ML.Create(slot))
    ensures var n, low := |ML.FreeFrames(limit, s.used)|, |ML.LowFrames(limit, s.used)|;
            && (r.Done? <==> low >= 5) && (r.Halted? <==> n == 1) && (r.Stray? <==> n >= 2 && low < 5 && low < n)
                  && !r.Outside?
            && (r.Done? || r.Failed? ==> MemoryDid(L, limit, s, ML.Create(slot), t))
    ensures r.Done? ==>
              && slot < |s.procs| == |t.procs| && t.procs == s.procs[slot := t.procs[slot]] && t.procs[slot].live
              && |t.used| == |s.used| + 5
    ensures r.Failed? ==> t.procs == s.procs
  {
    hide ML.FreeFrames, ML.LowFrames;
  }

  lemma ForkDid(L: Ownership.Layout, limit: nat, s: ML.MemoryState, i: nat, slot: nat, r: ML.Outcome, t: ML.MemoryState)
    requires ML.Did(L, limit, s, ML.Fork(i, slot), r, t) && ML.Permitted(L, s, ML.Fork(i, slot))
    ensures var n, low := |ML.FreeFrames(limit, s.used)|, |ML.LowFrames(limit, s.used)|;
            && (r.Done? <==> low >= 5) && (r.Halted? <==> n == 1) && (r.Stray? <==> n >= 2 && low < 5 && low < n)
                  && !r.Outside?
            && (r.Done? || r.Failed? ==> MemoryDid(L, limit, s, ML.Fork(i, slot), t))
    ensures r.Done? ==>
              && slot < |s.procs| == |t.procs| && t.procs == s.procs[slot := t.procs[slot]] && t.procs[slot].live
              && |t.used| == |s.used| + 5
    ensures r.Failed? ==> t.procs == s.procs
  {
    hide ML.FreeFrames, ML.LowFrames;
  }

  /** Whether memory was found is irrelevant without a slot. */
  lemma SameMemoryOk(m: Machine, p: Proc, ok: bool, found: bool)
    requires Sound(m) && p.parent in m.order && (FreeSlot(m.order, 1) < SLOTS ==> ok == found)
    ensures ProcessModel.Create(m, p, ok) == ProcessModel.Create(m, p, found)
  {
  }

  /** fork_process looks further than NULL, the kernel and processes without an entry. */
  predicate Forkable(m: Machine, i: int) {
    0 < i < |m.procs| && m.procs[i].hasEntry
  }

  lemma SameForkOk(m: Machine, i: nat, ok: bool, found: bool)
    requires Sound(m) && i in m.order && (FreeSlot(m.order, 1) < SLOTS ==> ok == found)
    ensures ProcessModel.Fork(m, i, ok) == ProcessModel.Fork(m, i, found)
  {
  }

  lemma Collectable(L: Ownership.Layout, s: ML.MemoryState, j: nat)
    requires j < |s.procs| && s.procs[j].live
    ensures ML.Permitted(L, s, ML.Collect(j))
  {
  }

  lemma CollectDid(L: Ownership.Layout, limit: nat, s: ML.MemoryState, j: nat, t: ML.MemoryState)
    requires j < |s.procs| && s.procs[j].live && ML.Did(L, limit, s, ML.Collect(j), ML.Done(j), t)
    ensures t.procs == s.procs[j := Ownership.NO_MEMORY] && |t.used| == |s.used| - 5
  {
  }

  /** A live process whose directory is not current can be collected. */
  lemma OtherDirectory(memory: KM.Kernel, j: nat)
    requires memory.Valid() && j < SLOTS
    ensures memory.L.kdir != Ownership.ProcDir(memory.L, j)
  {
    ML.DirectoryFrame(memory.L, memory.ram, memory.pmm.used, memory.procs, j);
  }

  lemma DirectoriesExist(memory: KM.Kernel)
    requires memory.Valid()
    ensures memory.L.kdir < |memory.ram|
  {
    ML.DirectoryFrame(memory.L, memory.ram, memory.pmm.used, memory.procs, 0);
  }

  lemma ForkCallDid(L: Ownership.Layout, limit: nat, s: Snap, c: Call, t: Snap)
    requires Sound(s.machine) && c.ForkCall? && t.phase == s.phase
    requires t.machine == ProcessModel.Fork(s.machine, ForkSource(s.machine, c.pid),
             |ML.LowFrames(limit, s.mem.used)| >= 5).0
    requires var (i, slot) := (ForkSource(s.machine, c.pid), FreeSlot(s.machine.order, 1));
             if Forkable(s.machine, i) && slot < SLOTS then MemoryDid(L, limit, s.mem, ML.Fork(i, slot), t.mem)
             else t.mem == s.mem
    ensures CallDid(L, limit, s, c, t)
  {
    hide Find, FreeSlot, MemoryDid, ML.LowFrames, ProcessModel.Fork, Sound;
  }

  lemma ForkCallStops(L: Ownership.Layout, limit: nat, s: Snap, c: Call, e: Ending)
    requires Sound(s.machine) && c.ForkCall?
    requires if s.machine.nextPid + 1 >= 0x1_0000_0000 then e == Outside else
               var n, low := |ML.FreeFrames(limit, s.mem.used)|, |ML.LowFrames(limit, s.mem.used)|;
               && Forkable(s.machine, ForkSource(s.machine, c.pid)) && FreeSlot(s.machine.order, 1) < SLOTS
               && ((e == Halted && n == 1) || (e == Astray && n >= 2 && low < 5 && low < n))
    ensures CallStops(L, limit, s, c, e)
  {
    hide Find, FreeSlot, ML.LowFrames, ML.FreeFrames, Sound;
  }

  lemma ForkIs(m: Machine, c: Call, low: nat)
    requires Sound(m) && c.ForkCall?
    ensures Perform(m, Resolved(c, low)) == ProcessModel.Fork(m, ForkSource(m, c.pid), low >= 5)
  {
    hide ProcessModel.Fork, Find, Sound;
  }

  lemma NoMoves(L: Ownership.Layout, limit: nat, s: Snap)
    ensures Trail(L, limit, s, [], s)
  {
  }

  lemma CallMove(L: Ownership.Layout, limit: nat, s: Snap, c: Call, t: Snap)
    requires CallDid(L, limit, s, c, t) && s.phase == Running
    ensures Trail(L, limit, s, [Move(s, InTick(c), t)], t)
  {
    hide Sound;
    TrailOne(L, limit, s, InTick(c), t);
  }

  lemma TopMove(L: Ownership.Layout, limit: nat, s: Snap, c: Call, t: Snap)
    requires CallDid(L, limit, s, c, t)
    ensures Trail(L, limit, s, [Move(s, AtTop(c), t)], t)
  {
    hide Sound;
    TrailOne(L, limit, s, AtTop(c), t);
  }

  lemma SameCallsSelf(cs: seq<Call>)
    ensures SameCalls(cs, cs)
  {
  }

  lemma EnterIs(L: Ownership.Layout, limit: nat, s: Snap, t: Snap)
    requires Next(L, limit, s, Enter, t)
    ensures t.machine == PL.Started(s.machine) && Sound(t.machine)
  {
    hide PL.Started, Sound;
  }

  lemma IdleLeaves(L: Ownership.Layout, limit: nat, s: Snap, t: Snap)
    requires s.phase == Idle && Sound(s.machine) && t == s.(phase := Kernel)
    ensures Next(L, limit, s, Leave, t)
  {
    hide Sound;
  }

  /** The moves of a tick up to its end. */
  lemma InsideTick(L: Ownership.Layout, limit: nat, s0: Snap, s1: Snap, moves: seq<Move>, at: Snap, body: seq<Call>)
    requires Next(L, limit, s0, Enter, s1) && Trail(L, limit, s1, moves, at) && CarryOut(moves, Calls(body))
    ensures Trail(L, limit, s0, [Move(s0, Enter, s1)] + moves, at)
    ensures CarryOut([Move(s0, Enter, s1)] + moves, TickActions(body))
  {
    hide Trail, Next;
    TrailOne(L, limit, s0, Enter, s1);
    TrailJoin(L, limit, s0, [Move(s0, Enter, s1)], s1, moves, at);
    assert Calls(body) == Calls(body);
  }

  /** All the moves of a tick. */
  function TickMoves(s0: Snap, s1: Snap, inner: seq<Move>, at: Snap, t: Snap): seq<Move> {
    [Move(s0, Enter, s1)] + inner + [Move(at, Leave, t)]
  }

  lemma WholeTick(L: Ownership.Layout, limit: nat, s0: Snap, s1: Snap, inner: seq<Move>, at: Snap, body: seq<Call>,
                  t: Snap)
    requires Next(L, limit, s0, Enter, s1) && Trail(L, limit, s1, inner, at) && CarryOut(inner, Calls(body))
    requires |inner| == |body| && Next(L, limit, at, Leave, t)
    ensures var moves := TickMoves(s0, s1, inner, at, t);
            Trail(L, limit, s0, moves, t) && CarryOut(moves, TickActions(body)) && |moves| == |body| + 2
  {
    hide Trail, Next;
    InsideTick(L, limit, s0, s1, inner, at, body);
    TrailOne(L, limit, at, Leave, t);
    TrailJoin(L, limit, s0, [Move(s0, Enter, s1)] + inner, at, [Move(at, Leave, t)], t);
  }

  /** A tick in which the picked process runs stops when one of its calls does. */
  lemma TickStops(L: Ownership.Layout, limit: nat, s0: Snap, s1: Snap, inner: seq<Move>, at: Snap, body: seq<Call>,
                  e: Ending)
    requires Next(L, limit, s0, Enter, s1) && Trail(L, limit, s1, inner, at) && CarryOut(inner, Calls(body))
    requires |inner| < |body| && CallStops(L, limit, at, body[|inner|], e) && at.phase == Running
    ensures var moves := [Move(s0, Enter, s1)] + inner;
            && Trail(L, limit, s0, moves, at) && CarryOut(moves, TickActions(body)) && |moves| < |body| + 2
            && Stops(L, limit, at, TickActions(body)[|moves|], e)
  {
    hide CallStops, Trail, Next;
    InsideTick(L, limit, s0, s1, inner, at, body);
  }

  /** What the calls of a tick leave, and what its end makes of it, is a tick of the model. */
  lemma TickIs(m: Machine, body: seq<Call>, picked: bool, runs: bool, mid: Machine, log: seq<Answer>, r: Machine)
    requires Sound(m) && (picked <==> Pick(DeliverAll(m)) != -1)
             && (picked ==> Pick(DeliverAll(m)) == PL.Started(m).current)
    requires picked ==> (runs <==> PL.Started(m).procs[PL.Started(m).current].status == Run)
    requires (!picked ==> !runs) && Sound(mid)
    requires if runs then (mid, log) == PerformAll(PL.Started(m), body) else mid == PL.Started(m) && log == []
    requires r == if picked then Settle(mid) else mid
    ensures (r, log) == Tick(m, body)
  {
    hide Sound, PerformAll, Settle, Tick, PL.Started, DeliverFrom, PickFrom;
    TickCases(m, body);
  }

  lemma ProcsExist(memory: KM.Kernel)
    requires memory.Valid()
    ensures |memory.procs| == Ownership.SLOTS && memory.L.kdir < |memory.ram| && Paging.RamOk(memory.ram)
  {
    ML.DirectoryFrame(memory.L, memory.ram, memory.pmm.used, memory.procs, 0);
  }

  lemma NotPermitted(L: Ownership.Layout, limit: nat, s: Snap, size: nat)
    requires !ML.Permitted(L, s.mem, ML.Vmalloc(size))
    ensures Stops(L, limit, s, Allocate(size), Outside)
  {
  }

  lemma AllocatedIs(L: Ownership.Layout, limit: nat, s: Snap, size: nat, r: ML.Outcome, t: Snap)
    requires Sound(s.machine) && t.machine == s.machine && t.phase == s.phase
    requires ML.Permitted(L, s.mem, ML.Vmalloc(size)) && ML.Did(L, limit, s.mem, ML.Vmalloc(size), r, t.mem)
    ensures if r.Done? || r.Failed? then EndingOf(r) == Going && Next(L, limit, s, Allocate(size), t)
            else EndingOf(r) != Going && Stops(L, limit, s, Allocate(size), EndingOf(r))
  {
    hide Sound, ML.FreeFrames, ML.LowFrames, ML.VmallocDone, ML.VmallocUndone, ML.Permitted;
    ML.NeverOutside(L, limit, s.mem, ML.Vmalloc(size), r, t.mem);
  }

  lemma FreedIs(L: Ownership.Layout, limit: nat, s: Snap, ptr: nat, r: ML.Outcome, t: Snap)
    requires Sound(s.machine) && t.machine == s.machine && t.phase == s.phase
    requires ML.Did(L, limit, s.mem, ML.Vfree(ptr), r, t.mem)
    ensures if r.Done? then EndingOf(r) == Going && Next(L, limit, s, Deallocate(ptr), t)
            else EndingOf(r) != Going && Stops(L, limit, s, Deallocate(ptr), EndingOf(r))
  {
    hide Sound, ML.FreeFrames, ML.LowFrames, ML.VfreeDone;
  }

  lemma NoSteps(steps: seq<Step>)
    ensures Expand(steps[..0]) == [] && SameRun(steps[..0], [])
  {
  }

  lemma WholeRun(steps: seq<Step>)
    ensures steps[..|steps|] == steps
  {
  }

  /** What one step adds to the run of the model. */
  ghost predicate StepEvents(m: Machine, step: Step, events: seq<Event>, r: Machine, log: seq<Answer>)
    requires Sound(m)
  {
    match step
    case KernelStep(call) =>
      |events| == 1 && events[0].KernelCall? && SameCall(call, events[0].call) && (r, log) == Happen(m, events[0])
    case TickStep(body) =>
      |events| == 1 && events[0].TickEvent? && SameCalls(body, events[0].body) && (r, log) == Happen(m, events[0])
    case _ => events == [] && r == m && log == []
  }

  lemma EventsMore(m: Machine, done: seq<Event>, events: seq<Event>, steps: seq<Step>, i: nat)
    requires Sound(m) && i < |steps| && SameRun(steps[..i], done)
    ensures forall r: Machine, log: seq<Answer> | StepEvents(RunAll(m, done).0, steps[i], events, r, log) ::
              SameRun(steps[..i + 1], done + events) && RunAll(m, done + events) == (r, RunAll(m, done).1 + log)
  {
    hide Sound, Happen, RunAll, SameRun, SameCall, SameCalls;
    if |events| == 1 {
      assert events == [events[0]];
      RunAppend(m, done, events[0]);
      SameRunMore(steps, i, done, events[0]);
    } else if events == [] {
      var log := RunAll(m, done).1;
      assert done + [] == done && log + [] == log;
      SameRunMore(steps, i, done, TickEvent([]));
    }
  }

  lemma AllowedKeeps(m: Machine, done: seq<Event>)
    requires Sound(m)
    ensures forall rules | PL.Inv(m, rules) && PL.AllowedRun(m, done, rules) :: PL.Inv(RunAll(m, done).0, rules)
  {
    forall rules | PL.Inv(m, rules) && PL.AllowedRun(m, done, rules)
      ensures PL.Inv(RunAll(m, done).0, rules)
    {
      PL.RunKeeps(m, done, rules);
    }
  }

  lemma TrailPhase(L: Ownership.Layout, limit: nat, s: Snap, moves: seq<Move>, t: Snap, body: seq<Call>)
    requires Trail(L, limit, s, moves, t) && CarryOut(moves, Calls(body))
    ensures t.phase == s.phase
    decreases |moves|
  {
    if moves != [] {
      var n := |moves| - 1;
      assert Next(L, limit, moves[n].before, moves[n].act, moves[n].after);
      assert moves[..n] != [] ==> moves[n].before == moves[n - 1].after;
      TrailPhase(L, limit, s, moves[..n], moves[n].before, body);
    }
  }

  class System {
    const memory: KM.Kernel
    const table: PT.Table

    /** Memory and process table share no object. */
    ghost predicate Separate()
      reads this, memory
    {
      var a: set<object>, b: set<object> := {memory, memory.pmm, memory.pmm.bitmap, memory.heap}, {table, table.table};
      a !! b
    }

    /** The current directory is the kernel's, or that of the current process while it runs. */
    ghost predicate Located()
      reads memory`current, table`current
    {
      memory.current == memory.L.kdir
      || (table.current != 0 && memory.current == Ownership.ProcDir(memory.L, table.current))
    }

    ghost predicate Valid()
      reads this, memory, memory.pmm, memory.pmm.bitmap, memory.heap, table, table.table
    {
      && Separate() && memory.Valid() && Located()
      && table.Usable() && PL.Shape(table.View()) && Agrees(table.order, memory.procs)
    }

    /** The kernel's own directory has no table at the process region, which isolation needs. */
    ghost predicate RegionFree()
      reads memory
    {
      !Paging.HasTable(memory.ram, memory.L.kdir, Ownership.REGION_DIR)
    }

    ghost function Limit(): nat
      reads memory.pmm
    {
      memory.pmm.ScanLimit()
    }

    ghost function Here(phase: Phase): Snap
      requires table.Usable()
      reads this, memory, memory.pmm, memory.heap, table, table.table
    {
      Snap(table.View(), memory.Now(), phase)
    }

    /** The static data before boot. */
    constructor (layout: Ownership.Layout, ram: Paging.Ram, bytes: HeapMemory.Mem)
      requires Ownership.LayoutOk(layout)
      ensures memory.L == layout && memory.ram == ram && memory.pmm.bitmap.Length == Pmm.BITMAP_SIZE
              && memory.heap.Valid()
      ensures fresh(memory) && fresh(memory.pmm) && fresh(memory.pmm.bitmap) && fresh(memory.heap)
      ensures fresh(table) && fresh(table.table) && table.Usable() && table.View() == Booted() && Separate()
    {
      hide PT.Links, Kmalloc.Realises, Sound, PT.Procs;
      memory := new KM.Kernel(layout, ram, bytes);
      table := new PT.Table();
    }

    /** The initialisation of kernel/src/main.c, for the parts modelled. */
    method Boot(info: Pmm.BootInfo)
      requires info.WordSized() && Ownership.LayoutOk(memory.L) && Paging.RamOk(memory.ram)
               && |memory.ram| == memory.L.frames
      requires memory.L.total == info.TotalMemory() / 4096 && memory.pmm.bitmap.Length == Pmm.BITMAP_SIZE
      requires info.kernelStart == 0x10_0000 && info.kernelEnd == memory.L.kernelEnd * 4096
      requires memory.heap.Valid() && table.Usable() && table.View() == Booted() && Separate()
      modifies memory, memory.pmm, memory.pmm.bitmap
      ensures Valid() && RegionFree() && memory.current == memory.L.kdir
    {
      hide Ownership.Inv, VmallocModel.VInv, Kmalloc.Realises, Sound, PT.Links, ML.MetaOk, PT.Procs;
      memory.Boot(info);
      PL.BootedInv(PL.Rules(true, true));
      BootAgrees(memory.procs);
    }

    /** How a request for the memory of a new process ends. */
    twostate predicate Reserved(ok: bool, e: Ending, op: ML.MemoryOp)
      reads this, memory, memory.pmm, memory.pmm.bitmap, memory.heap
    {
      var n, low := |old(memory.Available())|, |old(memory.Low())|;
      && (e == Halted <==> n == 1) && (e == Astray <==> n >= 2 && low < 5 && low < n) && e != Outside
      && (e == Going ==>
            && memory.Valid() && (ok <==> low >= 5)
            && MemoryDid(memory.L, Limit(), old(memory.Now()), op, memory.Now())
            && (ok ==> |memory.pmm.used| == |old(memory.pmm.used)| + 5))
    }

    /** Memory for a new process in slot s: a fork of the source when that is not 0. */
    method Reserve(s: nat, source: nat) returns (ok: bool, e: Ending)
      requires memory.Valid() && s < SLOTS && source < SLOTS && |memory.procs| == SLOTS && !memory.procs[s].live
      requires if source == 0 then RegionFree() else memory.procs[source].live
      modifies memory`ram, memory`procs, memory.pmm`usedFrames, memory.pmm`used, memory.pmm.bitmap
      ensures Reserved(ok, e, if source == 0 then ML.Create(s) else ML.Fork(source, s))
      ensures e == Going && ok ==>
                && |memory.procs| == SLOTS && memory.procs == old(memory.procs)[s := memory.procs[s]]
                      && memory.procs[s].live
      ensures e == Going && !ok ==> memory.procs == old(memory.procs)
    {
      hide KM.Kernel.Valid, ML.Did, ML.FreeFrames, ML.LowFrames, MemoryDid;
      ghost var before := memory.Now();
      var r;
      if source == 0 {
        r := memory.CreateMemory(s);
        CreateDid(memory.L, Limit(), before, s, r, memory.Now());
      } else {
        r := memory.ForkProcessMemory(source, s);
        ForkDid(memory.L, Limit(), before, source, s, r, memory.Now());
      }
      ok, e := r.Done?, EndingOf(r);
    }

    /** process_create_internal with its memory: a process is created exactly when a slot is free and so are five frames
        below 16 MB, and it takes exactly five. */
    method Create(owner: nat, hasEntry: bool) returns (a: Answer, e: Ending)
      requires Valid() && RegionFree() && table.nextPid + 1 < 0x1_0000_0000
      modifies memory`ram, memory`procs, memory.pmm`usedFrames, memory.pmm`used, memory.pmm.bitmap
      modifies table.table, table`nextPid, table`order, table`kids, table`pending
      ensures FreeSlot(old(table.order), 1) < SLOTS ==>
                Reserved(a.Created?, e, ML.Create(FreeSlot(old(table.order), 1)))
      ensures FreeSlot(old(table.order), 1) == SLOTS ==> e == Going && !a.Created? && memory.Now() == old(memory.Now())
      ensures e == Going ==>
                && Valid() && |table.order| == |old(table.order)| + (if a.Created? then 1 else 0)
                && (table.View(), a) ==
                   ProcessModel.Create(old(table.View()), NewProc(old(table.current), owner, hasEntry),
                       |old(memory.Low())| >= 5)
    {
      hide KM.Kernel.Valid, PL.Shape, Sound, PT.Links, FreeSlot, ProcessModel.Create, PT.Procs, Agrees, MemoryDid,
           ML.FreeFrames, ML.LowFrames;
      e := Going;
      var s := table.FindFreeSlot();
      var ok := false;
      ghost var found := |memory.Low()| >= 5;
      FreeIsDead(table.order, memory.procs);
      if s < SLOTS {
        ok, e := Reserve(s, 0);
        if e != Going {
          return Refused, e;
        }
      }
      CreateEnds(table.View(), NewProc(table.current, owner, hasEntry), found, old(memory.procs), memory.procs);
      var child;
      a, child := table.Create(table.current, owner, hasEntry, ok);
      assert memory.Valid() && Located();
      SameMemoryOk(old(table.View()), NewProc(table.current, owner, hasEntry), ok, found);
    }

    /** fork_process of a process that can be forked, with its memory. */
    method ForkListed(source: nat) returns (a: Answer, e: Ending)
      requires Valid() && source in table.order && source != 0 && table.nextPid + 1 < 0x1_0000_0000
      requires table.View().procs[source].hasEntry
      modifies memory`ram, memory`procs, memory.pmm`usedFrames, memory.pmm`used, memory.pmm.bitmap
      modifies table.table, table`nextPid, table`order, table`kids, table`pending
      ensures FreeSlot(old(table.order), 1) < SLOTS ==>
                Reserved(a.Created?, e, ML.Fork(source, FreeSlot(old(table.order), 1)))
      ensures FreeSlot(old(table.order), 1) == SLOTS ==> e == Going && !a.Created? && memory.Now() == old(memory.Now())
      ensures e == Going ==>
                && Valid() && |table.order| == |old(table.order)| + (if a.Created? then 1 else 0)
                && (table.View(), a) == ProcessModel.Fork(old(table.View()), source, |old(memory.Low())| >= 5)
    {
      hide KM.Kernel.Valid, PL.Shape, Sound, PT.Links, FreeSlot, ProcessModel.Fork, PT.Procs, Agrees, MemoryDid,
           ML.FreeFrames, ML.LowFrames, PT.RingsOk;
      e := Going;
      var s := table.FindFreeSlot();
      var ok := false;
      ghost var found := |memory.Low()| >= 5;
      FreeIsDead(table.order, memory.procs);
      ListedIsLive(table.order, memory.procs, source);
      if s < SLOTS {
        ok, e := Reserve(s, source);
        if e != Going {
          return Refused, e;
        }
      }
      ForkEnds(table.View(), source, found, old(memory.procs), memory.procs);
      a := table.Fork(source, ok);
      assert memory.Valid() && Located();
      SameForkOk(old(table.View()), source, ok, found);
    }

    /** fork_process of anything: the kernel and processes without an entry are refused. */
    method Fork(source: int) returns (a: Answer, e: Ending)
      requires Valid() && (source == -1 || source in table.order) && table.nextPid + 1 < 0x1_0000_0000
      modifies memory`ram, memory`procs, memory.pmm`usedFrames, memory.pmm`used, memory.pmm.bitmap
      modifies table.table, table`nextPid, table`order, table`kids, table`pending
      ensures Forkable(old(table.View()), source) && FreeSlot(old(table.order), 1) < SLOTS ==>
                Reserved(a.Created?, e, ML.Fork(source, FreeSlot(old(table.order), 1)))
      ensures !Forkable(old(table.View()), source) || FreeSlot(old(table.order), 1) == SLOTS ==>
                e == Going && !a.Created? && memory.Now() == old(memory.Now())
      ensures e == Going ==>
                && Valid() && |table.order| == |old(table.order)| + (if a.Created? then 1 else 0)
                && (table.View(), a) == ProcessModel.Fork(old(table.View()), source, |old(memory.Low())| >= 5)
    {
      hide KM.Kernel.Valid, PL.Shape, Sound, PT.Links, ProcessModel.Create, PT.Procs, Agrees, FreeSlot, MemoryDid,
           ML.FreeFrames, ML.LowFrames, Reserved;
      if source == -1 || source == 0 {
        a := table.Fork(source, false);
        assert memory.Valid() && Located();
        return a, Going;
      }
      table.Slot(source);
      if !table.table[source].hasEntry {
        a := table.Fork(source, false);
        assert memory.Valid() && Located();
        return a, Going;
      }
      a, e := ForkListed(source);
    }

    /** process_wait by the current process; collecting a process gives back exactly its five frames. */
    method Wait(pid: nat) returns (a: Answer)
      requires Valid()
      modifies memory`ram, memory`procs, memory.pmm`usedFrames, memory.pmm`used, memory.pmm.bitmap
      modifies table.table, table`head, table`order, table`kids, table`pending, table`cursor
      ensures Valid() && (table.View(), a) == ProcessModel.Wait(old(table.View()), pid)
      ensures a.Collected? ==>
                && Find(old(table.View()), pid) >= 0
                && ML.Did(memory.L, Limit(), old(memory.Now()), ML.Collect(Find(old(table.View()), pid)),
                          ML.Done(Find(old(table.View()), pid)), memory.Now())
                && |memory.pmm.used| == |old(memory.pmm.used)| - 5 && |table.order| == |old(table.order)| - 1
      ensures !a.Collected? ==> |table.order| == |old(table.order)| && memory.Now() == old(memory.Now())
    {
      hide KM.Kernel.Valid, PL.Shape, Sound, PT.Links, ProcessModel.Wait, PT.Procs, Agrees, Find, ML.Did, ML.FreeFrames,
           ML.LowFrames, ML.Permitted, PT.RingsOk;
      ghost var m := table.View();
      WaitEnds(m, pid, memory.procs);
      var j := table.GetByPid(pid);
      a := table.Wait(pid);
      assert memory.Valid() && Located();
      if a.Collected? {
        Collectable(memory.L, memory.Now(), j);
        OtherDirectory(memory, j);
        memory.CollectMemory(j);
        assert table.Usable() && table.View() == ProcessModel.Wait(m, pid).0;
        CollectDid(memory.L, Limit(), old(memory.Now()), j, memory.Now());
      }
    }

    /** A call that needs no memory. */
    method OtherCall(c: Call) returns (a: Answer)
      requires Valid() && !c.CreateCall? && !c.ForkCall? && !c.WaitCall?
      modifies table.table, table`nextPid, table`head, table`order, table`kids, table`pending, table`cursor
      ensures Valid() && (table.View(), a) == Perform(old(table.View()), c) && table.order == old(table.order)
    {
      hide KM.Kernel.Valid, PL.Shape, Sound, PT.Links, PT.Procs, Agrees, Perform, PL.Allowed;
      OtherCallKeepsList(table.View(), c);
      a := table.Perform(c);
    }

    method PerformCreate(c: Call, ghost phase: Phase) returns (a: Answer, e: Ending, ghost done: Call)
      requires Valid() && c.CreateCall?
      modifies memory`ram, memory`procs, memory.pmm`usedFrames, memory.pmm`used, memory.pmm.bitmap
      modifies table.table, table`nextPid, table`order, table`kids, table`pending
      ensures e == Going ==>
                && Valid() && done == Resolved(c, |old(memory.Low())|)
                && (table.View(), a) == Perform(old(table.View()), done)
                && CallDid(memory.L, Limit(), old(Here(phase)), c, Here(phase))
      ensures e == Going && a.Created? ==>
                |memory.pmm.used| == |old(memory.pmm.used)| + 5 && |table.order| == |old(table.order)| + 1
      ensures e != Going ==> CallStops(memory.L, Limit(), old(Here(phase)), c, e)
    {
      hide KM.Kernel.Valid, PL.Shape, Sound, PT.Links, ProcessModel.Create, PT.Procs, Agrees, Find, FreeSlot, MemoryDid,
           ML.FreeFrames, ML.LowFrames, Located;
      ghost var m := table.View();
      done := Resolved(c, |memory.Low()|);
      DirectoriesExist(memory);
      if table.nextPid + 1 >= 0x1_0000_0000 || Paging.HasTable(memory.ram, memory.L.kdir, Ownership.REGION_DIR) {
        return Refused, Outside, done;
      }
      a, e := Create(c.owner, c.hasEntry);
    }

    /** fork_process of the process with the given pid, where 0 is the caller. */
    method ForkByPid(pid: nat) returns (a: Answer, e: Ending)
      requires Valid() && table.nextPid + 1 < 0x1_0000_0000
      modifies memory`ram, memory`procs, memory.pmm`usedFrames, memory.pmm`used, memory.pmm.bitmap
      modifies table.table, table`nextPid, table`order, table`kids, table`pending
      ensures var i, slot := ForkSource(old(table.View()), pid), FreeSlot(old(table.order), 1);
              if Forkable(old(table.View()), i) && slot < SLOTS then Reserved(a.Created?, e, ML.Fork(i, slot))
              else e == Going && !a.Created? && memory.Now() == old(memory.Now())
      ensures e == Going ==>
                && Valid() && |table.order| == |old(table.order)| + (if a.Created? then 1 else 0)
                && (table.View(), a) ==
                   ProcessModel.Fork(old(table.View()), ForkSource(old(table.View()), pid), |old(memory.Low())| >= 5)
    {
      hide KM.Kernel.Valid, PL.Shape, Sound, PT.Links, ProcessModel.Fork, PT.Procs, Agrees, Find, FreeSlot, MemoryDid,
           ML.FreeFrames, ML.LowFrames, Located, Forkable;
      var source: int := table.current;
      if pid != 0 {
        source := table.GetByPid(pid);
      }
      a, e := Fork(source);
    }

    method PerformFork(c: Call, ghost phase: Phase) returns (a: Answer, e: Ending, ghost done: Call)
      requires Valid() && c.ForkCall?
      modifies memory`ram, memory`procs, memory.pmm`usedFrames, memory.pmm`used, memory.pmm.bitmap
      modifies table.table, table`nextPid, table`order, table`kids, table`pending
      ensures e == Going ==>
                && Valid() && done == Resolved(c, |old(memory.Low())|)
                && (table.View(), a) == Perform(old(table.View()), done)
                && CallDid(memory.L, Limit(), old(Here(phase)), c, Here(phase))
      ensures e == Going && a.Created? ==>
                |memory.pmm.used| == |old(memory.pmm.used)| + 5 && |table.order| == |old(table.order)| + 1
      ensures e != Going ==> CallStops(memory.L, Limit(), old(Here(phase)), c, e)
    {
      hide KM.Kernel.Valid, PL.Shape, Sound, PT.Links, ProcessModel.Fork, PT.Procs, Agrees, Find, FreeSlot, MemoryDid,
           ML.FreeFrames, ML.LowFrames, Located, CallDid, CallStops, ForkSource, Forkable;
      done := Resolved(c, |memory.Low()|);
      if table.nextPid + 1 >= 0x1_0000_0000 {
        ForkCallStops(memory.L, Limit(), Here(phase), c, Outside);
        return Refused, Outside, done;
      }
      a, e := ForkByPid(c.pid);
      if e == Going {
        ForkIs(old(table.View()), c, |old(memory.Low())|);
        ForkCallDid(memory.L, Limit(), old(Here(phase)), c, Here(phase));
      } else {
        ForkCallStops(memory.L, Limit(), old(Here(phase)), c, e);
      }
    }

    method PerformWait(c: Call, ghost phase: Phase) returns (a: Answer)
      requires Valid() && c.WaitCall?
      modifies memory`ram, memory`procs, memory.pmm`usedFrames, memory.pmm`used, memory.pmm.bitmap
      modifies table.table, table`head, table`order, table`kids, table`pending, table`cursor
      ensures Valid() && (table.View(), a) == Perform(old(table.View()), c)
      ensures CallDid(memory.L, Limit(), old(Here(phase)), c, Here(phase))
      ensures |memory.pmm.used| - 5 * |table.order| == |old(memory.pmm.used)| - 5 * |old(table.order)|
    {
      hide KM.Kernel.Valid, PL.Shape, Sound, PT.Links, ProcessModel.Wait, PT.Procs, Agrees, Find, FreeSlot, ML.Did,
           ML.FreeFrames, ML.LowFrames, Located;
      a := Wait(c.pid);
    }

    method PerformOther(c: Call, ghost phase: Phase) returns (a: Answer)
      requires Valid() && !c.CreateCall? && !c.ForkCall? && !c.WaitCall?
      modifies table.table, table`nextPid, table`head, table`order, table`kids, table`pending, table`cursor
      ensures Valid() && (table.View(), a) == Perform(old(table.View()), c) && table.order == old(table.order)
      ensures CallDid(memory.L, Limit(), old(Here(phase)), c, Here(phase))
    {
      hide KM.Kernel.Valid, PL.Shape, Sound, PT.Links, Perform, PT.Procs, Agrees, Find, FreeSlot, MemoryDid,
           ML.FreeFrames, ML.LowFrames, Located;
      a := OtherCall(c);
    }

    /** A call by the current process, with real memory behind it: the model's call, with a creation finding memory
        exactly when five frames below 16 MB are free. Frames are conserved: creations that fail aside, the number of
        frames in use moves by five for each process that joins or leaves the list. */
    method PerformCall(c: Call, ghost phase: Phase) returns (a: Answer, e: Ending, ghost done: Call)
      requires Valid()
      modifies memory`ram, memory`procs, memory.pmm`usedFrames, memory.pmm`used, memory.pmm.bitmap
      modifies table.table, table`nextPid, table`head, table`order, table`kids, table`pending, table`cursor
      ensures e == Going ==>
                && Valid() && done == Resolved(c, |old(memory.Low())|) && SameCall(c, done)
                && (table.View(), a) == Perform(old(table.View()), done)
                && CallDid(memory.L, Limit(), old(Here(phase)), c, Here(phase))
      ensures e == Going && (a.Created? || !(c.CreateCall? || c.ForkCall?)) ==>
                |memory.pmm.used| - 5 * |table.order| == |old(memory.pmm.used)| - 5 * |old(table.order)|
      ensures e != Going ==> CallStops(memory.L, Limit(), old(Here(phase)), c, e)
    {
      hide KM.Kernel.Valid, PL.Shape, Sound, PT.Links, Perform, PT.Procs, Agrees, Find, FreeSlot, ML.FreeFrames,
           ML.LowFrames, CallDid, CallStops, Located;
      done, e := c, Going;
      if c.CreateCall? {
        a, e, done := PerformCreate(c, phase);
      } else if c.ForkCall? {
        a, e, done := PerformFork(c, phase);
      } else if c.WaitCall? {
        a := PerformWait(c, phase);
      } else {
        a := PerformOther(c, phase);
      }
    }

    /** The calls of the process that has the processor. */
    method PerformCalls(cs: seq<Call>) returns (log: seq<Answer>, e: Ending, ghost done: seq<Call>,
                        ghost moves: seq<Move>, ghost at: Snap)
      requires Valid()
      modifies memory`ram, memory`procs, memory.pmm`usedFrames, memory.pmm`used, memory.pmm.bitmap
      modifies table.table, table`nextPid, table`head, table`order, table`kids, table`pending, table`cursor
      ensures Trail(memory.L, Limit(), old(Here(Running)), moves, at) && CarryOut(moves, Calls(cs))
      ensures e == Going ==>
                && Valid() && at == Here(Running) && |moves| == |cs| && SameCalls(cs, done)
                && (table.View(), log) == PerformAll(old(table.View()), done)
      ensures e != Going ==> |moves| < |cs| && CallStops(memory.L, Limit(), at, cs[|moves|], e)
    {
      hide KM.Kernel.Valid, PL.Shape, Sound, PT.Links, PT.Procs, Agrees, Perform, PerformAll, SameCall, Trail, CallDid,
           CallStops, ML.LowFrames, Located;
      ghost var m, start := table.View(), Here(Running);
      log, done, moves, e, at := [], [], [], Going, start;
      NoCalls(m);
      NoMoves(memory.L, Limit(), start);
      for i := 0 to |cs|
        invariant Valid() && Limit() == old(Limit()) && at == Here(Running)
        invariant |done| == |moves| == i && (forall k | 0 <= k < i :: SameCall(cs[k], done[k]))
        invariant Trail(memory.L, Limit(), start, moves, at) && CarryOut(moves, Calls(cs))
        invariant (table.View(), log) == PerformAll(m, done)
      {
        ghost var c;
        var a;
        a, e, c := PerformCall(cs[i], Running);
        if e != Going {
          return;
        }
        PerformAppend(m, done, c);
        CallMove(memory.L, Limit(), at, cs[i], Here(Running));
        TrailJoin(memory.L, Limit(), start, moves, at, [Move(at, InTick(cs[i]), Here(Running))], Here(Running));
        log, done := log + [a], done + [c];
        moves, at := moves + [Move(at, InTick(cs[i]), Here(Running))], Here(Running);
      }
      e := Going;
    }

    method DeliverSignals()
      requires Valid()
      modifies table.table
      ensures Valid() && table.View() == DeliverAll(old(table.View()))
    {
      hide KM.Kernel.Valid, PL.Shape, Sound, PT.Links, PT.Procs, Agrees, DeliverFrom;
      DeliverShape(table.View());
      table.DeliverAll();
    }

    /** schedule_next_process up to the context switch: a process that runs does so in its own address space. */
    method SwitchTo(p: nat) returns (runs: bool)
      requires Valid() && p in table.order && p != 0 && memory.current == memory.L.kdir
      modifies table.table, table`cursor, table`current, memory`current
      ensures Valid() && table.View() == Dispatch(old(table.View()), p) && memory.Now() == old(memory.Now())
      ensures table.current == p && (runs <==> table.View().procs[p].status == Run)
      ensures memory.current == if runs then Ownership.ProcDir(memory.L, p) else memory.L.kdir
    {
      hide KM.Kernel.Valid, PL.Shape, Sound, PT.Links, PT.Procs, Agrees, Dispatch;
      DispatchShape(table.View(), p);
      table.Dispatch(p);
      assert memory.Valid();
      table.Slot(p);
      runs := table.table[p].status == Run;
      if runs {
        ListedIsLive(table.order, memory.procs, p);
        memory.SwitchDirectory(p);
      }
    }

    /** A tick up to the context switch. */
    method BeginTick() returns (ghost phase: Phase, runs: bool, picked: bool)
      requires Valid() && memory.current == memory.L.kdir
      modifies table.table, table`cursor, table`current, memory`current
      ensures Valid() && Next(memory.L, Limit(), old(Here(Kernel)), Enter, Here(phase))
      ensures (picked <==> Pick(DeliverAll(old(table.View()))) != -1)
              && (picked ==> Pick(DeliverAll(old(table.View()))) == table.current)
      ensures phase == if !picked then Idle else if runs then Running else Chosen
      ensures picked ==> (runs <==> table.View().procs[table.current].status == Run)
      ensures !picked ==> memory.current == memory.L.kdir && !runs
    {
      hide KM.Kernel.Valid, PL.Shape, Sound, PT.Links, PT.Procs, Agrees, DeliverFrom, PickFrom, Dispatch, Located;
      phase, runs := Idle, false;
      DeliverSignals();
      var p := table.PickNext();
      PL.PickListed(table.View());
      picked := p != -1;
      if picked {
        runs := SwitchTo(p);
        phase := if runs then Running else Chosen;
      }
    }

    /** A tick after the context switch: back to the kernel's address space. */
    method EndTick(ghost phase: Phase)
      requires Valid() && phase != Idle
      modifies table.table, table`current, memory`current
      ensures Valid() && table.View() == Settle(old(table.View())) && memory.current == memory.L.kdir
      ensures Next(memory.L, Limit(), old(Here(phase)), Leave, Here(Kernel))
    {
      hide KM.Kernel.Valid, PL.Shape, Sound, PT.Links, PT.Procs, Agrees, Settle;
      memory.SwitchToKernel();
      assert table.Usable() && table.View() == old(table.View());
      SettleShape(table.View());
      table.Settle();
      assert memory.Valid();
    }

    /** The calls of a tick, which are made only while the picked process runs. */
    method TickBody(body: seq<Call>, runs: bool, ghost phase: Phase)
      returns (log: seq<Answer>, e: Ending, ghost done: seq<Call>, ghost moves: seq<Move>, ghost at: Snap)
      requires Valid() && (runs <==> phase == Running)
      modifies memory`ram, memory`procs, memory.pmm`usedFrames, memory.pmm`used, memory.pmm.bitmap
      modifies table.table, table`nextPid, table`head, table`order, table`kids, table`pending, table`cursor
      ensures Trail(memory.L, Limit(), old(Here(phase)), moves, at) && CarryOut(moves, Calls(body)) && at.phase == phase
      ensures e == Going ==>
                && Valid() && at == Here(phase) && |moves| == |body| && SameCalls(body, done)
                && (if runs then (table.View(), log) == PerformAll(old(table.View()), done)
                    else table.View() == old(table.View()) && log == [])
      ensures e != Going ==> runs && |moves| < |body| && CallStops(memory.L, Limit(), at, body[|moves|], e)
    {
      hide KM.Kernel.Valid, PL.Shape, Sound, PT.Links, PT.Procs, Agrees, PerformAll, SameCall, Next, Trail, CallStops,
           CallDid, Located;
      if runs {
        log, e, done, moves, at := PerformCalls(body);
        TrailPhase(memory.L, Limit(), old(Here(phase)), moves, at, body);
      } else {
        SameCallsSelf(body);
        SkippedTrail(memory.L, Limit(), Here(phase), body);
        log, e, done, moves, at := [], Going, body, Skipped(Here(phase), body), Here(phase);
      }
    }

    /** One tick of scheduler_run_pending, with real memory behind the calls. */
    method TickOnce(body: seq<Call>)
      returns (log: seq<Answer>, e: Ending, ghost done: seq<Call>, ghost moves: seq<Move>, ghost at: Snap)
      requires Valid() && memory.current == memory.L.kdir
      modifies memory`ram, memory`procs, memory`current, memory.pmm`usedFrames, memory.pmm`used, memory.pmm.bitmap
      modifies table.table, table`nextPid, table`head, table`order, table`kids, table`pending, table`cursor,
               table`current
      ensures Trail(memory.L, Limit(), old(Here(Kernel)), moves, at) && CarryOut(moves, TickActions(body))
      ensures e == Going ==>
                && Valid() && memory.current == memory.L.kdir && at == Here(Kernel) && |moves| == |body| + 2
                && SameCalls(body, done) && (table.View(), log) == Tick(old(table.View()), done)
      ensures e != Going ==> |moves| < |body| + 2 && Stops(memory.L, Limit(), at, TickActions(body)[|moves|], e)
    {
      hide KM.Kernel.Valid, PL.Shape, Sound, PT.Links, PT.Procs, Agrees, PerformAll, DeliverFrom, PickFrom,
           Dispatch, Settle, SameCall, SameCalls, PL.Started, Tick, Next, Trail, CallStops, CallDid, Located, Stops,
           CarryOut, TickActions, TickMoves, ML.FreeFrames, ML.LowFrames;
      ghost var s0 := Here(Kernel);
      ghost var phase;
      var runs, picked;
      phase, runs, picked := BeginTick();
      ghost var s1 := Here(phase);
      EnterIs(memory.L, Limit(), s0, s1);
      log, e, done, moves, at := TickBody(body, runs, phase);
      if e != Going {
        TickStops(memory.L, Limit(), s0, s1, moves, at, body, e);
        moves := [Move(s0, Enter, s1)] + moves;
        return;
      }
      FinishTick(phase, picked);
      WholeTick(memory.L, Limit(), s0, s1, moves, at, body, Here(Kernel));
      TickIs(s0.machine, done, picked, runs, at.machine, log, table.View());
      moves, at := TickMoves(s0, s1, moves, at, Here(Kernel)), Here(Kernel);
    }

    method FinishTick(ghost phase: Phase, picked: bool)
      requires Valid() && (picked <==> phase != Idle) && (!picked ==> memory.current == memory.L.kdir)
      modifies table.table, table`current, memory`current
      ensures Valid() && memory.current == memory.L.kdir
      ensures table.View() == if picked then Settle(old(table.View())) else old(table.View())
      ensures Next(memory.L, Limit(), old(Here(phase)), Leave, Here(Kernel))
    {
      hide KM.Kernel.Valid, PL.Shape, Sound, PT.Links, PT.Procs, Agrees, Settle, Next, Located;
      if picked {
        EndTick(phase);
      } else {
        IdleLeaves(memory.L, Limit(), Here(phase), Here(Kernel));
      }
    }

    /** vmalloc, by the kernel. */
    method AllocateRange(size: nat) returns (e: Ending)
      requires Valid() && memory.current == memory.L.kdir
      modifies memory`ram, memory`regions, memory`vmallocCurrent, memory`totalRegions, memory`totalPages
      modifies memory.pmm`usedFrames, memory.pmm`used, memory.pmm.bitmap
      modifies memory.heap`heapEnd, memory.heap`blockList, memory.heap`mem, memory.heap`totalAllocations
      modifies memory.heap`blocks, memory.heap`totalFrees
      ensures e == Going ==> Valid() && Next(memory.L, Limit(), old(Here(Kernel)), Allocate(size), Here(Kernel))
      ensures e == Going ==> table.View() == old(table.View())
      ensures e != Going ==> Stops(memory.L, Limit(), old(Here(Kernel)), Allocate(size), e)
    {
      hide KM.Kernel.Valid, PL.Shape, Sound, PT.Links, PT.Procs, Agrees, ML.Did, ML.Permitted, Located, Next, Stops;
      ghost var s := Here(Kernel);
      ProcsExist(memory);
      var permitted := memory.IsPermitted(ML.Vmalloc(size));
      if !permitted {
        NotPermitted(memory.L, Limit(), s, size);
        return Outside;
      }
      var r := memory.AllocateRange(size);
      AllocatedIs(memory.L, Limit(), s, size, r, Here(Kernel));
      e := EndingOf(r);
      assert table.Usable();
    }

    method FreeRange(ptr: nat) returns (e: Ending)
      requires Valid() && memory.current == memory.L.kdir
      modifies memory`ram, memory`regions, memory`vmallocCurrent, memory`totalRegions, memory`totalPages
      modifies memory.pmm`usedFrames, memory.pmm`used, memory.pmm.bitmap
      modifies memory.heap`mem, memory.heap`blocks, memory.heap`totalFrees
      ensures e == Going ==> Valid() && Next(memory.L, Limit(), old(Here(Kernel)), Deallocate(ptr), Here(Kernel))
      ensures e == Going ==> table.View() == old(table.View())
      ensures e != Going ==> Stops(memory.L, Limit(), old(Here(Kernel)), Deallocate(ptr), e)
    {
      hide KM.Kernel.Valid, PL.Shape, Sound, PT.Links, PT.Procs, Agrees, ML.Did, Located, Next, Stops;
      ghost var s := Here(Kernel);
      var r := memory.FreeRange(ptr);
      FreedIs(memory.L, Limit(), s, ptr, r, Here(Kernel));
      e := EndingOf(r);
      assert table.Usable();
    }

    /** Any run of process events and kernel allocations, from any valid state. The steps are carried out action by
        action, each doing what Next says of it, up to the end or to the first action that Stops tells cannot go on. A
        complete run keeps memory sound, with each listed process holding exactly its own memory; the processes do
        what the model does when creations find memory exactly while five frames below 16 MB are free; and the run
        keeps the invariant of the process model whenever that run is allowed. */
    method RunSystem(steps: seq<Step>)
      returns (log: seq<Answer>, e: Ending, ghost done: seq<Event>, ghost moves: seq<Move>, ghost at: Snap)
      requires Valid() && memory.current == memory.L.kdir
      modifies memory, memory.pmm, memory.pmm.bitmap, memory.heap, table, table.table
      ensures Trail(memory.L, Limit(), old(Here(Kernel)), moves, at) && CarryOut(moves, Expand(steps))
      ensures e == Going ==>
                && Valid() && memory.current == memory.L.kdir && at == Here(Kernel) && |moves| == |Expand(steps)|
                && SameRun(steps, done) && (table.View(), log) == RunAll(old(table.View()), done)
      ensures e == Going ==>
                forall rules | PL.Inv(old(table.View()), rules) && PL.AllowedRun(old(table.View()), done, rules) ::
                  PL.Inv(table.View(), rules)
      ensures e != Going ==> |moves| < |Expand(steps)| && Stops(memory.L, Limit(), at, Expand(steps)[|moves|], e)
    {
      hide KM.Kernel.Valid, PL.Shape, Sound, PT.Links, PT.Procs, Agrees, RunAll, Tick, Perform, SameCall, SameCalls,
           Next, Trail, CallStops, CallDid, Stops, Located, SameRun, Expand, ActionsOf;
      ghost var m, start := table.View(), Here(Kernel);
      log, done, moves, e, at := [], [], [], Going, start;
      NoEvents(m);
      NoMoves(memory.L, Limit(), start);
      NoSteps(steps);
      for i := 0 to |steps|
        invariant Valid() && memory.current == memory.L.kdir && Limit() == old(Limit()) && at == Here(Kernel)
        invariant Trail(memory.L, Limit(), start, moves, at) && CarryOut(moves, Expand(steps[..i]))
        invariant |moves| == |Expand(steps[..i])| && SameRun(steps[..i], done)
        invariant (table.View(), log) == RunAll(m, done)
      {
        ghost var events, more;
        var answers;
        ghost var before := at;
        answers, e, events, more, at := TakeStep(steps[i]);
        ExpandMore(steps, i);
        CarryOutMore(moves, Expand(steps[..i]), more, ActionsOf(steps[i]));
        TrailJoin(memory.L, Limit(), start, moves, before, more, at);
        moves := moves + more;
        if e != Going {
          return;
        }
        EventsMore(m, done, events, steps, i);
        log, done := log + answers, done + events;
      }
      e := Going;
      WholeRun(steps);
      AllowedKeeps(m, done);
    }

    /** One step of a run. */
    method TakeStep(step: Step)
      returns (log: seq<Answer>, e: Ending, ghost events: seq<Event>, ghost moves: seq<Move>, ghost at: Snap)
      requires Valid() && memory.current == memory.L.kdir
      modifies memory`ram, memory`procs, memory`current, memory.pmm`usedFrames, memory.pmm`used, memory.pmm.bitmap
      modifies memory`regions, memory`vmallocCurrent, memory`totalRegions, memory`totalPages
      modifies memory.heap`heapEnd, memory.heap`blockList, memory.heap`mem, memory.heap`totalAllocations
      modifies memory.heap`blocks, memory.heap`totalFrees
      modifies table.table, table`nextPid, table`head, table`order, table`kids, table`pending, table`cursor,
               table`current
      ensures Trail(memory.L, Limit(), old(Here(Kernel)), moves, at) && CarryOut(moves, ActionsOf(step))
      ensures e == Going ==>
                && Valid() && memory.current == memory.L.kdir && at == Here(Kernel) && |moves| == |ActionsOf(step)|
                && StepEvents(old(table.View()), step, events, table.View(), log)
      ensures e != Going ==> |moves| < |ActionsOf(step)| && Stops(memory.L, Limit(), at, ActionsOf(step)[|moves|], e)
    {
      hide KM.Kernel.Valid, PL.Shape, Sound, PT.Links, PT.Procs, Agrees, Tick, Perform, SameCall, SameCalls, Next,
           Trail, CallStops, CallDid, Located;
      ghost var s := Here(Kernel);
      NoMoves(memory.L, Limit(), s);
      log, events, moves, at := [], [], [], s;
      match step {
        case KernelStep(call) =>
          ghost var c;
          var a;
          a, e, c := PerformCall(call, Kernel);
          if e != Going {
            return;
          }
          TopMove(memory.L, Limit(), s, call, Here(Kernel));
          log, events, moves, at := [a], [KernelCall(c)], [Move(s, AtTop(call), Here(Kernel))], Here(Kernel);
        case TickStep(body) =>
          ghost var cs;
          log, e, cs, moves, at := TickOnce(body);
          events := [TickEvent(cs)];
        case AllocateStep(size) =>
          e := AllocateRange(size);
          if e != Going {
            return;
          }
          TrailOne(memory.L, Limit(), s, Allocate(size), Here(Kernel));
          moves, at := [Move(s, Allocate(size), Here(Kernel))], Here(Kernel);
        case DeallocateStep(ptr) =>
          e := FreeRange(ptr);
          if e != Going {
            return;
          }
          TrailOne(memory.L, Limit(), s, Deallocate(ptr), Here(Kernel));
          moves, at := [Move(s, Deallocate(ptr), Here(Kernel))], Here(Kernel);
      }
    }
  }
}
