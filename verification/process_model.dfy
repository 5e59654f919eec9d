/** The process manager as a value (kernel/src/process.c): sixteen slots, the global list, the parent links, wait,
    exit, signals, sockets and the round-robin scheduler. The linked tables that realise it are in process_table.dfy. */
module ProcessModel {
  import opened Words

  const SLOTS: nat := 16
  const SIGNAL_CAPACITY: nat := 16
  const SOCKET_CAPACITY: nat := 8
  const SIGNAL_KILL: int := 9
  const SIGNAL_TERM: int := 15
  const SIGNAL_SOCKET: int := 17

  datatype Status = Ready | Run | Waiting | Zombie | Thread

  datatype Pending = Pending(signal: int, value: nat)

  /** A process; parent is a slot, or -1 for NULL. A ring of N places is a queue of at most N - 1 elements. */
  datatype Proc =
    Proc(pid: nat, status: Status, owner: nat, parent: int, hasEntry: bool, exitCode: int, waitTarget: nat,
         signals: seq<Pending>, socket: seq<nat>, lastSignal: nat, lastSignalValue: nat, lastSocketValue: nat)
  {
    predicate Runnable() {
      hasEntry && (status == Ready || status == Thread || status == Run)
    }
  }

  /** A slot after memset to zero. */
  const EMPTY: Proc := Proc(0, Ready, 0, -1, false, 0, 0, [], [], 0, 0, 0)

  /** order is the list from process_head; slot 0 is the kernel process. */
  datatype Machine = Machine(procs: seq<Proc>, order: seq<nat>, cursor: nat, current: nat, nextPid: nat)

  predicate Sound(m: Machine): (b: bool)
    ensures b ==> |m.procs| == SLOTS && 0 in m.order && forall i | i in m.order :: i < SLOTS
    ensures b ==> m.cursor in m.order && m.current in m.order
  {
    && |m.procs| == SLOTS && (forall i: nat | i < SLOTS :: -1 <= m.procs[i].parent < SLOTS && m.procs[i].parent != i)
    && m.procs[0].status == Thread && !m.procs[0].hasEntry
    && m.order != [] && m.order[0] == 0 && (forall k: nat | k < |m.order| :: m.order[k] < SLOTS)
    && m.cursor in m.order && m.current in m.order
  }

  function Put(m: Machine, i: nat, p: Proc): Machine
    requires i < |m.procs|
  {
    m.(procs := m.procs[i := p])
  }

  // ---- Looking up ----

  /** process_get_by_pid from place k of the list on. */
  function FindFrom(m: Machine, pid: nat, k: nat): (r: int)
    requires Sound(m) && k <= |m.order|
    ensures r == -1 ==> forall j | k <= j < |m.order| :: m.procs[m.order[j]].pid != pid
    ensures r != -1 ==> 0 <= r < SLOTS && r in m.order && m.procs[r].pid == pid
    decreases |m.order| - k
  {
    if k == |m.order| then -1
    else if m.procs[m.order[k]].pid == pid then m.order[k]
    else FindFrom(m, pid, k + 1)
  }

  function Find(m: Machine, pid: nat): (r: int)
    requires Sound(m)
    ensures r != -1 ==> 0 <= r < SLOTS && r in m.order && m.procs[r].pid == pid
  {
    FindFrom(m, pid, 0)
  }

  /** process_allocate_slot: the lowest slot from i on that is not in use, or SLOTS. */
  function FreeSlot(order: seq<nat>, i: nat): (s: nat)
    requires 1 <= i <= SLOTS
    ensures i <= s <= SLOTS && (s < SLOTS ==> s !in order)
    ensures forall j | i <= j < s :: j in order
    decreases SLOTS - i
  {
    if i == SLOTS then SLOTS else if i !in order then i else FreeSlot(order, i + 1)
  }

  // ---- Exit and signals ----

  /** The parent of i waits for it. */
  predicate Wakes(m: Machine, i: nat)
    requires Sound(m) && i < SLOTS
  {
    var p := m.procs[i];
    && p.parent != -1 && m.procs[p.parent].status == Waiting
    && (m.procs[p.parent].waitTarget == 0 || m.procs[p.parent].waitTarget == p.pid)
  }

  /** process_exit. */
  function Terminate(m: Machine, i: nat, code: int): (r: Machine)
    requires Sound(m) && i < SLOTS
    ensures Sound(r) && r.order == m.order && r.cursor == m.cursor && r.current == m.current
    ensures r.procs[i].signals == m.procs[i].signals
  {
    if i == 0 || m.procs[i].status == Zombie then m else
    var d := Put(m, i, m.procs[i].(exitCode := code, status := Zombie));
    if Wakes(d, i) then
      var parent := d.procs[i].parent;
      Put(d, parent, d.procs[parent].(status := Ready))
    else d
  }

  predicate Fatal(s: Pending) {
    s.signal == SIGNAL_TERM || s.signal == SIGNAL_KILL
  }

  /** One turn of the loop of deliver_process_signal, with the default handler. */
  function HandleSignal(m: Machine, i: nat): (r: Machine)
    requires Sound(m) && i < SLOTS && m.procs[i].signals != []
    ensures Sound(r) && r.order == m.order && r.cursor == m.cursor && r.current == m.current
    ensures r.procs[i].signals == m.procs[i].signals[1..]
  {
    var p, s := m.procs[i], m.procs[i].signals[0];
    var d := Put(m, i, p.(signals := p.signals[1..], lastSignal := Wrap(s.signal), lastSignalValue := s.value));
    if Fatal(s) then Terminate(d, i, 128 + s.signal) else d
  }

  /** deliver_process_signal: stops when the queue is empty or the process is a zombie. */
  function Deliver(m: Machine, i: nat): (r: Machine)
    requires Sound(m) && i < SLOTS
    ensures Sound(r) && r.order == m.order && r.cursor == m.cursor && r.current == m.current
    decreases |m.procs[i].signals|
  {
    if m.procs[i].signals == [] then m else
    var d := HandleSignal(m, i);
    if d.procs[i].status == Zombie then d else Deliver(d, i)
  }

  /** process_deliver_all_pending_signals from place k of the list on. */
  function DeliverFrom(m: Machine, k: nat): (r: Machine)
    requires Sound(m) && k <= |m.order|
    ensures Sound(r) && r.order == m.order && r.cursor == m.cursor && r.current == m.current
    decreases |m.order| - k
  {
    if k == |m.order| then m else DeliverFrom(Deliver(m, m.order[k]), k + 1)
  }

  function DeliverAll(m: Machine): (r: Machine)
    requires Sound(m)
    ensures Sound(r) && r.order == m.order && r.cursor == m.cursor && r.current == m.current
  {
    DeliverFrom(m, 0)
  }

  // ---- Calls ----

  /** What a call returns. */
  datatype Answer = Refused | Done | Created(pid: nat) | Waits | Collected(pid: nat, code: int) | Received(value: nat)

  /** process_create_internal; memoryOk is whether process_memory_map succeeds. */
  function Create(m: Machine, p: Proc, memoryOk: bool): (r: (Machine, Answer))
    requires Sound(m) && p.parent in m.order
    ensures Sound(r.0) && r.0.current == m.current
  {
    var s := FreeSlot(m.order, 1);
    if s == SLOTS then (m, Refused) else
    var d := m.(nextPid := Wrap(m.nextPid + 1));
    if !memoryOk then (d, Refused) else
    (Put(d, s, p.(pid := m.nextPid)).(order := m.order + [s]), Created(m.nextPid))
  }

  /** A new process as process_create_internal fills it in; the pid is set on creation. */
  function NewProc(parent: int, owner: nat, hasEntry: bool): Proc {
    Proc(0, Ready, owner, parent, hasEntry, 0, 0, [], [], 0, 0, 0)
  }

  /** fork_process of slot i, where -1 is NULL. */
  function Fork(m: Machine, i: int, memoryOk: bool): (r: (Machine, Answer))
    requires Sound(m) && (i == -1 || i in m.order)
    ensures Sound(r.0) && r.0.current == m.current
  {
    if i == -1 || i == 0 || !m.procs[i].hasEntry then (m, Refused) else
    var p := m.procs[i];
    Create(m, NewProc(i, p.owner, true).(lastSignal := p.lastSignal, lastSignalValue := p.lastSignalValue), memoryOk)
  }

  function IndexOf(s: seq<nat>, x: nat): (k: nat)
    ensures k <= |s| && (k < |s| ==> s[k] == x) && (k == |s| ==> x !in s)
    ensures forall j | 0 <= j < k :: s[j] != x
  {
    if s == [] then 0 else if s[0] == x then 0 else 1 + IndexOf(s[1..], x)
  }

  function Remove(s: seq<nat>, x: nat): seq<nat> {
    var k := IndexOf(s, x);
    if k == |s| then s else s[..k] + s[k + 1..]
  }

  /** process_release of a listed process that is neither the kernel nor the caller. */
  function Release(m: Machine, j: nat): (r: Machine)
    requires Sound(m) && j in m.order && j != 0 && j != m.current
    ensures Sound(r) && r.current == m.current
  {
    var k := IndexOf(m.order, j);
    assert forall x | x in m.order && x != j :: x in m.order[..k] + m.order[k + 1..];
    var cursor := if m.cursor == j then m.order[0] else m.cursor;
    m.(procs := m.procs[j := EMPTY], order := Remove(m.order, j), cursor := cursor)
  }

  /** process_wait by the current process. */
  function Wait(m: Machine, pid: nat): (r: (Machine, Answer))
    requires Sound(m)
    ensures Sound(r.0) && r.0.current == m.current
  {
    var i, j := m.current, Find(m, pid);
    if j == -1 || (i != 0 && m.procs[j].parent != i) then (m, Refused)
    else if m.procs[j].status != Zombie then
      var p := m.procs[i].(waitTarget := pid);
      (Put(m, i, if i != 0 then p.(status := Waiting) else p), Waits)
    else
      var d := if m.procs[i].status == Waiting then Put(m, i, m.procs[i].(status := Thread)) else m;
      (Release(d, j), Collected(pid, m.procs[j].exitCode))
  }

  /** queue_process_signal. */
  function Queue(m: Machine, j: nat, s: Pending): (r: (Machine, Answer))
    requires Sound(m) && j < SLOTS
    ensures Sound(r.0) && r.0.current == m.current
  {
    var p := m.procs[j];
    if |p.signals| >= SIGNAL_CAPACITY - 1 then (m, Refused) else
    (Put(m, j, p.(signals := p.signals + [s])), Done)
  }

  /** process_can_signal for a sender that exists. */
  predicate CanSignal(m: Machine, i: nat, j: nat)
    requires Sound(m) && i < SLOTS && j < SLOTS
  {
    m.procs[i].owner == 0 || i == j || m.procs[i].owner == m.procs[j].owner
  }

  /** send_signal_to_process by the current process. */
  function SendSignal(m: Machine, pid: nat, s: Pending): (r: (Machine, Answer))
    requires Sound(m)
    ensures Sound(r.0) && r.0.current == m.current
  {
    var j := Find(m, pid);
    if j == -1 || !CanSignal(m, m.current, j) then (m, Refused) else Queue(m, j, s)
  }

  /** socket_send. */
  function SocketSend(m: Machine, pid: nat, value: nat): (r: (Machine, Answer))
    requires Sound(m)
    ensures Sound(r.0) && r.0.current == m.current
  {
    var j := Find(m, pid);
    if j == -1 || |m.procs[j].socket| >= SOCKET_CAPACITY - 1 then (m, Refused) else
    Queue(Put(m, j, m.procs[j].(socket := m.procs[j].socket + [value])), j, Pending(SIGNAL_SOCKET, value))
  }

  /** socket_recv by the current process. */
  function SocketReceive(m: Machine): (r: (Machine, Answer))
    requires Sound(m)
    ensures Sound(r.0) && r.0.current == m.current
  {
    var p := m.procs[m.current];
    if p.socket == [] then (m, Refused) else
    (Put(m, m.current, p.(socket := p.socket[1..], lastSocketValue := p.socket[0])), Received(p.socket[0]))
  }

  /** A call that a process, or the kernel, makes on its own behalf. */
  datatype Call =
    | CreateCall(owner: nat, hasEntry: bool, memoryOk: bool)
    | ForkCall(pid: nat, memoryOk: bool)
    | WaitCall(pid: nat)
    | ExitCall(code: int)
    | SignalCall(pid: nat, pending: Pending)
    | SendCall(pid: nat, value: nat)
    | ReceiveCall

  function Perform(m: Machine, c: Call): (r: (Machine, Answer))
    requires Sound(m)
    ensures Sound(r.0) && r.0.current == m.current
  {
    match c
    case CreateCall(owner, hasEntry, memoryOk) => Create(m, NewProc(m.current, owner, hasEntry), memoryOk)
    case ForkCall(pid, memoryOk) => Fork(m, if pid == 0 then m.current else Find(m, pid), memoryOk)
    case WaitCall(pid) => Wait(m, pid)
    case ExitCall(code) => (Terminate(m, m.current, code), Done)
    case SignalCall(pid, pending) => SendSignal(m, pid, pending)
    case SendCall(pid, value) => SocketSend(m, pid, value)
    case ReceiveCall => SocketReceive(m)
  }

  /** The calls a process makes between two context switches, in order. */
  function PerformAll(m: Machine, cs: seq<Call>): (r: (Machine, seq<Answer>))
    requires Sound(m)
    ensures Sound(r.0) && r.0.current == m.current
    decreases |cs|
  {
    if cs == [] then (m, []) else
    var (d, a) := Perform(m, cs[0]);
    var (e, rest) := PerformAll(d, cs[1..]);
    (e, [a] + rest)
  }

  // ---- Scheduler ----

  /** The d-th process after the cursor in the circular list. */
  function Candidate(m: Machine, d: nat): (x: nat)
    requires Sound(m) && 1 <= d <= |m.order|
    ensures x in m.order
  {
    var k := IndexOf(m.order, m.cursor) + d;
    m.order[if k < |m.order| then k else k - |m.order|]
  }

  /** pick_next_process from the d-th candidate on; -1 is NULL. */
  function PickFrom(m: Machine, d: nat): (r: int)
    requires Sound(m) && 1 <= d <= |m.order| + 1
    ensures r != -1 ==> r in m.order && m.procs[r].Runnable()
    decreases |m.order| + 1 - d
  {
    if d == |m.order| + 1 then -1
    else if m.procs[Candidate(m, d)].Runnable() then Candidate(m, d)
    else PickFrom(m, d + 1)
  }

  function Pick(m: Machine): int
    requires Sound(m)
  {
    PickFrom(m, 1)
  }

  /** The part of schedule_next_process before the context switch, for the picked process. */
  function Dispatch(m: Machine, p: nat): (r: Machine)
    requires Sound(m) && p in m.order && p != 0
    ensures Sound(r) && r.current == p
  {
    var d := Deliver(m.(cursor := p, current := p), p);
    if d.procs[p].status == Zombie || d.procs[p].status == Waiting then d
    else Put(d, p, d.procs[p].(status := Run))
  }

  /** The part after it: a process still running becomes ready, and the kernel is current again. */
  function Settle(m: Machine): (r: Machine)
    requires Sound(m)
    ensures Sound(r) && r.current == 0
  {
    var p := m.procs[m.current];
    Put(m, m.current, if p.status == Run then p.(status := Ready) else p).(current := 0)
  }

  /** One tick of scheduler_run_pending, where the process that gets the processor makes the calls in body. */
  function Tick(m: Machine, body: seq<Call>): (r: (Machine, seq<Answer>))
    requires Sound(m)
    ensures Sound(r.0)
  {
    var d := DeliverAll(m);
    var p := Pick(d);
    if p == -1 then (d, []) else
    var e := Dispatch(d, p);
    if e.procs[p].status != Run then (Settle(e), []) else
    var (f, log) := PerformAll(e, body);
    (Settle(f), log)
  }

  datatype Event = KernelCall(call: Call) | TickEvent(body: seq<Call>)

  function Happen(m: Machine, e: Event): (r: (Machine, seq<Answer>))
    requires Sound(m)
    ensures Sound(r.0)
  {
    match e
    case KernelCall(call) => var (d, a) := Perform(m, call); (d, [a])
    case TickEvent(body) => Tick(m, body)
  }

  function RunAll(m: Machine, es: seq<Event>): (r: (Machine, seq<Answer>))
    requires Sound(m)
    ensures Sound(r.0)
    decreases |es|
  {
    if es == [] then (m, []) else
    var (d, log) := Happen(m, es[0]);
    var (e, rest) := RunAll(d, es[1..]);
    (e, log + rest)
  }

  /** The machine after process_init. */
  function Booted(): Machine {
    Machine(seq(SLOTS, i => if i == 0 then NewProc(-1, 0, false).(pid := 1, status := Thread) else EMPTY), [0], 0, 0, 2)
  }
}
