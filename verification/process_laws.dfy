/** What every run of the process manager keeps: the shape of the table, the parent forest, wakeups and zombies. */
module ProcessLaws {
  import opened Words
  import opened ProcessModel

  // ---- Invariants ----

  ghost predicate Ascending(m: Machine)
    requires Sound(m)
  {
    forall j, k | 0 <= j < k < |m.order| :: m.procs[m.order[j]].pid < m.procs[m.order[k]].pid
  }

  ghost predicate Fits(p: Proc) {
    |p.signals| < SIGNAL_CAPACITY && |p.socket| < SOCKET_CAPACITY
  }

  /** The list is strictly ascending by pid with the kernel first, unlisted slots are blank, and only the kernel has
      no parent. */
  ghost predicate Shape(m: Machine): (b: bool)
    ensures b ==> Sound(m)
  {
    && Sound(m) && Ascending(m)
    && (forall i | i in m.order :: 0 < m.procs[i].pid < m.nextPid && Fits(m.procs[i]))
    && (forall i: nat | i < SLOTS && i !in m.order :: m.procs[i] == EMPTY)
    && (forall i | i in m.order :: m.procs[i].parent == -1 <==> i == 0)
  }

  ghost predicate ParentOlder(m: Machine, i: nat)
    requires Sound(m) && i < SLOTS
  {
    m.procs[i].parent in m.order && m.procs[m.procs[i].parent].pid < m.procs[i].pid
  }

  /** Every process but the kernel has a listed parent with a smaller pid. */
  ghost predicate Forest(m: Machine)
    requires Sound(m)
  {
    forall i | i in m.order && i != 0 :: ParentOlder(m, i)
  }

  /** The process that i waits for is listed, is a child of i, and is no zombie. */
  ghost predicate WaitOk(m: Machine, i: nat)
    requires Sound(m) && i < SLOTS
  {
    var j := Find(m, m.procs[i].waitTarget);
    j != -1 && m.procs[j].parent == i && m.procs[j].status != Zombie
  }

  ghost predicate WaitInv(m: Machine)
    requires Sound(m)
  {
    forall i | i in m.order && m.procs[i].status == Waiting :: WaitOk(m, i)
  }

  /** What a run must respect, beyond pids that do not wrap: whoever is collected has no children left (childless), and
      a zombie does not wait for a live child (living). */
  datatype Rules = Rules(childless: bool, living: bool)

  /** Shape and sound waits hold in every run; the forest needs childless collection. */
  ghost predicate Inv(m: Machine, rules: Rules): (b: bool)
    ensures b ==> Shape(m)
  {
    Shape(m) && WaitInv(m) && (rules.childless ==> Forest(m))
  }

  lemma BootedInv(rules: Rules)
    ensures Inv(Booted(), rules) && Booted().current == 0
  {
  }

  /** What the shape says about one listed process. */
  lemma Listed(m: Machine, i: nat)
    requires Shape(m) && i in m.order
    ensures i < SLOTS && 0 < m.procs[i].pid < m.nextPid && Fits(m.procs[i])
    ensures m.procs[i].parent == -1 <==> i == 0
  {
  }

  // ---- Lookups ----

  lemma Found(m: Machine, j: nat)
    requires Shape(m) && j in m.order
    ensures Find(m, m.procs[j].pid) == j
  {
  }

  // ---- Steps that keep the tree ----

  /** List, pids, parents, owners and entries are those of before. */
  ghost predicate SameTree(m: Machine, r: Machine) {
    && Sound(m) && Sound(r) && r.order == m.order && r.nextPid == m.nextPid
    && forall i: nat | i < SLOTS ::
         && r.procs[i].pid == m.procs[i].pid && r.procs[i].parent == m.procs[i].parent
         && r.procs[i].owner == m.procs[i].owner && r.procs[i].hasEntry == m.procs[i].hasEntry
  }

  lemma {:induction false} SameFindFrom(m: Machine, r: Machine, pid: nat, k: nat)
    requires SameTree(m, r) && k <= |m.order|
    ensures FindFrom(r, pid, k) == FindFrom(m, pid, k)
    decreases |m.order| - k
  {
    if k < |m.order| {
      SameFindFrom(m, r, pid, k + 1);
    }
  }

  /** What signals, sockets, exits and the scheduler may do to a process. */
  ghost predicate Ages(p: Proc, q: Proc) {
    && (p.status == Zombie ==> q.status == Zombie && q.exitCode == p.exitCode)
    && (q.status == Waiting ==> p.status == Waiting) && q.waitTarget == p.waitTarget
    && (Fits(p) ==> Fits(q))
  }

  ghost predicate Evolves(m: Machine, r: Machine): (b: bool)
    ensures b ==> SameTree(m, r)
  {
    && SameTree(m, r)
    && (forall i: nat | i < SLOTS :: Ages(m.procs[i], r.procs[i]) && (i !in m.order ==> r.procs[i] == m.procs[i]))
    && (WaitInv(m) ==> WaitInv(r))
  }

  /** Shape and forest depend on the tree, the blank slots and the queue lengths alone. */
  lemma TreeShape(m: Machine, r: Machine)
    requires Shape(m) && SameTree(m, r)
    requires forall i: nat | i < SLOTS ::
               (Fits(m.procs[i]) ==> Fits(r.procs[i])) && (i !in m.order ==> r.procs[i] == m.procs[i])
    ensures Shape(r) && (Forest(m) ==> Forest(r))
  {
    hide Sound, Fits;
    assert forall k | 0 <= k < |m.order| :: m.order[k] in m.order;
    if Forest(m) {
      forall i | i in r.order && i != 0
        ensures ParentOlder(r, i)
      {
        assert ParentOlder(m, i);
      }
    }
  }

  lemma Evolved(m: Machine, r: Machine)
    requires Evolves(m, r) && Shape(m)
    ensures Shape(r) && (Forest(m) ==> Forest(r)) && (WaitInv(m) ==> WaitInv(r))
  {
    hide Shape, Sound, Fits, Forest, WaitInv;
    TreeShape(m, r);
  }

  lemma EvolvesTrans(a: Machine, b: Machine, c: Machine)
    requires Evolves(a, b) && Evolves(b, c)
    ensures Evolves(a, c)
  {
  }

  /** Statuses that turn no waiter into anything and no process into a zombie keep every wait sound. */
  lemma QuietEvolves(m: Machine, r: Machine)
    requires SameTree(m, r)
    requires forall i: nat | i < SLOTS ::
               && Ages(m.procs[i], r.procs[i]) && (i !in m.order ==> r.procs[i] == m.procs[i])
               && (r.procs[i].status == Zombie ==> m.procs[i].status == Zombie)
    ensures Evolves(m, r)
  {
    forall i | i in r.order && r.procs[i].status == Waiting && WaitOk(m, i)
      ensures WaitOk(r, i)
    {
      SameFind(m, r, m.procs[i].waitTarget);
    }
  }

  /** What an exit does to each process: i ends, and a parent waiting for it becomes ready. */
  lemma TerminateFrame(m: Machine, i: nat, code: int)
    requires Shape(m) && i in m.order && i != 0 && m.procs[i].status != Zombie
    ensures var r := Terminate(m, i, code);
            && SameTree(m, r) && r.procs[i].status == Zombie && r.procs[i].exitCode == code
            && (forall k: nat | k < SLOTS ::
                  Ages(m.procs[k], r.procs[k]) && (k !in m.order ==> r.procs[k] == m.procs[k]))
            && (forall k: nat | k < SLOTS && k != i && r.procs[k].status == Zombie :: m.procs[k].status == Zombie)
            && (forall k: nat | k < SLOTS && k == m.procs[i].parent && r.procs[k].status == Waiting ::
                  m.procs[k].waitTarget != m.procs[i].pid)
  {
    hide Terminate, Ascending, Sound;
    TerminateSlots(m, i, code);
  }

  /** The slots after an exit. */
  lemma TerminateSlots(m: Machine, i: nat, code: int)
    requires Sound(m) && i < SLOTS && i != 0 && m.procs[i].status != Zombie
    ensures var r, p, j := Terminate(m, i, code), m.procs[i], m.procs[i].parent;
            var ended := m.procs[i := p.(exitCode := code, status := Zombie)];
            && |m.procs| == SLOTS && -1 <= j < SLOTS && j != i && r.order == m.order && r.nextPid == m.nextPid
            && (if j != -1 && m.procs[j].status == Waiting
                   && (m.procs[j].waitTarget == 0 || m.procs[j].waitTarget == p.pid)
                then r.procs == ended[j := m.procs[j].(status := Ready)] else r.procs == ended)
  {
  }

  /** An exit keeps every wait sound: whoever waited for the process is woken. */
  lemma TerminateEvolves(m: Machine, i: nat, code: int)
    requires Shape(m) && i in m.order
    ensures Evolves(m, Terminate(m, i, code))
    ensures i != 0 ==> Terminate(m, i, code).procs[i].status == Zombie
  {
    var r := Terminate(m, i, code);
    if i != 0 && m.procs[i].status != Zombie {
      hide Terminate, Shape, Sound, Find;
      TerminateFrame(m, i, code);
      forall k | k in r.order && r.procs[k].status == Waiting && WaitOk(m, k)
        ensures WaitOk(r, k)
      {
        ExitKeepsWait(m, r, i, k);
      }
    } else {
      QuietEvolves(m, r);
    }
  }

  lemma ExitKeepsWait(m: Machine, r: Machine, i: nat, k: nat)
    requires SameTree(m, r) && i < SLOTS && k < SLOTS && WaitOk(m, k) && r.procs[k].waitTarget == m.procs[k].waitTarget
    requires forall j: nat | j < SLOTS && j != i && r.procs[j].status == Zombie :: m.procs[j].status == Zombie
    requires k == m.procs[i].parent ==> m.procs[k].waitTarget != m.procs[i].pid
    ensures WaitOk(r, k)
  {
    SameFind(m, r, m.procs[k].waitTarget);
  }

  lemma Unchanged(m: Machine)
    requires Sound(m)
    ensures Evolves(m, m)
  {
  }

  /** The machine when the first pending signal has been taken and recorded. */
  function Taken(m: Machine, i: nat): (d: Machine)
    requires Sound(m) && i < SLOTS && m.procs[i].signals != []
    ensures Sound(d)
  {
    var p, s := m.procs[i], m.procs[i].signals[0];
    Put(m, i, p.(signals := p.signals[1..], lastSignal := Wrap(s.signal), lastSignalValue := s.value))
  }

  lemma TakenEvolves(m: Machine, i: nat)
    requires Shape(m) && i in m.order && m.procs[i].signals != []
    ensures Evolves(m, Taken(m, i)) && Shape(Taken(m, i)) && i in Taken(m, i).order
  {
    hide Evolves, Ascending;
    QuietEvolves(m, Taken(m, i));
    Evolved(m, Taken(m, i));
  }

  lemma HandleIs(m: Machine, i: nat)
    requires Sound(m) && i < SLOTS && m.procs[i].signals != []
    ensures var (d, s) := (Taken(m, i), m.procs[i].signals[0]);
            HandleSignal(m, i) == if Fatal(s) then Terminate(d, i, 128 + s.signal) else d
  {
    hide Terminate, Wrap;
  }

  lemma HandleEvolves(m: Machine, i: nat)
    requires Shape(m) && i in m.order && m.procs[i].signals != []
    ensures Evolves(m, HandleSignal(m, i))
  {
    hide Evolves, HandleSignal, Taken, Shape, Sound, Terminate;
    var s := m.procs[i].signals[0];
    HandleIs(m, i);
    TakenEvolves(m, i);
    TerminateEvolves(Taken(m, i), i, 128 + s.signal);
    if Fatal(s) {
      EvolvesTrans(m, Taken(m, i), Terminate(Taken(m, i), i, 128 + s.signal));
    }
  }

  lemma {:induction false} DeliverEvolves(m: Machine, i: nat)
    requires Shape(m) && i in m.order
    ensures Evolves(m, Deliver(m, i))
    decreases |m.procs[i].signals|
  {
    hide Evolves;
    if m.procs[i].signals == [] {
      QuietEvolves(m, m);
    } else {
      var d := HandleSignal(m, i);
      HandleEvolves(m, i);
      Evolved(m, d);
      if d.procs[i].status != Zombie {
        DeliverEvolves(d, i);
        EvolvesTrans(m, d, Deliver(d, i));
      }
    }
  }

  lemma {:induction false} DeliverFromEvolves(m: Machine, k: nat)
    requires Shape(m) && k <= |m.order|
    ensures Evolves(m, DeliverFrom(m, k))
    decreases |m.order| - k
  {
    hide Evolves;
    if k == |m.order| {
      QuietEvolves(m, m);
    } else {
      var d := Deliver(m, m.order[k]);
      DeliverEvolves(m, m.order[k]);
      Evolved(m, d);
      DeliverFromEvolves(d, k + 1);
      EvolvesTrans(m, d, DeliverFrom(d, k + 1));
    }
  }

  lemma QueueEvolves(m: Machine, j: nat, s: Pending)
    requires Shape(m) && j in m.order
    ensures Evolves(m, Queue(m, j, s).0)
  {
    QuietEvolves(m, Queue(m, j, s).0);
  }

  lemma SocketSendEvolves(m: Machine, pid: nat, value: nat)
    requires Shape(m)
    ensures Evolves(m, SocketSend(m, pid, value).0)
  {
    hide Evolves;
    var j := Find(m, pid);
    QuietEvolves(m, m);
    if j != -1 && |m.procs[j].socket| < SOCKET_CAPACITY - 1 {
      var d := Put(m, j, m.procs[j].(socket := m.procs[j].socket + [value]));
      QuietEvolves(m, d);
      Evolved(m, d);
      QueueEvolves(d, j, Pending(SIGNAL_SOCKET, value));
      EvolvesTrans(m, d, Queue(d, j, Pending(SIGNAL_SOCKET, value)).0);
    }
  }

  lemma ReceiveEvolves(m: Machine)
    requires Shape(m)
    ensures Evolves(m, SocketReceive(m).0)
  {
    QuietEvolves(m, SocketReceive(m).0);
  }

  /** Calls other than create, fork and wait. */
  lemma OtherCallEvolves(m: Machine, c: Call)
    requires Shape(m) && !c.CreateCall? && !c.ForkCall? && !c.WaitCall?
    ensures Evolves(m, Perform(m, c).0)
  {
    hide Evolves, Shape, Sound, Find, Terminate, Queue, SocketSend;
    Unchanged(m);
    match c {
      case ExitCall(code) => TerminateEvolves(m, m.current, code);
      case SignalCall(pid, pending) =>
        if Find(m, pid) != -1 {
          QueueEvolves(m, Find(m, pid), pending);
        }
      case SendCall(pid, value) => SocketSendEvolves(m, pid, value);
      case ReceiveCall => ReceiveEvolves(m);
      case _ =>
    }
  }

  lemma DispatchEvolves(m: Machine, p: nat)
    requires Shape(m) && p in m.order && p != 0
    ensures Evolves(m, Dispatch(m, p))
  {
    hide Evolves, Deliver;
    var c := m.(cursor := p, current := p);
    SwitchEvolves(m, p, p);
    Evolved(m, c);
    DeliverEvolves(c, p);
    var d := Deliver(c, p);
    EvolvesTrans(m, c, d);
    Evolved(m, d);
    StatusEvolves(d, p, Run);
    if d.procs[p].status != Zombie && d.procs[p].status != Waiting {
      EvolvesTrans(m, d, Dispatch(m, p));
    }
  }

  lemma SwitchEvolves(m: Machine, cursor: nat, current: nat)
    requires Shape(m) && cursor in m.order && current in m.order
    ensures Evolves(m, m.(cursor := cursor, current := current))
  {
    QuietEvolves(m, m.(cursor := cursor, current := current));
  }

  lemma StatusEvolves(m: Machine, p: nat, s: Status)
    requires Shape(m) && p in m.order && p != 0 && s != Waiting && s != Zombie
    ensures m.procs[p].status != Zombie ==> Evolves(m, Put(m, p, m.procs[p].(status := s)))
  {
    if m.procs[p].status != Zombie {
      QuietEvolves(m, Put(m, p, m.procs[p].(status := s)));
    }
  }

  lemma SettleEvolves(m: Machine)
    requires Shape(m)
    ensures Evolves(m, Settle(m))
  {
    QuietEvolves(m, Settle(m));
  }

  // ---- Creation and collection ----

  /** r is m with process q in slot i, at the end of the list. */
  ghost predicate Joined(m: Machine, r: Machine, i: nat, q: Proc) {
    i < SLOTS == |m.procs| && i !in m.order && r.order == m.order + [i] && r.procs == m.procs[i := q]
  }

  /** A created process joins the end of the list with the next pid; nobody else changes. */
  lemma CreateFrame(m: Machine, p: Proc, memoryOk: bool)
    requires Sound(m) && p.parent in m.order && m.nextPid + 1 < U32
    ensures var (r, a) := Create(m, p, memoryOk);
            && (a.Created? || a == Refused) && m.nextPid <= r.nextPid <= m.nextPid + 1 && r.cursor == m.cursor
            && (a == Refused ==> r.order == m.order && r.procs == m.procs)
            && (a.Created? ==>
                  a.pid == m.nextPid < r.nextPid && Joined(m, r, FreeSlot(m.order, 1), p.(pid := m.nextPid)))
  {
  }

  lemma JoinedShape(m: Machine, r: Machine, i: nat, q: Proc)
    requires Shape(m) && Sound(r) && Joined(m, r, i, q) && q.parent in m.order && Fits(q)
             && 0 < q.pid == m.nextPid < r.nextPid
    ensures Shape(r)
  {
    hide Sound, Ascending, Fits;
    InShape(m);
    assert forall k | 0 <= k < |m.order| :: m.order[k] in m.order;
    JoinedAscending(m, r, i, q);
    hide Joined;
    JoinedListed(m, r, i, q);
  }

  lemma JoinedListed(m: Machine, r: Machine, i: nat, q: Proc)
    requires Shape(m) && Sound(r) && Joined(m, r, i, q) && q.parent in m.order && Fits(q)
             && 0 < q.pid == m.nextPid < r.nextPid
    ensures forall k | k in r.order ::
              && 0 < r.procs[k].pid < r.nextPid && Fits(r.procs[k]) && (r.procs[k].parent == -1 <==> k == 0)
    ensures forall k: nat | k < SLOTS && k !in r.order :: r.procs[k] == EMPTY
  {
    hide Ascending, Fits;
    forall k | k in r.order
      ensures 0 < r.procs[k].pid < r.nextPid && Fits(r.procs[k]) && (r.procs[k].parent == -1 <==> k == 0)
    {
      if k != i {
        assert k in m.order && r.procs[k] == m.procs[k];
      }
    }
  }

  lemma JoinedAscending(m: Machine, r: Machine, i: nat, q: Proc)
    requires Shape(m) && Sound(r) && Joined(m, r, i, q) && q.pid == m.nextPid
    ensures Ascending(r)
  {
    hide Fits;
    forall j, k | 0 <= j < k < |r.order|
      ensures r.procs[r.order[j]].pid < r.procs[r.order[k]].pid
    {
      assert r.order[j] == m.order[j] && m.order[j] in m.order;
      if k < |m.order| {
        assert r.order[k] == m.order[k] && m.order[k] in m.order;
      }
    }
  }

  lemma CreateShape(m: Machine, p: Proc, memoryOk: bool)
    requires Shape(m) && p.parent in m.order && Fits(p) && m.nextPid + 1 < U32
    ensures Shape(Create(m, p, memoryOk).0)
  {
    var (r, a) := Create(m, p, memoryOk);
    hide Create;
    CreateFrame(m, p, memoryOk);
    assert m.order[0] in m.order;
    if a.Created? {
      hide Shape;
      JoinedShape(m, r, FreeSlot(m.order, 1), p.(pid := m.nextPid));
    }
  }

  lemma CreateKeeps(m: Machine, p: Proc, memoryOk: bool, rules: Rules)
    requires Inv(m, rules) && p.parent in m.order && Fits(p) && p.status == Ready && m.nextPid + 1 < U32
    ensures Inv(Create(m, p, memoryOk).0, rules)
  {
    hide Create, Shape, Sound;
    CreateFrame(m, p, memoryOk);
    CreateShape(m, p, memoryOk);
    var (r, a) := Create(m, p, memoryOk);
    if a.Created? && rules.childless {
      forall i | i in r.order && i != 0
        ensures ParentOlder(r, i)
      {
        if i in m.order {
          assert ParentOlder(m, i);
        } else {
          Listed(m, p.parent);
        }
      }
    }
    forall i | i in r.order && r.procs[i].status == Waiting
      ensures WaitOk(r, i)
    {
      WaitKept(m, r, i);
    }
  }

  /** A sound wait stays sound while its target stays listed and unchanged. */
  lemma WaitKept(m: Machine, r: Machine, i: nat)
    requires Shape(m) && Shape(r) && i < SLOTS && WaitOk(m, i) && r.procs[i].waitTarget == m.procs[i].waitTarget
    requires var j := Find(m, m.procs[i].waitTarget); j in r.order && r.procs[j] == m.procs[j]
    ensures WaitOk(r, i)
  {
  }

  ghost predicate Childless(m: Machine, j: nat)
    requires Sound(m)
  {
    forall i | i in m.order :: m.procs[i].parent != j
  }

  lemma RemoveIs(s: seq<nat>, x: nat, y: nat)
    requires x in s && forall j, k | 0 <= j < k < |s| :: s[j] != s[k]
    ensures y in Remove(s, x) <==> y in s && y != x
  {
  }

  lemma ReleaseFrame(m: Machine, j: nat)
    requires Shape(m) && j in m.order && j != 0 && j != m.current
    ensures var r := Release(m, j);
            && r.nextPid == m.nextPid && r.procs == m.procs[j := EMPTY] && r.order == Remove(m.order, j)
            && (forall x :: x in r.order <==> x in m.order && x != j)
  {
    forall x
      ensures x in Remove(m.order, j) <==> x in m.order && x != j
    {
      RemoveIs(m.order, j, x);
    }
  }

  lemma ReleaseAscending(m: Machine, r: Machine, j: nat)
    requires Sound(m) && Sound(r) && Ascending(m) && j in m.order
    requires r.procs == m.procs[j := EMPTY] && r.order == Remove(m.order, j) && j !in r.order
    ensures Ascending(r)
  {
  }

  lemma ReleaseShape(m: Machine, j: nat)
    requires Shape(m) && j in m.order && j != 0 && j != m.current
    ensures Shape(Release(m, j))
  {
    hide Release, Sound, Remove, Ascending;
    ReleaseFrame(m, j);
    ReleaseAscending(m, Release(m, j), j);
  }

  /** Collecting a process keeps the forest exactly when it has no children left. */
  lemma ReleaseForest(m: Machine, j: nat)
    requires Shape(m) && Forest(m) && j in m.order && j != 0 && j != m.current
    ensures Forest(Release(m, j)) <==> Childless(m, j)
  {
    hide Release, Shape, Sound;
    ReleaseFrame(m, j);
    ReleaseShape(m, j);
    var r := Release(m, j);
    if Childless(m, j) {
      forall i | i in r.order && i != 0
        ensures ParentOlder(r, i)
      {
        assert ParentOlder(m, i);
      }
    } else {
      var i :| i in m.order && m.procs[i].parent == j;
      Listed(m, i);
      assert i in r.order && i != 0 && !ParentOlder(r, i);
    }
  }

  lemma ReleaseWaits(m: Machine, j: nat)
    requires Shape(m) && WaitInv(m) && j in m.order && j != 0 && j != m.current && m.procs[j].status == Zombie
    ensures WaitInv(Release(m, j))
  {
    hide Release, Shape, Sound;
    ReleaseFrame(m, j);
    ReleaseShape(m, j);
    var r := Release(m, j);
    forall i | i in r.order && r.procs[i].status == Waiting
      ensures WaitOk(r, i)
    {
      assert WaitOk(m, i);
      WaitKept(m, r, i);
    }
  }

  lemma BlockFrame(m: Machine, pid: nat)
    requires Sound(m) && Wait(m, pid).1 == Waits
    ensures var (i, j) := (m.current, Find(m, pid));
            && j != -1 && m.procs[j].status != Zombie && (i != 0 ==> m.procs[j].parent == i)
            && Wait(m, pid).0 ==
               Put(m, i, m.procs[i].(waitTarget := pid, status := if i != 0 then Waiting else m.procs[i].status))
  {
  }

  lemma BlockKeeps(m: Machine, pid: nat)
    requires Shape(m) && Wait(m, pid).1 == Waits
    ensures var r := Wait(m, pid).0;
            Shape(r) && SameTree(m, r) && (Forest(m) ==> Forest(r)) && (WaitInv(m) ==> WaitInv(r))
  {
    hide Wait, Find;
    BlockFrame(m, pid);
    var r := Wait(m, pid).0;
    BlockTree(m, r, m.current, pid, r.procs[m.current].status);
    forall i | i in r.order && r.procs[i].status == Waiting && WaitInv(m)
      ensures WaitOk(r, i)
    {
      SameFind(m, r, r.procs[i].waitTarget);
      assert i != m.current ==> WaitOk(m, i);
    }
  }

  lemma BlockTree(m: Machine, r: Machine, i: nat, pid: nat, status: Status)
    requires Shape(m) && Sound(r) && i in m.order && r == Put(m, i, m.procs[i].(waitTarget := pid, status := status))
    ensures Shape(r) && SameTree(m, r) && (Forest(m) ==> Forest(r))
  {
    hide Shape, Sound, Forest;
    TreeShape(m, r);
  }

  lemma SameFind(m: Machine, r: Machine, pid: nat)
    requires SameTree(m, r)
    ensures Find(r, pid) == Find(m, pid)
  {
    SameFindFrom(m, r, pid, 0);
  }

  /** The machine in which a collecting call releases the zombie: a waiting caller has been let go. */
  function LetGo(m: Machine): (r: Machine)
    requires Sound(m)
    ensures Sound(r)
  {
    var i := m.current;
    if m.procs[i].status == Waiting then Put(m, i, m.procs[i].(status := Thread)) else m
  }

  lemma LetGoEvolves(m: Machine)
    requires Shape(m)
    ensures Evolves(m, LetGo(m)) && LetGo(m).current == m.current
    ensures forall j: nat | j < SLOTS && m.procs[j].status == Zombie :: LetGo(m).procs[j] == m.procs[j]
  {
    QuietEvolves(m, LetGo(m));
  }

  /** A call that collects releases a listed zombie. */
  lemma CollectFrame(m: Machine, pid: nat)
    requires Sound(m) && Wait(m, pid).1.Collected?
    ensures var j := Find(m, pid);
            && j != -1 && j != 0 && j != m.current && m.procs[j].status == Zombie
            && Wait(m, pid) == (Release(LetGo(m), j), Collected(pid, m.procs[j].exitCode))
  {
  }

  lemma CollectKeeps(m: Machine, pid: nat, rules: Rules)
    requires Inv(m, rules) && Wait(m, pid).1.Collected? && (rules.childless ==> Childless(m, Find(m, pid)))
    ensures Inv(Wait(m, pid).0, rules)
  {
    hide Wait, Release, Shape, Evolves, WaitInv, Forest, Find, LetGo;
    CollectFrame(m, pid);
    LetGoEvolves(m);
    var d, j := LetGo(m), Find(m, pid);
    Evolved(m, d);
    ReleaseShape(d, j);
    ReleaseWaits(d, j);
    if rules.childless {
      ReleaseForest(d, j);
    }
  }

  // ---- Whole runs ----

  /** A zombie waits for a live child, and so leaves the zombie state. */
  ghost predicate Revives(m: Machine, c: Call)
    requires Sound(m)
  {
    c.WaitCall? && m.procs[m.current].status == Zombie && Wait(m, c.pid).1 == Waits
  }

  /** The premises of one call. */
  ghost predicate Allowed(m: Machine, c: Call, rules: Rules)
    requires Sound(m)
  {
    && (c.CreateCall? || c.ForkCall? ==> m.nextPid + 1 < U32)
    && (rules.childless && c.WaitCall? && Wait(m, c.pid).1.Collected? ==> Childless(m, Find(m, c.pid)))
    && (rules.living ==> !Revives(m, c))
  }

  ghost predicate AllowedCalls(m: Machine, cs: seq<Call>, rules: Rules)
    requires Sound(m)
    decreases |cs|
  {
    cs != [] ==> Allowed(m, cs[0], rules) && AllowedCalls(Perform(m, cs[0]).0, cs[1..], rules)
  }

  /** The machine as the picked process first sees it. */
  function Started(m: Machine): (r: Machine)
    requires Sound(m)
    ensures Sound(r)
  {
    var d := DeliverAll(m);
    if Pick(d) == -1 then d else Dispatch(d, Pick(d))
  }

  ghost predicate AllowedEvent(m: Machine, e: Event, rules: Rules)
    requires Sound(m)
  {
    match e
    case KernelCall(call) => Allowed(m, call, rules)
    case TickEvent(body) => AllowedCalls(Started(m), body, rules)
  }

  ghost predicate AllowedRun(m: Machine, es: seq<Event>, rules: Rules)
    requires Sound(m)
    decreases |es|
  {
    es != [] ==> AllowedEvent(m, es[0], rules) && AllowedRun(Happen(m, es[0]).0, es[1..], rules)
  }

  lemma CallKeeps(m: Machine, c: Call, rules: Rules)
    requires Inv(m, rules) && Allowed(m, c, rules)
    ensures Inv(Perform(m, c).0, rules)
  {
    hide Create, Shape, WaitInv, Forest, Evolves, Childless, Find;
    match c {
      case CreateCall(owner, hasEntry, memoryOk) =>
        CreateKeeps(m, NewProc(m.current, owner, hasEntry), memoryOk, rules);
      case ForkCall(pid, memoryOk) => ForkKeeps(m, if pid == 0 then m.current else Find(m, pid), memoryOk, rules);
      case WaitCall(pid) =>
        if Wait(m, pid).1 == Waits {
          BlockKeeps(m, pid);
        } else if Wait(m, pid).1.Collected? {
          CollectKeeps(m, pid, rules);
        }
      case _ =>
        OtherCallEvolves(m, c);
        Evolved(m, Perform(m, c).0);
    }
  }

  lemma ForkKeeps(m: Machine, i: int, memoryOk: bool, rules: Rules)
    requires Inv(m, rules) && (i == -1 || i in m.order) && m.nextPid + 1 < U32
    ensures Inv(Fork(m, i, memoryOk).0, rules)
  {
    hide Create, WaitInv, Forest;
    if i != -1 && i != 0 && m.procs[i].hasEntry {
      var p := m.procs[i];
      var child := NewProc(i, p.owner, true).(lastSignal := p.lastSignal, lastSignalValue := p.lastSignalValue);
      CreateKeeps(m, child, memoryOk, rules);
    }
  }

  lemma {:induction false} CallsKeep(m: Machine, cs: seq<Call>, rules: Rules)
    requires Inv(m, rules) && AllowedCalls(m, cs, rules)
    ensures Inv(PerformAll(m, cs).0, rules)
    decreases |cs|
  {
    hide Inv, Perform, Allowed;
    if cs != [] {
      InvSound(m, rules);
      CallKeeps(m, cs[0], rules);
      CallsKeep(Perform(m, cs[0]).0, cs[1..], rules);
    }
  }

  lemma InvSound(m: Machine, rules: Rules)
    requires Inv(m, rules)
    ensures Sound(m) && Shape(m)
  {
  }

  lemma StartedEvolves(m: Machine)
    requires Shape(m)
    ensures Evolves(m, Started(m)) && Shape(Started(m))
  {
    hide Evolves, Dispatch, PickFrom, Shape;
    var d := DeliverAll(m);
    InShape(m);
    DeliverFromEvolves(m, 0);
    Evolved(m, d);
    InShape(d);
    PickListed(d);
    if Pick(d) != -1 {
      DispatchEvolves(d, Pick(d));
      Evolved(d, Dispatch(d, Pick(d)));
      EvolvesTrans(m, d, Dispatch(d, Pick(d)));
    }
  }

  lemma InShape(m: Machine)
    requires Shape(m)
    ensures Sound(m)
  {
  }

  lemma PickListed(m: Machine)
    requires Sound(m)
    ensures Pick(m) != -1 ==> Pick(m) in m.order && 0 < Pick(m) < SLOTS && m.procs[Pick(m)].Runnable()
  {
  }

  lemma EventKeeps(m: Machine, e: Event, rules: Rules)
    requires Inv(m, rules) && AllowedEvent(m, e, rules)
    ensures Inv(Happen(m, e).0, rules)
  {
    match e {
      case KernelCall(call) => CallKeeps(m, call, rules);
      case TickEvent(body) => TickKeeps(m, body, rules);
    }
  }

  lemma TickKeeps(m: Machine, body: seq<Call>, rules: Rules)
    requires Inv(m, rules) && AllowedCalls(Started(m), body, rules)
    ensures Inv(Tick(m, body).0, rules)
  {
    hide Shape, WaitInv, Forest, Evolves, PickFrom, Dispatch, DeliverFrom, Settle, PerformAll, AllowedCalls;
    InvSound(m, rules);
    var s := Started(m);
    StartedEvolves(m);
    Evolved(m, s);
    InShape(s);
    PickListed(DeliverAll(m));
    CallsKeep(s, body, rules);
    var f := PerformAll(s, body).0;
    InShape(f);
    SettleEvolves(f);
    Evolved(f, Settle(f));
    SettleEvolves(s);
    Evolved(s, Settle(s));
  }

  /** Shape, forest and sound waits hold after every allowed run of kernel calls and ticks. */
  lemma {:induction false} RunKeeps(m: Machine, es: seq<Event>, rules: Rules)
    requires Inv(m, rules) && AllowedRun(m, es, rules)
    ensures Inv(RunAll(m, es).0, rules)
    decreases |es|
  {
    hide Inv, Happen, AllowedEvent;
    if es != [] {
      InvSound(m, rules);
      EventKeeps(m, es[0], rules);
      RunKeeps(Happen(m, es[0]).0, es[1..], rules);
    }
  }
}
