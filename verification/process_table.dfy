/** The process table in memory (kernel/src/process.c): sixteen structs threaded by the global list and by the lists of
    children, with signal and socket rings inside. Every operation is proved to do what the model does. */
module ProcessTable {
  import opened Words
  import opened Lists
  import opened Rings
  import opened ProcessModel
  import opened ProcessLaws

  /** process_t without its memory and statistics; references are slots, or NULL. */
  datatype Pcb = Pcb(used: bool, pid: nat, status: Status, owner: nat, parent: int, children: int, nextSibling: int,
                     next: int, hasEntry: bool, exitCode: int, waitTarget: nat, signals: Ring<Pending>,
                     socket: Ring<nat>, lastSignal: nat, lastSignalValue: nat, lastSocketValue: nat)

  /** A slot after memset. */
  const ZEROED: Pcb := Pcb(false, 0, Ready, 0, NULL, NULL, NULL, NULL, false, 0, 0,
                           EmptyRing(SIGNAL_CAPACITY, Pending(0, 0)), EmptyRing(SOCKET_CAPACITY, 0), 0, 0, 0)

  ghost predicate RingsOk(p: Pcb) {
    Ok(p.signals) && |p.signals.slots| == SIGNAL_CAPACITY && Ok(p.socket) && |p.socket.slots| == SOCKET_CAPACITY
  }

  /** The process that a struct stands for. */
  ghost function ProcOf(p: Pcb): Proc {
    Proc(p.pid, p.status, p.owner, p.parent, p.hasEntry, p.exitCode, p.waitTarget,
         if Ok(p.signals) then Contents(p.signals) else [], if Ok(p.socket) then Contents(p.socket) else [],
         p.lastSignal, p.lastSignalValue, p.lastSocketValue)
  }

  lemma ZeroedIsEmpty()
    ensures RingsOk(ZEROED) && ProcOf(ZEROED) == EMPTY
  {
  }

  ghost function Procs(t: seq<Pcb>): (r: seq<Proc>)
    ensures |r| == |t| && forall i: nat | i < |t| :: r[i] == ProcOf(t[i])
  {
    seq(|t|, i requires 0 <= i < |t| => ProcOf(t[i]))
  }

  lemma ProcsPut(t: seq<Pcb>, i: nat, p: Pcb)
    requires i < |t|
    ensures Procs(t[i := p]) == Procs(t)[i := ProcOf(p)]
  {
  }

  // ---- Links ----

  ghost function NextOf(t: seq<Pcb>): (r: seq<int>)
    ensures |r| == |t| && forall i: nat | i < |t| :: r[i] == t[i].next
  {
    seq(|t|, i requires 0 <= i < |t| => t[i].next)
  }

  ghost function SiblingOf(t: seq<Pcb>): (r: seq<int>)
    ensures |r| == |t| && forall i: nat | i < |t| :: r[i] == t[i].nextSibling
  {
    seq(|t|, i requires 0 <= i < |t| => t[i].nextSibling)
  }

  /** The children list of p spells out kids, which are processes in use that name p as their parent. */
  ghost predicate KidsAt(t: seq<Pcb>, p: nat, kids: seq<nat>)
    requires p < |t|
  {
    Linked(SiblingOf(t), t[p].children, kids) && forall c | c in kids :: c < |t| && t[c].used && t[c].parent == p
  }

  /** A slot not in use is zeroed. */
  ghost predicate Blank(p: Pcb) {
    !p.used ==> p == ZEROED
  }

  /** The list from head is exactly the slots in use, apart from one that may just be between allocation and linking;
      every other slot is zeroed. */
  ghost predicate Links(t: seq<Pcb>, head: int, order: seq<nat>, kids: seq<seq<nat>>, pending: int) {
    && |t| == SLOTS && |kids| == SLOTS && (forall i: nat | i < SLOTS :: RingsOk(t[i]))
    && order != [] && Linked(NextOf(t), head, order) && pending !in order && (forall i | i in order :: i < SLOTS)
    && (forall i: nat | i < SLOTS :: t[i].used <==> i in order || i == pending)
    && (forall i: nat | i < SLOTS :: Blank(t[i]))
    && (forall p: nat | p < SLOTS :: KidsAt(t, p, kids[p]))
  }

  ghost predicate SameLinks(p: Pcb, q: Pcb) {
    && q.used == p.used && q.parent == p.parent && q.children == p.children
    && q.nextSibling == p.nextSibling && q.next == p.next
  }

  /** A write that touches no link keeps the links. */
  lemma KeepLinks(t: seq<Pcb>, head: int, order: seq<nat>, kids: seq<seq<nat>>, pending: int, i: nat, p: Pcb)
    requires Links(t, head, order, kids, pending) && i < SLOTS && t[i].used && SameLinks(t[i], p) && RingsOk(p)
    ensures Links(t[i := p], head, order, kids, pending)
  {
    hide Linked, RingsOk;
    var t' := t[i := p];
    assert NextOf(t') == NextOf(t) && SiblingOf(t') == SiblingOf(t);
    forall q: nat | q < SLOTS
      ensures KidsAt(t', q, kids[q])
    {
      assert KidsAt(t, q, kids[q]);
    }
  }

  ghost predicate InKids(kids: seq<seq<nat>>, p: int, c: nat) {
    0 <= p < |kids| && c in kids[p]
  }

  /** Every listed process but the kernel is in the children list of its parent. */
  ghost predicate Exact(t: seq<Pcb>, order: seq<nat>, kids: seq<seq<nat>>) {
    forall c | c in order && c != 0 && c < |t| :: InKids(kids, t[c].parent, c)
  }

  // ---- Pointer surgery ----

  ghost predicate NoParentList(kids: seq<seq<nat>>, c: nat) {
    forall q: nat | q < |kids| :: c !in kids[q]
  }

  /** Allocation: a zeroed slot becomes used. */
  lemma AllocLinks(t: seq<Pcb>, head: int, order: seq<nat>, kids: seq<seq<nat>>, s: nat)
    requires Links(t, head, order, kids, NULL) && s < SLOTS && s !in order
    ensures Links(t[s := ZEROED.(used := true)], head, order, kids, s) && NoParentList(kids, s)
  {
    hide Linked;
    var t' := t[s := ZEROED.(used := true)];
    assert Blank(t[s]);
    assert NextOf(t') == NextOf(t) && SiblingOf(t') == SiblingOf(t);
    forall q: nat | q < SLOTS
      ensures KidsAt(t', q, kids[q]) && s !in kids[q]
    {
      assert KidsAt(t, q, kids[q]);
    }
  }

  /** The writes of process_link_child. */
  ghost function ChildLinked(t: seq<Pcb>, parent: nat, c: nat): (r: seq<Pcb>)
    requires parent < |t| && c < |t| && parent != c
  {
    t[c := t[c].(parent := parent, nextSibling := t[parent].children)][parent := t[parent].(children := c)]
  }

  lemma ChildLinks(t: seq<Pcb>, head: int, order: seq<nat>, kids: seq<seq<nat>>, parent: nat, c: nat)
    requires Links(t, head, order, kids, c) && parent in order && c < SLOTS && NoParentList(kids, c)
    ensures parent < SLOTS && parent != c
    ensures Links(ChildLinked(t, parent, c), head, order, kids[parent := [c] + kids[parent]], c)
  {
    hide Linked;
    InRange(t, head, order, kids, c, parent);
    var t', kids' := ChildLinked(t, parent, c), kids[parent := [c] + kids[parent]];
    assert NextOf(t') == NextOf(t);
    assert SiblingOf(t') == SiblingOf(t)[c := t[parent].children];
    forall q: nat | q < SLOTS
      ensures KidsAt(t', q, kids'[q])
    {
      assert KidsAt(t, q, kids[q]) && c !in kids[q];
      if q == parent {
        Push(SiblingOf(t), t[parent].children, kids[parent], c);
      } else {
        LinkedFrame(SiblingOf(t), SiblingOf(t'), t[q].children, kids[q]);
      }
    }
  }

  lemma InRange(t: seq<Pcb>, head: int, order: seq<nat>, kids: seq<seq<nat>>, pending: int, i: nat)
    requires Links(t, head, order, kids, pending) && i in order
    ensures i < SLOTS && i != pending && t[i].used
  {
  }

  /** The write of process_link_global behind the last process. */
  lemma GlobalLinks(t: seq<Pcb>, head: int, order: seq<nat>, kids: seq<seq<nat>>, c: nat)
    requires Links(t, head, order, kids, c) && c < SLOTS && t[c].next == NULL
    ensures var last := order[|order| - 1];
            last < SLOTS && Links(t[last := t[last].(next := c)], head, order + [c], kids, NULL)
  {
    hide Linked;
    var last := order[|order| - 1];
    InRange(t, head, order, kids, c, last);
    var t' := t[last := t[last].(next := c)];
    assert NextOf(t') == NextOf(t)[last := c] && SiblingOf(t') == SiblingOf(t);
    Append(NextOf(t), head, order, c);
    forall q: nat | q < SLOTS
      ensures KidsAt(t', q, kids[q])
    {
      assert KidsAt(t, q, kids[q]);
    }
  }

  /** The writes of process_unlink_global when the process is at place k of the list. */
  ghost function GlobalUnlinked(t: seq<Pcb>, order: seq<nat>, k: nat): seq<Pcb>
    requires k < |order| && forall j | 0 <= j < |order| :: order[j] < |t|
  {
    var j := order[k];
    var r := if k == 0 then t else t[order[k - 1] := t[order[k - 1]].(next := t[j].next)];
    r[j := r[j].(next := NULL)]
  }

  lemma GlobalUnlinkedParts(t: seq<Pcb>, order: seq<nat>, k: nat)
    requires k < |order| && (forall j | 0 <= j < |order| :: order[j] < |t|) && Distinct(order)
    ensures var t' := GlobalUnlinked(t, order, k);
            && |t'| == |t| && SiblingOf(t') == SiblingOf(t) && NextOf(t') == Cut(NextOf(t), order, k)[order[k] := NULL]
            && forall i: nat | i < |t| :: t'[i] == t[i].(next := t'[i].next)
  {
  }

  lemma GlobalUnlinks(t: seq<Pcb>, head: int, order: seq<nat>, kids: seq<seq<nat>>, k: nat)
    requires Links(t, head, order, kids, NULL) && k < |order| && |order| > 1
    ensures forall j | 0 <= j < |order| :: order[j] < SLOTS
    ensures var start := if k == 0 then t[order[0]].next else head;
            Links(GlobalUnlinked(t, order, k), start, Drop(order, k), kids, order[k])
  {
    var j, t', r := order[k], GlobalUnlinked(t, order, k), Drop(order, k);
    var head' := if k == 0 then t[order[0]].next else head;
    hide GlobalUnlinked, RingsOk, Cut, Drop;
    GlobalUnlinkedParts(t, order, k);
    forall x
      ensures x in r <==> x in order && x != j
    {
      DropHas(order, k, x);
    }
    Unlink(NextOf(t), head, order, k);
    LinkedFrame(Cut(NextOf(t), order, k), NextOf(t'), head', r);
    hide Linked;
    UnlinkedRest(t, t', order, kids, j, r);
  }

  /** The facts about slots and children once the process j has left the list. */
  lemma UnlinkedRest(t: seq<Pcb>, t': seq<Pcb>, order: seq<nat>, kids: seq<seq<nat>>, j: nat, r: seq<nat>)
    requires |t| == |t'| == SLOTS == |kids| && j in order && j < SLOTS && SiblingOf(t') == SiblingOf(t)
    requires forall i: nat | i < SLOTS :: t'[i] == t[i].(next := t'[i].next) && RingsOk(t[i]) && Blank(t[i])
    requires forall i: nat | i < SLOTS :: t[i].used <==> i in order
    requires forall x :: x in r <==> x in order && x != j
    requires forall p: nat | p < SLOTS :: KidsAt(t, p, kids[p])
    requires forall i: nat | i < SLOTS && i !in order :: t'[i].next == t[i].next
    ensures forall i: nat | i < SLOTS :: RingsOk(t'[i]) && Blank(t'[i]) && (t'[i].used <==> i in r || i == j)
    ensures forall p: nat | p < SLOTS :: KidsAt(t', p, kids[p])
  {
  }

  /** The writes of process_unlink_child when the process is at place k of its parent's list. */
  ghost function ChildUnlinked(t: seq<Pcb>, p: nat, list: seq<nat>, k: nat): seq<Pcb>
    requires p < |t| && k < |list| && forall j | 0 <= j < |list| :: list[j] < |t|
  {
    var j := list[k];
    var r := if k == 0 then t[p := t[p].(children := t[j].nextSibling)]
             else t[list[k - 1] := t[list[k - 1]].(nextSibling := t[j].nextSibling)];
    r[j := r[j].(nextSibling := NULL, parent := NULL)]
  }

  lemma ChildUnlinkedParts(t: seq<Pcb>, p: nat, list: seq<nat>, k: nat)
    requires p < |t| && k < |list| && (forall j | 0 <= j < |list| :: list[j] < |t|) && Distinct(list) && list[k] != p
    ensures var t' := ChildUnlinked(t, p, list, k);
            && |t'| == |t| && NextOf(t') == NextOf(t) && SiblingOf(t') == Cut(SiblingOf(t), list, k)[list[k] := NULL]
            && (forall i: nat | i < |t| :: OnlyFamily(t[i], t'[i]) && (i != p && i !in list ==> t'[i] == t[i]))
            && (forall i: nat | i < |t| && i != list[k] :: t'[i].parent == t[i].parent) && t'[list[k]].parent == NULL
            && (forall i: nat | i < |t| && i != p :: t'[i].children == t[i].children)
            && t'[p].children == (if k == 0 then t[list[0]].nextSibling else t[p].children)
  {
  }

  /** Only the family links of a process in use may differ. */
  ghost predicate OnlyFamily(p: Pcb, q: Pcb) {
    q == p.(nextSibling := q.nextSibling, children := q.children, parent := q.parent)
  }

  lemma ChildUnlinks(t: seq<Pcb>, head: int, order: seq<nat>, kids: seq<seq<nat>>, pending: int, p: nat, k: nat)
    requires Links(t, head, order, kids, pending) && p in order && p < SLOTS && k < |kids[p]| && kids[p][k] != p
    ensures forall j | 0 <= j < |kids[p]| :: kids[p][j] < SLOTS
    ensures Links(ChildUnlinked(t, p, kids[p], k), head, order, kids[p := Drop(kids[p], k)], pending)
    ensures NoParentList(kids[p := Drop(kids[p], k)], kids[p][k])
  {
    hide ChildUnlinked, RingsOk, Cut, Drop;
    var list, j := kids[p], kids[p][k];
    assert KidsAt(t, p, list) && list[k] in list;
    var t', kids' := ChildUnlinked(t, p, list, k), kids[p := Drop(list, k)];
    ChildUnlinkedParts(t, p, list, k);
    forall x
      ensures x in Drop(list, k) <==> x in list && x != j
    {
      DropHas(list, k, x);
    }
    UnlinkedKids(t, t', kids, kids', p, k);
    UnlinkedFamily(t, t', order, pending, p, j);
  }

  lemma UnlinkedKids(t: seq<Pcb>, t': seq<Pcb>, kids: seq<seq<nat>>, kids': seq<seq<nat>>, p: nat, k: nat)
    requires |t| == |t'| == |kids| && p < |t| && k < |kids[p]| && kids' == kids[p := Drop(kids[p], k)]
    requires forall q: nat | q < |t| :: KidsAt(t, q, kids[q])
    requires kids[p][k] < |t| && (forall j | 0 <= j < |kids[p]| :: kids[p][j] < |t|)
    requires SiblingOf(t') == Cut(SiblingOf(t), kids[p], k)[kids[p][k] := NULL]
    requires forall i: nat | i < |t| :: OnlyFamily(t[i], t'[i])
    requires forall i: nat | i < |t| && i != kids[p][k] :: t'[i].parent == t[i].parent
    requires forall i: nat | i < |t| && i != p :: t'[i].children == t[i].children
    requires t'[p].children == if k == 0 then t[kids[p][0]].nextSibling else t[p].children
    requires forall x :: x in Drop(kids[p], k) <==> x in kids[p] && x != kids[p][k]
    ensures NoParentList(kids', kids[p][k]) && forall q: nat | q < |t| :: KidsAt(t', q, kids'[q])
  {
    var list, j := kids[p], kids[p][k];
    assert KidsAt(t, p, list) && j in list;
    Unlink(SiblingOf(t), t[p].children, list, k);
    hide Linked, Drop;
    forall q: nat | q < |t|
      ensures KidsAt(t', q, kids'[q]) && j !in kids'[q]
    {
      assert KidsAt(t, q, kids[q]);
      if q == p {
        LinkedFrame(Cut(SiblingOf(t), list, k), SiblingOf(t'), t'[p].children, Drop(list, k));
      } else {
        assert k > 0 ==> list[k - 1] in list;
        LinkedFrame(SiblingOf(t), SiblingOf(t'), t[q].children, kids[q]);
      }
    }
  }

  lemma UnlinkedFamily(t: seq<Pcb>, t': seq<Pcb>, order: seq<nat>, pending: int, p: nat, j: nat)
    requires |t| == |t'| == SLOTS && p < SLOTS && j < SLOTS && t[p].used && t[j].used
    requires forall i: nat | i < SLOTS :: OnlyFamily(t[i], t'[i]) && RingsOk(t[i]) && Blank(t[i])
    requires forall i: nat | i < SLOTS && !t[i].used :: t'[i] == t[i]
    ensures forall i: nat | i < SLOTS :: RingsOk(t'[i]) && Blank(t'[i]) && t'[i].used == t[i].used
  {
  }

  /** Clearing an unlinked slot drops its children list. */
  lemma ClearLinks(t: seq<Pcb>, head: int, order: seq<nat>, kids: seq<seq<nat>>, j: nat)
    requires Links(t, head, order, kids, j) && j < SLOTS && NoParentList(kids, j)
    ensures Links(t[j := ZEROED], head, order, kids[j := []], NULL)
  {
    hide Linked, RingsOk;
    var t', kids' := t[j := ZEROED], kids[j := []];
    ZeroedIsEmpty();
    NothingLinked(SiblingOf(t'));
    LinkedFrame(NextOf(t), NextOf(t'), head, order);
    forall q: nat | q < SLOTS
      ensures KidsAt(t', q, kids'[q])
    {
      assert KidsAt(t, q, kids[q]) && j !in kids[q];
      if q != j {
        LinkedFrame(SiblingOf(t), SiblingOf(t'), t[q].children, kids[q]);
      }
    }
  }

  lemma NothingLinked(links: seq<int>)
    ensures Linked(links, NULL, []) && ZEROED.children == NULL
  {
  }

  lemma BlankSlot(t: seq<Pcb>, head: int, order: seq<nat>, kids: seq<seq<nat>>, s: nat)
    requires Links(t, head, order, kids, NULL) && s < SLOTS && s !in order
    ensures t[s] == ZEROED && kids[s] == []
  {
  }

  /** The table after a struct q joins in slot s, as the first child of parent and behind the last process. */
  ghost function WithProcess(t: seq<Pcb>, s: nat, parent: nat, last: nat, q: Pcb): seq<Pcb>
    requires s < |t| && parent < |t| && last < |t| && parent != s
  {
    var u := ChildLinked(t[s := q], parent, s);
    u[last := u[last].(next := s)]
  }

  /** What creation does to the processes: one more, in slot s. */
  lemma CreatedProcs(t: seq<Pcb>, s: nat, parent: nat, last: nat, q: Pcb, r: seq<Pcb>)
    requires |t| == SLOTS && s < SLOTS && parent < SLOTS && last < SLOTS && parent != s && last != s
    requires r == WithProcess(t, s, parent, last, q)
    ensures |r| == SLOTS && r[s].parent == parent && forall i: nat | i < SLOTS && i != s :: r[i].parent == t[i].parent
    ensures Procs(r) == Procs(t)[s := ProcOf(q).(parent := parent)]
  {
  }

  lemma CreatedExact(t: seq<Pcb>, order: seq<nat>, kids: seq<seq<nat>>, s: nat, parent: nat, r: seq<Pcb>,
                     order': seq<nat>, kids': seq<seq<nat>>)
    requires |t| == |r| == SLOTS == |kids| && s < SLOTS && parent < SLOTS && order' == order + [s]
    requires kids' == kids[parent := [s] + kids[parent]] && r[s].parent == parent
    requires forall i: nat | i < SLOTS && i != s :: r[i].parent == t[i].parent
    requires Exact(t, order, kids)
    ensures Exact(r, order', kids')
  {
  }

  /** A struct as process_create_internal fills it in, before it is linked. */
  ghost function NewPcb(pid: nat, owner: nat, hasEntry: bool): Pcb {
    ZEROED.(used := true, pid := pid, status := Ready, owner := owner, hasEntry := hasEntry)
  }

  lemma NewStruct(parent: nat, pid: nat, owner: nat, hasEntry: bool)
    ensures var q := NewPcb(pid, owner, hasEntry);
            q.next == NULL && RingsOk(q) && ProcOf(q).(parent := parent)
                == NewProc(parent, owner, hasEntry).(pid := pid)
  {
  }

  /** The three ends of creation. */
  lemma CreateCases(m: Machine, p: Proc, memoryOk: bool)
    requires Sound(m) && p.parent in m.order
    ensures var (s, d) := (FreeSlot(m.order, 1), m.(nextPid := Wrap(m.nextPid + 1)));
            ProcessModel.Create(m, p, memoryOk) ==
            if s == SLOTS then (m, Refused)
            else if !memoryOk then (d, Refused)
            else (d.(procs := m.procs[s := p.(pid := m.nextPid)], order := m.order + [s]), Created(m.nextPid))
  {
  }

  lemma SameKids(kids: seq<seq<nat>>, s: nat, kids': seq<seq<nat>>)
    requires s < |kids| && kids[s] == [] && kids' == kids[s := []]
    ensures kids' == kids
  {
  }

  lemma AllocExact(t: seq<Pcb>, order: seq<nat>, kids: seq<seq<nat>>, s: nat, q: Pcb)
    requires s < |t| && s !in order
    ensures Exact(t, order, kids) ==> Exact(t[s := q], order, kids)
  {
  }

  /** A process is in no children list but its parent's, and a parent with a list is in use. */
  lemma OwnKids(t: seq<Pcb>, head: int, order: seq<nat>, kids: seq<seq<nat>>, j: nat)
    requires Links(t, head, order, kids, NULL) && j < SLOTS
    ensures forall q: nat | q < SLOTS && j in kids[q] :: t[j].parent == q
    ensures t[j].parent != NULL && 0 <= t[j].parent < SLOTS ==>
              var p := t[j].parent;
              && t[p].children == First(kids[p]) && Distinct(kids[p]) && (kids[p] != [] ==> p in order)
              && (j !in kids[p] ==> NoParentList(kids, j))
    ensures t[j].parent == NULL ==> NoParentList(kids, j)
  {
  }

  lemma ListDistinct(t: seq<Pcb>, head: int, order: seq<nat>, kids: seq<seq<nat>>)
    requires Links(t, head, order, kids, NULL)
    ensures Distinct(order) && forall j | 0 <= j < |order| :: order[j] < SLOTS == |t|
  {
  }

  lemma DropIsRemove(s: seq<nat>, k: nat)
    requires Distinct(s) && k < |s|
    ensures Drop(s, k) == Remove(s, s[k])
  {
  }

  lemma GlobalUnlinkedProcs(t: seq<Pcb>, order: seq<nat>, k: nat, r: seq<Pcb>)
    requires k < |order| && (forall j | 0 <= j < |order| :: order[j] < |t|) && Distinct(order)
    requires r == GlobalUnlinked(t, order, k)
    ensures Procs(r) == Procs(t)
  {
  }

  lemma OwnParent(m: Machine, t: seq<Pcb>, j: nat)
    requires Sound(m) && m.procs == Procs(t) && j < |t| == SLOTS
    ensures -1 <= t[j].parent < SLOTS && t[j].parent != j
  {
  }

  lemma LetGoChildless(m: Machine, j: nat)
    requires Sound(m)
    ensures Childless(LetGo(m), j) <==> Childless(m, j)
  {
  }

  lemma ManyListed(s: seq<nat>, j: nat)
    requires 0 in s && j in s && j != 0
    ensures |s| > 1
  {
  }

  /** Releasing a childless process keeps the children lists exact. */
  lemma ReleasedExact(m: Machine, t: seq<Pcb>, kids: seq<seq<nat>>, kids1: seq<seq<nat>>, j: nat, r: seq<Pcb>,
                      order': seq<nat>, kids': seq<seq<nat>>)
    requires Sound(m) && |t| == |r| == |kids| == |kids1| == SLOTS && j < SLOTS && kids' == kids1[j := []]
    requires m.procs == Procs(t) && Procs(r) == m.procs[j := EMPTY] && order' == Remove(m.order, j) && j !in order'
    requires forall q: nat, c | q < SLOTS && c != j :: c in kids1[q] <==> c in kids[q]
    ensures Exact(t, m.order, kids) && Childless(m, j) ==> Exact(r, order', kids')
  {
    hide Sound;
    if Exact(t, m.order, kids) && Childless(m, j) {
      forall c | c in order' && c != 0 && c < |r|
        ensures InKids(kids', r[c].parent, c)
      {
        assert c in m.order && InKids(kids, t[c].parent, c);
        assert Procs(r)[c] == Procs(t)[c];
      }
    }
  }

  lemma KidsDistinct(t: seq<Pcb>, head: int, order: seq<nat>, kids: seq<seq<nat>>, p: nat)
    requires Links(t, head, order, kids, NULL) && p < SLOTS
    ensures Distinct(kids[p])
  {
  }

  lemma KidStep(t: seq<Pcb>, head: int, order: seq<nat>, kids: seq<seq<nat>>, p: nat, k: nat)
    requires Links(t, head, order, kids, NULL) && p < SLOTS && k < |kids[p]|
    ensures kids[p][k] < SLOTS && t[kids[p][k]].nextSibling == After(kids[p], k)
  {
    assert KidsAt(t, p, kids[p]);
    assert LinkAt(SiblingOf(t), kids[p], k);
  }

  lemma UnlinkedProcs(t: seq<Pcb>, p: nat, list: seq<nat>, k: nat, r: seq<Pcb>)
    requires p < |t| && k < |list| && (forall j | 0 <= j < |list| :: list[j] < |t|) && Distinct(list) && list[k] != p
    requires r == ChildUnlinked(t, p, list, k)
    ensures |r| == |t| && Procs(r) == Procs(t)[list[k] := ProcOf(r[list[k]])]
  {
  }

  // ---- Rings ----

  lemma RingFacts(p: Pcb)
    requires RingsOk(p)
    ensures p.signals.head < |p.signals.slots| && p.signals.tail < |p.signals.slots|
    ensures p.socket.head < |p.socket.slots| && p.socket.tail < |p.socket.slots|
    ensures ProcOf(p).signals == [] <==> p.signals.head == p.signals.tail
    ensures |ProcOf(p).signals| >= SIGNAL_CAPACITY - 1 <==> Full(p.signals)
    ensures ProcOf(p).socket == [] <==> p.socket.head == p.socket.tail
    ensures |ProcOf(p).socket| >= SOCKET_CAPACITY - 1 <==> Full(p.socket)
  {
  }

  lemma PopSignal(p: Pcb)
    requires RingsOk(p) && p.signals.head != p.signals.tail
    ensures var q := p.(signals := Dequeue(p.signals));
            && RingsOk(q) && ProcOf(p).signals == [p.signals.slots[p.signals.head]] + ProcOf(q).signals
  {
    DequeueDrops(p.signals);
  }

  lemma PushSignal(p: Pcb, s: Pending)
    requires RingsOk(p) && !Full(p.signals)
    ensures var q := p.(signals := Enqueue(p.signals, s));
            RingsOk(q) && ProcOf(q).signals == ProcOf(p).signals + [s]
  {
    EnqueueAppends(p.signals, s);
  }

  lemma PopValue(p: Pcb)
    requires RingsOk(p) && p.socket.head != p.socket.tail
    ensures var q := p.(socket := Dequeue(p.socket));
            && RingsOk(q) && ProcOf(p).socket == [p.socket.slots[p.socket.head]] + ProcOf(q).socket
  {
    DequeueDrops(p.socket);
  }

  lemma PushValue(p: Pcb, x: nat)
    requires RingsOk(p) && !Full(p.socket)
    ensures var q := p.(socket := Enqueue(p.socket, x));
            RingsOk(q) && ProcOf(q).socket == ProcOf(p).socket + [x]
  {
    EnqueueAppends(p.socket, x);
  }

  lemma NoSignals(m: Machine, i: nat)
    requires Sound(m) && i < SLOTS
    ensures m.procs[i].signals == [] ==> Deliver(m, i) == m
  {
  }

  lemma PutSound(m: Machine, i: nat, p: Proc)
    requires Sound(m) && i < SLOTS && p.parent == m.procs[i].parent && p.hasEntry == m.procs[i].hasEntry
    requires i == 0 ==> p.status == m.procs[0].status
    ensures Sound(Put(m, i, p))
  {
  }

  lemma ParentSlot(m: Machine, i: nat)
    requires Sound(m) && i < SLOTS
    ensures -1 <= m.procs[i].parent < SLOTS && m.procs[i].parent != i
  {
  }

  class Table {
    const table: array<Pcb>
    var head: int
    var cursor: nat
    var current: nat
    var nextPid: nat
    ghost var order: seq<nat>
    ghost var kids: seq<seq<nat>>
    ghost var pending: int

    ghost predicate LinksOk()
      reads this`head, this`order, this`kids, this`pending, table
    {
      Links(table[..], head, order, kids, pending)
    }

    ghost function View(): Machine
      reads this`order, this`cursor, this`current, this`nextPid, table
    {
      Machine(Procs(table[..]), order, cursor, current, nextPid)
    }

    /** The table between two operations. */
    ghost predicate Usable()
      reads this`head, this`order, this`kids, this`pending, this`cursor, this`current, this`nextPid, table
    {
      LinksOk() && pending == NULL && Sound(View())
    }

    /** Every children list is exactly the processes that name its owner as their parent. */
    ghost predicate KidsExact()
      reads this`order, this`kids, table
    {
      Exact(table[..], order, kids)
    }

    /** process_init. */
    constructor ()
      ensures fresh(table) && Usable() && View() == Booted() && KidsExact()
    {
      hide Links, RingsOk;
      var zeroed := ZEROED;
      var kernel := ZEROED.(used := true, pid := 1, status := Thread);
      table := new Pcb[SLOTS](i => if i == 0 then kernel else zeroed);
      head, cursor, current, nextPid := 0, 0, 0, 2;
      order, kids, pending := [0], seq(SLOTS, i => []), NULL;
      new;
      InitLinks(table[..], kids);
      assert View().procs == Booted().procs;
      assert View() == Booted();
    }

    /** One struct changes in fields other than its links. */
    method Update(i: nat, p: Pcb)
      requires LinksOk() && i < SLOTS && table[i].used && SameLinks(table[i], p) && RingsOk(p)
      modifies table
      ensures LinksOk() && table[..] == old(table[..])[i := p] && View() == Put(old(View()), i, ProcOf(p))
      ensures old(KidsExact()) ==> KidsExact()
    {
      KeepLinks(table[..], head, order, kids, pending, i, p);
      ProcsPut(table[..], i, p);
      table[i] := p;
      assert table[..] == old(table[..])[i := p];
    }

    /** What the links say about one slot. */
    lemma Slot(i: nat)
      requires LinksOk() && pending == NULL && i < SLOTS
      ensures table.Length == SLOTS && RingsOk(table[i]) && View().procs[i] == ProcOf(table[i])
      ensures table[i].used <==> i in order
      ensures table[i].status == Waiting ==> table[i].used
    {
    }

    lemma ListStart()
      requires LinksOk()
      ensures order != [] && head == order[0]
    {
    }

    /** What the links say about one place of the list. */
    lemma Step(k: nat)
      requires LinksOk() && k < |order|
      ensures order[k] in order && order[k] < table.Length == SLOTS && table[order[k]].next == After(order, k)
    {
      assert LinkAt(NextOf(table[..]), order, k);
    }

    /** process_get_by_pid. */
    method GetByPid(pid: nat) returns (r: int)
      requires Usable()
      ensures r == Find(View(), pid)
    {
      hide Links, Procs, RingsOk, Sound;
      r := head;
      ghost var k := 0;
      ListStart();
      while r != NULL
        invariant k <= |order| && r == (if k < |order| then order[k] else NULL)
        invariant FindFrom(View(), pid, k) == Find(View(), pid)
        decreases |order| - k
      {
        Step(k);
        Slot(r);
        if table[r].used && table[r].pid == pid {
          return;
        }
        r := table[r].next;
        k := k + 1;
      }
    }

    /** process_exit. */
    method Exit(i: nat, code: int)
      requires Usable() && i in order
      modifies table
      ensures Usable() && View() == Terminate(old(View()), i, code)
      ensures old(KidsExact()) ==> KidsExact()
    {
      hide Links, RingsOk, Procs, Sound, KidsExact, Contents, Ok;
      Slot(i);
      ParentSlot(View(), i);
      if i == 0 || table[i].status == Zombie {
        return;
      }
      Update(i, table[i].(exitCode := code, status := Zombie));
      var parent := table[i].parent;
      if parent != NULL {
        Slot(parent);
        if table[parent].status == Waiting && (table[parent].waitTarget == 0
            || table[parent].waitTarget == table[i].pid) {
          Update(parent, table[parent].(status := Ready));
        }
      }
      assert View() == Terminate(old(View()), i, code);
    }

    /** One turn of the loop of deliver_process_signal, with the default handler. */
    method HandleOne(i: nat)
      requires Usable() && i in order && table[i].signals.head != table[i].signals.tail
      modifies table
      ensures old(View()).procs[i].signals != [] && View() == HandleSignal(old(View()), i) && Usable()
      ensures old(KidsExact()) ==> KidsExact()
    {
      hide Links, RingsOk, Procs, Sound, KidsExact, Contents, Ok, Terminate;
      Slot(i);
      RingFacts(table[i]);
      PopSignal(table[i]);
      ghost var m, p := View(), View().procs[i];
      var s := table[i].signals.slots[table[i].signals.head];
      Update(i, table[i].(signals := Dequeue(table[i].signals), lastSignal := Wrap(s.signal),
          lastSignalValue := s.value));
      ghost var d := Put(m, i, p.(signals := p.signals[1..], lastSignal := Wrap(s.signal), lastSignalValue := s.value));
      assert s == p.signals[0] && View() == d;
      PutSound(m, i, d.procs[i]);
      if s.signal == SIGNAL_TERM || s.signal == SIGNAL_KILL {
        Exit(i, 128 + s.signal);
      }
      assert View() == HandleSignal(m, i);
    }

    /** deliver_process_signal. */
    method Deliver(i: nat) returns (delivered: nat)
      requires Usable() && i in order
      modifies table
      ensures View() == ProcessModel.Deliver(old(View()), i) && Usable()
      ensures delivered == |old(View()).procs[i].signals| - |View().procs[i].signals|
      ensures old(KidsExact()) ==> KidsExact()
    {
      hide Links, RingsOk, Procs, Sound, KidsExact, Contents, Ok, HandleSignal;
      delivered := 0;
      ghost var m := View();
      Slot(i);
      RingFacts(table[i]);
      while table[i].signals.head != table[i].signals.tail
        invariant Usable() && i < table.Length && ProcessModel.Deliver(View(), i) == ProcessModel.Deliver(m, i)
        invariant old(KidsExact()) ==> KidsExact()
        invariant table[i].signals.head == table[i].signals.tail <==> View().procs[i].signals == []
        invariant delivered == |m.procs[i].signals| - |View().procs[i].signals|
        decreases |View().procs[i].signals|
      {
        ghost var d := View();
        HandleOne(i);
        Slot(i);
        RingFacts(table[i]);
        delivered := delivered + 1;
        if table[i].status == Zombie {
          break;
        }
      }
    }

    /** process_deliver_all_pending_signals. */
    method DeliverAll()
      requires Usable()
      modifies table
      ensures View() == ProcessModel.DeliverAll(old(View())) && Usable()
      ensures old(KidsExact()) ==> KidsExact()
    {
      hide Links, RingsOk, Procs, Sound, KidsExact, Contents, Ok, ProcessModel.Deliver;
      ghost var m := View();
      var p := head;
      ghost var k := 0;
      ListStart();
      while p != NULL
        invariant Usable() && k <= |order| && p == (if k < |order| then order[k] else NULL)
        invariant View().order == m.order && DeliverFrom(View(), k) == DeliverFrom(m, 0)
        invariant old(KidsExact()) ==> KidsExact()
        decreases |order| - k
      {
        Step(k);
        Slot(p);
        RingFacts(table[p]);
        NoSignals(View(), p);
        if table[p].used && table[p].signals.head != table[p].signals.tail {
          var delivered := Deliver(p);
        }
        Step(k);
        p := table[p].next;
        k := k + 1;
      }
    }

    /** queue_process_signal. */
    method Queue(j: nat, s: Pending) returns (ok: bool)
      requires Usable() && j in order
      modifies table
      ensures (View(), if ok then Done else Refused) == ProcessModel.Queue(old(View()), j, s) && Usable()
      ensures old(KidsExact()) ==> KidsExact()
    {
      hide Links, RingsOk, Procs, Sound, KidsExact, Contents, Ok, Full, Enqueue;
      Slot(j);
      RingFacts(table[j]);
      if Full(table[j].signals) {
        return false;
      }
      PushSignal(table[j], s);
      Update(j, table[j].(signals := Enqueue(table[j].signals, s)));
      ok := true;
      assert View() == ProcessModel.Queue(old(View()), j, s).0;
    }

    /** send_signal_to_process by the current process. */
    method SendSignal(pid: nat, s: Pending) returns (ok: bool)
      requires Usable()
      modifies table
      ensures (View(), if ok then Done else Refused) == ProcessModel.SendSignal(old(View()), pid, s) && Usable()
      ensures old(KidsExact()) ==> KidsExact()
    {
      hide Links, RingsOk, Procs, Sound, KidsExact, Find, ProcessModel.Queue;
      var j := GetByPid(pid);
      if j == NULL {
        return false;
      }
      Slot(j);
      Slot(current);
      if !(table[current].owner == 0 || current == j || table[current].owner == table[j].owner) {
        return false;
      }
      ok := Queue(j, s);
    }

    /** socket_send. */
    method SocketSend(pid: nat, value: nat) returns (ok: bool)
      requires Usable()
      modifies table
      ensures (View(), if ok then Done else Refused) == ProcessModel.SocketSend(old(View()), pid, value) && Usable()
      ensures old(KidsExact()) ==> KidsExact()
    {
      hide Links, RingsOk, Procs, Sound, KidsExact, Find, ProcessModel.Queue, Contents, Ok, Full, Enqueue;
      var j := GetByPid(pid);
      if j == NULL {
        return false;
      }
      Slot(j);
      RingFacts(table[j]);
      if Full(table[j].socket) {
        return false;
      }
      PushValue(table[j], value);
      ghost var m, p := View(), View().procs[j];
      Update(j, table[j].(socket := Enqueue(table[j].socket, value)));
      PutSound(m, j, p.(socket := p.socket + [value]));
      assert View() == Put(m, j, p.(socket := p.socket + [value]));
      ok := Queue(j, Pending(SIGNAL_SOCKET, value));
    }

    /** socket_recv by the current process. */
    method SocketReceive() returns (value: Option<nat>)
      requires Usable()
      modifies table
      ensures (View(), if value == None then Refused else Received(value.value))
              == ProcessModel.SocketReceive(old(View()))
      ensures Usable() && (old(KidsExact()) ==> KidsExact())
    {
      hide Links, RingsOk, Procs, Sound, KidsExact, Contents, Ok;
      Slot(current);
      RingFacts(table[current]);
      var p := table[current];
      if p.socket.head == p.socket.tail {
        return None;
      }
      PopValue(p);
      value := Some(p.socket.slots[p.socket.head]);
      Update(current, p.(socket := Dequeue(p.socket), lastSocketValue := value.value));
      assert View() == ProcessModel.SocketReceive(old(View())).0;
    }

    /** process_signal_pending_count and process_socket_pending_count are the lengths of the queues. */
    method PendingCounts(i: nat) returns (signals: nat, values: nat)
      requires Usable() && i in order
      ensures signals == |View().procs[i].signals| && values == |View().procs[i].socket|
    {
      Slot(i);
      signals, values := Count(table[i].signals), Count(table[i].socket);
    }

    // ---- Creation ----

    /** The search of process_allocate_slot. */
    method FindFreeSlot() returns (s: nat)
      requires Usable()
      ensures s == FreeSlot(order, 1)
    {
      hide Links, Sound, Procs;
      s := 1;
      while s < SLOTS
        invariant 1 <= s <= SLOTS && FreeSlot(order, s) == FreeSlot(order, 1)
      {
        Slot(s);
        if !table[s].used {
          return;
        }
        s := s + 1;
      }
    }

    /** process_allocate_slot: the lowest free slot is zeroed and marked used, or SLOTS if there is none. */
    method AllocateSlot() returns (s: nat)
      requires Usable()
      modifies table, this`pending
      ensures s == FreeSlot(order, 1) && LinksOk()
      ensures s == SLOTS ==> pending == NULL && table[..] == old(table[..])
      ensures s < SLOTS ==>
                pending == s && NoParentList(kids, s) && table[..] == old(table[..])[s := ZEROED.(used := true)]
    {
      hide Links, Sound, Procs;
      s := FindFreeSlot();
      if s < SLOTS {
        Slot(s);
        AllocLinks(table[..], head, order, kids, s);
        table[s] := ZEROED.(used := true);
        pending := s;
        assert table[..] == old(table[..])[s := ZEROED.(used := true)];
      }
    }

    /** process_link_child, for an allocated slot. */
    method LinkChild(parent: nat, c: nat)
      requires LinksOk() && pending == c < SLOTS && parent in order && NoParentList(kids, c)
      modifies table, this`kids
      ensures LinksOk() && parent < SLOTS && parent != c && table[..] == ChildLinked(old(table[..]), parent, c)
      ensures kids == old(kids)[parent := [c] + old(kids)[parent]] && table[c].next == old(table[c].next)
    {
      hide Links;
      ChildLinks(table[..], head, order, kids, parent, c);
      Sizes();
      table[c] := table[c].(parent := parent, nextSibling := NULL);
      if table[parent].children == NULL {
        table[parent] := table[parent].(children := c);
      } else {
        table[c] := table[c].(nextSibling := table[parent].children);
        table[parent] := table[parent].(children := c);
      }
      kids := kids[parent := [c] + kids[parent]];
      assert table[..] == ChildLinked(old(table[..]), parent, c);
    }

    lemma Sizes()
      requires LinksOk()
      ensures table.Length == SLOTS == |kids|
    {
    }

    /** process_link_global, for an allocated slot. */
    method LinkGlobal(c: nat)
      requires LinksOk() && pending == c < SLOTS && table[c].next == NULL
      modifies table, this`order, this`pending
      ensures LinksOk() && pending == NULL && order == old(order) + [c]
      ensures var last := old(order)[|old(order)| - 1];
              last < SLOTS && last != c && table[..] == old(table[..])[last := old(table[..])[last].(next := c)]
    {
      hide Links;
      Sizes();
      GlobalLinks(table[..], head, order, kids, c);
      ListStart();
      var tail := head;
      ghost var k := 0;
      Step(0);
      while table[tail].next != NULL
        invariant LinksOk() && k < |order| && tail == order[k] && 0 <= tail < SLOTS
                  && table[tail].next == After(order, k)
        decreases |order| - k
        modifies {}
      {
        tail := table[tail].next;
        k := k + 1;
        Step(k);
      }
      assert k == |order| - 1;
      InRange(table[..], head, order, kids, pending, tail);
      table[tail] := table[tail].(next := c);
      assert table[..] == old(table[..])[tail := old(table[..])[tail].(next := c)];
      order := order + [c];
      pending := NULL;
    }

    /** Back to zero: a slot that is in no list. */
    method Clear(j: nat)
      requires LinksOk() && pending == j < SLOTS && NoParentList(kids, j)
      modifies table, this`kids, this`pending
      ensures LinksOk() && pending == NULL && table[..] == old(table[..])[j := ZEROED] && kids == old(kids)[j := []]
    {
      hide Links;
      Sizes();
      ClearLinks(table[..], head, order, kids, j);
      table[j] := ZEROED;
      kids := kids[j := []];
      pending := NULL;
      assert table[..] == old(table[..])[j := ZEROED];
    }

    /** The linking part of process_create_internal. */
    method Admit(parent: nat, s: nat)
      requires LinksOk() && pending == s < SLOTS && parent in order && NoParentList(kids, s) && table[s].next == NULL
      modifies table, this`order, this`kids, this`pending
      ensures LinksOk() && pending == NULL && order == old(order) + [s] && parent < SLOTS
      ensures Procs(table[..]) == Procs(old(table[..]))[s := ProcOf(old(table[s])).(parent := parent)]
      ensures old(KidsExact()) ==> KidsExact()
    {
      hide Links, RingsOk, Procs, Exact, ProcOf, ChildLinked;
      ghost var t, order0, kids0 := table[..], order, kids;
      Sizes();
      LinkChild(parent, s);
      ghost var u := table[..];
      LinkGlobal(s);
      ghost var last := order0[|order0| - 1];
      assert t[s := t[s]] == t;
      assert table[..] == WithProcess(t, s, parent, last, t[s]);
      CreatedProcs(t, s, parent, last, t[s], table[..]);
      if Exact(t, order0, kids0) {
        CreatedExact(t, order0, kids0, s, parent, table[..], order, kids);
      }
    }

    /** The first part of process_create_internal: a slot with its next pid, in no list yet. */
    method Reserve(owner: nat, hasEntry: bool) returns (s: nat)
      requires Usable()
      modifies table, this`nextPid, this`pending
      ensures s == FreeSlot(order, 1) && LinksOk()
      ensures s == SLOTS ==> pending == NULL && table[..] == old(table[..]) && nextPid == old(nextPid)
      ensures s < SLOTS ==>
                && pending == s && NoParentList(kids, s) && nextPid == Wrap(old(nextPid) + 1)
                && old(table[..]) == old(table[..])[s := ZEROED] && kids[s] == []
                && table[..] == old(table[..])[s := NewPcb(old(nextPid), owner, hasEntry)]
      ensures s < SLOTS && old(KidsExact()) ==> KidsExact()
    {
      hide Links, Sound, RingsOk, Procs, Exact, ProcOf, FreeSlot, NoParentList;
      ghost var t := table[..];
      s := AllocateSlot();
      if s == SLOTS {
        return;
      }
      BlankSlot(t, head, order, kids, s);
      Sizes();
      var pid := nextPid;
      nextPid := Wrap(nextPid + 1);
      NewStruct(0, pid, owner, hasEntry);
      Update(s, table[s].(pid := pid, status := Ready, owner := owner, hasEntry := hasEntry));
      AllocExact(t, order, kids, s, table[s]);
    }

    /** process_create_internal, where memoryOk is whether process_memory_map succeeds. */
    method Create(parent: nat, owner: nat, hasEntry: bool, memoryOk: bool) returns (a: Answer, child: int)
      requires Usable() && parent in order
      modifies table, this`nextPid, this`order, this`kids, this`pending
      ensures (View(), a) == ProcessModel.Create(old(View()), NewProc(parent, owner, hasEntry), memoryOk) && Usable()
      ensures if a.Created? then child == FreeSlot(old(order), 1) < SLOTS else child == NULL
      ensures old(KidsExact()) ==> KidsExact()
    {
      hide Links, Sound, RingsOk, Procs, Exact, ProcOf, NewPcb, FreeSlot, ProcessModel.Create;
      ghost var m, t, kids0 := View(), table[..], kids;
      CreateCases(m, NewProc(parent, owner, hasEntry), memoryOk);
      var pid := nextPid;
      var s := Reserve(owner, hasEntry);
      if s == SLOTS {
        return Refused, NULL;
      }
      if !memoryOk {
        Sizes();
        Clear(s);
        SameKids(kids0, s, kids);
        assert table[..] == t;
        return Refused, NULL;
      }
      NewStruct(parent, m.nextPid, owner, hasEntry);
      ProcsPut(t, s, NewPcb(m.nextPid, owner, hasEntry));
      Sizes();
      Admit(parent, s);
      assert View().procs == m.procs[s := NewProc(parent, owner, hasEntry).(pid := pid)];
      a, child := Created(pid), s;
    }

    /** fork_process. */
    method Fork(i: int, memoryOk: bool) returns (a: Answer)
      requires Usable() && (i == NULL || i in order)
      modifies table, this`nextPid, this`order, this`kids, this`pending
      ensures (View(), a) == ProcessModel.Fork(old(View()), i, memoryOk) && Usable()
      ensures old(KidsExact()) ==> KidsExact()
    {
      hide Links, Sound, RingsOk, Procs, Exact, Contents, Ok, FreeSlot, ProcessModel.Create;
      if i == NULL || i == 0 {
        return Refused;
      }
      Slot(i);
      if !table[i].hasEntry {
        return Refused;
      }
      ghost var m := View();
      var p := table[i];
      ghost var child := NewProc(i, p.owner, true);
      CreateCases(m, child, memoryOk);
      CreateCases(m, child.(lastSignal := p.lastSignal, lastSignalValue := p.lastSignalValue), memoryOk);
      var c;
      a, c := Create(i, p.owner, true, memoryOk);
      if c != NULL {
        Slot(c);
        Update(c, table[c].(lastSignal := p.lastSignal, lastSignalValue := p.lastSignalValue, status := Ready));
        assert View() == ProcessModel.Fork(m, i, memoryOk).0;
      }
    }

    // ---- Collection ----

    /** The writes of process_unlink_child once its walk has found the process. */
    method CutChild(j: nat, p: nat, previous: int, ghost k: nat)
      requires LinksOk() && pending == NULL && p in order && p < SLOTS == |kids| && k < |kids[p]|
               && kids[p][k] == j != p
      requires j < SLOTS && previous == (if k > 0 then kids[p][k - 1] else NULL)
      modifies table, this`kids
      ensures LinksOk() && NoParentList(kids, j) && |kids| == SLOTS == table.Length
      ensures Procs(table[..]) == Procs(old(table[..]))[j := ProcOf(table[j])]
      ensures forall q: nat, c | q < SLOTS && c != j :: c in kids[q] <==> c in old(kids)[q]
    {
      hide Links, Procs, ProcOf, Drop;
      Sizes();
      ghost var t, list := table[..], kids[p];
      OwnKids(t, head, order, kids, j);
      ChildUnlinks(t, head, order, kids, NULL, p, k);
      KidsDistinct(t, head, order, kids, p);
      if previous == NULL {
        table[p] := table[p].(children := table[j].nextSibling);
      } else {
        table[previous] := table[previous].(nextSibling := table[j].nextSibling);
      }
      table[j] := table[j].(nextSibling := NULL, parent := NULL);
      assert table[..] == ChildUnlinked(t, p, list, k);
      hide ChildUnlinked;
      UnlinkedProcs(t, p, list, k, table[..]);
      kids := kids[p := Drop(list, k)];
      forall c
        ensures c in Drop(list, k) <==> c in list && c != j
      {
        DropHas(list, k, c);
      }
    }

    /** process_unlink_child: the process leaves its parent's list, if it is in it; no other child moves. */
    method UnlinkChild(j: nat)
      requires LinksOk() && pending == NULL && j in order && j < SLOTS
      requires -1 <= table[j].parent < SLOTS && table[j].parent != j
      modifies table, this`kids
      ensures LinksOk() && NoParentList(kids, j) && |kids| == SLOTS == table.Length
      ensures Procs(table[..]) == Procs(old(table[..]))[j := ProcOf(table[j])]
      ensures forall q: nat, c | q < SLOTS && c != j :: c in kids[q] <==> c in old(kids)[q]
    {
      hide Links, RingsOk, Procs, Contents, Ok, ChildUnlinked, Drop;
      Sizes();
      ghost var t := table[..];
      ProcsPut(t, j, t[j]);
      assert t[j := t[j]] == t;
      var p := table[j].parent;
      OwnKids(t, head, order, kids, j);
      if p == NULL {
        return;
      }
      ghost var list := kids[p];
      var cursor := table[p].children;
      var previous := NULL;
      ghost var k := 0;
      while cursor != NULL
        invariant k <= |list| && cursor == (if k < |list| then list[k] else NULL)
        invariant previous == (if k > 0 then list[k - 1] else NULL)
        invariant (forall i | 0 <= i < k :: list[i] != j) && table[..] == t && kids == old(kids)
        decreases |list| - k
      {
        KidStep(t, head, order, kids, p, k);
        if cursor == j {
          CutChild(j, p, previous, k);
          return;
        }
        previous := cursor;
        cursor := table[cursor].nextSibling;
        k := k + 1;
      }
      assert j !in list;
    }

    /** The writes of process_unlink_global once its walk has found the process. */
    method CutGlobal(j: nat, previous: int, ghost k: nat)
      requires LinksOk() && pending == NULL && k < |order| && |order| > 1 && order[k] == j < SLOTS
      requires previous == (if k > 0 then order[k - 1] else NULL)
      modifies table, this`head, this`order, this`pending
      ensures LinksOk() && pending == j && order == Remove(old(order), j) && j !in order
      ensures Procs(table[..]) == Procs(old(table[..]))
    {
      hide Links, Procs, ProcOf, Drop, Remove;
      Sizes();
      ListStart();
      ghost var t := table[..];
      GlobalUnlinks(t, head, order, kids, k);
      ListDistinct(t, head, order, kids);
      DropIsRemove(order, k);
      if previous == NULL {
        head := table[j].next;
      } else {
        table[previous] := table[previous].(next := table[j].next);
      }
      table[j] := table[j].(next := NULL);
      assert table[..] == GlobalUnlinked(t, order, k);
      GlobalUnlinkedProcs(t, order, k, table[..]);
      DropHas(order, k, j);
      order := Drop(order, k);
      pending := j;
    }

    /** process_unlink_global: the process leaves the list; one that is not in the list changes nothing. */
    method UnlinkGlobal(j: nat)
      requires LinksOk() && pending == NULL && (j in order ==> |order| > 1)
      modifies table, this`head, this`order, this`pending
      ensures j in old(order) ==> LinksOk() && pending == j && order == Remove(old(order), j) && j !in order
      ensures j !in old(order) ==> LinksOk() && pending == NULL && order == old(order) && table[..] == old(table[..])
      ensures Procs(table[..]) == Procs(old(table[..]))
    {
      hide Links, Procs, ProcOf, GlobalUnlinked;
      Sizes();
      ghost var t := table[..];
      ListStart();
      var walk := head;
      var previous := NULL;
      ghost var k := 0;
      Step(0);
      while walk != NULL && walk != j
        invariant k <= |order| && walk == (if k < |order| then order[k] else NULL)
        invariant walk != NULL ==> 0 <= walk < SLOTS
        invariant previous == (if k > 0 then order[k - 1] else NULL)
        invariant forall i | 0 <= i < k :: order[i] != j
        invariant table[..] == t && order == old(order) && pending == NULL && LinksOk()
        decreases |order| - k
      {
        Step(k);
        previous := walk;
        walk := table[walk].next;
        k := k + 1;
        if k < |order| {
          Step(k);
        }
      }
      if walk != NULL {
        CutGlobal(j, previous, k);
      }
    }

    /** process_release of a listed process that is neither the kernel nor the caller. */
    method Release(j: nat)
      requires Usable() && j in order && j != 0 && j != current
      modifies table, this`head, this`order, this`kids, this`pending, this`cursor
      ensures View() == ProcessModel.Release(old(View()), j) && Usable()
      ensures old(KidsExact()) && Childless(old(View()), j) ==> KidsExact()
    {
      hide Links, Sound, RingsOk, Procs, ProcOf, NoParentList, Remove;
      ghost var m, t, kids0 := View(), table[..], kids;
      Sizes();
      ListStart();
      Slot(j);
      OwnParent(m, t, j);
      if cursor == j {
        cursor := head;
      }
      UnlinkChild(j);
      ghost var kids1 := kids;
      ManyListed(order, j);
      UnlinkGlobal(j);
      ZeroedIsEmpty();
      ProcsPut(table[..], j, ZEROED);
      Clear(j);
      assert View() == ProcessModel.Release(m, j);
      ReleasedExact(m, t, kids0, kids1, j, table[..], order, kids);
    }

    /** process_wait by the current process. */
    method Wait(pid: nat) returns (a: Answer)
      requires Usable()
      modifies table, this`head, this`order, this`kids, this`pending, this`cursor
      ensures (View(), a) == ProcessModel.Wait(old(View()), pid) && Usable()
      ensures old(KidsExact()) && (a.Collected? ==> Childless(old(View()), Find(old(View()), pid))) ==> KidsExact()
    {
      hide Links, Sound, RingsOk, Procs, Contents, Ok, KidsExact, Find, ProcessModel.Release, Childless;
      ghost var m := View();
      var j := GetByPid(pid);
      Slot(current);
      if j == NULL {
        return Refused;
      }
      Slot(j);
      if current != 0 && table[j].parent != current {
        return Refused;
      }
      if table[j].status != Zombie {
        Update(current, table[current].(waitTarget := pid));
        if current != 0 {
          Update(current, table[current].(status := Waiting));
        }
        assert View() == ProcessModel.Wait(m, pid).0;
        return Waits;
      }
      a := Collected(pid, table[j].exitCode);
      if table[current].status == Waiting {
        Update(current, table[current].(status := Thread));
      }
      CollectFrame(m, pid);
      assert View() == LetGo(m);
      LetGoChildless(m, j);
      Release(j);
    }

    // ---- Scheduler ----

    /** The process after x in the circular list, when x is the cursor or a candidate. */
    lemma NextCandidate(d: nat, x: nat)
      requires Usable() && 1 <= d <= |order| && x == (if d == 1 then cursor else Candidate(View(), d - 1))
      ensures x < SLOTS == table.Length
      ensures (if table[x].next != NULL then table[x].next else head) == Candidate(View(), d)
    {
      hide Links, Sound, Procs;
      ListStart();
      var a := IndexOf(order, cursor);
      var k := if a + d - 1 < |order| then a + d - 1 else a + d - 1 - |order|;
      assert x == order[k];
      Step(k);
    }

    /** The next process of the circular list, and whether the scheduler may pick it. */
    method Look(x: nat, ghost d: nat) returns (candidate: nat, runnable: bool)
      requires Usable() && 1 <= d <= |order| && x == (if d == 1 then cursor else Candidate(View(), d - 1))
      ensures candidate == Candidate(View(), d) && (runnable <==> View().procs[candidate].Runnable())
    {
      hide Links, Sound, Procs, Candidate;
      NextCandidate(d, x);
      candidate := if table[x].next != NULL then table[x].next else head;
      Slot(candidate);
      var p := table[candidate];
      runnable := p.used && p.hasEntry && (p.status == Ready || p.status == Thread || p.status == Run);
    }

    /** pick_next_process. */
    method PickNext() returns (r: int)
      requires Usable()
      ensures r == Pick(View())
    {
      hide Links, Sound, Procs, Candidate, PickFrom;
      ListDistinct(table[..], head, order, kids);
      var candidate := cursor;
      ghost var d := 1;
      while true
        invariant 1 <= d <= |order| && candidate == (if d == 1 then cursor else Candidate(View(), d - 1))
        invariant PickFrom(View(), d) == Pick(View())
        decreases |order| - d
      {
        var runnable;
        candidate, runnable := Look(candidate, d);
        PickStep(View(), d);
        LastCandidate(View(), d);
        if runnable {
          return candidate;
        }
        if candidate == cursor {
          return NULL;
        }
        d := d + 1;
      }
    }

    /** A call made by the current process. */
    method Perform(c: Call) returns (a: Answer)
      requires Usable()
      modifies table, this`head, this`order, this`kids, this`pending, this`cursor, this`nextPid
      ensures (View(), a) == ProcessModel.Perform(old(View()), c) && Usable()
      ensures old(KidsExact()) && Allowed(old(View()), c, Rules(true, false)) ==> KidsExact()
    {
      hide Links, Sound, RingsOk, Procs, KidsExact, Find, ProcessModel.Wait, ProcessModel.Create, Terminate, Childless;
      match c {
        case CreateCall(owner, hasEntry, memoryOk) =>
          var child;
          a, child := Create(current, owner, hasEntry, memoryOk);
        case ForkCall(pid, memoryOk) =>
          var source: int := current;
          if pid != 0 {
            source := GetByPid(pid);
          }
          a := Fork(source, memoryOk);
        case WaitCall(pid) => a := Wait(pid);
        case ExitCall(code) =>
          Exit(current, code);
          a := Done;
        case SignalCall(pid, pending) =>
          var ok := SendSignal(pid, pending);
          a := if ok then Done else Refused;
        case SendCall(pid, value) =>
          var ok := SocketSend(pid, value);
          a := if ok then Done else Refused;
        case ReceiveCall =>
          var value := SocketReceive();
          a := if value == None then Refused else Received(value.value);
      }
    }

    /** The calls a process makes between two context switches. */
    method PerformAll(cs: seq<Call>) returns (log: seq<Answer>)
      requires Usable()
      modifies table, this`head, this`order, this`kids, this`pending, this`cursor, this`nextPid
      ensures (View(), log) == ProcessModel.PerformAll(old(View()), cs) && Usable()
      ensures old(KidsExact()) && AllowedCalls(old(View()), cs, Rules(true, false)) ==> KidsExact()
    {
      hide Links, Sound, KidsExact, ProcessModel.Perform, ProcessModel.PerformAll, Allowed, AllowedCalls, Procs;
      ghost var m := View();
      log := [];
      var i := 0;
      PerformStart(m, cs);
      while i < |cs|
        invariant i <= |cs| && Usable() && PerformedSoFar(m, cs, i, View(), log)
        invariant old(KidsExact()) && AllowedCalls(m, cs, Rules(true, false)) ==>
                    KidsExact() && AllowedCalls(View(), cs[i..], Rules(true, false))
      {
        PerformStep(m, cs, i, View(), log);
        var a := Perform(cs[i]);
        log := log + [a];
        i := i + 1;
      }
      PerformEnd(m, cs, View(), log);
    }

    /** One tick of scheduler_run_pending: signals, then schedule_next_process, in which the picked process makes the
        calls in body. */
    method Tick(body: seq<Call>) returns (log: seq<Answer>)
      requires Usable()
      modifies table, this`head, this`order, this`kids, this`pending, this`cursor, this`nextPid, this`current
      ensures (View(), log) == ProcessModel.Tick(old(View()), body) && Usable()
      ensures old(KidsExact()) && AllowedCalls(Started(old(View())), body, Rules(true, false)) ==> KidsExact()
    {
      hide Links, Sound, KidsExact, Procs, ProcessModel.PerformAll, DeliverFrom, ProcessModel.Deliver, PickFrom,
           AllowedCalls;
      ghost var m := View();
      DeliverAll();
      var p := PickNext();
      log := [];
      if p == NULL {
        return;
      }
      PickListed(View());
      Dispatch(p);
      Slot(p);
      if table[p].status == Run {
        log := PerformAll(body);
      }
      Settle();
    }

    /** Any run of kernel calls and ticks does to the linked table what the model's run does to the machine; if everyone
        collected is childless then, each children list stays exactly the processes naming its owner as their parent. */
    method RunEvents(es: seq<Event>) returns (log: seq<Answer>)
      requires Usable()
      modifies table, this`head, this`order, this`kids, this`pending, this`cursor, this`nextPid, this`current
      ensures (View(), log) == RunAll(old(View()), es) && Usable()
      ensures old(KidsExact()) && AllowedRun(old(View()), es, Rules(true, false)) ==> KidsExact()
    {
      hide Links, Sound, KidsExact, ProcessModel.Perform, ProcessModel.Tick, RunAll, Allowed, AllowedRun, Procs,
           AllowedCalls;
      ghost var m, rules := View(), Rules(true, false);
      log := [];
      var i := 0;
      RunStart(m, es);
      while i < |es|
        invariant i <= |es| && Usable() && RanSoFar(m, es, i, View(), log)
        invariant old(KidsExact()) && AllowedRun(m, es, rules) ==> KidsExact() && AllowedRun(View(), es[i..], rules)
      {
        RunStep(m, es, i, View(), log, rules);
        match es[i] {
          case KernelCall(call) =>
            var a := Perform(call);
            log := log + [a];
          case TickEvent(body) =>
            var answers := Tick(body);
            log := log + answers;
        }
        i := i + 1;
      }
      RunEnd(m, es, View(), log);
    }

    /** schedule_next_process up to the context switch. */
    method Dispatch(p: nat)
      requires Usable() && p in order && p != 0
      modifies table, this`cursor, this`current
      ensures View() == ProcessModel.Dispatch(old(View()), p) && Usable()
      ensures old(KidsExact()) ==> KidsExact()
    {
      hide Links, Procs, KidsExact, Contents, Ok, RingsOk, ProcessModel.Deliver, Sound;
      SwitchSound(View(), p, p);
      cursor := p;
      current := p;
      var delivered := Deliver(p);
      Slot(p);
      if table[p].status != Zombie && table[p].status != Waiting {
        Update(p, table[p].(status := Run));
      }
      assert View() == ProcessModel.Dispatch(old(View()), p);
    }

    /** schedule_next_process after the context switch. */
    method Settle()
      requires Usable()
      modifies table, this`current
      ensures View() == ProcessModel.Settle(old(View())) && Usable()
      ensures old(KidsExact()) ==> KidsExact()
    {
      hide Links, Procs, KidsExact, Contents, Ok, RingsOk, Sound;
      ghost var m := View();
      Slot(current);
      if table[current].status == Run {
        Update(current, table[current].(status := Ready));
      } else {
        assert Put(m, current, m.procs[current]) == m;
      }
      current := 0;
      assert View() == ProcessModel.Settle(m);
    }
  }

  /** From boot, every run of kernel calls and ticks in which pids do not wrap and everyone collected is childless
      leaves the linked table with all invariants: list shape, parent forest, sound waits and exact children lists. */
  method BootAndRun(es: seq<Event>) returns (t: Table, log: seq<Answer>)
    ensures Sound(Booted()) && t.Usable() && (t.View(), log) == RunAll(Booted(), es)
    ensures AllowedRun(Booted(), es, Rules(true, false)) ==> Inv(t.View(), Rules(true, false)) && t.KidsExact()
  {
    hide Links, RunAll, AllowedRun, Inv, Sound, Procs;
    t := new Table();
    log := t.RunEvents(es);
    BootedInv(Rules(true, false));
    if AllowedRun(Booted(), es, Rules(true, false)) {
      RunKeeps(Booted(), es, Rules(true, false));
    }
  }

  lemma InitLinks(t: seq<Pcb>, kids: seq<seq<nat>>)
    requires |t| == SLOTS == |kids| && t[0] == ZEROED.(used := true, pid := 1, status := Thread)
    requires (forall i | 0 < i < SLOTS :: t[i] == ZEROED) && (forall i | 0 <= i < SLOTS :: kids[i] == [])
    ensures Links(t, 0, [0], kids, NULL) && Procs(t)[0] == NewProc(-1, 0, false).(pid := 1, status := Thread)
    ensures forall i | 0 < i < SLOTS :: Procs(t)[i] == EMPTY
  {
  }

  // ---- Runs ----

  /** After i of the events the machine is d and the answers are log. */
  ghost predicate RanSoFar(m: Machine, es: seq<Event>, i: nat, d: Machine, log: seq<Answer>) {
    Sound(m) && Sound(d) && i <= |es| && RunAll(m, es) == (RunAll(d, es[i..]).0, log + RunAll(d, es[i..]).1)
  }

  lemma RunStart(m: Machine, es: seq<Event>)
    requires Sound(m)
    ensures RanSoFar(m, es, 0, m, []) && es[0..] == es
  {
    hide RunAll, Sound;
    assert es[0..] == es;
    assert [] + RunAll(m, es).1 == RunAll(m, es).1;
  }

  lemma RunStep(m: Machine, es: seq<Event>, i: nat, d: Machine, log: seq<Answer>, rules: Rules)
    requires i < |es| && RanSoFar(m, es, i, d, log)
    ensures RanSoFar(m, es, i + 1, Happen(d, es[i]).0, log + Happen(d, es[i]).1)
    ensures AllowedRun(d, es[i..], rules) ==>
              AllowedEvent(d, es[i], rules) && AllowedRun(Happen(d, es[i]).0, es[i + 1..], rules)
  {
    hide Happen, AllowedEvent, Sound;
    assert es[i..][1..] == es[i + 1..];
    var (e, rest) := RunAll(Happen(d, es[i]).0, es[i + 1..]);
    var a := Happen(d, es[i]).1;
    assert log + (a + rest) == log + a + rest;
  }

  lemma RunEnd(m: Machine, es: seq<Event>, d: Machine, log: seq<Answer>)
    requires RanSoFar(m, es, |es|, d, log)
    ensures RunAll(m, es) == (d, log)
  {
    assert es[|es|..] == [] && log + [] == log;
  }

  lemma SwitchSound(m: Machine, cursor: nat, current: nat)
    requires Sound(m) && cursor in m.order && current in m.order
    ensures Sound(m.(cursor := cursor, current := current))
  {
  }

  /** After i of the calls the machine is d and the answers are log. */
  ghost predicate PerformedSoFar(m: Machine, cs: seq<Call>, i: nat, d: Machine, log: seq<Answer>) {
    && Sound(m) && Sound(d) && i <= |cs|
    && ProcessModel.PerformAll(m, cs) ==
       (ProcessModel.PerformAll(d, cs[i..]).0, log + ProcessModel.PerformAll(d, cs[i..]).1)
  }

  lemma PerformStart(m: Machine, cs: seq<Call>)
    requires Sound(m)
    ensures PerformedSoFar(m, cs, 0, m, []) && cs[0..] == cs
  {
    hide ProcessModel.PerformAll, Sound;
    assert cs[0..] == cs;
    assert [] + ProcessModel.PerformAll(m, cs).1 == ProcessModel.PerformAll(m, cs).1;
  }

  lemma PerformStep(m: Machine, cs: seq<Call>, i: nat, d: Machine, log: seq<Answer>)
    requires i < |cs| && PerformedSoFar(m, cs, i, d, log)
    ensures PerformedSoFar(m, cs, i + 1, ProcessModel.Perform(d, cs[i]).0, log + [ProcessModel.Perform(d, cs[i]).1])
    ensures forall rules :: AllowedCalls(d, cs[i..], rules) ==>
                              && Allowed(d, cs[i], rules)
                              && AllowedCalls(ProcessModel.Perform(d, cs[i]).0, cs[i + 1..], rules)
  {
    hide ProcessModel.Perform, Allowed, Sound;
    assert cs[i..][1..] == cs[i + 1..];
    var (e, rest) := ProcessModel.PerformAll(ProcessModel.Perform(d, cs[i]).0, cs[i + 1..]);
    var a := ProcessModel.Perform(d, cs[i]).1;
    assert log + ([a] + rest) == log + [a] + rest;
  }

  lemma PerformEnd(m: Machine, cs: seq<Call>, d: Machine, log: seq<Answer>)
    requires PerformedSoFar(m, cs, |cs|, d, log)
    ensures ProcessModel.PerformAll(m, cs) == (d, log)
  {
    assert cs[|cs|..] == [] && log + [] == log;
  }

  lemma PickStep(m: Machine, d: nat)
    requires Sound(m) && 1 <= d <= |m.order|
    ensures PickFrom(m, d) == if m.procs[Candidate(m, d)].Runnable() then Candidate(m, d) else PickFrom(m, d + 1)
    ensures d == |m.order| ==> PickFrom(m, d + 1) == -1
  {
  }

  /** Only the last candidate is the cursor itself. */
  lemma LastCandidate(m: Machine, d: nat)
    requires Sound(m) && Distinct(m.order) && 1 <= d <= |m.order|
    ensures Candidate(m, d) == m.cursor <==> d == |m.order|
  {
  }
}
