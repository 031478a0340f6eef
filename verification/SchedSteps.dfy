/** Every operation of the scheduler keeps the partition of the slots, exactly when it is used as it can be. */
module SchedSteps {
  import opened Lists
  import opened SchedModel
  import opened SchedInv

  /** No task but main is running; main is running or has suspended itself. */
  ghost predicate Quiet(s: Sched) {
    && |s.tasks| == SLOTS && Slot(s.main)
    && (s.tasks[s.main].state == Running || s.tasks[s.main].state == Suspended)
    && forall a :: 0 <= a < SLOTS && s.tasks[a].state == Running ==> a == s.main
  }

  /** The current task runs; besides it only main can be in state running. */
  ghost predicate Roles(s: Sched) {
    && |s.tasks| == SLOTS && Slot(s.main) && Slot(s.current) && s.tasks[s.current].state == Running
    && (s.tasks[s.main].state == Running || s.tasks[s.main].state == Suspended)
    && forall a :: 0 <= a < SLOTS && s.tasks[a].state == Running ==> a == s.main || a == s.current
  }

  ghost predicate Inv(s: Sched, v: View) {
    Partition(s, v) && Roles(s)
  }

  /** The slots can be laid out over the lists as the invariant says. */
  ghost predicate Good(s: Sched) { exists v :: Inv(s, v) }

  // ---------------------------------------------------------------- choosing a task

  lemma {:induction false} HighestFacts(heads: seq<int>, p: int)
    requires |heads| == LISTS && -1 <= p <= CRITICAL
    ensures var a := HighestFrom(heads, p);
            if a == NULL then forall r :: 0 <= r <= p ==> heads[r] == NULL
            else exists r :: 0 <= r <= p && heads[r] == a && forall r' :: r < r' <= p ==> heads[r'] == NULL
    decreases p + 1
  {
    if p >= IDLE && heads[p] == NULL { HighestFacts(heads, p - 1); }
  }

  /** The picked task is ready, not idle, at the front of its list, and no ready task has a higher priority. */
  ghost predicate Picked(s: Sched, v: View, a: int)
    requires |s.tasks| == SLOTS
  {
    && Slot(a) && s.tasks[a].state == Ready && IDLE < s.tasks[a].prio <= CRITICAL
    && v[s.tasks[a].prio] != [] && v[s.tasks[a].prio][0] == a
    && forall p :: s.tasks[a].prio < p <= CRITICAL ==> v[p] == []
  }

  lemma HeadNull(s: Sched, v: View, q: int)
    requires Partition(s, v) && 0 <= q < LISTS
    ensures s.heads[q] == Head(v[q]) && (s.heads[q] == NULL <==> v[q] == [])
    ensures v[q] != [] ==> Slot(v[q][0]) && Fits(s.tasks[v[q][0]], q)
  {
    assert SpellsAt(s.heads, s.links, v, q);
    HeadLinked(s.links, v[q]);
    if v[q] != [] {
      assert Slot(v[q][0]);
      assert Placed(s.tasks[v[q][0]], v, v[q][0]);
    }
  }

  lemma PickFacts(s: Sched, v: View)
    requires Partition(s, v)
    ensures Pick(s) != NULL ==> Picked(s, v, Pick(s))
    ensures Pick(s) == NULL ==> forall p :: IDLE < p <= CRITICAL ==> v[p] == []
  {
    HighestFacts(s.heads, CRITICAL);
    hide Spells, HighestFrom;
    forall q | 0 <= q < LISTS
      ensures s.heads[q] == Head(v[q]) && (s.heads[q] == NULL <==> v[q] == [])
    { HeadNull(s, v, q); }
    var a := HighestFrom(s.heads, CRITICAL);
    if a != NULL {
      var r :| 0 <= r <= CRITICAL && s.heads[r] == a && forall r' :: r < r' <= CRITICAL ==> s.heads[r'] == NULL;
      HeadNull(s, v, r);
    }
  }

  // ---------------------------------------------------------------- switching

  lemma StateOnly(s: Sched, v: View, a: int, st: State)
    requires PartitionBut(s, v, a) && Slot(a) && (st == Running || st == Suspended || st == Terminated)
    ensures Partition(SetState(s, a, st), v)
  {
    Retask(s, v, a, s.tasks[a].(state := st));
    LeaveOff(SetState(s, a, st), v, a);
  }

  lemma ToMain(s: Sched, v: View)
    requires Partition(s, v) && Quiet(s)
    ensures Inv(SwitchToMain(s), v)
  {
    hide Spells, PlacedBut;
    var s1 := s.(current := s.main);
    PartitionFields(s, s1, v);
    PickUp(s1, v, s.main);
    StateOnly(s1, v, s.main, Running);
  }

  ghost predicate Queued(s: Sched, v: View, a: int) {
    |s.tasks| == SLOTS && Slot(a) && s.tasks[a].state == Ready && s.tasks[a].prio <= CRITICAL && a in v[s.tasks[a].prio]
  }

  lemma ToTask(s: Sched, v: View, a: int)
    requires Partition(s, v) && Quiet(s) && Queued(s, v, a)
    ensures a != s.main && Inv(ContextSwitch(s, a), Drop(v, s.tasks[a].prio, a))
  {
    hide Spells, PlacedBut, Drop, Bypass, OnNone;
    var q := s.tasks[a].prio;
    Take(s, v, q, a);
    var s1 := ListRemove(s, q, a);
    PartitionFields(s1, s1.(current := a), Drop(v, q, a));
    StateOnly(s1.(current := a), Drop(v, q, a), a, Running);
  }

  /** Switch to the chosen task, or to main. */
  lemma Switch(s: Sched, v: View, a: int) returns (w: View)
    requires Partition(s, v) && Quiet(s) && (a == NULL || Queued(s, v, a))
    ensures a == NULL ==> Inv(SwitchToMain(s), w)
    ensures a != NULL ==> Inv(ContextSwitch(s, a), w)
  {
    if a == NULL { w := v; } else { w := Drop(v, s.tasks[a].prio, a); }
    hide Partition, Quiet, Queued, Inv, Drop;
    if a == NULL { ToMain(s, v); } else { ToTask(s, v, a); }
  }

  lemma PickQueued(s: Sched, v: View)
    requires Partition(s, v)
    ensures Pick(s) != NULL ==> Queued(s, v, Pick(s))
  {
    PickFacts(s, v);
  }

  // ---------------------------------------------------------------- operations

  lemma StepKeeps(s: Sched, v: View) returns (w: View)
    requires Inv(s, v) && s.current == s.main
    ensures Inv(Step(s), w)
  {
    w := v;
    if s.started && Pick(s) != NULL {
      PickQueued(s, v);
      w := Switch(s, v, Pick(s));
    }
  }

  /** Make the running task ready again. */
  lemma Requeue(s: Sched, v: View, c: int)
    requires Partition(s, v) && Roles(s) && c == s.current != s.main
    ensures var r := AddToReady(SetState(s, c, Ready), c);
            Partition(r, Join(v, s.tasks[c].prio, c)) && Quiet(r) && r.main == s.main
    ensures forall a :: Queued(s, v, a) ==> Queued(AddToReady(SetState(s, c, Ready), c), Join(v, s.tasks[c].prio, c), a)
  {
    hide Spells, PlacedBut, OnNone, Push;
    PickUp(s, v, c);
    var t := s.tasks[c].(state := Ready);
    Retask(s, v, c, t);
    Put(SetTask(s, c, t), v, t.prio, c);
    assert AddToReady(SetState(s, c, Ready), c).tasks == SetTask(s, c, t).tasks;
  }

  lemma YieldKeeps(s: Sched, v: View) returns (w: View)
    requires Inv(s, v)
    ensures Inv(Yield(s), w)
  {
    if s.current == s.main {
      w := StepKeeps(s, v);
    } else {
      PickQueued(s, v);
      Requeue(s, v, s.current);
      hide Partition, Quiet, Queued, ContextSwitch, SwitchToMain, AddToReady, HighestFrom;
      var c := s.current;
      var s2 := AddToReady(SetState(s, c, Ready), c);
      assert Pick(SetState(s, c, Ready)) == Pick(s);
      w := Switch(s2, Join(v, s.tasks[c].prio, c), Pick(s));
    }
  }

  /** Once the running task has another state, no task but main is running. */
  lemma QuietAfter(s: Sched, r: Sched, t: Task)
    requires Roles(s) && s.current != s.main && t.state != Running
    requires r.tasks == s.tasks[s.current := t] && r.main == s.main
    ensures Quiet(r)
  {
  }

  /** Put the running task on a list that fits its new record. */
  lemma Park(s: Sched, v: View, t: Task, q: int)
    requires Partition(s, v) && Roles(s) && s.current != s.main && t.prio <= CRITICAL
    requires 0 <= q < LISTS && Fits(t, q)
    ensures var r := ListAdd(SetTask(s, s.current, t), q, s.current); Partition(r, Join(v, q, s.current)) && Quiet(r)
  {
    var c := s.current;
    var r := ListAdd(SetTask(s, c, t), q, c);
    QuietAfter(s, r, t);
    hide Spells, PlacedBut, OnNone, Push, Quiet;
    PickUp(s, v, c);
    Retask(s, v, c, t);
    Put(SetTask(s, c, t), v, q, c);
  }

  lemma SleepKeeps(s: Sched, v: View, n: nat) returns (w: View)
    requires Inv(s, v)
    ensures Inv(Sleep(s, n), w) && w[FREE_LIST] == v[FREE_LIST]
  {
    w := v;
    var c := s.current;
    if c != s.main {
      var t := s.tasks[c].(sleep := n, wake := Later(s.tick, n), state := Blocked);
      Park(s, v, t, BLOCKED_LIST);
      w := Join(v, BLOCKED_LIST, c);
      hide Spells, PlacedBut, Quiet, Roles, ListAdd, SwitchToMain, Shape;
      ToMain(ListAdd(SetTask(s, c, t), BLOCKED_LIST, c), w);
    }
  }

  lemma FinishKeeps(s: Sched, v: View)
    requires Inv(s, v)
    ensures Inv(Finish(s), v)
  {
    hide Spells, PlacedBut, OnNone;
    if s.current == s.main {
      assert Finish(s) == s by { assert Finish(s).tasks == s.tasks; }
    } else {
      PickUp(s, v, s.current);
      StateOnly(s, v, s.current, Terminated);
      ToMain(SetState(s, s.current, Terminated), v);
    }
  }

  lemma DropFirst(v: View, q: int)
    requires 0 <= q < LISTS && v[q] != []
    ensures Drop(v, q, v[q][0])[q] == v[q][1..]
  {
  }

  /** A slot taken off the free list, filled in and put on list `q`. */
  lemma Refill(s: Sched, v: View, t: Task, q: int) returns (w: View)
    requires Partition(s, v) && s.heads[FREE_LIST] != NULL && t.prio <= CRITICAL && 0 <= q < LISTS && Fits(t, q)
    ensures var a := s.heads[FREE_LIST];
            Slot(a) && s.tasks[a].state != Running && s.tasks[a].state != Suspended
            && Partition(ListAdd(SetTask(ListRemove(s, FREE_LIST, a), a, t), q, a), w)
    ensures q != FREE_LIST ==> v[FREE_LIST] != [] && w[FREE_LIST] == v[FREE_LIST][1..]
  {
    var a := s.heads[FREE_LIST];
    HeadNull(s, v, FREE_LIST);
    DropFirst(v, FREE_LIST);
    hide Spells, PlacedBut, OnNone, Push, Bypass, Drop;
    var w1 := Drop(v, FREE_LIST, a);
    Take(s, v, FREE_LIST, a);
    Retask(ListRemove(s, FREE_LIST, a), w1, a, t);
    Put(SetTask(ListRemove(s, FREE_LIST, a), a, t), w1, q, a);
    w := Join(w1, q, a);
  }

  /** Changing the record of a task that is neither running nor main leaves the roles as they were. */
  lemma RolesAfter(s: Sched, r: Sched, a: int, t: Task)
    requires Roles(s) && Slot(a) && a != s.main && s.tasks[a].state != Running && t.state != Running
    requires r.tasks == s.tasks[a := t] && r.main == s.main && r.current == s.current
    ensures Roles(r)
  {
  }

  lemma CreateKeeps(s: Sched, v: View, prio: nat, ok: bool) returns (w: View)
    requires Inv(s, v)
    ensures Inv(Create(s, prio, ok), w)
    ensures ok && CanCreate(s, prio) ==> v[FREE_LIST] != [] && w[FREE_LIST] == v[FREE_LIST][1..]
  {
    w := v;
    if CanCreate(s, prio) {
      var a, t, q := s.heads[FREE_LIST], Task(prio, Ready, 0, 0), if ok then prio else FREE_LIST;
      w := Refill(s, v, t, q);
      var s1 := SetTask(ListRemove(s, FREE_LIST, a), a, t);
      assert ok ==> AddToReady(s1, a).tasks == s1.tasks;
      RolesAfter(s, Create(s, prio, ok), a, t);
    }
  }

  /** A node that is not at the head of its list is unlinked the same way whatever head is passed. */
  lemma NotAtHead(s: Sched, v: View, q: int, p: int, a: int)
    requires Partition(s, v) && 0 <= q < LISTS && 0 <= p < LISTS && Slot(a) && a in v[q] && a != s.heads[q]
    ensures ListRemove(s, p, a) == ListRemove(s, q, a)
  {
    assert SpellsAt(s.heads, s.links, v, q);
    var k := IndexOf(v[q], a);
    LinkedNeighbours(s.links, v[q], k);
  }

  /** The list task_delete and task_suspend unlink a ready or blocked task from. */
  function HomeList(t: Task): int { if t.state == Ready then t.prio else BLOCKED_LIST }

  /** Unlinking a task by its state takes it off the list it is on, unless it is the head of the free list. */
  lemma Unhook(s: Sched, v: View, a: int) returns (w: View)
    requires Partition(s, v) && Slot(a) && (s.tasks[a].state == Ready || s.tasks[a].state == Blocked)
    requires a != s.heads[FREE_LIST]
    ensures PartitionBut(ListRemove(s, HomeList(s.tasks[a]), a), w, a)
  {
    var t := s.tasks[a];
    assert Placed(t, v, a);
    hide Spells, PlacedBut, OnNone, Bypass, Drop, Placed;
    var q := if a in v[HomeList(t)] then HomeList(t) else FREE_LIST;
    assert a in v[q] by { Homed(t, v, a); }
    Take(s, v, q, a);
    w := Drop(v, q, a);
    if q == FREE_LIST { NotAtHead(s, v, FREE_LIST, HomeList(t), a); }
  }

  lemma Homed(t: Task, v: View, a: int)
    requires Placed(t, v, a) && (t.state == Ready || t.state == Blocked)
    ensures a in v[HomeList(t)] || a in v[FREE_LIST]
  {
  }

  // ---------------------------------------------------------------- delete

  /** Slot `a` can be reached from the head of the free list. */
  predicate OnFreeList(s: Sched, a: int)
    requires Shape(s)
  {
    a in Chain(s.links, s.heads[FREE_LIST], SLOTS)
  }

  /** Deleting a slot that is free already is a mistake, except for one that was never used and is not next in line. */
  predicate MayDelete(s: Sched, a: int)
    requires Shape(s) && Pointer(a)
  {
    || !CanDelete(s, a)
    || (!(a == s.main && s.tasks[a].state == Suspended)
        && !(OnFreeList(s, a) && (s.tasks[a].state == Terminated || a == s.heads[FREE_LIST])))
  }

  /** What task_delete does before it changes the state. */
  function Unlisted(s: Sched, a: int): (r: Sched)
    requires Shape(s) && Slot(a)
    ensures Shape(r)
  {
    var t := s.tasks[a];
    if t.state == Ready || t.state == Blocked then ListRemove(s, HomeList(t), a) else s
  }

  lemma UnlistedBut(s: Sched, v: View, a: int) returns (w: View)
    requires Inv(s, v) && Slot(a) && CanDelete(s, a) && MayDelete(s, a)
    ensures PartitionBut(Unlisted(s, a), w, a)
  {
    FreeHead(s, v, a);
    WalkIs(s, v, FREE_LIST);
    hide Spells, PlacedBut, PartitionBut, ListRemove, Chain;
    if s.tasks[a].state == Ready || s.tasks[a].state == Blocked {
      w := Unhook(s, v, a);
    } else {
      w := v;
      PickUp(s, v, a);
    }
  }

  lemma FreeHead(s: Sched, v: View, a: int)
    requires Partition(s, v) && Slot(a)
    ensures a == s.heads[FREE_LIST]
            ==> a in v[FREE_LIST] && (s.tasks[a].state == Ready || s.tasks[a].state == Terminated)
  {
    HeadNull(s, v, FREE_LIST);
  }

  lemma DeleteIs(s: Sched, a: int)
    requires Shape(s) && Pointer(a) && CanDelete(s, a)
    ensures Delete(s, a) == ListAdd(SetState(Unlisted(s, a), a, Terminated), FREE_LIST, a)
  {
  }

  lemma DeleteKeeps(s: Sched, v: View, a: int) returns (w: View)
    requires Inv(s, v) && Pointer(a) && MayDelete(s, a)
    ensures Inv(Delete(s, a), w)
  {
    w := v;
    if CanDelete(s, a) {
      DeleteIs(s, a);
      w := UnlistedBut(s, v, a);
      var s1 := Unlisted(s, a);
      RolesAfter(s, Delete(s, a), a, s.tasks[a].(state := Terminated));
      hide Spells, PlacedBut, OnNone, Push, Unlisted, Delete, Roles;
      Retask(s1, w, a, s1.tasks[a].(state := Terminated));
      Put(SetState(s1, a, Terminated), w, FREE_LIST, a);
      w := Join(w, FREE_LIST, a);
    }
  }
}
