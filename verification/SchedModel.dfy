/**
 * The cooperative scheduler of kernel/scheduler.c: eight task slots on intrusive doubly linked lists. The list heads
 * are held in one sequence: the five ready lists by priority, then the blocked list, then the free list. Saving and
 * restoring a context is not modelled; a context switch is the change of `current`, of the lists and of the states.
 */
module SchedModel {
  import opened Basics
  import opened Lists

  const SLOTS := 8
  const LISTS := 7
  const IDLE := 0
  const NORMAL := 2
  const CRITICAL := 4
  const BLOCKED_LIST := 5
  const FREE_LIST := 6

  datatype State = Ready | Running | Blocked | Suspended | Terminated

  datatype Task = Task(prio: nat, state: State, wake: nat, sleep: nat)

  datatype Sched = Sched(tasks: seq<Task>, heads: seq<int>, links: Links, current: int, main: int, tick: nat,
                         nextWake: nat, started: bool, tickless: bool)

  /** The tick counter `n` ticks after `t`, in 32 bits. */
  function Later(t: nat, n: nat): (r: nat)
    ensures r < U32
  {
    (t + n) % U32
  }

  predicate Slot(a: int) { 0 <= a < SLOTS }

  predicate Pointer(a: int) { a == NULL || Slot(a) }

  predicate AllSlots(l: seq<int>) {
    forall i :: 0 <= i < |l| ==> 0 <= l[i] < SLOTS
  }

  ghost predicate LinkOk(m: Links, a: int) {
    a in m && Pointer(m[a].prev) && Pointer(m[a].next)
  }

  /** Every pointer is null or names a slot, and priorities are in range. */
  ghost predicate Shape(s: Sched) {
    && |s.tasks| == SLOTS && |s.heads| == LISTS && Slot(s.current) && Slot(s.main)
    && (forall q :: 0 <= q < LISTS ==> Pointer(s.heads[q])) && (forall a :: Slot(a) ==> LinkOk(s.links, a))
    && (forall a :: 0 <= a < SLOTS ==> s.tasks[a].prio <= CRITICAL)
  }

  // ---------------------------------------------------------------- list operations

  /** task_list_add */
  function ListAdd(s: Sched, q: int, a: int): (r: Sched)
    requires Shape(s) && 0 <= q < LISTS && Slot(a)
    ensures Shape(r)
  {
    s.(heads := s.heads[q := a], links := Push(s.links, s.heads[q], a))
  }

  /** task_list_remove */
  function ListRemove(s: Sched, q: int, a: int): (r: Sched)
    requires Shape(s) && 0 <= q < LISTS && Slot(a)
    ensures Shape(r)
  {
    assert LinkOk(s.links, a);
    s.(heads := if s.links[a].prev == NULL then s.heads[q := s.links[a].next] else s.heads,
       links := Bypass(s.links, a)[a := Link(NULL, NULL)])
  }

  function SetTask(s: Sched, a: int, t: Task): (r: Sched)
    requires Shape(s) && Slot(a) && t.prio <= CRITICAL
    ensures Shape(r)
  {
    s.(tasks := s.tasks[a := t])
  }

  function SetState(s: Sched, a: int, st: State): (r: Sched)
    requires Shape(s) && Slot(a)
    ensures Shape(r)
  {
    SetTask(s, a, s.tasks[a].(state := st))
  }

  /** task_add_to_ready */
  function AddToReady(s: Sched, a: int): (r: Sched)
    requires Shape(s) && Slot(a)
    ensures Shape(r)
  {
    SetState(ListAdd(s, s.tasks[a].prio, a), a, Ready)
  }

  /** task_get_highest_ready, from priority `p` downwards. */
  function HighestFrom(heads: seq<int>, p: int): (a: int)
    requires |heads| == LISTS && -1 <= p <= CRITICAL
    decreases p + 1
  {
    if p < IDLE then NULL else if heads[p] != NULL then heads[p] else HighestFrom(heads, p - 1)
  }

  lemma {:induction false} HighestPointer(s: Sched, p: int)
    requires Shape(s) && -1 <= p <= CRITICAL
    ensures Pointer(HighestFrom(s.heads, p))
    decreases p + 1
  {
    if p >= IDLE && s.heads[p] == NULL { HighestPointer(s, p - 1); }
  }

  /** The task to switch to: the highest ready one, none when that is the idle task. */
  function Pick(s: Sched): (a: int)
    requires Shape(s)
    ensures Pointer(a)
  {
    HighestPointer(s, CRITICAL);
    var a := HighestFrom(s.heads, CRITICAL);
    if a != NULL && s.tasks[a].prio == IDLE then NULL else a
  }

  /** switch_to_main */
  function SwitchToMain(s: Sched): (r: Sched)
    requires Shape(s)
    ensures Shape(r)
  {
    SetState(s.(current := s.main), s.main, Running)
  }

  /** context_switch */
  function ContextSwitch(s: Sched, a: int): (r: Sched)
    requires Shape(s) && Slot(a)
    ensures Shape(r)
  {
    if a == s.main then SwitchToMain(s)
    else SetState(ListRemove(s, s.tasks[a].prio, a).(current := a), a, Running)
  }

  // ---------------------------------------------------------------- operations

  /** scheduler_step */
  function Step(s: Sched): (r: Sched)
    requires Shape(s)
    ensures Shape(r)
  {
    if !s.started || Pick(s) == NULL then s else ContextSwitch(s, Pick(s))
  }

  /** scheduler_start */
  function Start(s: Sched): (r: Sched)
    requires Shape(s)
    ensures Shape(r)
  {
    if s.started then s else Step(s.(started := true))
  }

  /** task_create; `ok` says that the stack was allocated and the context set up. */
  function Create(s: Sched, prio: nat, ok: bool): (r: Sched)
    requires Shape(s)
    ensures Shape(r)
  {
    if !CanCreate(s, prio) then s
    else
      var a := s.heads[FREE_LIST];
      var s1 := SetTask(ListRemove(s, FREE_LIST, a), a, Task(prio, Ready, 0, 0));
      if ok then AddToReady(s1, a) else ListAdd(s1, FREE_LIST, a)
  }

  predicate CanCreate(s: Sched, prio: nat)
    requires |s.heads| == LISTS
  {
    s.heads[FREE_LIST] != NULL && prio <= CRITICAL
  }

  /** task_delete */
  function Delete(s: Sched, a: int): (r: Sched)
    requires Shape(s) && Pointer(a)
    ensures Shape(r)
  {
    if !CanDelete(s, a) then s
    else
      var t := s.tasks[a];
      var s1 := if t.state == Ready then ListRemove(s, t.prio, a)
                else if t.state == Blocked then ListRemove(s, BLOCKED_LIST, a) else s;
      ListAdd(SetState(s1, a, Terminated), FREE_LIST, a)
  }

  predicate CanDelete(s: Sched, a: int)
    requires |s.tasks| == SLOTS && Pointer(a)
  {
    a != NULL && a != s.current && s.tasks[a].state != Running
  }

  /** task_yield */
  function Yield(s: Sched): (r: Sched)
    requires Shape(s)
    ensures Shape(r)
  {
    if s.current == s.main then Step(s)
    else if s.tasks[s.current].state != Running then s
    else
      var s1 := SetState(s, s.current, Ready);
      var next := Pick(s1);
      var s2 := AddToReady(s1, s.current);
      if next == NULL then SwitchToMain(s2) else ContextSwitch(s2, next)
  }

  /** task_sleep; the main task does not sleep, it runs ticks and steps of its own. */
  function Sleep(s: Sched, n: nat): (r: Sched)
    requires Shape(s)
    ensures Shape(r)
  {
    if s.current == s.main then s
    else
      var t := s.tasks[s.current].(sleep := n, wake := Later(s.tick, n), state := Blocked);
      SwitchToMain(ListAdd(SetTask(s, s.current, t), BLOCKED_LIST, s.current))
  }

  /** task_suspend */
  function Suspend(s: Sched, a: int): (r: Sched)
    requires Shape(s) && Pointer(a)
    ensures Shape(r)
  {
    if a == NULL then s
    else if a == s.current then
      var s1 := SetState(s, a, Suspended);
      if Pick(s1) == NULL then SwitchToMain(s1) else ContextSwitch(s1, Pick(s1))
    else
      var t := s.tasks[a];
      if t.state == Ready then SetState(ListRemove(s, t.prio, a), a, Suspended)
      else if t.state == Blocked then
        SetTask(ListRemove(s, BLOCKED_LIST, a), a, t.(wake := 0, sleep := 0, state := Suspended))
      else s
  }

  /** task_resume */
  function Resume(s: Sched, a: int): (r: Sched)
    requires Shape(s) && Pointer(a)
    ensures Shape(r)
  {
    if a == NULL || s.tasks[a].state != Suspended then s else AddToReady(SetState(s, a, Ready), a)
  }

  /** task_trampoline, once the task's entry function has returned. */
  function Finish(s: Sched): (r: Sched)
    requires Shape(s)
    ensures Shape(r)
  {
    SwitchToMain(SetState(s, s.current, Terminated))
  }

  /** At most `n` nodes along the next pointers. */
  function Chain(m: Links, a: int, n: nat): (l: seq<int>)
    requires Pointer(a) && forall b :: Slot(b) ==> LinkOk(m, b)
    ensures AllSlots(l)
    decreases n
  {
    if n == 0 || a == NULL then [] else
      assert LinkOk(m, a);
      [a] + Chain(m, m[a].next, n - 1)
  }

  /** The loop of scheduler_tick over the blocked tasks `l`. */
  function WakeDue(s: Sched, l: seq<int>): (r: Sched)
    requires Shape(s) && AllSlots(l)
    ensures Shape(r)
    decreases |l|
  {
    if l == [] then s else WakeDue(WakeOne(s, l[0]), l[1..])
  }

  function WakeOne(s: Sched, a: int): (r: Sched)
    requires Shape(s) && Slot(a)
    ensures Shape(r)
  {
    if s.tick < s.tasks[a].wake then s else AddToReady(SetState(ListRemove(s, BLOCKED_LIST, a), a, Ready), a)
  }

  /** scheduler_update_next_wake_tick over the blocked tasks `l`, from the value `w`. */
  function NextWake(tasks: seq<Task>, l: seq<int>, w: nat): (r: nat)
    requires |tasks| == SLOTS && AllSlots(l)
    decreases |l|
  {
    if l == [] then w else NextWake(tasks, l[1..], if tasks[l[0]].wake < w then tasks[l[0]].wake else w)
  }

  /** scheduler_tick */
  function Tick(s: Sched): (r: Sched)
    requires Shape(s)
    ensures Shape(r)
  {
    var s1 := s.(tick := Later(s.tick, 1));
    var s2 := WakeDue(s1, Chain(s1.links, s1.heads[BLOCKED_LIST], SLOTS));
    s2.(nextWake := NextWake(s2.tasks, Chain(s2.links, s2.heads[BLOCKED_LIST], SLOTS), NEVER))
  }

  /** scheduler_tickless_idle */
  function Tickless(s: Sched): (r: Sched)
    requires Shape(s)
    ensures Shape(r)
  {
    if !s.tickless || s.nextWake == NEVER || s.nextWake == s.tick then s else s.(tick := s.nextWake)
  }

  datatype Op =
    | DoStart | DoStep | DoYield | DoSleep(n: nat) | DoFinish | DoTick | DoTickless | DoEnable(on: bool)
    | DoCreate(prio: nat, ok: bool) | DoDelete(a: int) | DoSuspend(a: int) | DoResume(a: int)

  predicate WellFormed(op: Op) {
    op.DoDelete? || op.DoSuspend? || op.DoResume? ==> Pointer(op.a)
  }

  function Apply(s: Sched, op: Op): (r: Sched)
    requires Shape(s) && WellFormed(op)
    ensures Shape(r)
  {
    match op
    case DoStart => Start(s)
    case DoStep => Step(s)
    case DoYield => Yield(s)
    case DoSleep(n) => Sleep(s, n)
    case DoFinish => Finish(s)
    case DoTick => Tick(s)
    case DoTickless => Tickless(s)
    case DoEnable(on) => s.(tickless := on)
    case DoCreate(prio, ok) => Create(s, prio, ok)
    case DoDelete(a) => Delete(s, a)
    case DoSuspend(a) => Suspend(s, a)
    case DoResume(a) => Resume(s, a)
  }
}
