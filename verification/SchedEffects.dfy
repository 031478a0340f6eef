/** What each call does to the caller, to the task that runs next, and to no other. */
module SchedEffects {
  import opened Basics
  import opened Lists
  import opened SchedModel
  import opened SchedInv
  import opened SchedSteps
  import opened SchedIff
  import opened SchedTick
  import opened SchedRuns

  // ---------------------------------------------------------------- who runs next

  /** Some task above the idle priority waits for its turn. */
  ghost predicate AnyReady(s: Sched, v: View) {
    exists b :: Queued(s, v, b) && s.tasks[b].prio > IDLE
  }

  /** Of those, `b` is first on its list and none has a higher priority. */
  ghost predicate Best(s: Sched, v: View, b: int) {
    && Queued(s, v, b) && s.tasks[b].prio > IDLE && v[s.tasks[b].prio][0] == b
    && (forall c :: Queued(s, v, c) ==> s.tasks[c].prio <= s.tasks[b].prio)
  }

  lemma PickIs(s: Sched, v: View)
    requires Partition(s, v)
    ensures if AnyReady(s, v) then Best(s, v, Pick(s)) else Pick(s) == NULL
  {
    PickFacts(s, v);
    hide Partition, HighestFrom, Pick;
    var a := Pick(s);
    if a == NULL {
      forall b | Queued(s, v, b) ensures s.tasks[b].prio <= IDLE { }
    } else {
      assert Queued(s, v, a);
      forall b | Queued(s, v, b) ensures s.tasks[b].prio <= s.tasks[a].prio { }
    }
  }

  /** `r` is `s` with `t` as the record of its current task, and the best waiting task, or else main, running. */
  ghost predicate HandsOver(s: Sched, v: View, r: Sched, t: Task) {
    && |s.tasks| == |r.tasks| == SLOTS && Slot(s.current) && Slot(r.current) && Slot(s.main) && r.main == s.main
    && (if AnyReady(s, v) then Best(s, v, r.current) else r.current == s.main)
    && var tasks := s.tasks[s.current := t]; r.tasks == tasks[r.current := tasks[r.current].(state := Running)]
  }

  lemma SwitchTasks(s: Sched, a: int)
    requires Shape(s) && Pointer(a)
    ensures var r, b := if a == NULL then SwitchToMain(s) else ContextSwitch(s, a), if a == NULL then s.main else a;
            r.current == b && r.main == s.main && r.tasks == s.tasks[b := s.tasks[b].(state := Running)]
  {
  }

  lemma NotWaiting(s: Sched, v: View)
    requires Inv(s, v)
    ensures !Queued(s, v, s.current) && !Queued(s, v, s.main)
  {
    hide Spells, PlacedBut;
  }

  // ---------------------------------------------------------------- suspending oneself

  /** A task that suspends itself is Suspended, and the best waiting task runs, or main when there is none. */
  lemma SelfSuspend(s: Sched, v: View)
    requires Inv(s, v)
    ensures HandsOver(s, v, Suspend(s, s.current), s.tasks[s.current].(state := Suspended))
  {
    var c := s.current;
    var s1 := SetState(s, c, Suspended);
    PickIs(s, v);
    assert Pick(s1) == Pick(s);
    hide Partition, Pick, ContextSwitch, SwitchToMain, Best, AnyReady, Queued;
    SwitchTasks(s1, Pick(s1));
  }

  /** So any task but main is left Suspended, with nothing else in its record changed. */
  lemma SelfSuspended(s: Sched, v: View)
    requires Inv(s, v) && s.current != s.main
    ensures var r := Suspend(s, s.current);
            r.current != s.current && r.tasks[s.current] == s.tasks[s.current].(state := Suspended)
  {
    SelfSuspend(s, v);
    NotWaiting(s, v);
    hide Partition, Suspend, Queued;
  }

  /** Resuming a suspended task makes it ready, first on the list of its priority; any other it leaves alone. */
  lemma ResumeEffect(s: Sched, a: int)
    requires Shape(s) && Slot(a)
    ensures var r := Resume(s, a);
            if s.tasks[a].state == Suspended then
              && r.tasks == s.tasks[a := s.tasks[a].(state := Ready)] && r.heads[s.tasks[a].prio] == a
              && r.current == s.current
            else r == s
  {
    hide Push;
  }

  /** So a task that suspended itself and is resumed is as it was, but ready, and first on its list. */
  lemma SelfResumed(s: Sched, v: View)
    requires Inv(s, v) && s.current != s.main
    ensures var c := s.current;
            var r := Resume(Suspend(s, c), c);
            r.tasks[c] == s.tasks[c].(state := Ready) && r.heads[s.tasks[c].prio] == c && Good(r)
  {
    var c := s.current;
    assert Slot(c);
    SelfSuspended(s, v);
    var w := SuspendSelf(s, v);
    hide Partition, Suspend, Resume;
    ResumeEffect(Suspend(s, c), c);
    var x := ResumeKeeps(Suspend(s, c), w, c);
  }

  /** A suspended task other than main is left alone by every call but a resume or a delete of it. */
  lemma SuspendedStep(s: Sched, v: View, op: Op, a: int)
    requires Inv(s, v) && WellFormed(op) && Slot(a) && a != s.main && s.tasks[a].state == Suspended
    requires op != DoResume(a) && op != DoDelete(a)
    ensures Apply(s, op).tasks[a] == s.tasks[a]
  {
    assert Shape(s) && a != s.current;
    PickIs(s, v);
    hide Inv, Shape, Start, Step, Yield, Sleep, Finish, Tick, Tickless, Create, Delete, Suspend, Resume;
    match op
    case DoTick => TickSuspended(s, v, a);
    case DoCreate(prio, ok) => CreateSuspended(s, v, prio, ok, a);
    case DoStart => StepSuspended(s, v, a);
    case DoStep => StepSuspended(s, v, a);
    case DoYield => YieldSuspended(s, v, a);
    case DoSuspend(b) => SuspendSuspended(s, v, a, b);
    case _ => OtherSuspended(s, op, a);
  }

  lemma TickSuspended(s: Sched, v: View, a: int)
    requires Inv(s, v) && Slot(a) && s.tasks[a].state == Suspended
    ensures Tick(s).tasks[a] == s.tasks[a]
  {
    assert Shape(s);
    hide Inv, Shape, Tick, Earliest, Later;
    var w := TickExact(s, v);
  }

  lemma CreateSuspended(s: Sched, v: View, prio: nat, ok: bool, a: int)
    requires Inv(s, v) && Slot(a) && s.tasks[a].state == Suspended
    ensures Create(s, prio, ok).tasks[a] == s.tasks[a]
  {
    if CanCreate(s, prio) {
      FreeHead(s, v, s.heads[FREE_LIST]);
      hide Spells, PlacedBut;
    }
  }

  lemma PickNotSuspended(s: Sched, v: View, r: Sched, a: int)
    requires Partition(s, v) && Slot(a) && s.tasks[a].state == Suspended && Shape(r) && r.heads == s.heads
    requires forall b :: 0 <= b < SLOTS ==> r.tasks[b].prio == s.tasks[b].prio
    ensures Pick(r) != a
  {
    PickQueued(s, v);
    assert Pick(r) == Pick(s);
  }

  lemma StepSuspended(s: Sched, v: View, a: int)
    requires Inv(s, v) && Slot(a) && a != s.main && s.tasks[a].state == Suspended
    ensures Step(s).tasks[a] == Start(s).tasks[a] == s.tasks[a]
  {
    var s1 := s.(started := true);
    PickNotSuspended(s, v, s, a);
    PickNotSuspended(s, v, s1, a);
    hide Spells, PlacedBut, Pick, ContextSwitch, SwitchToMain;
    SwitchOther(s, Pick(s), a);
    SwitchOther(s1, Pick(s1), a);
  }

  lemma YieldSuspended(s: Sched, v: View, a: int)
    requires Inv(s, v) && Slot(a) && a != s.main && s.tasks[a].state == Suspended
    ensures Yield(s).tasks[a] == s.tasks[a]
  {
    var c := s.current;
    assert a != c;
    if c == s.main {
      PickNotSuspended(s, v, s, a);
      SwitchOther(s, Pick(s), a);
    } else {
      var s1 := SetState(s, c, Ready);
      PickNotSuspended(s, v, s1, a);
      assert AddToReady(s1, c).tasks[a] == s.tasks[a] && AddToReady(s1, c).main == s.main;
      hide Spells, PlacedBut, Shape, Pick, AddToReady, ContextSwitch, SwitchToMain;
      SwitchOther(AddToReady(s1, c), Pick(s1), a);
    }
  }

  lemma SuspendSuspended(s: Sched, v: View, a: int, b: int)
    requires Inv(s, v) && Slot(a) && a != s.main && s.tasks[a].state == Suspended && Pointer(b)
    ensures Suspend(s, b).tasks[a] == s.tasks[a]
  {
    assert a != s.current;
    if b == s.current {
      var s1 := SetState(s, b, Suspended);
      PickNotSuspended(s, v, s1, a);
      hide Spells, PlacedBut, Pick, ContextSwitch, SwitchToMain;
      SwitchOther(s1, Pick(s1), a);
    } else {
      hide Spells, PlacedBut, Pick, ContextSwitch, SwitchToMain;
    }
  }

  lemma OtherSuspended(s: Sched, op: Op, a: int)
    requires Shape(s) && WellFormed(op) && Slot(a) && a != s.main && a != s.current
    requires op != DoResume(a) && op != DoDelete(a)
    requires op.DoSleep? || op.DoFinish? || op.DoDelete? || op.DoResume? || op.DoTickless? || op.DoEnable?
    ensures Apply(s, op).tasks[a] == s.tasks[a]
  {
    hide Shape, Sleep, Finish, Delete, Resume, Tickless;
    match op
    case DoSleep(n) => SleepOther(s, n, a);
    case DoDelete(b) => DeleteOther(s, b, a);
    case DoResume(b) => ResumeOther(s, b, a);
    case DoTickless => TicklessTasks(s);
    case DoFinish => FinishOther(s, a);
    case DoEnable(on) =>
  }

  lemma ListsOnly(s: Sched, q: int, a: int)
    requires Shape(s) && 0 <= q < LISTS && Slot(a)
    ensures ListAdd(s, q, a).tasks == ListRemove(s, q, a).tasks == s.tasks
    ensures ListAdd(s, q, a).main == ListRemove(s, q, a).main == s.main
    ensures ListAdd(s, q, a).heads[q] == a
  {
    hide Push, Bypass;
  }

  lemma DeleteOther(s: Sched, b: int, a: int)
    requires Shape(s) && Pointer(b) && Slot(a) && a != b
    ensures Delete(s, b).tasks[a] == s.tasks[a]
  {
    hide Delete;
    DeleteEffect(s, b);
  }

  lemma SleepOther(s: Sched, n: nat, a: int)
    requires Shape(s) && Slot(a) && a != s.main && a != s.current
    ensures Sleep(s, n).tasks[a] == s.tasks[a]
  {
    if s.current != s.main {
      var t := s.tasks[s.current].(sleep := n, wake := Later(s.tick, n), state := Blocked);
      ListsOnly(SetTask(s, s.current, t), BLOCKED_LIST, s.current);
    }
    hide ListAdd, Later;
  }

  lemma ResumeOther(s: Sched, b: int, a: int)
    requires Shape(s) && Pointer(b) && Slot(a) && a != b
    ensures Resume(s, b).tasks[a] == s.tasks[a]
  {
    if b != NULL {
      hide Resume;
      ResumeEffect(s, b);
    }
  }

  lemma TicklessTasks(s: Sched)
    requires Shape(s)
    ensures Tickless(s).tasks == s.tasks
  {
  }

  lemma FinishOther(s: Sched, a: int)
    requires Shape(s) && Slot(a) && a != s.main && a != s.current
    ensures Finish(s).tasks[a] == s.tasks[a]
  {
  }

  /** Over every legal run it stays as it is until it is resumed or deleted. */
  lemma {:induction false} SuspendedRun(s: Sched, ops: seq<Op>, a: int)
    requires Shape(s) && Good(s) && (forall i :: 0 <= i < |ops| ==> WellFormed(ops[i])) && LegalRun(s, ops)
    requires Slot(a) && a != s.main && s.tasks[a].state == Suspended
    requires forall i :: 0 <= i < |ops| ==> ops[i] != DoResume(a) && ops[i] != DoDelete(a)
    ensures Run(s, ops).tasks[a] == s.tasks[a]
    decreases |ops|
  {
    hide Inv, Shape, Apply, Legal;
    if ops != [] {
      var v :| Inv(s, v);
      SuspendedStep(s, v, ops[0], a);
      LegalKeeps(s, ops[0]);
      MainStays(s, ops[0]);
      SuspendedRun(Apply(s, ops[0]), ops[1..], a);
    }
  }

  lemma MainStays(s: Sched, op: Op)
    requires Shape(s) && WellFormed(op)
    ensures Apply(s, op).main == s.main
  {
    hide Shape, Start, Step, Yield, Sleep, Finish, Tick, Tickless, Create, Delete, Suspend, Resume;
    match op
    case DoTick => TickMain(s);
    case DoStart => StepMain(s);
    case DoStep => StepMain(s);
    case DoYield => StepMain(s); YieldMain(s);
    case DoSuspend(a) => SuspendMain(s, a);
    case DoCreate(prio, ok) => CreateMain(s, prio, ok);
    case DoDelete(a) => DeleteMain(s, a);
    case _ => OtherMain(s, op);
  }

  lemma StepMain(s: Sched)
    requires Shape(s)
    ensures Step(s).main == Start(s).main == s.main
  {
    hide Pick, ContextSwitch;
    SwitchTasks(s, Pick(s));
    SwitchTasks(s.(started := true), Pick(s.(started := true)));
  }

  lemma ReadyMain(s: Sched, a: int)
    requires Shape(s) && Slot(a)
    ensures AddToReady(s, a).main == s.main
  {
    ListsOnly(s, s.tasks[a].prio, a);
    hide ListAdd;
  }

  lemma YieldMain(s: Sched)
    requires Shape(s) && Step(s).main == s.main
    ensures Yield(s).main == s.main
  {
    var s1 := SetState(s, s.current, Ready);
    ReadyMain(s1, s.current);
    hide Pick, ContextSwitch, SwitchToMain, AddToReady, Step;
    SwitchTasks(AddToReady(s1, s.current), Pick(s1));
  }

  lemma SuspendMain(s: Sched, a: int)
    requires Shape(s) && Pointer(a)
    ensures Suspend(s, a).main == s.main
  {
    if a == s.current {
      var s1 := SetState(s, a, Suspended);
      hide Pick, ContextSwitch, SwitchToMain, ListRemove;
      SwitchTasks(s1, Pick(s1));
    } else if a != NULL {
      ListsOnly(s, s.tasks[a].prio, a);
      ListsOnly(s, BLOCKED_LIST, a);
      hide Pick, ContextSwitch, SwitchToMain, ListRemove;
    }
  }

  lemma CreateMain(s: Sched, prio: nat, ok: bool)
    requires Shape(s)
    ensures Create(s, prio, ok).main == s.main
  {
    if CanCreate(s, prio) {
      var a := s.heads[FREE_LIST];
      ListsOnly(s, FREE_LIST, a);
      var s1 := SetTask(ListRemove(s, FREE_LIST, a), a, Task(prio, Ready, 0, 0));
      ReadyMain(s1, a);
      ListsOnly(s1, FREE_LIST, a);
      hide ListAdd, ListRemove, AddToReady;
    }
  }

  lemma DeleteMain(s: Sched, a: int)
    requires Shape(s) && Pointer(a)
    ensures Delete(s, a).main == s.main
  {
    if CanDelete(s, a) {
      var t := s.tasks[a];
      ListsOnly(s, t.prio, a);
      ListsOnly(s, BLOCKED_LIST, a);
      var s1 := if t.state == Ready then ListRemove(s, t.prio, a)
                else if t.state == Blocked then ListRemove(s, BLOCKED_LIST, a) else s;
      ListsOnly(SetState(s1, a, Terminated), FREE_LIST, a);
      hide ListAdd, ListRemove;
    }
  }

  lemma OtherMain(s: Sched, op: Op)
    requires Shape(s) && WellFormed(op)
    requires op.DoSleep? || op.DoFinish? || op.DoResume? || op.DoTickless? || op.DoEnable?
    ensures Apply(s, op).main == s.main
  {
    match op
    case DoSleep(n) =>
      var t := s.tasks[s.current].(sleep := n, wake := Later(s.tick, n), state := Blocked);
      ListsOnly(SetTask(s, s.current, t), BLOCKED_LIST, s.current);
      hide ListAdd, Later;
    case DoResume(a) =>
      if a != NULL { ReadyMain(SetState(s, a, Ready), a); }
      hide AddToReady;
    case _ => hide AddToReady, ListAdd;
  }

  lemma TickMain(s: Sched)
    requires Shape(s)
    ensures Tick(s).main == s.main
  {
    var s1 := s.(tick := Later(s.tick, 1));
    WakeMain(s1, Chain(s1.links, s1.heads[BLOCKED_LIST], SLOTS));
    hide WakeDue, Chain, NextWake, Later;
  }

  lemma {:induction false} WakeMain(s: Sched, l: seq<int>)
    requires Shape(s) && AllSlots(l)
    ensures WakeDue(s, l).main == s.main
    decreases |l|
  {
    hide Shape, WakeOne;
    if l != [] {
      WakeOneMain(s, l[0]);
      WakeMain(WakeOne(s, l[0]), l[1..]);
    }
  }

  lemma WakeOneMain(s: Sched, a: int)
    requires Shape(s) && Slot(a)
    ensures WakeOne(s, a).main == s.main
  {
    ListsOnly(s, BLOCKED_LIST, a);
    ReadyMain(SetState(ListRemove(s, BLOCKED_LIST, a), a, Ready), a);
    hide ListRemove, AddToReady;
  }

  // ---------------------------------------------------------------- the other calls of the running task

  /** A task whose entry function returns is Terminated, is on no list, and main runs; resuming it does nothing. */
  lemma FinishEffect(s: Sched, v: View)
    requires Inv(s, v) && s.current != s.main
    ensures var c, r := s.current, Finish(s);
            && r.current == s.main && Slot(c)
            && r.tasks == s.tasks[c := s.tasks[c].(state := Terminated)][s.main := s.tasks[s.main].(state := Running)]
            && Inv(r, v) && OnNone(v, c) && Resume(r, c) == r
  {
    FinishKeeps(s, v);
    CurrentOnNone(s, v);
    hide Spells, PlacedBut, Roles, OnNone;
  }

  lemma CurrentOnNone(s: Sched, v: View)
    requires Inv(s, v)
    ensures Slot(s.current) && OnNone(v, s.current)
  {
    hide Spells;
    assert Placed(s.tasks[s.current], v, s.current);
  }

  /** A task that yields is ready again, first on its list, and hands over. */
  lemma YieldEffect(s: Sched, v: View)
    requires Inv(s, v) && s.current != s.main
    ensures HandsOver(s, v, Yield(s), s.tasks[s.current].(state := Ready))
    ensures Yield(s).heads[s.tasks[s.current].prio] == s.current
  {
    var c := s.current;
    var s1 := SetState(s, c, Ready);
    var s2 := AddToReady(s1, c);
    PickIs(s, v);
    assert Pick(s1) == Pick(s) && s2.tasks == s1.tasks && s2.main == s.main;
    YieldHead(s, v);
    hide Partition, Pick, ContextSwitch, SwitchToMain, Best, AnyReady, Queued, AddToReady;
    SwitchTasks(s2, Pick(s1));
  }

  lemma YieldHead(s: Sched, v: View)
    requires Inv(s, v) && s.current != s.main
    ensures Yield(s).heads[s.tasks[s.current].prio] == s.current
  {
    var c, a := s.current, Pick(s);
    var s1 := SetState(s, c, Ready);
    assert Pick(s1) == a;
    PickIs(s, v);
    NotWaiting(s, v);
    if a != NULL {
      HeadNull(s, v, s.tasks[a].prio);
      BackLink(s, s1, c, a);
    }
  }

  lemma BackLink(s: Sched, s1: Sched, c: int, a: int)
    requires Shape(s) && Shape(s1) && Slot(c) && Slot(a) && a != c && s1.heads == s.heads && s1.links == s.links
    requires s1.tasks[c].prio == s.tasks[c].prio && s.heads[s.tasks[a].prio] == a
    requires s1.tasks[a].prio == s.tasks[a].prio
    ensures AddToReady(s1, c).heads[s.tasks[c].prio] == c
    ensures s.tasks[a].prio == s.tasks[c].prio ==> AddToReady(s1, c).links[a].prev == c
  {
  }

  /** Main, yielding or stepping, makes the best waiting task run; without one nothing happens. */
  lemma MainYields(s: Sched, v: View)
    requires Inv(s, v) && s.current == s.main && s.started
    ensures var r := Yield(s);
            if AnyReady(s, v) then
              && Best(s, v, r.current) && r.tasks == s.tasks[r.current := s.tasks[r.current].(state := Running)]
            else r == s
  {
    PickIs(s, v);
    hide Partition, Pick, ContextSwitch, SwitchToMain, Best, AnyReady, Queued;
    SwitchTasks(s, Pick(s));
  }

  /** A task that sleeps is blocked until then, main runs, and no other record changes. */
  lemma SleepEffect(s: Sched, n: nat)
    requires Shape(s) && s.current != s.main
    ensures var c, r := s.current, Sleep(s, n);
            && r.current == s.main && r.heads[BLOCKED_LIST] == c
            && r.tasks == s.tasks[c := s.tasks[c].(state := Blocked, sleep := n, wake := Later(s.tick, n))]
                                 [s.main := s.tasks[s.main].(state := Running)]
  {
    hide Later;
    var t := s.tasks[s.current].(sleep := n, wake := Later(s.tick, n), state := Blocked);
    ListsOnly(SetTask(s, s.current, t), BLOCKED_LIST, s.current);
    hide ListAdd;
  }

  /** Suspending a task that is neither ready nor asleep, nor the caller, does nothing. */
  lemma SuspendIgnored(s: Sched, a: int)
    requires Shape(s) && Slot(a) && a != s.current
    ensures Suspend(s, a) == s <==> s.tasks[a].state != Ready && s.tasks[a].state != Blocked
  {
    hide Bypass;
  }

  /** The first start from main makes the best waiting task run; a second one does nothing. */
  lemma StartEffect(s: Sched, v: View)
    requires Inv(s, v) && s.current == s.main
    ensures var r := Start(s);
            && r.started
            && (if !s.started && AnyReady(s, v) then
                  Best(s, v, r.current) && r.tasks == s.tasks[r.current := s.tasks[r.current].(state := Running)]
                else r == s.(started := true))
  {
    var s1 := s.(started := true);
    PickIs(s, v);
    assert Pick(s1) == Pick(s);
    StartedStays(s1);
    hide Partition, Pick, ContextSwitch, SwitchToMain, Best, AnyReady, Queued;
    SwitchTasks(s1, Pick(s1));
  }

  lemma StartedStays(s: Sched)
    requires Shape(s) && s.started
    ensures Step(s).started
  {
    hide Pick, Bypass;
  }

  /** Tickless idle moves the counter, and nothing else, exactly when it is on and another wake-up is recorded. */
  lemma TicklessIff(s: Sched)
    requires Shape(s)
    ensures Tickless(s) == s.(tick := Tickless(s).tick)
    ensures Tickless(s).tick != s.tick <==> s.tickless && s.nextWake != 0xFFFF_FFFF && s.nextWake != s.tick
    ensures Tickless(s).tick != s.tick ==> Tickless(s).tick == s.nextWake
  {
  }
}
