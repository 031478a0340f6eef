/** Whole runs of the scheduler: the partition, priorities, and waking on time. */
module SchedRuns {
  import opened Basics
  import opened Lists
  import opened SchedModel
  import opened SchedInv
  import opened SchedSteps
  import opened SchedIff
  import opened SchedTick

  // ---------------------------------------------------------------- every operation

  /** What a caller has to respect. */
  predicate Legal(s: Sched, op: Op)
    requires Shape(s) && WellFormed(op)
  {
    match op
    case DoStart => s.started || s.current == s.main || Pick(s) == NULL
    case DoStep => !s.started || s.current == s.main || Pick(s) == NULL
    case DoDelete(a) => MayDelete(s, a)
    case DoSuspend(a) => MaySuspend(s, a)
    case DoResume(a) => !(a == s.main && s.tasks[a].state == Suspended)
    case _ => true
  }

  lemma StartIff(s: Sched, v: View)
    requires Inv(s, v)
    ensures Good(Start(s)) <==> s.started || s.current == s.main || Pick(s) == NULL
  {
    if s.started {
      assert Inv(Start(s), v);
    } else {
      var s1 := s.(started := true);
      EnableKeeps(s, v, s1);
      StepIff(s1, v);
      hide Good, HighestFrom, Step;
      assert Pick(s1) == Pick(s);
    }
  }

  /** The counters and flags do not matter to the invariant. */
  lemma EnableKeeps(s: Sched, v: View, r: Sched)
    requires Inv(s, v) && r == s.(tick := r.tick, started := r.started, tickless := r.tickless)
    ensures Inv(r, v)
  {
    hide Spells, PlacedBut;
  }

  /** An operation keeps the invariant exactly when it is legal. */
  lemma KeepsIff(s: Sched, v: View, op: Op)
    requires Inv(s, v) && WellFormed(op)
    ensures Good(Apply(s, op)) <==> Legal(s, op)
  {
    assert Shape(s);
    hide Good, Inv, Shape, MayDelete, MaySuspend, Start, Step, Yield, Sleep, Finish, Tick, Tickless, Create, Delete,
         Suspend, Resume, Pick;
    match op
    case DoStart => StartIff(s, v);
    case DoStep => StepIff(s, v);
    case DoDelete(a) => DeleteIff(s, v, a);
    case DoSuspend(a) => SuspendIff(s, v, a);
    case DoResume(a) => ResumeIff(s, v, a);
    case _ => AlwaysKeeps(s, v, op);
  }

  /** The other operations keep the invariant whenever they are called. */
  lemma AlwaysKeeps(s: Sched, v: View, op: Op)
    requires Inv(s, v)
    requires op.DoYield? || op.DoSleep? || op.DoFinish? || op.DoTick? || op.DoTickless? || op.DoEnable? || op.DoCreate?
    ensures Shape(s) && Good(Apply(s, op))
  {
    assert Shape(s);
    hide Inv, Shape, Start, Step, Yield, Sleep, Finish, Tick, Create, Delete, Suspend, Resume;
    match op
    case DoYield => var w := YieldKeeps(s, v);
    case DoSleep(n) => var w := SleepKeeps(s, v, n);
    case DoFinish => FinishKeeps(s, v);
    case DoTick => var w := TickExact(s, v);
    case DoTickless => EnableKeeps(s, v, Tickless(s));
    case DoEnable(on) => EnableKeeps(s, v, s.(tickless := on));
    case DoCreate(prio, ok) => var w := CreateKeeps(s, v, prio, ok);
  }

  // ---------------------------------------------------------------- runs

  function Run(s: Sched, ops: seq<Op>): (r: Sched)
    requires Shape(s) && forall i :: 0 <= i < |ops| ==> WellFormed(ops[i])
    ensures Shape(r)
    decreases |ops|
  {
    if ops == [] then s else Run(Apply(s, ops[0]), ops[1..])
  }

  /** Every operation of the run is legal in the state it meets. */
  predicate LegalRun(s: Sched, ops: seq<Op>)
    requires Shape(s) && forall i :: 0 <= i < |ops| ==> WellFormed(ops[i])
    decreases |ops|
  {
    ops == [] || (Legal(s, ops[0]) && LegalRun(Apply(s, ops[0]), ops[1..]))
  }

  lemma RunOne(s: Sched, op: Op)
    requires Shape(s) && WellFormed(op)
    ensures Run(s, [op]) == Apply(s, op) && (LegalRun(s, [op]) <==> Legal(s, op))
  {
    hide Shape, Apply, Legal;
    var ops: seq<Op> := [op];
    assert ops[1..] == [] && ops[0] == op;
    assert LegalRun(Apply(s, op), ops[1..]) && Run(Apply(s, op), ops[1..]) == Apply(s, op);
  }

  lemma LegalKeeps(s: Sched, op: Op)
    requires Good(s) && Shape(s) && WellFormed(op)
    ensures Good(Apply(s, op)) <==> Legal(s, op)
  {
    hide Inv, Shape, Apply, Legal;
    var v :| Inv(s, v);
    KeepsIff(s, v, op);
  }

  /** After every legal run from a good state the slots are laid out over the lists as the invariant says. */
  lemma {:induction false} RunKeeps(s: Sched, ops: seq<Op>)
    requires Good(s) && Shape(s) && (forall i :: 0 <= i < |ops| ==> WellFormed(ops[i])) && LegalRun(s, ops)
    ensures Good(Run(s, ops))
    decreases |ops|
  {
    hide Good, Shape, Apply, Legal;
    if ops != [] {
      LegalKeeps(s, ops[0]);
      RunKeeps(Apply(s, ops[0]), ops[1..]);
    }
  }

  /** Every state of the run is good. */
  ghost predicate AlwaysGood(s: Sched, ops: seq<Op>)
    requires Shape(s) && forall i :: 0 <= i < |ops| ==> WellFormed(ops[i])
    decreases |ops|
  {
    Good(s) && (ops == [] || AlwaysGood(Apply(s, ops[0]), ops[1..]))
  }

  /** A run from a good state passes through good states only exactly when it is legal. */
  lemma {:induction false} RunGoodIff(s: Sched, ops: seq<Op>)
    requires Good(s) && Shape(s) && forall i :: 0 <= i < |ops| ==> WellFormed(ops[i])
    ensures AlwaysGood(s, ops) <==> LegalRun(s, ops)
    decreases |ops|
  {
    hide Good, Shape, Apply, Legal;
    if ops != [] {
      LegalKeeps(s, ops[0]);
      if Good(Apply(s, ops[0])) { RunGoodIff(Apply(s, ops[0]), ops[1..]); }
    }
  }

  // ---------------------------------------------------------------- priorities

  /** scheduler_step runs a task of maximal priority among the ready ones, never the idle task, if there is one. */
  lemma Dispatch(s: Sched, v: View)
    requires Inv(s, v) && s.started && s.current == s.main
    ensures var r := Step(s);
            if exists b :: Queued(s, v, b) && s.tasks[b].prio > IDLE then
              && Queued(s, v, r.current) && s.tasks[r.current].prio > IDLE && v[s.tasks[r.current].prio][0] == r.current
              && (forall b :: Queued(s, v, b) ==> s.tasks[b].prio <= s.tasks[r.current].prio)
              && r.tasks == s.tasks[r.current := s.tasks[r.current].(state := Running)]
            else r == s
  {
    PickFacts(s, v);
    hide Partition, HighestFrom, Pick;
    var a := Pick(s);
    if a == NULL {
      forall b | Queued(s, v, b) ensures s.tasks[b].prio <= IDLE { }
    } else {
      assert Queued(s, v, a);
      forall b | Queued(s, v, b) ensures s.tasks[b].prio <= s.tasks[a].prio { }
      assert Step(s).current == a;
    }
  }

  /** task_yield puts the caller first on its ready list and hands over to the best of the others, or to main. */
  lemma YieldHandsOver(s: Sched, v: View)
    requires Inv(s, v) && s.current != s.main
    ensures var r := Yield(s);
            && r.tasks[s.current] == s.tasks[s.current].(state := Ready) && r.current != s.current
            && if exists b :: Queued(s, v, b) && s.tasks[b].prio > IDLE then
                 && Queued(s, v, r.current) && s.tasks[r.current].prio > IDLE
                 && (forall b :: Queued(s, v, b) ==> s.tasks[b].prio <= s.tasks[r.current].prio)
               else r.current == s.main
  {
    PickFacts(s, v);
    var c, a := s.current, Pick(s);
    assert Pick(SetState(s, c, Ready)) == a;
    hide Partition, HighestFrom, Pick;
    if a == NULL {
      forall b | Queued(s, v, b) ensures s.tasks[b].prio <= IDLE { }
    } else {
      assert Queued(s, v, a);
      forall b | Queued(s, v, b) ensures s.tasks[b].prio <= s.tasks[a].prio { }
      assert Yield(s).current == a;
    }
  }

  // ---------------------------------------------------------------- what one call does and another undoes

  /** A created task takes the next free slot, first on the ready list of its priority; a failed one gives it back. */
  lemma CreateEffect(s: Sched, v: View, prio: nat, ok: bool)
    requires Inv(s, v)
    ensures CanCreate(s, prio) <==> v[FREE_LIST] != [] && prio <= CRITICAL
    ensures !CanCreate(s, prio) ==> Create(s, prio, ok) == s
    ensures CanCreate(s, prio) ==> Slot(v[FREE_LIST][0]) && Created(s, Create(s, prio, ok), v[FREE_LIST][0], prio, ok)
  {
    HeadNull(s, v, FREE_LIST);
    if CanCreate(s, prio) {
      var a := s.heads[FREE_LIST];
      var s1 := SetTask(ListRemove(s, FREE_LIST, a), a, Task(prio, Ready, 0, 0));
      hide Spells, PlacedBut, Push, Bypass;
      assert ok ==> AddToReady(s1, a).tasks == s1.tasks;
    }
  }

  ghost predicate Created(s: Sched, r: Sched, a: int, prio: nat, ok: bool) {
    && |s.tasks| == SLOTS && |r.heads| == |s.heads| == LISTS && Slot(a) && prio <= CRITICAL
    && s.heads[FREE_LIST] == a && r.heads[if ok then prio else FREE_LIST] == a
    && r.tasks == s.tasks[a := Task(prio, Ready, 0, 0)] && r.current == s.current
  }

  /** Deleting what was just created frees the same slot again and leaves every other task alone. */
  lemma CreateDelete(s: Sched, v: View, prio: nat)
    requires Inv(s, v) && CanCreate(s, prio)
    ensures var a := s.heads[FREE_LIST];
            var r := Delete(Create(s, prio, true), a);
            Slot(a) && r.heads[FREE_LIST] == a && r.tasks == s.tasks[a := Task(prio, Terminated, 0, 0)] && Good(r)
  {
    var a := s.heads[FREE_LIST];
    CreateEffect(s, v, prio, true);
    FreeHead(s, v, a);
    var w := CreateKeeps(s, v, prio, true);
    var c := Create(s, prio, true);
    assert a != s.current && c.tasks[a].state == Ready && c.heads[prio] == a;
    HeadNull(c, w, prio);
    HeadNull(c, w, FREE_LIST);
    OnOneList(c, w, prio, FREE_LIST, a);
    hide Inv, Create;
    DeleteEffect(c, a);
    DeleteIff(c, w, a);
  }

  lemma OnOneList(s: Sched, v: View, p: int, q: int, a: int)
    requires Inv(s, v) && 0 <= p < LISTS && 0 <= q < LISTS && p != q && a in v[p]
    ensures a !in v[q]
  {
    assert Apart(v, p, q);
  }

  /** A deleted task is terminated and next in line to be used again; no other record changes. */
  lemma DeleteEffect(s: Sched, a: int)
    requires Shape(s) && Pointer(a)
    ensures if CanDelete(s, a) then
              Delete(s, a).tasks == s.tasks[a := s.tasks[a].(state := Terminated)] && Delete(s, a).heads[FREE_LIST] == a
            else Delete(s, a) == s
  {
  }

  /** Resuming undoes suspending: a ready task is ready again, a sleeping one is ready at once. */
  lemma SuspendResume(s: Sched, v: View, a: int)
    requires Inv(s, v) && Slot(a) && a != s.current && (s.tasks[a].state == Ready || s.tasks[a].state == Blocked)
    ensures Suspend(s, a).tasks[a].state == Suspended
    ensures Resume(Suspend(s, a), a).tasks == if s.tasks[a].state == Ready then s.tasks
                                              else s.tasks[a := s.tasks[a].(state := Ready, wake := 0, sleep := 0)]
    ensures Resume(Suspend(s, a), a).heads[s.tasks[a].prio] == a
  {
    hide Spells, PlacedBut, Push, Bypass;
    var r := Suspend(s, a);
    assert r.tasks[a].prio == s.tasks[a].prio && r.tasks[a].state == Suspended;
    assert r.tasks == s.tasks[a := r.tasks[a]];
    assert Resume(r, a).tasks == r.tasks[a := r.tasks[a].(state := Ready)];
  }

  // ---------------------------------------------------------------- sleeping

  /** The operation is not aimed at task `a`. */
  predicate LeavesAlone(op: Op, a: int) {
    op != DoDelete(a) && op != DoSuspend(a)
  }

  /** Only a tick that reaches its wake time touches a sleeping task. */
  lemma SleeperStep(s: Sched, v: View, op: Op, a: int)
    requires Inv(s, v) && WellFormed(op) && Slot(a) && s.tasks[a].state == Blocked && LeavesAlone(op, a)
    ensures Apply(s, op).tasks[a] ==
            if op.DoTick? && s.tasks[a].wake <= Later(s.tick, 1) then s.tasks[a].(state := Ready) else s.tasks[a]
  {
    assert Shape(s);
    hide Inv, Shape, Start, Step, Yield, Sleep, Finish, Tick, Tickless, Create, Delete, Suspend, Resume, Later;
    match op
    case DoTick => TickSleeper(s, v, a);
    case DoStart => StepSleeper(s, v, a);
    case DoStep => StepSleeper(s, v, a);
    case DoYield => YieldSleeper(s, v, a);
    case DoSuspend(b) => SuspendSleeper(s, v, a, b);
    case DoCreate(prio, ok) => CreateSleeper(s, v, prio, ok, a);
    case _ => OtherSleeper(s, v, op, a);
  }

  lemma OtherSleeper(s: Sched, v: View, op: Op, a: int)
    requires Inv(s, v) && WellFormed(op) && Slot(a) && s.tasks[a].state == Blocked && LeavesAlone(op, a)
    requires op.DoSleep? || op.DoFinish? || op.DoDelete? || op.DoResume? || op.DoTickless? || op.DoEnable?
    ensures Apply(s, op).tasks[a] == s.tasks[a]
  {
    assert Shape(s) && a != s.main && a != s.current;
    hide Spells, PlacedBut, Push, Bypass, Later;
  }

  lemma StepSleeper(s: Sched, v: View, a: int)
    requires Inv(s, v) && Slot(a) && s.tasks[a].state == Blocked
    ensures Step(s).tasks[a] == Start(s).tasks[a] == s.tasks[a]
  {
    var s1 := s.(started := true);
    PickedOther(s, v, s, a);
    PickedOther(s, v, s1, a);
    hide Spells, PlacedBut, Pick, ContextSwitch, SwitchToMain;
    SwitchOther(s, Pick(s), a);
    SwitchOther(s1, Pick(s1), a);
  }

  lemma TickSleeper(s: Sched, v: View, a: int)
    requires Inv(s, v) && Slot(a) && s.tasks[a].state == Blocked
    ensures Tick(s).tasks[a] == if s.tasks[a].wake <= Later(s.tick, 1) then s.tasks[a].(state := Ready) else s.tasks[a]
  {
    assert Shape(s);
    hide Inv, Shape, Tick, Earliest, Later;
    var w := TickExact(s, v);
  }

  /** Switching touches the chosen task and main only. */
  lemma SwitchOther(s: Sched, n: int, a: int)
    requires Shape(s) && Slot(a) && a != s.main && a != n && Pointer(n)
    ensures SwitchToMain(s).tasks[a] == s.tasks[a]
    ensures n != NULL ==> ContextSwitch(s, n).tasks[a] == s.tasks[a]
  {
  }

  lemma YieldSleeper(s: Sched, v: View, a: int)
    requires Inv(s, v) && Slot(a) && s.tasks[a].state == Blocked
    ensures Yield(s).tasks[a] == s.tasks[a]
  {
    var c := s.current;
    if c == s.main {
      PickedOther(s, v, s, a);
      SwitchOther(s, Pick(s), a);
    } else {
      var s1 := SetState(s, c, Ready);
      PickedOther(s, v, s1, a);
      assert AddToReady(s1, c).tasks[a] == s.tasks[a] && AddToReady(s1, c).main == s.main;
      hide Spells, PlacedBut, Shape, Pick, AddToReady, ContextSwitch, SwitchToMain;
      SwitchOther(AddToReady(s1, c), Pick(s1), a);
    }
  }

  lemma SuspendSleeper(s: Sched, v: View, a: int, b: int)
    requires Inv(s, v) && Slot(a) && s.tasks[a].state == Blocked && Pointer(b) && b != a
    ensures Suspend(s, b).tasks[a] == s.tasks[a]
  {
    if b == s.current {
      var s1 := SetState(s, b, Suspended);
      PickedOther(s, v, s1, a);
      hide Spells, PlacedBut, Pick, ContextSwitch, SwitchToMain;
      SwitchOther(s1, Pick(s1), a);
    } else {
      hide Spells, PlacedBut, Pick, ContextSwitch, SwitchToMain;
    }
  }

  lemma CreateSleeper(s: Sched, v: View, prio: nat, ok: bool, a: int)
    requires Inv(s, v) && Slot(a) && s.tasks[a].state == Blocked
    ensures Create(s, prio, ok).tasks[a] == s.tasks[a]
  {
    if CanCreate(s, prio) {
      FreeHead(s, v, s.heads[FREE_LIST]);
      hide Spells, PlacedBut;
    }
  }

  lemma PickedOther(s: Sched, v: View, r: Sched, a: int)
    requires Inv(s, v) && Slot(a) && s.tasks[a].state == Blocked && Shape(r) && r.heads == s.heads
    requires forall b :: 0 <= b < SLOTS ==> r.tasks[b].prio == s.tasks[b].prio
    ensures Pick(r) != a
  {
    PickQueued(s, v);
    assert Pick(r) == Pick(s);
  }

  /** No tick of the run reaches count `w`. */
  ghost predicate NoneReach(s: Sched, ops: seq<Op>, w: nat)
    requires Shape(s) && forall i :: 0 <= i < |ops| ==> WellFormed(ops[i])
    decreases |ops|
  {
    ops == [] || ((ops[0].DoTick? ==> Later(s.tick, 1) < w) && NoneReach(Apply(s, ops[0]), ops[1..], w))
  }

  /**
   * A sleeping task that no call is aimed at stays asleep through every run in which no tick reaches its wake time, and
   * becomes ready on the first tick that does.
   */
  lemma {:induction false} SleeperRun(s: Sched, ops: seq<Op>, a: int)
    requires Shape(s) && Good(s) && (forall i :: 0 <= i < |ops| ==> WellFormed(ops[i])) && LegalRun(s, ops)
    requires Slot(a) && s.tasks[a].state == Blocked && forall i :: 0 <= i < |ops| ==> LeavesAlone(ops[i], a)
    requires NoneReach(s, ops, s.tasks[a].wake)
    ensures Run(s, ops).tasks[a] == s.tasks[a]
    ensures s.tasks[a].wake <= Later(Run(s, ops).tick, 1) ==> Tick(Run(s, ops)).tasks[a] == s.tasks[a].(state := Ready)
    decreases |ops|
  {
    hide Inv, Shape, Apply, Legal, Later, Tick;
    if ops == [] {
      var v :| Inv(s, v);
      TickSleeper(s, v, a);
    } else {
      var v :| Inv(s, v);
      SleeperStep(s, v, ops[0], a);
      KeepsIff(s, v, ops[0]);
      SleeperRun(Apply(s, ops[0]), ops[1..], a);
    }
  }

  /** The task that calls task_sleep is then asleep until `n` ticks later. */
  lemma SleepRecords(s: Sched, v: View, n: nat)
    requires Inv(s, v) && s.current != s.main
    ensures Sleep(s, n).tasks[s.current] == s.tasks[s.current].(state := Blocked, sleep := n, wake := Later(s.tick, n))
    ensures var r := Sleep(s, n);
            r.current == s.main && r.tick == s.tick && r.nextWake == s.nextWake && r.tickless == s.tickless
  {
    hide Spells, PlacedBut, Later;
  }

  // ---------------------------------------------------------------- tickless idle

  /** The recorded wake-up is never in the past. */
  ghost predicate Timed(s: Sched) { s.tick <= s.nextWake <= NEVER }

  lemma TickAhead(s: Sched, v: View)
    requires Inv(s, v)
    ensures Timed(Tick(s))
    ensures var r := Tick(s); forall a :: 0 <= a < SLOTS && r.tasks[a].state == Blocked ==> r.tick < r.tasks[a].wake
  {
    assert Shape(s);
    hide Inv, Shape, Tick, Ticked, Timed;
    var w := TickExact(s, v);
    TickedAhead(s, Tick(s));
  }

  lemma TickedAhead(s: Sched, r: Sched)
    requires Ticked(s, r)
    ensures Timed(r) && forall a :: 0 <= a < SLOTS && r.tasks[a].state == Blocked ==> r.tick < r.tasks[a].wake
  {
    hide Later;
  }

  lemma SwitchClock(s: Sched, a: int)
    requires Shape(s) && Slot(a)
    ensures ContextSwitch(s, a).tick == s.tick && ContextSwitch(s, a).nextWake == s.nextWake
    ensures SwitchToMain(s).tick == s.tick && SwitchToMain(s).nextWake == s.nextWake
  {
  }

  lemma ClockKept(s: Sched, op: Op)
    requires Shape(s) && WellFormed(op) && !op.DoTick? && !op.DoTickless?
    ensures Apply(s, op).tick == s.tick && Apply(s, op).nextWake == s.nextWake
  {
    match op
    case DoStart => StepClock(s.(started := true));
    case DoStep => StepClock(s);
    case DoYield => YieldClock(s);
    case DoSuspend(a) => SuspendClock(s, a);
    case _ =>
  }

  lemma StepClock(s: Sched)
    requires Shape(s)
    ensures Step(s).tick == s.tick && Step(s).nextWake == s.nextWake
  {
    hide Pick, ContextSwitch, SwitchToMain, Shape;
    if Pick(s) != NULL { SwitchClock(s, Pick(s)); }
  }

  lemma YieldClock(s: Sched)
    requires Shape(s)
    ensures Yield(s).tick == s.tick && Yield(s).nextWake == s.nextWake
  {
    StepClock(s);
    hide Pick, ContextSwitch, SwitchToMain, HighestFrom, Step;
    var s1 := SetState(s, s.current, Ready);
    var s2 := AddToReady(s1, s.current);
    assert Shape(s2) && s2.tick == s.tick && s2.nextWake == s.nextWake;
    hide AddToReady, Shape;
    SwitchClock(s2, s.main);
    if Pick(s1) != NULL { SwitchClock(s2, Pick(s1)); }
  }

  lemma SuspendClock(s: Sched, a: int)
    requires Shape(s) && Pointer(a)
    ensures Suspend(s, a).tick == s.tick && Suspend(s, a).nextWake == s.nextWake
  {
    hide Pick, ContextSwitch, SwitchToMain, HighestFrom;
    if a == s.current {
      var s1 := SetState(s, a, Suspended);
      SwitchClock(s1, s.main);
      if Pick(s1) != NULL { SwitchClock(s1, Pick(s1)); }
    }
  }

  lemma TimedStep(s: Sched, v: View, op: Op)
    requires Inv(s, v) && WellFormed(op) && Timed(s)
    ensures Timed(Apply(s, op))
    ensures !op.DoTick? ==> s.tick <= Apply(s, op).tick
  {
    if op.DoTick? {
      TickAhead(s, v);
    } else if !op.DoTickless? {
      ClockKept(s, op);
      hide Inv, Apply, Shape;
    }
  }

  /** Over every run the recorded wake-up is never in the past, so tickless idle never turns the counter back. */
  lemma {:induction false} RunTimed(s: Sched, ops: seq<Op>)
    requires Shape(s) && Good(s) && Timed(s) && (forall i :: 0 <= i < |ops| ==> WellFormed(ops[i])) && LegalRun(s, ops)
    ensures Timed(Run(s, ops)) && Run(s, ops).tick <= Tickless(Run(s, ops)).tick
    decreases |ops|
  {
    hide Inv, Shape, Apply, Legal, Timed, Tickless;
    if ops == [] {
      TicklessForward(s);
    } else {
      var v :| Inv(s, v);
      TimedStep(s, v, ops[0]);
      KeepsIff(s, v, ops[0]);
      RunTimed(Apply(s, ops[0]), ops[1..]);
    }
  }

  lemma TicklessForward(s: Sched)
    requires Shape(s) && Timed(s)
    ensures s.tick <= Tickless(s).tick
  {
  }

  /** Right after a tick, tickless idle jumps to the earliest wake time and past none. */
  lemma TicklessAfterTick(s: Sched, v: View)
    requires Inv(s, v)
    ensures var r := Tickless(Tick(s));
            && Tick(s).tick <= r.tick && r.tasks == Tick(s).tasks
            && (forall a :: 0 <= a < SLOTS && r.tasks[a].state == Blocked ==> r.tick <= r.tasks[a].wake)
            && (s.tickless && (exists a :: 0 <= a < SLOTS && r.tasks[a].state == Blocked && r.tasks[a].wake < NEVER) ==>
                  exists a :: 0 <= a < SLOTS && r.tasks[a].state == Blocked && r.tasks[a].wake == r.tick)
  {
    assert Shape(s);
    TickAhead(s, v);
    hide Inv, Shape, Tick, Later;
    var w := TickExact(s, v);
  }

  /**
   * A task that goes to sleep after the last tick is not counted in the recorded wake-up: tickless idle then passes its
   * wake time exactly when a later wake-up is recorded.
   */
  lemma SleepThenTickless(s: Sched, v: View, n: nat)
    requires Inv(s, v) && Timed(s) && s.current != s.main && s.tick + n < U32
    ensures Tickless(Sleep(s, n)).tick <= Sleep(s, n).tasks[s.current].wake
            <==> !s.tickless || s.nextWake == NEVER || s.nextWake <= s.tick + n
  {
    SleepRecords(s, v, n);
    LaterSmall(s.tick, n);
    hide Inv, Shape, Sleep, Later;
  }

  lemma LaterSmall(t: nat, n: nat)
    requires t + n < U32
    ensures Later(t, n) == t + n
  {
  }
}
