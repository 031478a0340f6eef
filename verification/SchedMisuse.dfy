/** Calls that break the scheduler's lists or wake times, at the end of runs from scheduler_init. */
module SchedMisuse {
  import opened Basics
  import opened Lists
  import opened SchedModel
  import opened SchedInv
  import opened SchedSteps
  import opened SchedIff
  import opened SchedTick
  import opened SchedRuns
  import opened SchedSleep
  import opened SchedInit

  /** Slots 5 to 0 are free after start-up, 5 being next, and main has slot 6. */
  lemma AfterInit() returns (v: View)
    ensures Booted(Init(true), v, 6, [5, 4, 3, 2, 1, 0])
  {
    hide Init, Booted;
    v := InitWith(SLOTS);
    assert Slots(SLOTS)[2..] == [5, 4, 3, 2, 1, 0];
  }

  // ---------------------------------------------------------------- the next free slot

  /** Deleting or suspending the next free slot breaks the lists, in every state that has one in its unused state. */
  lemma NextFree(s: Sched, v: View)
    requires Inv(s, v) && s.heads[FREE_LIST] != NULL
    ensures Slot(s.heads[FREE_LIST]) && !Good(Delete(s, s.heads[FREE_LIST]))
    ensures s.tasks[s.heads[FREE_LIST]].state == Ready ==> !Good(Suspend(s, s.heads[FREE_LIST]))
  {
    var a := s.heads[FREE_LIST];
    FreeHead(s, v, a);
    WalkIs(s, v, FREE_LIST);
    DeleteIff(s, v, a);
    SuspendIff(s, v, a);
  }

  /** Right after start-up, deleting or suspending slot 5. */
  lemma FreshSlot()
    ensures Good(Init(true)) && !Good(Delete(Init(true), 5)) && !Good(Suspend(Init(true), 5))
  {
    hide Init, Inv, Delete, Suspend, Good;
    var v := AfterInit();
    FreshOf(Init(true), v);
  }

  lemma FreshOf(s: Sched, v: View)
    requires Booted(s, v, 6, [5, 4, 3, 2, 1, 0])
    ensures Shape(s) && Good(s) && !Good(Delete(s, 5)) && !Good(Suspend(s, 5))
  {
    HeadNull(s, v, FREE_LIST);
    hide Spells, PlacedBut, Delete, Suspend;
    NextFree(s, v);
  }

  // ---------------------------------------------------------------- ready tasks

  lemma ReadyQueued(s: Sched, v: View, a: int)
    requires Inv(s, v) && Slot(a) && s.tasks[a].state == Ready && a !in v[FREE_LIST]
    ensures Queued(s, v, a)
  {
    assert Placed(s.tasks[a], v, a);
  }

  /** A new task of normal priority is ready, and so are those that were. */
  lemma CreateNext(s: Sched, v: View, free: seq<int>) returns (w: View)
    requires Inv(s, v) && v[FREE_LIST] == free && free != [] && NoDup(free)
    ensures var r, a := Create(s, NORMAL, true), free[0];
            && Inv(r, w) && w[FREE_LIST] == free[1..] && Queued(r, w, a) && Created(s, r, a, NORMAL, true)
            && (forall b :: Queued(s, v, b) && b !in free ==> Queued(r, w, b) && b != a)
  {
    var r, a := Create(s, NORMAL, true), free[0];
    CreateEffect(s, v, NORMAL, true);
    w := CreateKeeps(s, v, NORMAL, true);
    hide Inv, Create;
    assert a !in free[1..];
    ReadyQueued(r, w, a);
    forall b | Queued(s, v, b) && b !in free ensures Queued(r, w, b) && b != a {
      assert b !in free[1..] && r.tasks[b] == s.tasks[b];
      ReadyQueued(r, w, b);
    }
  }

  /** Main runs, nothing is asleep, nothing has been started. */
  ghost predicate Resting(s: Sched, main: int) {
    && s.current == s.main == main && s.tick == 0 && s.nextWake == NEVER && !s.started && s.tickless
    && |s.tasks| == SLOTS && forall a :: 0 <= a < SLOTS ==> s.tasks[a].state != Blocked
  }

  lemma CreateResting(s: Sched, v: View, main: int)
    requires Inv(s, v) && Resting(s, main)
    ensures Resting(Create(s, NORMAL, true), main)
  {
    CreateEffect(s, v, NORMAL, true);
    hide Spells, PlacedBut;
  }

  /** Two different tasks that are ready, and main running. */
  ghost predicate Two(s: Sched, v: View, a: int, b: int) {
    && Inv(s, v) && s.current == s.main && a != b && Queued(s, v, a) && Queued(s, v, b)
    && s.tasks[a].prio == s.tasks[b].prio == NORMAL
  }

  lemma BootedResting(s: Sched, v: View, main: int, free: seq<int>)
    requires Booted(s, v, main, free)
    ensures Inv(s, v) && Shape(s) && Resting(s, main) && NoDup(free) && v[FREE_LIST] == free
  {
    assert SpellsAt(s.heads, s.links, v, FREE_LIST);
    assert s.tasks[main].state == Running;
    hide Spells, PlacedBut, Linked;
  }

  lemma FirstTask(s: Sched, v: View, main: int, free: seq<int>) returns (w: View)
    requires Booted(s, v, main, free) && free != []
    ensures Shape(s) && One(Create(s, NORMAL, true), w, main, free[0], free[1..])
  {
    BootedResting(s, v, main, free);
    hide Inv, Create, Booted;
    CreateResting(s, v, main);
    w := CreateNext(s, v, free);
  }

  /** One ready task `a`, and the slots `free` left. */
  ghost predicate One(s: Sched, v: View, main: int, a: int, free: seq<int>) {
    && Inv(s, v) && Resting(s, main) && v[FREE_LIST] == free && NoDup(free) && a !in free
    && Queued(s, v, a) && s.tasks[a].prio == NORMAL
  }

  lemma SecondTask(s: Sched, v: View, main: int, a: int, free: seq<int>) returns (w: View)
    requires One(s, v, main, a, free) && free != []
    ensures Shape(s) && Two(Create(s, NORMAL, true), w, a, free[0]) && Resting(Create(s, NORMAL, true), main)
  {
    InvShape(s, v);
    hide Inv, Create, NoDup;
    CreateResting(s, v, main);
    w := CreateNext(s, v, free);
  }

  lemma InvShape(s: Sched, v: View)
    requires Inv(s, v)
    ensures Shape(s) && |s.tasks| == SLOTS
  {
  }

  // ---------------------------------------------------------------- main resumed

  /** Main suspends itself while another task is ready: resuming it then puts it on a list it must not be on. */
  lemma MainResumed(s: Sched, v: View)
    requires Inv(s, v) && s.current == s.main && Pick(s) != NULL
    ensures Good(Suspend(s, s.main)) && !Good(Resume(Suspend(s, s.main), s.main))
  {
    var r := Suspend(s, s.main);
    var w := SuspendSelf(s, v);
    PickQueued(s, v);
    MainAside(s);
    ResumeIff(r, w, s.main);
  }

  lemma MainAside(s: Sched)
    requires Shape(s) && Roles(s) && s.current == s.main && Pick(s) != NULL && s.tasks[Pick(s)].state == Ready
    ensures var r := Suspend(s, s.main); r.main == s.main && r.tasks[s.main].state == Suspended
  {
    assert Pick(SetState(s, s.main, Suspended)) == Pick(s);
    hide HighestFrom, Pick;
  }

  lemma QueuedPicked(s: Sched, v: View, a: int)
    requires Inv(s, v) && Queued(s, v, a) && s.tasks[a].prio > IDLE
    ensures Pick(s) != NULL
  {
    PickFacts(s, v);
  }

  /** From start-up: create a task, main suspends itself, that task resumes main. */
  lemma ResumeRun()
    ensures var s := Create(Init(true), NORMAL, true);
            Good(s) && s.main == 6 && Good(Suspend(s, 6)) && !Good(Resume(Suspend(s, 6), 6))
  {
    hide Init, Inv, Create, Suspend, Resume;
    var v := AfterInit();
    var w := FirstTask(Init(true), v, 6, [5, 4, 3, 2, 1, 0]);
    QueuedPicked(Create(Init(true), NORMAL, true), w, 5);
    MainResumed(Create(Init(true), NORMAL, true), w);
  }

  // ---------------------------------------------------------------- a task that steps

  /** Of two ready tasks one is left ready when step has run the best one. */
  lemma StepLeavesOne(s: Sched, v: View, a: int, b: int) returns (w: View, q: int)
    requires Two(s, v, a, b) && s.started
    ensures var r := Step(s);
            && Inv(r, w) && r.current != s.main && r.main == s.main && r.started
            && r.current == Pick(s) && Slot(r.current)
            && r.tasks == s.tasks[r.current := s.tasks[r.current].(state := Running)]
            && Queued(r, w, q) && r.tasks[q].prio == NORMAL && (q == a || q == b)
  {
    var p := Pick(s);
    QueuedPicked(s, v, a);
    PickQueued(s, v);
    q := if p == a then b else a;
    w := Drop(v, s.tasks[p].prio, p);
    StepSwitches(s, v, p);
    StillQueued(s, v, p, q);
  }

  lemma StepSwitches(s: Sched, v: View, p: int)
    requires Inv(s, v) && s.current == s.main && s.started && p == Pick(s) && Queued(s, v, p)
    ensures var r := Step(s);
            && Inv(r, Drop(v, s.tasks[p].prio, p)) && r.current == p != s.main && r.main == s.main && r.started
            && r.tasks == s.tasks[p := s.tasks[p].(state := Running)]
  {
    hide Pick, Drop;
    ToTask(s, v, p);
  }

  lemma StillQueued(s: Sched, v: View, p: int, q: int)
    requires Inv(s, v) && Queued(s, v, p) && Queued(s, v, q) && p != q
    ensures q in Drop(v, s.tasks[p].prio, p)[s.tasks[q].prio]
  {
    assert SpellsAt(s.heads, s.links, v, s.tasks[p].prio);
    hide Spells, PlacedBut, Drop;
    DropOthers(v, s.tasks[p].prio, p);
  }

  /** A dispatched task that steps with another one ready leaves two tasks running. */
  lemma StepTwice(s: Sched, v: View, a: int, b: int)
    requires Two(s, v, a, b) && s.started
    ensures Shape(s) && Good(Step(s)) && !Good(Step(Step(s)))
  {
    InvShape(s, v);
    hide Inv, Step, Queued;
    var w, q := StepLeavesOne(s, v, a, b);
    QueuedPicked(Step(s), w, q);
    StepIff(Step(s), w);
  }

  lemma Started(s: Sched, v: View, a: int, b: int)
    requires Two(s, v, a, b) && !s.started
    ensures Shape(s) && Two(s.(started := true), v, a, b) && Start(s) == Step(s.(started := true))
  {
    PartitionFields(s, s.(started := true), v);
    hide Spells, PlacedBut, Step;
  }

  /** From start-up: two tasks are created, the scheduler is started, and the task it runs calls step. */
  lemma StepRun()
    ensures var s := Create(Create(Init(true), NORMAL, true), NORMAL, true);
            Good(Start(s)) && !Good(Step(Start(s)))
  {
    hide Init, Create, Inv, Step, Start, Queued, Good;
    var v, s := TwoTasks();
    Started(s, v, 5, 4);
    StepTwice(s.(started := true), v, 5, 4);
  }

  /** Start-up and two created tasks. */
  lemma TwoTasks() returns (v: View, s: Sched)
    ensures s == Create(Create(Init(true), NORMAL, true), NORMAL, true) && Two(s, v, 5, 4) && Resting(s, 6)
  {
    hide Init, Create, Inv, Queued, NoDup, Resting;
    var v0 := AfterInit();
    var free := [5, 4, 3, 2, 1, 0];
    var v1 := FirstTask(Init(true), v0, 6, free);
    assert free[1..][0] == 4;
    v := SecondTask(Create(Init(true), NORMAL, true), v1, 6, 5, free[1..]);
    s := Create(Create(Init(true), NORMAL, true), NORMAL, true);
  }

  // ---------------------------------------------------------------- sleeps

  /** A task `p` runs and another one, `q`, is ready; nothing is asleep. */
  ghost predicate Underway(s: Sched, v: View, q: int) {
    && Inv(s, v) && s.current != s.main && s.started && s.tickless && s.tick == 0
    && Queued(s, v, q) && s.tasks[q].prio == NORMAL && q !in v[FREE_LIST]
    && forall a :: 0 <= a < SLOTS ==> s.tasks[a].state != Blocked
  }

  lemma Dispatched(s: Sched, v: View, a: int, b: int, main: int) returns (w: View, q: int)
    requires Two(s, v, a, b) && Resting(s, main)
    ensures Shape(s) && Underway(Start(s), w, q)
  {
    Started(s, v, a, b);
    var s1 := s.(started := true);
    StepClock(s1);
    hide Inv, Queued;
    w, q := StepLeavesOne(s1, v, a, b);
    QueuedNotFree(Step(s1), w, q);
    assert Step(s1).tickless by { StepTickless(s1); }
    hide Step, Pick;
  }

  lemma StepTickless(s: Sched)
    requires Shape(s)
    ensures Step(s).tickless == s.tickless
  {
    hide Pick;
  }

  lemma QueuedNotFree(s: Sched, v: View, q: int)
    requires Inv(s, v) && Queued(s, v, q)
    ensures q !in v[FREE_LIST]
  {
    OnOneList(s, v, s.tasks[q].prio, FREE_LIST, q);
  }

  /** The running task sleeps for 100 ticks and the first of them passes: the wake-up at 100 is recorded. */
  lemma FirstSleeps(s: Sched, v: View, q: int) returns (w: View)
    requires Underway(s, v, q)
    ensures Shape(s)
    ensures var r := Tick(Sleep(s, 100));
            && Inv(r, w) && r.current == r.main && r.started && r.tickless && r.tick == 1 && r.nextWake == 100
            && Queued(r, w, q) && r.tasks[q].prio == NORMAL
  {
    InvShape(s, v);
    var c, s1 := s.current, Sleep(s, 100);
    SleepRecords(s, v, 100);
    SleepOthers(s, v, 100, q);
    LaterIs(0, 100);
    LaterIs(0, 1);
    hide Inv, Shape, Sleep, Tick, Later, Queued;
    var w1 := SleepKeeps(s, v, 100);
    w := TickExact(s1, w1);
    Recorded(s, s1, Tick(s1));
    ReadyQueued(Tick(s1), w, q);
  }

  /** task_sleep changes the records of the caller and of main only. */
  lemma SleepOthers(s: Sched, v: View, n: nat, q: int)
    requires Inv(s, v) && s.current != s.main && Queued(s, v, q)
    ensures var r := Sleep(s, n);
            && |r.tasks| == SLOTS && Slot(s.current) && Slot(q) && r.started == s.started && r.main == s.main
            && r.tasks[q] == s.tasks[q] && q != s.current
            && (forall a :: 0 <= a < SLOTS && a != s.current && r.tasks[a].state == Blocked
                            ==> s.tasks[a].state == Blocked)
  {
    hide Spells, PlacedBut, Later;
  }

  lemma Recorded(s: Sched, s1: Sched, r: Sched)
    requires |s.tasks| == SLOTS && Slot(s.current) && Ticked(s1, r) && Later(s1.tick, 1) == 1
    requires s1.tasks[s.current].state == Blocked && s1.tasks[s.current].wake == 100
    requires forall a :: 0 <= a < SLOTS && a != s.current ==> s1.tasks[a].state != Blocked
    ensures r.tick == 1 && r.nextWake == 100 && forall a :: 0 <= a < SLOTS ==> r.tasks[a] == s1.tasks[a]
  {
    hide Later;
    var c := s.current;
    assert r.tasks[c] == s1.tasks[c];
  }

  /** With a wake-up at 100 recorded, a sleep of 10 ticks from tick 1 is passed by tickless idle. */
  lemma SecondPassed(s: Sched, v: View, q: int)
    requires Inv(s, v) && s.current == s.main && s.started && s.tickless && s.tick == 1 && s.nextWake == 100
    requires Queued(s, v, q) && s.tasks[q].prio == NORMAL
    ensures Shape(s)
    ensures var r := Step(s);
            && Slot(r.current) && Sleep(r, 10).tasks[r.current].wake == 11
            && Sleep(r, 10).tasks[r.current].state == Blocked
            && Tickless(Sleep(r, 10)).tick == 100
  {
    InvShape(s, v);
    QueuedPicked(s, v, q);
    PickQueued(s, v);
    StepSwitches(s, v, Pick(s));
    StepClock(s);
    StepTickless(s);
    var r, w := Step(s), Drop(v, s.tasks[Pick(s)].prio, Pick(s));
    LaterIs(1, 10);
    hide Inv, Shape, Sleep, Step, Pick, Drop, Queued, Later;
    SleepRecords(r, w, 10);
  }

  /** From start-up: two tasks; one sleeps for 100 ticks, a tick later the other for 10; tickless idle jumps to 100. */
  lemma TicklessRun()
    ensures var s := Create(Create(Init(true), NORMAL, true), NORMAL, true);
            var r := Step(Tick(Sleep(Start(s), 100)));
            Slot(r.current) && Sleep(r, 10).tasks[r.current].state == Blocked
            && Sleep(r, 10).tasks[r.current].wake == 11 && Tickless(Sleep(r, 10)).tick == 100
  {
    hide Init, Create, Inv, Step, Start, Sleep, Tick, Tickless, Queued, Resting;
    var v, s := TwoTasks();
    var w, q := Dispatched(s, v, 5, 4, 6);
    var u := FirstSleeps(Start(s), w, q);
    SecondPassed(Tick(Sleep(Start(s), 100)), u, q);
  }

  /** `k` ticks and nothing else. */
  function OnlyTicks(k: nat): (ops: seq<Op>)
    ensures |ops| == k && (forall i :: 0 <= i < k ==> ops[i] == DoTick) && Calls(ops)
  {
    seq(k, _ => DoTick)
  }

  lemma {:induction false} TicksOf(ops: seq<Op>)
    requires forall i :: 0 <= i < |ops| ==> ops[i] == DoTick
    ensures Ticks(ops) == |ops|
  {
    if ops != [] { TicksOf(ops[1..]); }
  }

  /** Ticks leave the running task running. */
  lemma {:induction false} TicksPass(s: Sched, ops: seq<Op>)
    requires Shape(s) && Good(s) && forall i :: 0 <= i < |ops| ==> ops[i] == DoTick
    ensures LegalRun(s, ops) && Good(Run(s, ops)) && Run(s, ops).current == s.current && Run(s, ops).main == s.main
    decreases |ops|
  {
    hide Good, Shape, Tick, Apply, Legal;
    if ops != [] {
      TickPasses(s);
      TicksPass(Apply(s, ops[0]), ops[1..]);
    }
  }

  lemma TickPasses(s: Sched)
    requires Shape(s) && Good(s)
    ensures Legal(s, DoTick) && Shape(Apply(s, DoTick)) && Good(Apply(s, DoTick))
    ensures Apply(s, DoTick).current == s.current && Apply(s, DoTick).main == s.main
  {
    assert Apply(s, DoTick) == Tick(s);
    var v :| Inv(s, v);
    hide Inv, Shape, Tick, Apply, Later, TickTask, Earliest;
    var w := TickExact(s, v);
    InvShape(Tick(s), w);
  }

  /** After the run, six ticks before the wrap, a sleep of ten ticks is over on the next tick. */
  ghost predicate WokenEarly(s: Sched, ops: seq<Op>)
    requires Shape(s) && Calls(ops)
  {
    var r := Run(s, ops);
    r.tick == U32 - 6 && Slot(r.current) && r.current != r.main && Tick(Sleep(r, 10)).tasks[r.current].state == Ready
  }

  lemma NearWrap(s: Sched, ops: seq<Op>)
    requires Shape(s) && Good(s) && s.current != s.main && s.tick == 0
    requires |ops| == U32 - 6 && forall i :: 0 <= i < |ops| ==> ops[i] == DoTick
    ensures Calls(ops) && WokenEarly(s, ops)
  {
    hide Good, Shape, Tick, Sleep, Run;
    TicksOn(s, ops);
    EarlyWake(Run(s, ops));
  }

  /** As many ticks as the run holds have passed. */
  lemma TicksOn(s: Sched, ops: seq<Op>)
    requires Shape(s) && Good(s) && s.tick == 0 && |ops| < U32 && forall i :: 0 <= i < |ops| ==> ops[i] == DoTick
    ensures Calls(ops) && Run(s, ops).tick == |ops|
    ensures Good(Run(s, ops)) && Run(s, ops).current == s.current && Run(s, ops).main == s.main
  {
    hide Good, Shape, Run, LegalRun, Later, Ticks, NoneReach;
    LaterIs(0, 0);
    LaterIs(0, |ops|);
    TicksOf(ops);
    assert Calls(ops);
    TicksPass(s, ops);
    RunClock(s, ops, 0, 0, 0);
  }

  lemma EarlyWake(r: Sched)
    requires Good(r) && r.current != r.main && r.tick == U32 - 6
    ensures Shape(r) && Slot(r.current) && Tick(Sleep(r, 10)).tasks[r.current].state == Ready
  {
    var v :| Inv(r, v);
    hide Inv, Tick, Sleep;
    InvShape(r, v);
    CutShort(r, v, 10);
  }

  /** From start-up, six ticks before the counter wraps: a sleep of ten ticks is over on the next tick. */
  lemma SleepRun()
    ensures var s := Create(Create(Init(true), NORMAL, true), NORMAL, true);
            WokenEarly(Start(s), OnlyTicks(U32 - 6))
  {
    hide Init, Create, Inv, Step, Start, Sleep, Tick, Queued, Resting, WokenEarly, OnlyTicks;
    var v, s := TwoTasks();
    var w, q := Dispatched(s, v, 5, 4, 6);
    NearWrap(Start(s), OnlyTicks(U32 - 6));
  }

  /** After the run, at the last value of the counter, a sleep of no ticks goes on past the next tick. */
  ghost predicate Overslept(s: Sched, ops: seq<Op>)
    requires Shape(s) && Calls(ops)
  {
    var r := Run(s, ops);
    && r.tick == U32 - 1 && Slot(r.current) && r.current != r.main
    && Tick(Sleep(r, 0)).tasks[r.current].state == Blocked && SleepsFor(r, 0, U32)
  }

  lemma AtWrap(s: Sched, ops: seq<Op>)
    requires Shape(s) && Good(s) && s.current != s.main && s.tick == 0
    requires |ops| == U32 - 1 && forall i :: 0 <= i < |ops| ==> ops[i] == DoTick
    ensures Calls(ops) && Overslept(s, ops)
  {
    hide Good, Shape, Tick, Sleep, Run, SleepsFor;
    TicksOn(s, ops);
    LateWake(Run(s, ops));
  }

  lemma LateWake(r: Sched)
    requires Good(r) && r.current != r.main && r.tick == U32 - 1
    ensures Shape(r) && Slot(r.current) && Tick(Sleep(r, 0)).tasks[r.current].state == Blocked && SleepsFor(r, 0, U32)
  {
    var v :| Inv(r, v);
    hide Inv, Tick, Sleep, SleepsFor;
    InvShape(r, v);
    Missed(r, v);
    MissedRound(r, v);
  }

  /** From start-up, one tick before the counter wraps: a sleep of no ticks lasts for 2^32 of them. */
  lemma ZeroSleepRun()
    ensures var s := Create(Create(Init(true), NORMAL, true), NORMAL, true);
            Overslept(Start(s), OnlyTicks(U32 - 1))
  {
    hide Init, Create, Inv, Step, Start, Sleep, Tick, Queued, Resting, Overslept, OnlyTicks;
    var v, s := TwoTasks();
    var w, q := Dispatched(s, v, 5, 4, 6);
    AtWrap(Start(s), OnlyTicks(U32 - 1));
  }
}
