/** How long task_sleep lasts, in ticks, over every run that leaves the sleeper alone. */
module SchedSleep {
  import opened Basics
  import opened SchedModel
  import opened SchedInv
  import opened SchedSteps
  import opened SchedTick
  import opened SchedRuns

  // ---------------------------------------------------------------- the counter

  lemma LaterIs(t: nat, k: nat)
    requires t < U32 && k < U32
    ensures Later(t, k) == if t + k < U32 then t + k else t + k - U32
  {
  }

  lemma LaterStep(t: nat, k: nat)
    ensures Later(Later(t, k), 1) == Later(t, k + 1)
  {
  }

  /** The ticks a sleep of `n` is to last: one of none ends on the next tick. */
  function Span(n: nat): nat { if n == 0 then 1 else n }

  /** `k` ticks from `t`, and not sooner, the counter reaches the wake time. */
  ghost predicate Reaches(t: nat, k: nat, wake: nat) {
    (forall j: nat :: 1 <= j < k ==> Later(t, j) < wake) && wake <= Later(t, k)
  }

  lemma ReachesIff(t: nat, n: nat)
    requires t < U32 && n < U32
    ensures Reaches(t, Span(n), Later(t, n)) <==> if n == 0 then t < U32 - 1 else t + n < U32 || t == U32 - 1
  {
    hide Later;
    forall k: nat | k <= Span(n) ensures Later(t, k) == if t + k < U32 then t + k else t + k - U32 { LaterIs(t, k); }
    if n > 0 && t + n >= U32 && t != U32 - 1 {
      assert !(Later(t, 1) < Later(t, n));
    }
  }

  /** A sleep of no ticks at the last value of the counter: it takes a whole round to be there again. */
  lemma RoundTrip(t: nat)
    requires t == U32 - 1
    ensures Reaches(t, U32, Later(t, 0))
  {
    hide Later;
    LaterIs(t, 0);
    forall j: nat | 1 <= j < U32 ensures Later(t, j) < Later(t, 0) { LaterIs(t, j); }
    LaterIs(t, U32 - 1);
    LaterIs(Later(t, U32 - 1), 1);
    LaterStep(t, U32 - 1);
  }

  // ---------------------------------------------------------------- runs

  ghost predicate Calls(ops: seq<Op>) { forall i :: 0 <= i < |ops| ==> WellFormed(ops[i]) }

  function Ticks(ops: seq<Op>): nat {
    if ops == [] then 0 else (if ops[0].DoTick? then 1 else 0) + Ticks(ops[1..])
  }

  /** No call is aimed at `a` and the counter is moved by ticks alone. */
  ghost predicate Undisturbed(ops: seq<Op>, a: int) {
    forall i :: 0 <= i < |ops| ==> LeavesAlone(ops[i], a) && !ops[i].DoTickless?
  }

  lemma TickOf(s: Sched, op: Op)
    requires Shape(s) && Good(s) && WellFormed(op) && !op.DoTickless?
    ensures Apply(s, op).tick == if op.DoTick? then Later(s.tick, 1) else s.tick
  {
    if op.DoTick? {
      var v :| Inv(s, v);
      hide Inv, Shape, Tick, Later, Earliest;
      var w := TickExact(s, v);
    } else {
      ClockKept(s, op);
    }
  }

  /** Without tickless idle the counter shows the number of ticks. */
  lemma {:induction false} RunClock(s: Sched, ops: seq<Op>, t: nat, j: nat, w: nat)
    requires Shape(s) && Good(s) && Calls(ops) && LegalRun(s, ops) && s.tick == Later(t, j)
    requires forall i :: 0 <= i < |ops| ==> !ops[i].DoTickless?
    ensures Run(s, ops).tick == Later(t, j + Ticks(ops))
    ensures (forall k: nat :: j < k <= j + Ticks(ops) ==> Later(t, k) < w) ==> NoneReach(s, ops, w)
    decreases |ops|
  {
    hide Good, Shape, Apply, Legal, Later;
    if ops != [] {
      var s1, j1 := Apply(s, ops[0]), if ops[0].DoTick? then j + 1 else j;
      TickOf(s, ops[0]);
      LaterStep(t, j);
      LegalKeeps(s, ops[0]);
      RunClock(s1, ops[1..], t, j1, w);
      assert j + Ticks(ops) == j1 + Ticks(ops[1..]);
    }
  }

  // ---------------------------------------------------------------- waking on time

  /** A run the sleeper `a` could see before its `n`th tick. */
  ghost predicate Before(r: Sched, a: int, n: nat, ops: seq<Op>)
    requires Shape(r)
  {
    Calls(ops) && LegalRun(r, ops) && Undisturbed(ops, a) && Ticks(ops) < n
  }

  /** Through the run `a` has slept on, and if one tick is missing, that tick makes it ready. */
  ghost predicate SleptOn(r: Sched, a: int, n: nat, ops: seq<Op>)
    requires Shape(r) && Slot(a) && Calls(ops)
  {
    && Run(r, ops).tasks[a] == r.tasks[a]
    && (Ticks(ops) == n - 1 ==> Tick(Run(r, ops)).tasks[a] == r.tasks[a].(state := Ready))
  }

  /** The current task, put to sleep for `n` ticks, sleeps until tick `k` and is ready on it, in every run. */
  ghost predicate SleepsFor(s: Sched, n: nat, k: nat)
    requires Shape(s)
  {
    forall ops :: Before(Sleep(s, n), s.current, k, ops) ==> SleptOn(Sleep(s, n), s.current, k, ops)
  }

  ghost predicate WakesOnTime(s: Sched, n: nat)
    requires Shape(s)
  {
    SleepsFor(s, n, Span(n))
  }

  lemma OnTime(s: Sched, v: View, n: nat, k: nat)
    requires Inv(s, v) && s.tick < U32 && s.current != s.main && k >= 1 && Reaches(s.tick, k, Later(s.tick, n))
    ensures SleepsFor(s, n, k)
  {
    Asleep(s, v, n);
    hide Inv, Good, Shape, Sleep, Later, Before, SleptOn, Reaches;
    forall ops | Before(Sleep(s, n), s.current, k, ops) ensures SleptOn(Sleep(s, n), s.current, k, ops) {
      SleepsOn(Sleep(s, n), s.current, s.tick, k, ops);
    }
  }

  lemma SleepsOn(r: Sched, a: int, t: nat, n: nat, ops: seq<Op>)
    requires Shape(r) && |r.tasks| == SLOTS && Good(r) && Slot(a) && r.tick == Later(t, 0) && n >= 1
    requires r.tasks[a].state == Blocked && Reaches(t, n, r.tasks[a].wake) && Before(r, a, n, ops)
    ensures SleptOn(r, a, n, ops)
  {
    hide Good, Shape, Apply, Later, Run, Tick, NoneReach, LegalRun;
    RunClock(r, ops, t, 0, r.tasks[a].wake);
    LaterStep(t, Ticks(ops));
    SleeperRun(r, ops, a);
  }

  /** The state after task_sleep, as the run theorems need it. */
  lemma Asleep(s: Sched, v: View, n: nat)
    requires Inv(s, v) && s.tick < U32 && s.current != s.main
    ensures var a, r := s.current, Sleep(s, n);
            && Slot(a) && Shape(r) && Good(r) && |r.tasks| == SLOTS && r.tick == Later(s.tick, 0)
            && r.tasks[a].state == Blocked && r.tasks[a].wake == Later(s.tick, n)
  {
    hide Spells, PlacedBut, Later, Sleep;
    LaterIs(s.tick, 0);
    var w := SleepKeeps(s, v, n);
    SleepRecords(s, v, n);
  }

  /** Asleep ahead of the wrap: the very next tick wakes the task. */
  lemma CutShort(s: Sched, v: View, n: nat)
    requires Inv(s, v) && s.tick < U32 - 1 && s.current != s.main && n < U32 && s.tick + n >= U32
    ensures Tick(Sleep(s, n)).tasks[s.current].state == Ready
  {
    var a := s.current;
    var w := SleepKeeps(s, v, n);
    SleepRecords(s, v, n);
    LaterIs(s.tick, n);
    LaterIs(s.tick, 1);
    assert Slot(a) && Shape(Sleep(s, n));
    hide Inv, Shape, Sleep, Tick, Later;
    TickSleeper(Sleep(s, n), w, a);
  }

  /** Asleep for no ticks at the last value of the counter: the next tick does not wake the task. */
  lemma Missed(s: Sched, v: View)
    requires Inv(s, v) && s.tick == U32 - 1 && s.current != s.main
    ensures Tick(Sleep(s, 0)).tasks[s.current].state == Blocked
  {
    var a := s.current;
    var w := SleepKeeps(s, v, 0);
    SleepRecords(s, v, 0);
    LaterIs(s.tick, 0);
    LaterIs(s.tick, 1);
    assert Slot(a) && Shape(Sleep(s, 0));
    hide Inv, Shape, Sleep, Tick, Later;
    TickSleeper(Sleep(s, 0), w, a);
  }

  /** It wakes 2^32 ticks later, not sooner, in every run. */
  lemma MissedRound(s: Sched, v: View)
    requires Inv(s, v) && s.tick == U32 - 1 && s.current != s.main
    ensures SleepsFor(s, 0, U32)
  {
    hide Inv, Shape, SleepsFor, Reaches, Later;
    RoundTrip(s.tick);
    OnTime(s, v, 0, U32);
  }

  /**
   * A sleep of `n` ticks lasts `n` ticks exactly when the sum fits in 32 bits or the counter is at its last value; one
   * of no ticks ends on the next one exactly when the counter is not at its last value.
   */
  lemma OnTimeIff(s: Sched, v: View, n: nat)
    requires Inv(s, v) && s.tick < U32 && s.current != s.main && n < U32
    ensures WakesOnTime(s, n) <==> if n == 0 then s.tick < U32 - 1 else s.tick + n < U32 || s.tick == U32 - 1
  {
    var a, r := s.current, Sleep(s, n);
    ReachesIff(s.tick, n);
    hide Inv, Shape, Sleep, Apply, Later, Tick, Reaches, LegalRun, Run, SleptOn, Before;
    if if n == 0 then s.tick < U32 - 1 else s.tick + n < U32 || s.tick == U32 - 1 {
      OnTime(s, v, n, Span(n));
    } else if n == 0 {
      Missed(s, v);
      Asleep(s, v, n);
      NoTick(r, a, []);
    } else {
      CutShort(s, v, n);
      Asleep(s, v, n);
      OneTick(r, a, n, [DoTick]);
    }
  }

  /** The empty run, before a tick that should wake the sleeper and does not. */
  lemma NoTick(r: Sched, a: int, ops: seq<Op>)
    requires Shape(r) && |r.tasks| == SLOTS && Slot(a) && ops == [] && Tick(r).tasks[a].state == Blocked
    ensures Before(r, a, 1, ops) && !SleptOn(r, a, 1, ops)
  {
    hide Tick, Shape;
  }

  /** A run of one tick that wakes the sleeper too soon. */
  lemma OneTick(r: Sched, a: int, n: nat, ops: seq<Op>)
    requires Shape(r) && |r.tasks| == SLOTS && Slot(a) && n > 1 && ops == [DoTick]
    requires r.tasks[a].state == Blocked && Tick(r).tasks[a].state == Ready
    ensures Before(r, a, n, ops) && !SleptOn(r, a, n, ops)
  {
    hide Tick, Shape, LegalRun, Run;
    RunOne(r, DoTick);
    assert ops[1..] == [] && Ticks(ops[1..]) == 0;
    assert Ticks(ops) == 1;
  }
}
