/** scheduler_tick: exactly the due tasks become ready, and the next wake-up is the earliest of the others. */
module SchedTick {
  import opened Basics
  import opened Lists
  import opened SchedModel
  import opened SchedInv
  import opened SchedSteps

  lemma BlockedIff(s: Sched, v: View, a: int)
    requires Partition(s, v) && Slot(a)
    ensures a in v[BLOCKED_LIST] <==> s.tasks[a].state == Blocked
  {
    assert Placed(s.tasks[a], v, a);
  }

  // ---------------------------------------------------------------- waking

  /** The task record after the loop has passed it. */
  function Woken(t: Task, tick: nat): Task {
    if t.wake <= tick then t.(state := Ready) else t
  }

  lemma WakeOneKeeps(s: Sched, v: View, a: int) returns (w: View)
    requires Partition(s, v) && Slot(a) && a in v[BLOCKED_LIST]
    ensures Partition(WakeOne(s, a), w) && w[FREE_LIST] == v[FREE_LIST]
    ensures WakeOne(s, a) == s.(tasks := s.tasks[a := Woken(s.tasks[a], s.tick)], heads := WakeOne(s, a).heads,
                                links := WakeOne(s, a).links)
    ensures forall b :: b in v[BLOCKED_LIST] && b != a ==> b in w[BLOCKED_LIST]
    ensures w[BLOCKED_LIST]
            == if s.tasks[a].wake <= s.tick then Drop(v, BLOCKED_LIST, a)[BLOCKED_LIST] else v[BLOCKED_LIST]
  {
    w := v;
    if s.tasks[a].wake <= s.tick {
      var t := s.tasks[a].(state := Ready);
      var s1 := ListRemove(s, BLOCKED_LIST, a);
      var r := ListAdd(SetTask(s1, a, t), t.prio, a);
      assert WakeOne(s, a) == r by { assert WakeOne(s, a).tasks == r.tasks; }
      assert SpellsAt(s.heads, s.links, v, BLOCKED_LIST);
      DropMembers(v, BLOCKED_LIST, a);
      hide Spells, PlacedBut, OnNone, Push, Bypass, Linked, WakeOne;
      var w1 := Drop(v, BLOCKED_LIST, a);
      Take(s, v, BLOCKED_LIST, a);
      Retask(s1, w1, a, t);
      Put(SetTask(s1, a, t), w1, t.prio, a);
      w := Join(w1, t.prio, a);
    }
  }

  /** The tasks of `l` and no others have been passed. */
  ghost predicate Passed(s: Sched, r: Sched, l: seq<int>) {
    && r == s.(tasks := r.tasks, heads := r.heads, links := r.links) && |r.tasks| == |s.tasks| == SLOTS
    && forall a :: 0 <= a < SLOTS ==> r.tasks[a] == if a in l then Woken(s.tasks[a], s.tick) else s.tasks[a]
  }

  lemma PassedStep(s: Sched, s1: Sched, r: Sched, l: seq<int>)
    requires l != [] && NoDup(l) && Slot(l[0]) && |s.tasks| == SLOTS && Passed(s1, r, l[1..])
    requires s1 == s.(tasks := s.tasks[l[0] := Woken(s.tasks[l[0]], s.tick)], heads := s1.heads, links := s1.links)
    ensures Passed(s, r, l)
  {
    hide Woken;
    assert l[0] !in l[1..];
    assert l == [l[0]] + l[1..];
  }

  lemma {:induction false} WakeDueKeeps(s: Sched, v: View, l: seq<int>) returns (w: View)
    requires Partition(s, v) && NoDup(l) && AllSlots(l) && forall i :: 0 <= i < |l| ==> l[i] in v[BLOCKED_LIST]
    ensures Partition(WakeDue(s, l), w) && w[FREE_LIST] == v[FREE_LIST] && Passed(s, WakeDue(s, l), l)
    decreases |l|
  {
    if l == [] {
      w := v;
    } else {
      hide Partition, Passed, WakeOne;
      var s1 := WakeOne(s, l[0]);
      var w1 := WakeOneKeeps(s, v, l[0]);
      assert forall i :: 0 <= i < |l[1..]| ==> l[1..][i] in w1[BLOCKED_LIST];
      w := WakeDueKeeps(s1, w1, l[1..]);
      PassedStep(s, s1, WakeDue(s1, l[1..]), l);
    }
  }

  lemma {:induction false} NextWakeMin(tasks: seq<Task>, l: seq<int>, w: nat)
    requires |tasks| == SLOTS && AllSlots(l)
    ensures var r := NextWake(tasks, l, w);
            && r <= w && (forall i :: 0 <= i < |l| ==> r <= tasks[l[i]].wake)
            && (r == w || exists i :: 0 <= i < |l| && r == tasks[l[i]].wake)
    decreases |l|
  {
    if l != [] {
      var w1 := if tasks[l[0]].wake < w then tasks[l[0]].wake else w;
      NextWakeMin(tasks, l[1..], w1);
      var r := NextWake(tasks, l, w);
      forall i | 0 <= i < |l| ensures r <= tasks[l[i]].wake { if i > 0 { assert l[i] == l[1..][i - 1]; } }
      if r != w1 {
        var i :| 0 <= i < |l[1..]| && r == tasks[l[1..][i]].wake;
        assert r == tasks[l[i + 1]].wake;
      } else if r != w {
        assert r == tasks[l[0]].wake;
      }
    }
  }

  // ---------------------------------------------------------------- the tick

  /** What a tick does to a task record, by its state and wake time alone. */
  function TickTask(t: Task, tick: nat): Task {
    if t.state == Blocked then Woken(t, tick) else t
  }

  ghost predicate Earliest(tasks: seq<Task>, w: nat)
    requires |tasks| == SLOTS
  {
    && w <= NEVER && (forall a :: 0 <= a < SLOTS && tasks[a].state == Blocked ==> w <= tasks[a].wake)
    && (w == NEVER || exists a :: 0 <= a < SLOTS && tasks[a].state == Blocked && w == tasks[a].wake)
  }

  lemma EarliestIs(s: Sched, v: View)
    requires Partition(s, v)
    ensures Earliest(s.tasks, NextWake(s.tasks, Chain(s.links, s.heads[BLOCKED_LIST], SLOTS), NEVER))
  {
    WalkIs(s, v, BLOCKED_LIST);
    var l := v[BLOCKED_LIST];
    NextWakeMin(s.tasks, l, NEVER);
    var w := NextWake(s.tasks, l, NEVER);
    hide Partition, NextWake, Chain;
    forall a | 0 <= a < SLOTS && s.tasks[a].state == Blocked ensures w <= s.tasks[a].wake {
      BlockedIff(s, v, a);
      var i :| 0 <= i < |l| && l[i] == a;
    }
    if w != NEVER {
      var i :| 0 <= i < |l| && w == s.tasks[l[i]].wake;
      assert l[i] in l;
      BlockedIff(s, v, l[i]);
    }
  }

  ghost predicate Ticked(s: Sched, r: Sched) {
    && |s.tasks| == |r.tasks| == SLOTS && r.tick == Later(s.tick, 1)
    && r == s.(tasks := r.tasks, heads := r.heads, links := r.links, tick := r.tick, nextWake := r.nextWake)
    && (forall a :: 0 <= a < SLOTS ==> r.tasks[a] == TickTask(s.tasks[a], r.tick))
    && Earliest(r.tasks, r.nextWake)
  }

  /** The loop over the blocked list, once the counter has moved on. */
  lemma Loop(s: Sched, v: View) returns (w: View)
    requires Partition(s, v)
    ensures var r := WakeDue(s, Chain(s.links, s.heads[BLOCKED_LIST], SLOTS));
            && Partition(r, w) && w[FREE_LIST] == v[FREE_LIST] && |r.tasks| == |s.tasks| == SLOTS
            && r == s.(tasks := r.tasks, heads := r.heads, links := r.links)
            && (forall a :: 0 <= a < SLOTS ==> r.tasks[a] == TickTask(s.tasks[a], s.tick))
  {
    WalkIs(s, v, BLOCKED_LIST);
    hide Spells, PlacedBut, Roles, WakeDue, Chain, Passed, TickTask;
    var l := v[BLOCKED_LIST];
    w := WakeDueKeeps(s, v, l);
    PassedFields(s, WakeDue(s, l), l);
    TickTasks(s, v, s, WakeDue(s, l));
  }

  /**
   * A tick moves exactly the blocked tasks whose wake time has come to the ready lists, changes nothing else, and
   * leaves the earliest wake time of the tasks still blocked.
   */
  lemma TickExact(s: Sched, v: View) returns (w: View)
    requires Inv(s, v)
    ensures Inv(Tick(s), w) && w[FREE_LIST] == v[FREE_LIST] && Ticked(s, Tick(s))
  {
    var s1 := s.(tick := Later(s.tick, 1));
    assert Shape(s1) && |s1.heads| == LISTS;
    hide Later, Shape, Partition, Roles, WakeDue, NextWake, Chain, Earliest, TickTask;
    PartitionFields(s, s1, v);
    w := Loop(s1, v);
    var s2 := WakeDue(s1, Chain(s1.links, s1.heads[BLOCKED_LIST], SLOTS));
    EarliestIs(s2, w);
    PartitionFields(s2, Tick(s), w);
    TickRoles(s, Tick(s));
  }

  lemma PassedFields(s: Sched, r: Sched, l: seq<int>)
    requires Passed(s, r, l)
    ensures r == s.(tasks := r.tasks, heads := r.heads, links := r.links) && |r.tasks| == SLOTS
  {
  }

  lemma TickTasks(s: Sched, v: View, s1: Sched, s2: Sched)
    requires Partition(s, v) && s1 == s.(tick := s1.tick) && Passed(s1, s2, v[BLOCKED_LIST])
    ensures forall a :: 0 <= a < SLOTS ==> s2.tasks[a] == TickTask(s.tasks[a], s1.tick)
  {
    forall a | 0 <= a < SLOTS ensures s2.tasks[a] == TickTask(s.tasks[a], s1.tick) { BlockedIff(s, v, a); }
  }

  lemma TickRoles(s: Sched, r: Sched)
    requires Roles(s) && |r.tasks| == SLOTS && r.main == s.main && r.current == s.current
    requires forall a :: 0 <= a < SLOTS ==> r.tasks[a] == TickTask(s.tasks[a], r.tick)
    ensures Roles(r)
  {
  }
}
