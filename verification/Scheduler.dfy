/** The scheduler as the program keeps it: arrays of tasks and list heads, and fields that calls update in place. */
module Scheduler {
  import opened Basics
  import opened Lists
  import opened SchedModel
  import opened SchedInv
  import opened SchedSteps
  import opened SchedTick
  import opened SchedRuns
  import opened SchedInit

  /** The node behind position `k` of a list is where its next pointer leads. */
  lemma NextOf(s: Sched, v: View, q: int, k: nat)
    requires Partition(s, v) && 0 <= q < LISTS && k < |v[q]|
    ensures v[q][k] in s.links && Slot(v[q][k])
    ensures s.links[v[q][k]].next == if k + 1 < |v[q]| then v[q][k + 1] else NULL
  {
    assert SpellsAt(s.heads, s.links, v, q);
    LinkedNeighbours(s.links, v[q], k);
  }

  lemma Middle(kept: seq<int>, rest: seq<int>)
    requires rest != [] && NoDup(kept + rest)
    ensures rest[0] in kept + rest && IndexOf(kept + rest, rest[0]) == |kept|
    ensures DropAt(kept + rest, |kept|) == kept + rest[1..] && kept + rest == kept + [rest[0]] + rest[1..]
  {
    var l := kept + rest;
    assert l[|kept|] == rest[0];
    IndexOfUnique(l, |kept|);
  }

  /** Passing the first of `rest` leaves the others of the blocked list in place, in order. */
  lemma PassOne(s: Sched, v: View, kept: seq<int>, rest: seq<int>) returns (w: View, kept': seq<int>)
    requires Partition(s, v) && v[BLOCKED_LIST] == kept + rest && rest != []
    ensures Slot(rest[0]) && Partition(WakeOne(s, rest[0]), w) && w[BLOCKED_LIST] == kept' + rest[1..]
    ensures rest[0] in s.links && s.links[rest[0]].next == Head(rest[1..])
  {
    var a := rest[0];
    NextOf(s, v, BLOCKED_LIST, |kept|);
    assert |rest| > 1 ==> (kept + rest)[|kept| + 1] == rest[1];
    WalkIs(s, v, BLOCKED_LIST);
    assert (kept + rest)[|kept|] == a;
    hide Spells, PlacedBut, WakeOne, Chain, DropAt, IndexOf, NoDup;
    Middle(kept, rest);
    w := WakeOneKeeps(s, v, a);
    kept' := if s.tasks[a].wake <= s.tick then kept else kept + [a];
  }

  /** Node `k` of a list, null behind its end. */
  function At(l: seq<int>, k: nat): int { if k < |l| then l[k] else NULL }

  lemma AtEnd(l: seq<int>, k: nat)
    requires AllSlots(l) && At(l, k) == NULL && k <= |l|
    ensures k == |l| && l[k..] == []
  {
  }

  lemma WakeFrom(tasks: seq<Task>, l: seq<int>, k: nat, w: nat)
    requires |tasks| == SLOTS && AllSlots(l) && k < |l|
    ensures Slot(l[k]) && l[k..][1..] == l[k + 1..] && AllSlots(l[k..]) && AllSlots(l[k + 1..])
    ensures NextWake(tasks, l[k..], w) ==
            NextWake(tasks, l[k + 1..], if tasks[l[k]].wake < w then tasks[l[k]].wake else w)
  {
    assert l[k..][1..] == l[k + 1..];
  }

  lemma NextWakeShape(s: Sched, w: nat)
    requires Shape(s)
    ensures Shape(s.(nextWake := w))
  {
  }

  lemma HeadOf(l: seq<int>)
    requires AllSlots(l)
    ensures Head(l) == NULL <==> l == []
  {
  }

  class Scheduler {
    const tasks: array<Task>
    const heads: array<int>
    var links: Links
    var current: int
    var main: int
    var tick: nat
    var nextWake: nat
    var started: bool
    var tickless: bool

    ghost function State(): Sched
      reads this, tasks, heads
    {
      Sched(tasks[..], heads[..], links, current, main, tick, nextWake, started, tickless)
    }

    ghost predicate Valid()
      reads this, tasks, heads
    {
      Shape(State())
    }

    /** scheduler_init, on the zeroed struct. */
    constructor (canBoot: bool)
      ensures fresh(tasks) && fresh(heads) && Valid() && State() == Init(canBoot)
    {
      hide Shape, AddSlots, Create;
      tasks := new Task[SLOTS](i => Task(IDLE, Ready, 0, 0));
      heads := new int[LISTS](i => NULL);
      links, current, main, tick, nextWake, started, tickless := NoLinks(SLOTS), 0, 0, 0, NEVER, false, true;
      new;
      ghost var z := Zero();
      assert State() == z;
      FillFree(z);
      var idle := DoCreate(IDLE, canBoot);
      if canBoot { AdoptMain(); }
    }

    /** Put every slot on the free list. */
    method FillFree(ghost z: Sched)
      requires Shape(z) && State() == z
      modifies this, heads
      ensures Valid() && State() == AddSlots(z, SLOTS)
    {
      hide Shape, ListAdd;
      var i := 0;
      while i < SLOTS
        invariant 0 <= i <= SLOTS && Valid() && State() == AddSlots(z, i)
      {
        Add(FREE_LIST, i);
        i := i + 1;
      }
    }

    /** The main task takes the next free slot. */
    method AdoptMain()
      requires Valid()
      modifies this, tasks, heads
      ensures Valid() && State() == TakeMain(old(State()))
    {
      ShapeLengths();
      var m := heads[FREE_LIST];
      if m == NULL { return; }
      Remove(FREE_LIST, m);
      Fill(m, Task(NORMAL, Running, 0, 0));
      main, current := m, m;
    }

    /** task_list_add */
    method Add(q: int, a: int)
      requires Valid() && 0 <= q < LISTS && Slot(a)
      modifies this, heads
      ensures Valid() && State() == ListAdd(old(State()), q, a)
    {
      var head := heads[q];
      assert head == old(State()).heads[q];
      links := links[a := Link(NULL, head)];
      if head != NULL {
        links := links[head := links[head].(prev := a)];
      }
      heads[q] := a;
      assert links == Push(old(links), head, a);
      assert heads[..] == old(heads[..])[q := a];
    }

    /** task_list_remove */
    method Remove(q: int, a: int)
      requires Valid() && 0 <= q < LISTS && Slot(a)
      modifies this, heads
      ensures Valid() && State() == ListRemove(old(State()), q, a)
    {
      assert LinkOk(links, a);
      var Link(p, n) := links[a];
      if p != NULL {
        links := links[p := links[p].(next := n)];
      } else {
        heads[q] := n;
      }
      if n != NULL {
        links := links[n := links[n].(prev := p)];
      }
      links := links[a := Link(NULL, NULL)];
      assert links == Bypass(old(links), a)[a := Link(NULL, NULL)];
      assert heads[..] == if p == NULL then old(heads[..])[q := n] else old(heads[..]);
    }

    method SetStateOf(a: int, st: State)
      requires Valid() && Slot(a)
      modifies tasks
      ensures Valid() && State() == SetState(old(State()), a, st)
    {
      tasks[a] := tasks[a].(state := st);
      assert tasks[..] == old(tasks[..])[a := old(tasks[a]).(state := st)];
    }

    /** task_add_to_ready */
    method AddReady(a: int)
      requires Valid() && Slot(a)
      modifies this, tasks, heads
      ensures Valid() && State() == AddToReady(old(State()), a)
    {
      hide Shape, ListAdd;
      ShapeLengths();
      Add(tasks[a].prio, a);
      SetStateOf(a, Ready);
    }

    lemma ShapeLengths()
      requires Valid()
      ensures tasks.Length == SLOTS && heads.Length == LISTS && Slot(current) && Slot(main)
      ensures forall a :: 0 <= a < SLOTS ==> 0 <= tasks[a].prio <= CRITICAL
      ensures forall q :: 0 <= q < LISTS ==> Pointer(heads[q])
    {
      assert forall a :: 0 <= a < SLOTS ==> tasks[a] == State().tasks[a];
      assert forall q :: 0 <= q < LISTS ==> heads[q] == State().heads[q];
    }

    /** task_get_highest_ready, with the idle task ruled out as its callers do. */
    method Highest() returns (a: int)
      requires Valid()
      ensures a == Pick(State())
    {
      ShapeLengths();
      hide Shape;
      a := NULL;
      var p := CRITICAL;
      while p >= IDLE && a == NULL
        invariant -1 <= p <= CRITICAL && (a != NULL ==> Slot(a))
        invariant HighestFrom(heads[..], CRITICAL) == if a == NULL then HighestFrom(heads[..], p) else a
        decreases p + 1, if a == NULL then 1 else 0
      {
        if heads[p] != NULL { a := heads[p]; } else { p := p - 1; }
      }
      if a != NULL && tasks[a].prio == IDLE { a := NULL; }
    }

    /** switch_to_main */
    method ToMain()
      requires Valid()
      modifies this, tasks
      ensures Valid() && State() == SwitchToMain(old(State()))
    {
      ShapeLengths();
      current := main;
      assert Shape(State());
      hide Shape;
      SetStateOf(main, Running);
    }

    /** context_switch */
    method SwitchTo(a: int)
      requires Valid() && Slot(a)
      modifies this, tasks, heads
      ensures Valid() && State() == ContextSwitch(old(State()), a)
    {
      ShapeLengths();
      if a == main {
        ToMain();
      } else {
        Remove(tasks[a].prio, a);
        current := a;
        assert Shape(State());
        hide Shape, ListRemove;
        SetStateOf(a, Running);
      }
    }

    /** scheduler_step */
    method DoStep() returns (ok: bool)
      requires Valid()
      modifies this, tasks, heads
      ensures Valid() && State() == Step(old(State())) && ok == old(started)
    {
      hide Shape, Pick, ContextSwitch;
      if !started { return false; }
      var a := Highest();
      if a != NULL { SwitchTo(a); }
      return true;
    }

    /** scheduler_start */
    method DoStart() returns (ok: bool)
      requires Valid()
      modifies this, tasks, heads
      ensures Valid() && State() == Start(old(State())) && ok == !old(started)
    {
      if started { return false; }
      started := true;
      hide Step;
      ok := DoStep();
    }

    /** task_create */
    method DoCreate(prio: nat, canBoot: bool) returns (a: int)
      requires Valid()
      modifies this, tasks, heads
      ensures Valid() && State() == Create(old(State()), prio, canBoot)
      ensures a == if CanCreate(old(State()), prio) && canBoot then old(heads[FREE_LIST]) else NULL
    {
      ShapeLengths();
      if heads[FREE_LIST] == NULL || prio > CRITICAL { return NULL; }
      a := heads[FREE_LIST];
      Remove(FREE_LIST, a);
      Fill(a, Task(prio, Ready, 0, 0));
      hide Shape, AddToReady, ListRemove, ListAdd;
      if canBoot {
        AddReady(a);
      } else {
        Add(FREE_LIST, a);
        a := NULL;
      }
    }

    /** Write the record of slot `a`. */
    method Fill(a: int, t: Task)
      requires Valid() && Slot(a) && t.prio <= CRITICAL
      modifies tasks
      ensures Valid() && State() == SetTask(old(State()), a, t)
    {
      tasks[a] := t;
      assert tasks[..] == old(tasks[..])[a := t];
    }

    /** task_delete */
    method DoDelete(a: int) returns (ok: bool)
      requires Valid() && Pointer(a)
      modifies this, tasks, heads
      ensures Valid() && State() == Delete(old(State()), a) && ok == CanDelete(old(State()), a)
    {
      ShapeLengths();
      hide Shape, ListRemove, ListAdd;
      if a == NULL || a == current || tasks[a].state == Running { return false; }
      if tasks[a].state == Ready {
        Remove(tasks[a].prio, a);
      } else if tasks[a].state == Blocked {
        Remove(BLOCKED_LIST, a);
      }
      SetStateOf(a, Terminated);
      Add(FREE_LIST, a);
      return true;
    }

    /** task_yield */
    method DoYield()
      requires Valid()
      modifies this, tasks, heads
      ensures Valid() && State() == Yield(old(State()))
    {
      ShapeLengths();
      hide Shape, Step, Pick, AddToReady, SwitchToMain, ContextSwitch;
      if current == main {
        var ok := DoStep();
      } else if tasks[current].state == Running {
        SetStateOf(current, Ready);
        var next := Highest();
        AddReady(current);
        if next != NULL { SwitchTo(next); } else { ToMain(); }
      }
    }

    /** task_sleep, called by a task other than main. */
    method DoSleep(n: nat)
      requires Valid() && current != main
      modifies this, tasks, heads
      ensures Valid() && State() == Sleep(old(State()), n)
    {
      ShapeLengths();
      hide Shape, ListAdd, SwitchToMain, Later;
      Fill(current, tasks[current].(sleep := n, wake := Later(tick, n), state := Blocked));
      Add(BLOCKED_LIST, current);
      ToMain();
    }

    /** task_suspend */
    method DoSuspend(a: int)
      requires Valid() && Pointer(a)
      modifies this, tasks, heads
      ensures Valid() && State() == Suspend(old(State()), a)
    {
      ShapeLengths();
      hide Shape, ListRemove, Pick, SwitchToMain, ContextSwitch;
      if a == NULL {
      } else if a == current {
        SetStateOf(a, Suspended);
        var next := Highest();
        if next != NULL { SwitchTo(next); } else { ToMain(); }
      } else if tasks[a].state == Ready {
        Remove(tasks[a].prio, a);
        SetStateOf(a, Suspended);
      } else if tasks[a].state == Blocked {
        var t := tasks[a];
        Remove(BLOCKED_LIST, a);
        Fill(a, t.(wake := 0, sleep := 0, state := Suspended));
      }
    }

    /** task_resume */
    method DoResume(a: int)
      requires Valid() && Pointer(a)
      modifies this, tasks, heads
      ensures Valid() && State() == Resume(old(State()), a)
    {
      ShapeLengths();
      hide Shape, AddToReady;
      if a != NULL && tasks[a].state == Suspended {
        SetStateOf(a, Ready);
        AddReady(a);
      }
    }

    /** The end of task_trampoline. */
    method DoFinish()
      requires Valid()
      modifies this, tasks, heads
      ensures Valid() && State() == Finish(old(State()))
    {
      ShapeLengths();
      hide Shape, SwitchToMain;
      SetStateOf(current, Terminated);
      ToMain();
    }

    /** scheduler_tickless_idle */
    method DoTickless()
      requires Valid()
      modifies this
      ensures Valid() && State() == Tickless(old(State()))
    {
      if !tickless || nextWake == NEVER || nextWake == tick { return; }
      tick := nextWake;
    }

    /** The body of the loop in scheduler_tick. */
    method WakeTask(a: int)
      requires Valid() && Slot(a)
      modifies this, tasks, heads
      ensures Valid() && State() == WakeOne(old(State()), a)
    {
      ShapeLengths();
      hide Shape, ListRemove, AddToReady;
      if tick >= tasks[a].wake {
        Remove(BLOCKED_LIST, a);
        SetStateOf(a, Ready);
        AddReady(a);
      }
    }

    lemma BlockedStart(v: View)
      requires Partition(State(), v)
      ensures Valid() && heads.Length == LISTS && heads[BLOCKED_LIST] == Head(v[BLOCKED_LIST])
              && AllSlots(v[BLOCKED_LIST])
    {
      WalkIs(State(), v, BLOCKED_LIST);
      HeadNull(State(), v, BLOCKED_LIST);
      assert heads[BLOCKED_LIST] == State().heads[BLOCKED_LIST];
    }

    /** The loop of scheduler_tick, which unlinks tasks from the list it walks. */
    method WakeBlocked(ghost v: View) returns (ghost w: View)
      requires Partition(State(), v)
      modifies this, tasks, heads
      ensures Partition(State(), w) && AllSlots(v[BLOCKED_LIST])
      ensures State() == WakeDue(old(State()), v[BLOCKED_LIST])
    {
      hide Partition, WakeOne, Chain, Shape;
      BlockedStart(v);
      ghost var l := v[BLOCKED_LIST];
      var task := heads[BLOCKED_LIST];
      w := v;
      ghost var kept, rest := [], l;
      while task != NULL
        invariant Valid() && Partition(State(), w) && w[BLOCKED_LIST] == kept + rest && AllSlots(rest)
        invariant task == Head(rest)
        invariant WakeDue(old(State()), l) == WakeDue(State(), rest)
        decreases |rest|
      {
        HeadOf(rest);
        ghost var w', kept' := PassOne(State(), w, kept, rest);
        var next := links[task].next;
        WakeTask(task);
        w, kept, rest := w', kept', rest[1..];
        task := next;
      }
      HeadOf(rest);
    }

    /** scheduler_update_next_wake_tick */
    method UpdateNextWake(ghost v: View)
      requires Partition(State(), v)
      modifies this`nextWake
      ensures Valid() && AllSlots(v[BLOCKED_LIST])
      ensures State() == old(State()).(nextWake := NextWake(tasks[..], v[BLOCKED_LIST], NEVER))
    {
      hide Partition, Shape;
      BlockedStart(v);
      ShapeLengths();
      ghost var l, k, s := v[BLOCKED_LIST], 0, State();
      nextWake := NEVER;
      var task := heads[BLOCKED_LIST];
      while task != NULL
        invariant 0 <= k <= |l| && task == At(l, k) && State() == s.(nextWake := nextWake)
        invariant NextWake(tasks[..], l, NEVER) == NextWake(tasks[..], l[k..], nextWake)
        decreases |l| - k
      {
        NextOf(s, v, BLOCKED_LIST, k);
        WakeFrom(tasks[..], l, k, nextWake);
        if tasks[task].wake < nextWake { nextWake := tasks[task].wake; }
        task := links[task].next;
        k := k + 1;
      }
      AtEnd(l, k);
      NextWakeShape(s, nextWake);
    }

    /** scheduler_tick */
    method DoTick()
      requires Good(State())
      modifies this, tasks, heads
      ensures Good(State()) && Shape(old(State())) && State() == Tick(old(State()))
    {
      ghost var v :| Inv(State(), v);
      ghost var after := TickExact(State(), v);
      tick := Later(tick, 1);
      PartitionFields(old(State()), State(), v);
      WalkIs(State(), v, BLOCKED_LIST);
      hide Partition, Roles, WakeDue, NextWake, Chain, Later, Shape;
      ghost var w := WakeBlocked(v);
      WalkIs(State(), w, BLOCKED_LIST);
      UpdateNextWake(w);
    }
  }
}
