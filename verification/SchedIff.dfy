/** When an operation of the scheduler breaks the partition, and the exact condition under which each one keeps it. */
module SchedIff {
  import opened Lists
  import opened SchedModel
  import opened SchedInv
  import opened SchedSteps

  // ---------------------------------------------------------------- delete

  /** A node that points at itself spells no list. */
  lemma SelfLoop(heads: seq<int>, links: Links, w: View, q: int, a: int)
    requires |heads| == LISTS && 0 <= q < LISTS && heads[q] == a != NULL && a in links && links[a].next == a
    ensures !SpellsAt(heads, links, w, q)
  {
    if SpellsAt(heads, links, w, q) {
      if |w[q]| > 1 { NoDupPair(w[q], 0, 1); }
      LinkedNeighbours(links, w[q], 0);
    }
  }

  /** From a pushed node that is also further down, the pointers lead round in a circle. */
  lemma {:induction false} Circle(m: Links, l: seq<int>, k: nat, w: seq<int>, i: nat)
    requires Linked(m, l) && 0 < k < |l| && l[0] in m && i <= k
    requires w != [] && w[0] == l[k] && Linked(Push(m, l[0], l[k]), w)
    ensures i + 1 < |w| && w[i + 1] == l[i]
    decreases i
  {
    var m' := Push(m, l[0], l[k]);
    NoDupPair(l, 0, k);
    if i == 0 {
      LinkedNeighbours(m', w, 0);
      LinkedNeighbours(m, l, 0);
    } else {
      Circle(m, l, k, w, i - 1);
      LinkedNeighbours(m', w, i);
      LinkedNeighbours(m, l, i - 1);
      LinkedNeighbours(m, l, i);
      NoDupPair(l, i - 1, k);
    }
  }

  lemma NoCircle(m: Links, l: seq<int>, k: nat, w: seq<int>)
    requires Linked(m, l) && 0 < k < |l| && l[0] in m && w != [] && w[0] == l[k]
    ensures !Linked(Push(m, l[0], l[k]), w)
  {
    if Linked(Push(m, l[0], l[k]), w) {
      Circle(m, l, k, w, k);
    }
  }

  lemma DeleteBreaks(s: Sched, v: View, a: int, w: View)
    requires Inv(s, v) && Pointer(a) && !MayDelete(s, a)
    ensures !Inv(Delete(s, a), w)
  {
    WalkIs(s, v, FREE_LIST);
    hide Chain;
    if a == s.main && s.tasks[a].state == Suspended {
      assert Delete(s, a).tasks[a].state == Terminated;
    } else if a == s.heads[FREE_LIST] {
      DeleteHead(s, v, a);
      SelfLoop(Delete(s, a).heads, Delete(s, a).links, w, FREE_LIST, a);
    } else {
      DeleteTwice(s, v, a, w);
    }
  }

  lemma DeleteHead(s: Sched, v: View, a: int)
    requires Partition(s, v) && Slot(a) && CanDelete(s, a) && a == s.heads[FREE_LIST]
    ensures var r := Delete(s, a); r.heads[FREE_LIST] == a && a in r.links && r.links[a].next == a
  {
    FreeHead(s, v, a);
  }

  lemma DeleteTwice(s: Sched, v: View, a: int, w: View)
    requires Partition(s, v) && Slot(a) && CanDelete(s, a) && a in v[FREE_LIST] && s.tasks[a].state == Terminated
    requires a != s.heads[FREE_LIST]
    ensures !Partition(Delete(s, a), w)
  {
    var r, l := Delete(s, a), v[FREE_LIST];
    assert SpellsAt(s.heads, s.links, v, FREE_LIST);
    HeadNull(s, v, FREE_LIST);
    var k := IndexOf(l, a);
    assert r.heads[FREE_LIST] == a && r.links == Push(s.links, l[0], a);
    hide Linked, Push, Delete;
    LinkedNeighbours(s.links, l, 0);
    if w[FREE_LIST] != [] && w[FREE_LIST][0] == a { NoCircle(s.links, l, k, w[FREE_LIST]); }
    assert !SpellsAt(r.heads, r.links, w, FREE_LIST);
  }

  /** task_delete keeps the invariant exactly when the slot is not free already and not the suspended main task. */
  lemma DeleteIff(s: Sched, v: View, a: int)
    requires Inv(s, v) && Pointer(a)
    ensures Good(Delete(s, a)) <==> MayDelete(s, a)
  {
    hide MayDelete, Delete, Spells, PlacedBut, Roles;
    if MayDelete(s, a) {
      var w := DeleteKeeps(s, v, a);
    } else {
      forall w ensures !Inv(Delete(s, a), w) { DeleteBreaks(s, v, a, w); }
    }
  }

  // ---------------------------------------------------------------- suspend

  /** A slot about to be handed out by task_create must not be suspended. */
  predicate MaySuspend(s: Sched, a: int)
    requires Shape(s) && Pointer(a)
  {
    a == NULL || a == s.current || a != s.heads[FREE_LIST] || s.tasks[a].state != Ready
  }

  lemma SuspendSelf(s: Sched, v: View) returns (w: View)
    requires Inv(s, v)
    ensures Inv(Suspend(s, s.current), w)
  {
    var c := s.current;
    var s1 := SetState(s, c, Suspended);
    PickQueued(s, v);
    PickUp(s, v, c);
    StateOnly(s, v, c, Suspended);
    SelfQuiet(s);
    assert Pick(s) != NULL ==> Queued(s1, v, Pick(s));
    assert Pick(s1) == Pick(s);
    hide Partition, Quiet, Queued, ContextSwitch, SwitchToMain, HighestFrom, Pick;
    w := Switch(s1, v, Pick(s));
  }

  lemma SelfQuiet(s: Sched)
    requires Shape(s) && Roles(s)
    ensures Quiet(SetState(s, s.current, Suspended))
  {
  }

  lemma SuspendOther(s: Sched, v: View, a: int) returns (w: View)
    requires Inv(s, v) && Slot(a) && a != s.current && MaySuspend(s, a)
    ensures Inv(Suspend(s, a), w)
  {
    var t := s.tasks[a];
    w := v;
    if t.state == Ready || t.state == Blocked {
      FreeHead(s, v, a);
      var t' := if t.state == Ready then t.(state := Suspended) else t.(wake := 0, sleep := 0, state := Suspended);
      var s1 := ListRemove(s, HomeList(t), a);
      assert Suspend(s, a) == SetTask(s1, a, t');
      RolesAfter(s, Suspend(s, a), a, t');
      w := Unhook(s, v, a);
      hide Spells, PlacedBut, OnNone, Roles, ListRemove, Suspend;
      Retask(s1, w, a, t');
      LeaveOff(SetTask(s1, a, t'), w, a);
    }
  }

  lemma SuspendBreaks(s: Sched, v: View, a: int, w: View)
    requires Inv(s, v) && Pointer(a) && !MaySuspend(s, a)
    ensures !Inv(Suspend(s, a), w)
  {
    var r := Suspend(s, a);
    assert r.heads[FREE_LIST] == a && r.tasks[a].state == Suspended;
    if Partition(r, w) { HeadNull(r, w, FREE_LIST); }
  }

  /** task_suspend keeps the invariant exactly when it is not given the next free slot in its never used state. */
  lemma SuspendIff(s: Sched, v: View, a: int)
    requires Inv(s, v) && Pointer(a)
    ensures Good(Suspend(s, a)) <==> MaySuspend(s, a)
  {
    if a == NULL {
      assert Inv(Suspend(s, a), v);
    } else if a == s.current {
      var w := SuspendSelf(s, v);
    } else if MaySuspend(s, a) {
      var w := SuspendOther(s, v, a);
    } else {
      forall w ensures !Inv(Suspend(s, a), w) { SuspendBreaks(s, v, a, w); }
    }
  }

  // ---------------------------------------------------------------- resume

  lemma ResumeKeeps(s: Sched, v: View, a: int) returns (w: View)
    requires Inv(s, v) && Pointer(a) && (a == s.main ==> s.tasks[a].state != Suspended)
    ensures Inv(Resume(s, a), w)
  {
    w := v;
    if a != NULL && s.tasks[a].state == Suspended {
      var t := s.tasks[a].(state := Ready);
      w := Join(v, t.prio, a);
      var r := ListAdd(SetTask(s, a, t), t.prio, a);
      assert Resume(s, a) == r by { assert Resume(s, a).tasks == r.tasks; }
      RolesAfter(s, r, a, t);
      hide Spells, PlacedBut, OnNone, Push, Roles, Resume;
      PickUp(s, v, a);
      Retask(s, v, a, t);
      Put(SetTask(s, a, t), v, t.prio, a);
    }
  }

  /** task_resume keeps the invariant exactly when it is not given the suspended main task. */
  lemma ResumeIff(s: Sched, v: View, a: int)
    requires Inv(s, v) && Pointer(a)
    ensures Good(Resume(s, a)) <==> !(a == s.main && s.tasks[a].state == Suspended)
  {
    if a == s.main && s.tasks[a].state == Suspended {
      assert Resume(s, a).tasks[a].state == Ready;
      assert !Roles(Resume(s, a));
    } else {
      var w := ResumeKeeps(s, v, a);
    }
  }

  // ---------------------------------------------------------------- step

  /** scheduler_step keeps the invariant exactly when main calls it or there is nothing to dispatch. */
  lemma StepIff(s: Sched, v: View)
    requires Inv(s, v)
    ensures Good(Step(s)) <==> s.current == s.main || !s.started || Pick(s) == NULL
  {
    if s.current == s.main {
      var w := StepKeeps(s, v);
    } else if !s.started || Pick(s) == NULL {
      assert Inv(Step(s), v);
    } else {
      PickQueued(s, v);
      StepBreaks(s, Pick(s));
    }
  }

  lemma StepBreaks(s: Sched, a: int)
    requires Shape(s) && Roles(s) && s.current != s.main && Slot(a) && s.tasks[a].state == Ready
    ensures !Roles(ContextSwitch(s, a))
  {
    var r := ContextSwitch(s, a);
    assert r.tasks[s.current].state == Running;
  }
}
