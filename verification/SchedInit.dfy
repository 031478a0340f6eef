/** scheduler_init: every slot goes on the free list, then the idle and the main task take one each. */
module SchedInit {
  import opened Basics
  import opened Lists
  import opened SchedModel
  import opened SchedInv
  import opened SchedIff
  import opened SchedSteps
  import opened SchedRuns

  /** The loop of scheduler_init: slots 0 to `n - 1` on the free list. */
  function AddSlots(s: Sched, n: nat): (r: Sched)
    requires Shape(s) && n <= SLOTS
    ensures Shape(r)
  {
    if n == 0 then s else ListAdd(AddSlots(s, n - 1), FREE_LIST, n - 1)
  }

  function NoLinks(n: nat): (m: Links)
    ensures forall a :: 0 <= a < n ==> a in m && m[a] == Link(NULL, NULL)
  {
    if n == 0 then map[] else NoLinks(n - 1)[n - 1 := Link(NULL, NULL)]
  }

  /** All zero; the current and the main task are set at the end of scheduler_init and not looked at before. */
  function Zero(): (s: Sched)
    ensures Shape(s)
  {
    ZeroShape(SLOTS);
    ZeroOf(SLOTS)
  }

  function ZeroOf(n: nat): Sched {
    Sched(seq(n, i => Task(IDLE, Ready, 0, 0)), seq(LISTS, i => NULL), NoLinks(n), 0, 0, 0, NEVER, false, true)
  }

  lemma ZeroShape(n: nat)
    requires n == SLOTS
    ensures Shape(ZeroOf(n)) && Blank(ZeroOf(n))
  {
    var m := NoLinks(n);
    forall a | Slot(a) ensures LinkOk(m, a) { }
  }

  /** The main task takes the next free slot, off the list and running. */
  function TakeMain(s: Sched): (r: Sched)
    requires Shape(s)
    ensures Shape(r)
  {
    var m := s.heads[FREE_LIST];
    if m == NULL then s
    else SetTask(ListRemove(s, FREE_LIST, m), m, Task(NORMAL, Running, 0, 0)).(main := m, current := m)
  }

  /** scheduler_init; `ok` says that the idle task's stack and context could be set up. */
  function Init(ok: bool): (s: Sched)
    ensures Shape(s)
  {
    var s1 := Create(AddSlots(Zero(), SLOTS), IDLE, ok);
    if ok then TakeMain(s1) else s1
  }

  function Slots(n: nat): (l: seq<int>)
    ensures |l| == n && forall i {:trigger l[i]} :: 0 <= i < n ==> l[i] == n - 1 - i
  {
    if n == 0 then [] else [n - 1] + Slots(n - 1)
  }

  function FreeOnly(n: nat): View { [[], [], [], [], [], [], Slots(n)] }

  lemma ZeroSpells()
    ensures Spells(Zero().heads, Zero().links, FreeOnly(0))
  {
    var v := FreeOnly(0);
    forall q | 0 <= q < LISTS ensures v[q] == [] { }
    forall q | 0 <= q < LISTS ensures SpellsAt(Zero().heads, Zero().links, v, q) { }
    forall q, r | 0 <= q < LISTS && 0 <= r < LISTS && q != r ensures Apart(v, q, r) { }
  }

  lemma NotYet(n: nat)
    requires n < SLOTS
    ensures OnNone(FreeOnly(n), n) && Join(FreeOnly(n), FREE_LIST, n) == FreeOnly(n + 1)
  {
  }

  lemma {:induction false} AddSlotsSpells(n: nat)
    requires n <= SLOTS
    ensures var r := AddSlots(Zero(), n); Spells(r.heads, r.links, FreeOnly(n)) && r.tasks == Zero().tasks
    decreases n
  {
    hide Zero, Spells, FreeOnly, OnNone, Join, Shape;
    if n == 0 {
      ZeroSpells();
    } else {
      AddSlotsSpells(n - 1);
      NotYet(n - 1);
      AddSpells(AddSlots(Zero(), n - 1), FreeOnly(n - 1), FREE_LIST, n - 1);
    }
  }

  lemma FreePlaced(n: nat, a: int)
    requires Slot(a) && n == SLOTS
    ensures Placed(Task(IDLE, Ready, 0, 0), FreeOnly(n), a)
  {
    assert FreeOnly(n)[FREE_LIST][n - 1 - a] == a;
  }

  lemma AllFree(s: Sched, n: nat)
    requires n == SLOTS && Shape(s) && Spells(s.heads, s.links, FreeOnly(n)) && Blank(s)
    ensures Partition(s, FreeOnly(n))
  {
    assert |s.tasks| == SLOTS;
    hide Spells, FreeOnly, Placed, Shape;
    forall a | 0 <= a < SLOTS ensures Placed(s.tasks[a], FreeOnly(n), a) { FreePlaced(n, a); }
  }

  ghost predicate Blank(s: Sched) {
    |s.tasks| == SLOTS && forall a :: 0 <= a < SLOTS ==> s.tasks[a] == Task(IDLE, Ready, 0, 0)
  }

  /** Only the new main task runs. */
  lemma TakeMainGood(s: Sched, v: View) returns (w: View)
    requires Partition(s, v) && s.heads[FREE_LIST] != NULL
    requires forall a :: 0 <= a < SLOTS ==> s.tasks[a].state != Running
    ensures Inv(TakeMain(s), w) && v[FREE_LIST] != [] && w[FREE_LIST] == v[FREE_LIST][1..]
  {
    var m, t := s.heads[FREE_LIST], Task(NORMAL, Running, 0, 0);
    var s1 := ListRemove(s, FREE_LIST, m);
    HeadNull(s, v, FREE_LIST);
    DropFirst(v, FREE_LIST);
    w := Drop(v, FREE_LIST, m);
    MainRoles(s);
    hide Spells, PlacedBut, OnNone, Bypass, Roles, Drop;
    Take(s, v, FREE_LIST, m);
    Retask(s1, w, m, t);
    LeaveOff(SetTask(s1, m, t), w, m);
    PartitionFields(SetTask(s1, m, t), TakeMain(s), w);
  }

  lemma MainRoles(s: Sched)
    requires Shape(s) && s.heads[FREE_LIST] != NULL
    requires forall a :: 0 <= a < SLOTS ==> s.tasks[a].state != Running
    ensures Roles(TakeMain(s))
  {
  }

  /** Right after start-up: main runs, nothing is asleep, and `free` are the slots left. */
  ghost predicate Booted(s: Sched, v: View, main: int, free: seq<int>) {
    && Inv(s, v) && s.current == s.main == main && v[FREE_LIST] == free
    && s.tick == 0 && s.nextWake == NEVER && !s.started && s.tickless
    && forall a :: 0 <= a < SLOTS && a != main ==> s.tasks[a].state == Ready
  }

  lemma IdleThenMain(s: Sched, v: View) returns (w: View)
    requires Partition(s, v) && Blank(s) && |v[FREE_LIST]| >= 2
    requires s.tick == 0 && s.nextWake == NEVER && !s.started && s.tickless
    ensures Booted(TakeMain(Create(s, IDLE, true)), w, v[FREE_LIST][1], v[FREE_LIST][2..])
  {
    var a, t := s.heads[FREE_LIST], Task(IDLE, Ready, 0, 0);
    HeadNull(s, v, FREE_LIST);
    var w1 := Refill(s, v, t, IDLE);
    var s1 := SetTask(ListRemove(s, FREE_LIST, a), a, t);
    var s2 := ListAdd(s1, IDLE, a);
    assert Create(s, IDLE, true) == s2 by { assert AddToReady(s1, a).tasks == s1.tasks; }
    hide Partition, Create, Bypass, Push, ListRemove, Roles;
    HeadNull(s2, w1, FREE_LIST);
    w := TakeMainGood(s2, w1);
    assert v[FREE_LIST][1..][1..] == v[FREE_LIST][2..];
    BootFields(s2, s, a);
  }

  /** The fields once main has taken its slot. */
  lemma BootFields(s: Sched, was: Sched, a: int)
    requires Shape(s) && s.heads[FREE_LIST] != NULL && Blank(was) && Slot(a)
    requires s.tasks == was.tasks[a := Task(IDLE, Ready, 0, 0)] && s.tick == 0 && s.nextWake == NEVER
    requires !s.started && s.tickless
    ensures var r := TakeMain(s);
            && r.current == r.main == s.heads[FREE_LIST] && r.tick == 0 && r.nextWake == NEVER && !r.started
            && r.tickless
            && forall b :: 0 <= b < SLOTS && b != r.main ==> r.tasks[b].state == Ready
  {
  }

  lemma AddSlotsFields(n: nat)
    requires n <= SLOTS
    ensures var r := AddSlots(Zero(), n);
            r.tasks == Zero().tasks && r.tick == 0 && r.nextWake == NEVER && !r.started && r.tickless
  {
    hide Shape, Push;
    if n > 0 { AddSlotsFields(n - 1); }
  }

  lemma InitWith(n: nat) returns (v: View)
    requires n == SLOTS
    ensures Booted(Init(true), v, n - 2, Slots(n)[2..])
  {
    AddSlotsSpells(n);
    AddSlotsFields(n);
    ZeroShape(n);
    var s0 := AddSlots(Zero(), n);
    assert Blank(s0);
    hide AddSlots, Zero, ZeroOf, Spells, Slots;
    AllFree(s0, n);
    v := IdleThenMain(s0, FreeOnly(n));
  }

  /** scheduler_init establishes the invariant, with no wake-up recorded and nothing started. */
  lemma InitGood()
    ensures Good(Init(true)) && Timed(Init(true)) && !Init(true).started
  {
    hide Init, Inv;
    var v := InitWith(SLOTS);
  }
}
