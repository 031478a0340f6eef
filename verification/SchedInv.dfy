/** The partition of the task slots over the lists of the scheduler, and what moving one task does to it. */
module SchedInv {
  import opened Lists
  import opened SchedModel

  /** One sequence of slots per list. */
  type View = v: seq<seq<int>> | |v| == LISTS witness [[], [], [], [], [], [], []]

  /** Head `q` and the links spell out list `q`, forwards and backwards. */
  ghost predicate SpellsAt(heads: seq<int>, links: Links, v: View, q: int)
    requires |heads| == LISTS && 0 <= q < LISTS
  {
    heads[q] == Head(v[q]) && Linked(links, v[q]) && AllSlots(v[q])
  }

  ghost predicate Apart(v: View, q: int, r: int)
    requires 0 <= q < LISTS && 0 <= r < LISTS
  {
    Disjoint(v[q], v[r])
  }

  ghost predicate Spells(heads: seq<int>, links: Links, v: View)
    requires |heads| == LISTS
  {
    && (forall q :: 0 <= q < LISTS ==> SpellsAt(heads, links, v, q))
    && (forall q, r :: 0 <= q < LISTS && 0 <= r < LISTS && q != r ==> Apart(v, q, r))
  }

  /** What list `q` may hold: ready tasks of its priority, blocked tasks, or slots that are not in use. */
  ghost predicate Fits(t: Task, q: int) {
    if q < BLOCKED_LIST then t.state == Ready && t.prio == q
    else if q == BLOCKED_LIST then t.state == Blocked
    else t.state == Ready || t.state == Terminated
  }

  ghost predicate OnNone(v: View, a: int) {
    forall q :: 0 <= q < LISTS ==> a !in v[q]
  }

  /** Slot `a` is on a list that fits it, or on none when it is running, suspended or terminated. */
  ghost predicate Placed(t: Task, v: View, a: int) {
    && t.prio <= CRITICAL
    && (forall q :: 0 <= q < LISTS && a in v[q] ==> Fits(t, q))
    && (t.state == Ready ==> a in v[t.prio] || a in v[FREE_LIST])
    && (t.state == Blocked ==> a in v[BLOCKED_LIST])
  }

  ghost predicate PlacedBut(tasks: seq<Task>, v: View, x: int)
    requires |tasks| == SLOTS
  {
    forall a :: 0 <= a < SLOTS && a != x ==> Placed(tasks[a], v, a)
  }

  /** Every slot is where its state says; the lists are well linked and disjoint. */
  ghost predicate Partition(s: Sched, v: View) {
    Shape(s) && Spells(s.heads, s.links, v) && PlacedBut(s.tasks, v, NULL)
  }

  /** The same with slot `x` in hand: it is on no list, whatever its state. */
  ghost predicate PartitionBut(s: Sched, v: View, x: int) {
    Shape(s) && Spells(s.heads, s.links, v) && PlacedBut(s.tasks, v, x) && OnNone(v, x)
  }

  // ---------------------------------------------------------------- moving one task

  function Drop(v: View, q: int, a: int): View
    requires 0 <= q < LISTS && a in v[q]
  {
    v[q := DropAt(v[q], IndexOf(v[q], a))]
  }

  function Join(v: View, q: int, a: int): View
    requires 0 <= q < LISTS
  {
    v[q := [a] + v[q]]
  }

  lemma DropMembers(v: View, q: int, a: int)
    requires 0 <= q < LISTS && a in v[q] && NoDup(v[q])
    ensures forall x :: x in Drop(v, q, a)[q] <==> x in v[q] && x != a
  {
    DropAtMembers(v[q], IndexOf(v[q], a));
  }

  /** Another list is left as it was by a removal. */
  lemma RemoveOther(m: Links, l: seq<int>, k: nat, l2: seq<int>)
    requires Linked(m, l) && Linked(m, l2) && Disjoint(l, l2) && k < |l|
    ensures l[k] in m && (m[l[k]].prev == NULL || m[l[k]].prev in m) && (m[l[k]].next == NULL || m[l[k]].next in m)
    ensures Linked(Bypass(m, l[k])[l[k] := Link(NULL, NULL)], l2)
  {
    BypassLinked(m, l, k);
    BypassOther(m, l, k, l2);
    hide Linked, Bypass, DropAt;
    assert l[k] in l && l[k] !in l2;
    LinkedFrame(Bypass(m, l[k]), Bypass(m, l[k])[l[k] := Link(NULL, NULL)], l2);
  }

  /** The list itself loses the node. */
  lemma RemoveSame(m: Links, l: seq<int>, k: nat)
    requires Linked(m, l) && k < |l|
    ensures l[k] in m && (m[l[k]].prev == NULL || m[l[k]].prev in m) && (m[l[k]].next == NULL || m[l[k]].next in m)
    ensures Linked(Bypass(m, l[k])[l[k] := Link(NULL, NULL)], DropAt(l, k))
    ensures Head(DropAt(l, k)) == if m[l[k]].prev == NULL then m[l[k]].next else Head(l)
  {
    BypassLinked(m, l, k);
    DropAtMembers(l, k);
    LinkedNeighbours(m, l, k);
    hide Linked, Bypass, DropAt;
    LinkedFrame(Bypass(m, l[k]), Bypass(m, l[k])[l[k] := Link(NULL, NULL)], DropAt(l, k));
  }

  lemma RemoveSpells(s: Sched, v: View, q: int, a: int)
    requires Shape(s) && Spells(s.heads, s.links, v) && 0 <= q < LISTS && a in v[q] && Slot(a)
    ensures var r := ListRemove(s, q, a); Spells(r.heads, r.links, Drop(v, q, a)) && OnNone(Drop(v, q, a), a)
  {
    assert SpellsAt(s.heads, s.links, v, q);
    var r, w := ListRemove(s, q, a), Drop(v, q, a);
    DropMembers(v, q, a);
    forall p | 0 <= p < LISTS ensures SpellsAt(r.heads, r.links, w, p) { RemoveAt(s, v, q, a, p); }
    forall p | 0 <= p < LISTS ensures a !in w[p] { if p != q { assert Apart(v, q, p); } }
    forall p, p' | 0 <= p < LISTS && 0 <= p' < LISTS && p != p' ensures Apart(w, p, p') { assert Apart(v, p, p'); }
  }

  lemma RemoveAt(s: Sched, v: View, q: int, a: int, p: int)
    requires Shape(s) && Spells(s.heads, s.links, v) && 0 <= q < LISTS && a in v[q] && Slot(a) && 0 <= p < LISTS
    ensures var r := ListRemove(s, q, a); SpellsAt(r.heads, r.links, Drop(v, q, a), p)
  {
    assert SpellsAt(s.heads, s.links, v, q) && SpellsAt(s.heads, s.links, v, p);
    var k := IndexOf(v[q], a);
    hide Linked, Bypass, DropAt, IndexOf, Shape;
    RemoveSame(s.links, v[q], k);
    if p != q {
      assert Apart(v, q, p);
      RemoveOther(s.links, v[q], k, v[p]);
    }
  }

  lemma AddSpells(s: Sched, v: View, q: int, a: int)
    requires Shape(s) && Spells(s.heads, s.links, v) && 0 <= q < LISTS && OnNone(v, a) && Slot(a)
    ensures var r := ListAdd(s, q, a); Spells(r.heads, r.links, Join(v, q, a))
  {
    var r, w := ListAdd(s, q, a), Join(v, q, a);
    forall p | 0 <= p < LISTS ensures SpellsAt(r.heads, r.links, w, p) { AddAt(s, v, q, a, p); }
    forall p, p' | 0 <= p < LISTS && 0 <= p' < LISTS && p != p' ensures Apart(w, p, p') { assert Apart(v, p, p'); }
  }

  lemma AddAt(s: Sched, v: View, q: int, a: int, p: int)
    requires Shape(s) && Spells(s.heads, s.links, v) && 0 <= q < LISTS && OnNone(v, a) && Slot(a) && 0 <= p < LISTS
    ensures var r := ListAdd(s, q, a); SpellsAt(r.heads, r.links, Join(v, q, a), p)
  {
    assert SpellsAt(s.heads, s.links, v, q) && SpellsAt(s.heads, s.links, v, p);
    assert a !in v[q] && a !in v[p];
    HeadLinked(s.links, v[q]);
    hide Linked, Push, Shape;
    PushLinked(s.links, v[q], a);
    if p != q {
      assert Apart(v, q, p);
      PushOther(s.links, v[q], a, v[p]);
    }
  }

  /** Take slot `a` off list `q`. */
  lemma Take(s: Sched, v: View, q: int, a: int)
    requires Partition(s, v) && 0 <= q < LISTS && a in v[q] && Slot(a)
    ensures PartitionBut(ListRemove(s, q, a), Drop(v, q, a), a)
  {
    RemoveSpells(s, v, q, a);
    assert SpellsAt(s.heads, s.links, v, q);
    DropMembers(v, q, a);
    hide Spells, Drop, Bypass, OnNone;
    forall b | 0 <= b < SLOTS && b != a ensures Placed(s.tasks[b], Drop(v, q, a), b) {
      assert Placed(s.tasks[b], v, b);
      PlacedFrame(s.tasks[b], v, Drop(v, q, a), b) by { DropOthers(v, q, a); }
    }
  }

  lemma DropOthers(v: View, q: int, a: int)
    requires 0 <= q < LISTS && a in v[q] && NoDup(v[q])
    ensures forall p, b :: 0 <= p < LISTS && b != a ==> (b in Drop(v, q, a)[p] <==> b in v[p])
  {
    DropMembers(v, q, a);
  }

  lemma PlacedFrame(t: Task, v: View, w: View, b: int)
    requires Placed(t, v, b) && forall p :: 0 <= p < LISTS ==> (b in w[p] <==> b in v[p])
    ensures Placed(t, w, b)
  {
  }

  /** Put the slot in hand on list `q`. */
  lemma Put(s: Sched, v: View, q: int, a: int)
    requires PartitionBut(s, v, a) && 0 <= q < LISTS && Slot(a) && Fits(s.tasks[a], q)
    ensures Partition(ListAdd(s, q, a), Join(v, q, a))
  {
    AddSpells(s, v, q, a);
    hide Spells, Push;
    var w := Join(v, q, a);
    forall b | 0 <= b < SLOTS ensures Placed(s.tasks[b], w, b) {
      if b != a { PlacedFrame(s.tasks[b], v, w, b); }
    }
  }

  /** Rewrite the task in hand. */
  lemma Retask(s: Sched, v: View, a: int, t: Task)
    requires PartitionBut(s, v, a) && Slot(a) && t.prio <= CRITICAL
    ensures PartitionBut(SetTask(s, a, t), v, a)
  {
    hide Spells, OnNone;
    forall b | 0 <= b < SLOTS && b != a ensures Placed(SetTask(s, a, t).tasks[b], v, b) {
      assert Placed(s.tasks[b], v, b);
    }
  }

  /** A task that is running, suspended or terminated can be left off the lists. */
  lemma LeaveOff(s: Sched, v: View, a: int)
    requires PartitionBut(s, v, a) && Slot(a)
    requires s.tasks[a].state == Running || s.tasks[a].state == Suspended || s.tasks[a].state == Terminated
    ensures Partition(s, v)
  {
    hide Spells;
    forall b | 0 <= b < SLOTS ensures Placed(s.tasks[b], v, b) { }
  }

  /** A task that is running or suspended is on no list, nor is a terminated one that is not on the free list. */
  lemma PickUp(s: Sched, v: View, a: int)
    requires Partition(s, v) && Slot(a)
    requires s.tasks[a].state == Running || s.tasks[a].state == Suspended
             || (s.tasks[a].state == Terminated && a !in v[FREE_LIST])
    ensures PartitionBut(s, v, a)
  {
    hide Spells, Placed;
    assert Placed(s.tasks[a], v, a);
    forall q | 0 <= q < LISTS ensures a !in v[q] { OffList(s.tasks[a], v, a, q); }
  }

  lemma OffList(t: Task, v: View, a: int, q: int)
    requires Placed(t, v, a) && 0 <= q < LISTS
    requires t.state == Running || t.state == Suspended || (t.state == Terminated && a !in v[FREE_LIST])
    ensures a !in v[q]
  {
  }

  /** Fields other than the tasks, heads and links do not matter. */
  lemma PartitionFields(s: Sched, r: Sched, v: View)
    requires Shape(r) && r.tasks == s.tasks && r.heads == s.heads && r.links == s.links
    ensures Partition(s, v) ==> Partition(r, v)
    ensures forall a :: PartitionBut(s, v, a) ==> PartitionBut(r, v, a)
  {
  }

  // ---------------------------------------------------------------- walking a list

  lemma NotBelow(l: seq<int>, n: nat)
    requires l != [] && n == 0
    ensures !forall i :: 0 <= i < |l| ==> 0 <= l[i] < n
  {
    assert !(0 <= l[0] < n);
  }

  /** Distinct numbers below `n` are at most `n` many. */
  lemma {:induction false} Pigeons(l: seq<int>, n: nat)
    requires NoDup(l) && forall i :: 0 <= i < |l| ==> 0 <= l[i] < n
    ensures |l| <= n
    decreases n
  {
    if n == 0 {
      if l != [] { NotBelow(l, n); }
    } else if n - 1 in l {
      var k := IndexOf(l, n - 1);
      NoDupDrop(l, k);
      DropAtMembers(l, k);
      var d := DropAt(l, k);
      forall i | 0 <= i < |d| ensures 0 <= d[i] < n - 1 { assert d[i] in d; }
      Pigeons(d, n - 1);
    } else {
      forall i | 0 <= i < |l| ensures 0 <= l[i] < n - 1 { assert l[i] in l; }
      Pigeons(l, n - 1);
    }
  }

  /** Following the next pointers of a well linked list gives that list. */
  lemma {:induction false} ChainIs(m: Links, l: seq<int>, i: nat, n: nat)
    requires Linked(m, l) && AllSlots(l) && i <= |l| <= i + n && forall b :: Slot(b) ==> LinkOk(m, b)
    ensures Chain(m, if i < |l| then l[i] else NULL, n) == l[i..]
    decreases n
  {
    if i < |l| {
      LinkedNeighbours(m, l, i);
      ChainIs(m, l, i + 1, n - 1);
      assert l[i..] == [l[i]] + l[i + 1..];
    }
  }

  lemma WalkIs(s: Sched, v: View, q: int)
    requires Partition(s, v) && 0 <= q < LISTS
    ensures Chain(s.links, s.heads[q], SLOTS) == v[q] && NoDup(v[q]) && AllSlots(v[q])
  {
    assert SpellsAt(s.heads, s.links, v, q);
    Pigeons(v[q], SLOTS);
    ChainIs(s.links, v[q], 0, SLOTS);
  }
}
