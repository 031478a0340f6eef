/**
 * The intrusive timer list of kernel/os_time.c. Timers are named by integers; the timer structs are held as one map
 * per group of fields.
 */
module TimerList {
  import opened Basics
  import opened Lists
  import opened TimerModel

  /** Node `i` of `l` points at the next one. */
  ghost predicate NextAt(next: map<int, int>, l: seq<int>, i: int)
    requires 0 <= i < |l|
  {
    l[i] in next && next[l[i]] == if i + 1 < |l| then l[i + 1] else NULL
  }

  /** The head and the next pointers spell out `l`. */
  ghost predicate Spelled(head: int, next: map<int, int>, l: seq<int>) {
    head == Head(l) && NoDup(l) && NULL !in l && forall i :: 0 <= i < |l| ==> NextAt(next, l, i)
  }

  function Splice(l: seq<int>, k: nat, t: int): (r: seq<int>)
    requires k <= |l|
    ensures |r| == |l| + 1 && r[k] == t
    ensures forall i {:trigger r[i]} :: 0 <= i < k ==> r[i] == l[i]
    ensures forall i {:trigger r[i]} :: k < i < |r| ==> r[i] == l[i - 1]
  {
    l[..k] + [t] + l[k..]
  }

  lemma SpliceMembers(l: seq<int>, k: nat, t: int)
    requires k <= |l|
    ensures forall x :: x in Splice(l, k, t) <==> x in l || x == t
    ensures t !in l && NoDup(l) ==> NoDup(Splice(l, k, t))
  {
    assert l == l[..k] + l[k..];
  }

  /** Linking `t` in behind its predecessor, or at the head. */
  lemma SpliceSpelled(head: int, next: map<int, int>, l: seq<int>, k: nat, t: int)
    requires Spelled(head, next, l) && k <= |l| && t !in l && t != NULL
    ensures var cur := if k < |l| then l[k] else NULL;
            Spelled(if k == 0 then t else head, if k == 0 then next[t := cur] else next[t := cur][l[k - 1] := t],
                    Splice(l, k, t))
  {
    hide Splice, NoDup;
    SpliceMembers(l, k, t);
    var cur := if k < |l| then l[k] else NULL;
    var next' := if k == 0 then next[t := cur] else next[t := cur][l[k - 1] := t];
    forall i | 0 <= i < |l| + 1 ensures NextAt(next', Splice(l, k, t), i) { SpliceAt(next, l, k, t, i); }
  }

  lemma SpliceAt(next: map<int, int>, l: seq<int>, k: nat, t: int, i: nat)
    requires Spelled(Head(l), next, l) && k <= |l| && t !in l && i <= |l|
    ensures var cur := if k < |l| then l[k] else NULL;
            NextAt(if k == 0 then next[t := cur] else next[t := cur][l[k - 1] := t], Splice(l, k, t), i)
  {
    hide Splice, NoDup;
    if i < k {
      assert NextAt(next, l, i) && l[i] in l;
      if i != k - 1 { NoDupAt(l, i, k - 1); }
    } else if i > k {
      assert NextAt(next, l, i - 1) && l[i - 1] in l;
      if k > 0 { NoDupAt(l, k - 1, i - 1); }
    }
    assert k > 0 ==> l[k - 1] in l;
  }

  /** Taking node `k` out. */
  lemma UnlinkSpelled(head: int, next: map<int, int>, l: seq<int>, k: nat)
    requires Spelled(head, next, l) && k < |l| && l[k] in next
    ensures Spelled(if k == 0 then next[l[k]] else head,
                    if k == 0 then next[l[k] := NULL] else next[l[k - 1] := next[l[k]]][l[k] := NULL], DropAt(l, k))
  {
    hide DropAt, NoDup;
    NoDupDrop(l, k);
    DropAtMembers(l, k);
    var next' := if k == 0 then next[l[k] := NULL] else next[l[k - 1] := next[l[k]]][l[k] := NULL];
    assert NextAt(next, l, k);
    forall i | 0 <= i < |l| - 1 ensures NextAt(next', DropAt(l, k), i) { UnlinkAt(next, l, k, i); }
  }

  lemma UnlinkAt(next: map<int, int>, l: seq<int>, k: nat, i: nat)
    requires Spelled(Head(l), next, l) && k < |l| && l[k] in next && i < |l| - 1
    ensures NextAt(if k == 0 then next[l[k] := NULL] else next[l[k - 1] := next[l[k]]][l[k] := NULL], DropAt(l, k), i)
  {
    hide DropAt, NoDup;
    var j := if i < k then i else i + 1;
    assert NextAt(next, l, j) && NextAt(next, l, k);
    NoDupPair(l, j, k);
    if k > 0 && j != k - 1 { NoDupPair(l, j, k - 1); }
  }

  ghost predicate Known(rec: map<int, Record>, l: seq<int>) {
    forall i :: 0 <= i < |l| ==> l[i] in rec
  }

  /** The records of the timers of `l`. */
  ghost function Recs(rec: map<int, Record>, l: seq<int>): (r: seq<Record>)
    requires Known(rec, l)
    ensures |r| == |l|
    ensures forall i {:trigger r[i]} :: 0 <= i < |l| ==> r[i] == rec[l[i]]
  {
    seq(|l|, i requires 0 <= i < |l| => rec[l[i]])
  }

  /** Timers before position `k` expire no later than `e`, the one there expires later. */
  ghost predicate FitsAt(rec: map<int, Record>, l: seq<int>, k: nat, e: nat)
    requires Known(rec, l) && k <= |l|
  {
    (forall i :: 0 <= i < k ==> rec[l[i]].expire <= e) && (k < |l| ==> rec[l[k]].expire > e)
  }

  lemma RecsSplice(rec: map<int, Record>, l: seq<int>, k: nat, t: int)
    requires Known(rec, l) && t in rec && k <= |l| && FitsAt(rec, l, k, rec[t].expire)
    ensures Known(rec, Splice(l, k, t)) && Recs(rec, Splice(l, k, t)) == Insert(Recs(rec, l), rec[t])
  {
    hide Splice, Recs, Insert;
    var r := Recs(rec, l);
    InsertIs(r, rec[t], k);
    assert Recs(rec, Splice(l, k, t)) == r[..k] + [rec[t]] + r[k..];
  }

  /** The place of an insertion is determined. */
  lemma {:induction false} InsertIs(r: seq<Record>, t: Record, k: nat)
    requires k <= |r| && (forall i :: 0 <= i < k ==> r[i].expire <= t.expire) && (k < |r| ==> r[k].expire > t.expire)
    ensures Insert(r, t) == r[..k] + [t] + r[k..]
    decreases k
  {
    if k > 0 {
      InsertIs(r[1..], t, k - 1);
      assert r[..k] == [r[0]] + r[1..][..k - 1] && r[k..] == r[1..][k - 1..];
    }
  }

  /** Changing a timer that is not on the list leaves the records of the list alone. */
  lemma RecsFrame(rec: map<int, Record>, l: seq<int>, t: int, r: Record)
    requires Known(rec, l) && t !in l
    ensures Known(rec[t := r], l) && Recs(rec[t := r], l) == Recs(rec, l)
  {
    hide Recs;
    assert forall i {:trigger l[i]} :: 0 <= i < |l| ==> l[i] in l;
    assert Recs(rec[t := r], l) == Recs(rec, l);
  }

  lemma SpelledFrame(head: int, next: map<int, int>, l: seq<int>, t: int, n: int)
    requires Spelled(head, next, l) && t !in l
    ensures Spelled(head, next[t := n], l)
  {
    var next' := next[t := n];
    forall i | 0 <= i < |l| ensures NextAt(next', l, i) { assert NextAt(next, l, i) && l[i] in l; }
  }

  lemma RecsDrop(rec: map<int, Record>, l: seq<int>, k: nat)
    requires Known(rec, l) && k < |l|
    ensures Known(rec, DropAt(l, k))
    ensures Recs(rec, DropAt(l, k)) == Recs(rec, l)[..k] + Recs(rec, l)[k + 1..]
    ensures Sorted(Recs(rec, l)) ==> Sorted(Recs(rec, DropAt(l, k)))
  {
    hide DropAt, Recs;
    var r, r' := Recs(rec, l), Recs(rec, DropAt(l, k));
    assert r' == r[..k] + r[k + 1..];
    if Sorted(r) {
      forall i, j | 0 <= i < j < |r'| ensures r'[i].expire <= r'[j].expire {
        assert r'[i] == r[if i < k then i else i + 1] && r'[j] == r[if j < k then j else j + 1];
      }
    }
  }

  lemma RecsTail(rec: map<int, Record>, l: seq<int>)
    requires Known(rec, l) && l != []
    ensures Known(rec, DropAt(l, 0)) && Recs(rec, DropAt(l, 0)) == Recs(rec, l)[1..]
  {
    hide DropAt, Recs;
    RecsDrop(rec, l, 0);
    var r := Recs(rec, l);
    assert r[..0] + r[0 + 1..] == r[1..];
  }

  class TimerQueue {
    var head: int
    var next: map<int, int>
    var rec: map<int, Record>       // expiry, period and kind of every timer created
    var active: map<int, bool>
    ghost var list: seq<int>

    ghost predicate Shape()
      reads this
    {
      Spelled(head, next, list) && Known(rec, list)
    }

    /** The pointers spell out a sorted list, and it holds exactly the active timers. */
    ghost predicate Valid()
      reads this
    {
      Shape() && Sorted(Recs(rec, list)) && active.Keys == rec.Keys && NULL !in rec
      && (forall t :: t in active ==> (active[t] <==> t in list)) && forall t :: t in rec ==> rec[t].id == t
    }

    ghost function Contents(): seq<Record>
      requires Shape()
      reads this
    {
      Recs(rec, list)
    }

    constructor ()
      ensures Valid() && list == [] && rec == map[]
    {
      head, next, rec, active, list := NULL, map[], map[], map[], [];
    }

    /** The walk of timer_list_insert. */
    method Seek(t: int) returns (prev: int, cur: int, ghost k: nat)
      requires Shape() && t in rec
      ensures k <= |list| && FitsAt(rec, list, k, rec[t].expire)
      ensures cur == (if k < |list| then list[k] else NULL) && prev == (if k == 0 then NULL else list[k - 1])
    {
      prev, cur, k := NULL, head, 0;
      while cur != NULL && rec[cur].expire <= rec[t].expire
        invariant 0 <= k <= |list| && cur == (if k < |list| then list[k] else NULL)
        invariant prev == if k == 0 then NULL else list[k - 1]
        invariant cur != NULL ==> k < |list|
        invariant forall i :: 0 <= i < k ==> rec[list[i]].expire <= rec[t].expire
        decreases |list| - k
      {
        assert NextAt(next, list, k);
        prev, cur := cur, next[cur];
        k := k + 1;
      }
      assert k < |list| ==> list[k] in list;
    }

    /** timer_list_insert */
    method ListInsert(t: int)
      requires Shape() && t in rec && t !in list && t != NULL
      modifies this`head, this`next, this`list
      ensures Shape() && Contents() == Insert(old(Contents()), rec[t])
      ensures forall x :: x in list <==> x in old(list) || x == t
    {
      var prev, cur, k := Seek(t);
      assert k > 0 ==> prev != NULL by { assert k > 0 ==> list[k - 1] in list; }
      hide Spelled, Splice, Insert, Recs, Known, FitsAt;
      SpliceSpelled(head, next, list, k, t);
      RecsSplice(rec, list, k, t);
      SpliceMembers(list, k, t);
      next := next[t := cur];
      if prev == NULL { head := t; } else { next := next[prev := t]; }
      list := Splice(list, k, t);
    }

    /** os_timer_create, of a timer that is not running. */
    method Create(t: nat, now: nat, delay: nat, periodic: bool)
      requires Valid() && t !in list
      modifies this
      ensures Valid() && list == old(list) && Contents() == old(Contents())
      ensures rec == old(rec)[t := Record(t, (now + delay) % U64, periodic, delay)]
      ensures active == old(active)[t := false]
    {
      hide Spelled, Recs, Known, Sorted;
      var r := Record(t, (now + delay) % U64, periodic, delay);
      RecsFrame(rec, list, t, r);
      SpelledFrame(head, next, list, t, NULL);
      rec := rec[t := r];
      next := next[t := NULL];
      active := active[t := false];
    }

    /** os_timer_start */
    method Start(t: int, now: nat) returns (ok: bool)
      requires Valid() && t in rec
      modifies this
      ensures Valid() && ok == !old(active[t])
      ensures ok ==> rec == old(rec)[t := Started(old(rec[t]), now)] && active == old(active)[t := true]
      ensures ok ==> Contents() == Insert(old(Contents()), rec[t])
      ensures !ok ==> rec == old(rec) && active == old(active) && list == old(list)
    {
      hide Spelled, Recs, Known, Sorted, Insert;
      if active[t] { return false; }
      RecsFrame(rec, list, t, Started(rec[t], now));
      InsertSorted(Contents(), Started(rec[t], now));
      rec := rec[t := Started(rec[t], now)];
      active := active[t := true];
      ListInsert(t);
      return true;
    }

    /** The walk of os_timer_stop, up to the timer. */
    method Find(t: int) returns (prev: int, cur: int, ghost k: nat)
      requires Shape()
      ensures k <= |list| && t !in list[..k] && (k < |list| ==> list[k] == t)
      ensures cur == (if k < |list| then list[k] else NULL) && prev == (if k == 0 then NULL else list[k - 1])
    {
      prev, cur, k := NULL, head, 0;
      while cur != NULL && cur != t
        invariant 0 <= k <= |list| && cur == (if k < |list| then list[k] else NULL)
        invariant prev == if k == 0 then NULL else list[k - 1]
        invariant cur != NULL ==> k < |list|
        invariant t !in list[..k]
        decreases |list| - k
      {
        assert NextAt(next, list, k);
        assert list[..k + 1] == list[..k] + [list[k]];
        prev, cur := cur, next[cur];
        k := k + 1;
      }
      assert k < |list| ==> list[k] in list;
    }

    /** Take the node `k` steps down the list, which `prev` and `t` point at, off the list. */
    method Unlink(prev: int, t: int, ghost k: nat)
      requires Shape() && k < |list| && list[k] == t && prev == if k == 0 then NULL else list[k - 1]
      modifies this`head, this`next, this`list
      ensures Shape() && list == DropAt(old(list), k)
    {
      assert NextAt(next, list, k);
      assert k > 0 ==> prev != NULL by { assert k > 0 ==> list[k - 1] in list; }
      hide Spelled, DropAt, Recs, Known;
      UnlinkSpelled(head, next, list, k);
      RecsDrop(rec, list, k);
      if prev == NULL { head := next[t]; } else { next := next[prev := next[t]]; }
      next := next[t := NULL];
      list := DropAt(list, k);
    }

    /** os_timer_stop */
    method Stop(t: int) returns (ok: bool)
      requires Valid() && t in rec
      modifies this
      ensures Valid() && rec == old(rec) && ok == old(active[t])
      ensures ok ==> t in old(list) && list == DropAt(old(list), IndexOf(old(list), t))
      ensures ok ==> active == old(active)[t := false]
      ensures !ok ==> active == old(active) && list == old(list)
    {
      hide Spelled, Recs, Known, Sorted, DropAt, IndexOf;
      if !active[t] { return false; }
      var prev, cur, k := Find(t);
      if cur == NULL { return false; }
      NoDupList();
      IndexOfUnique(list, k);
      RecsDrop(rec, list, k);
      DropAtMembers(list, k);
      Unlink(prev, t, k);
      active := active[t := false];
      return true;
    }

    lemma NoDupList()
      requires Shape()
      ensures NoDup(list) && NULL !in list
    {
    }

    /** The list behind its head. */
    lemma BehindHead()
      requires Shape() && list != []
      ensures head == list[0] && head in rec && head in list && rec[head] == Contents()[0] && head != NULL
      ensures Known(rec, DropAt(list, 0)) && Recs(rec, DropAt(list, 0)) == Contents()[1..]
      ensures forall x :: x in DropAt(list, 0) <==> x in list && x != head
    {
      HeadKnown();
      NoDupList();
      hide *;
      DropAtMembers(list, 0);
      RecsTail(rec, list);
    }

    /** One turn of timers_process: unlink the head, put it back rearmed or retire it. */
    method FireHead(now: nat) returns (fired: Record)
      requires Valid() && IsDue(Contents(), now)
      modifies this
      ensures Valid() && fired == old(Contents())[0] && Contents() == Turn(old(Contents()), now)
    {
      hide Spelled, Recs, Known, Sorted, Insert, DropAt, Rearmed;
      var timer := head;
      BehindHead();
      fired := rec[timer];
      TurnKeeps(Contents(), now);
      RearmedId(rec[timer], now);
      Unlink(NULL, timer, 0);
      Settle(timer, now);
    }

    /** The second half of a turn: the timer just unlinked goes back in, or becomes inactive. */
    method Settle(timer: int, now: nat)
      requires Shape() && timer in rec && timer !in list && timer != NULL && timer in active
      modifies this
      ensures Shape() && rec.Keys == old(rec.Keys)
      ensures old(rec[timer]).periodic ==>
                && Contents() == Insert(old(Contents()), Rearmed(old(rec[timer]), now)) && active == old(active)
                && rec == old(rec)[timer := Rearmed(old(rec[timer]), now)]
                && forall x :: x in list <==> x in old(list) || x == timer
      ensures !old(rec[timer]).periodic ==>
                rec == old(rec) && list == old(list) && active == old(active)[timer := false]
    {
      hide Spelled, Recs, Known, Insert, Rearmed;
      if rec[timer].periodic {
        RecsFrame(rec, list, timer, Rearmed(rec[timer], now));
        rec := rec[timer := Rearmed(rec[timer], now)];
        ListInsert(timer);
      } else {
        active := active[timer := false];
      }
    }

    lemma HeadKnown()
      requires Shape() && list != []
      ensures head == list[0] && head in rec && head in list && rec[head] == Contents()[0] && head != NULL
    {
      assert list[0] in list;
    }

    /** timers_process */
    method Process(now: nat) returns (fired: seq<Record>)
      requires Valid() && NoneStuck(Contents(), now)
      modifies this
      ensures Valid()
      ensures Sorted(old(Contents())) && Drained(fired, Contents()) == Drain(old(Contents()), now)
    {
      hide Spelled, Recs, Known, Sorted, Insert, Turn, NoneStuck;
      fired := [];
      HeadList();
      while head != NULL && rec[head].expire <= now
        invariant Valid() && NoneStuck(Contents(), now) && (head != NULL ==> head in rec)
        invariant Drain(old(Contents()), now)
                  == Drained(fired + Drain(Contents(), now).fired, Drain(Contents(), now).rest)
        decreases DueCount(Contents(), now)
      {
        HeadList();
        HeadKnown();
        TurnKeeps(Contents(), now);
        var t := FireHead(now);
        fired := fired + [t];
        HeadList();
      }
      HeadList();
    }

    lemma HeadList()
      requires Shape()
      ensures head == NULL <==> list == []
      ensures list != [] ==> head == list[0] && rec.Keys != {} && head in rec && Contents()[0] == rec[head]
    {
      if list != [] { HeadKnown(); }
    }
  }

  lemma RearmedId(t: Record, now: nat)
    ensures Rearmed(t, now).id == t.id
  {
  }
}
