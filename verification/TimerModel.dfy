/** The timer list of kernel/os_time.c as a sequence of records, and the loop that drains it. */
module TimerModel {
  import opened Basics

  datatype Record = Record(id: nat, expire: nat, periodic: bool, period: nat)

  ghost predicate Sorted(l: seq<Record>) {
    forall i, j :: 0 <= i < j < |l| ==> l[i].expire <= l[j].expire
  }

  /** timer_list_insert: behind every timer that expires no later. */
  function Insert(l: seq<Record>, t: Record): (r: seq<Record>)
    ensures |r| == |l| + 1
  {
    if l == [] || l[0].expire > t.expire then [t] + l else [l[0]] + Insert(l[1..], t)
  }

  /** Where `Insert` puts its timer: the ones before expire no later, the ones after expire later. */
  ghost predicate Place(l: seq<Record>, t: Record, k: nat) {
    && k <= |l| && Insert(l, t) == l[..k] + [t] + l[k..]
    && (forall i :: 0 <= i < k ==> l[i].expire <= t.expire) && (k < |l| ==> l[k].expire > t.expire)
  }

  function Pos(l: seq<Record>, t: Record): nat {
    if l == [] || l[0].expire > t.expire then 0 else 1 + Pos(l[1..], t)
  }

  lemma {:induction false} InsertPlace(l: seq<Record>, t: Record)
    ensures Place(l, t, Pos(l, t))
  {
    if !(l == [] || l[0].expire > t.expire) {
      InsertPlace(l[1..], t);
      var k := Pos(l[1..], t);
      assert l[..k + 1] == [l[0]] + l[1..][..k] && l[k + 1..] == l[1..][k..];
      assert forall i :: 0 < i < k + 1 ==> l[i] == l[1..][i - 1];
    }
  }

  lemma PlaceSorted(l: seq<Record>, t: Record, k: nat, i: int, j: int)
    requires Sorted(l) && Place(l, t, k) && 0 <= i < j <= |l|
    ensures Insert(l, t)[i].expire <= Insert(l, t)[j].expire
  {
    hide Insert;
    var r := l[..k] + [t] + l[k..];
    assert r[i] == if i < k then l[i] else if i == k then t else l[i - 1];
    assert r[j] == if j < k then l[j] else if j == k then t else l[j - 1];
    if i == k { assert l[k].expire <= l[j - 1].expire; }
  }

  lemma {:induction false} InsertMultiset(l: seq<Record>, t: Record)
    ensures multiset(Insert(l, t)) == multiset(l) + multiset{t}
  {
    if !(l == [] || l[0].expire > t.expire) {
      InsertMultiset(l[1..], t);
      assert l == [l[0]] + l[1..];
    }
  }

  /** Insertion keeps the list sorted and adds exactly its timer. */
  lemma InsertSorted(l: seq<Record>, t: Record)
    requires Sorted(l)
    ensures Sorted(Insert(l, t)) && multiset(Insert(l, t)) == multiset(l) + multiset{t}
  {
    hide Place, Insert;
    InsertMultiset(l, t);
    InsertPlace(l, t);
    forall i, j | 0 <= i < j < |Insert(l, t)| ensures Insert(l, t)[i].expire <= Insert(l, t)[j].expire {
      PlaceSorted(l, t, Pos(l, t), i, j);
    }
  }

  /** The new expiry of a periodic timer that fires, in 64 bits. */
  function Rearmed(t: Record, now: nat): Record {
    t.(expire := (now + t.period) % U64)
  }

  /** The expiry os_timer_start gives a timer. */
  function Started(t: Record, now: nat): Record {
    t.(expire := (now + (if t.periodic then t.period else 0)) % U64)
  }

  /** A started timer waits for the delay it was created with exactly when it is periodic or the delay is zero. */
  lemma DelayKeptIff(t: Record, now: nat)
    requires now + t.period < U64
    ensures Started(t, now).expire == now + t.period <==> t.periodic || t.period == 0
  {
  }

  predicate IsDue(l: seq<Record>, now: nat) {
    l != [] && l[0].expire <= now
  }

  /** One turn of timers_process. */
  function Turn(l: seq<Record>, now: nat): (r: seq<Record>)
    requires l != []
  {
    if l[0].periodic then Insert(l[1..], Rearmed(l[0], now)) else l[1..]
  }

  /** A timer that would still be due after it was rearmed. */
  predicate Stuck(t: Record, now: nat) {
    t.periodic && t.expire <= now && Rearmed(t, now).expire <= now
  }

  ghost predicate NoneStuck(l: seq<Record>, now: nat) {
    forall t :: t in l ==> !Stuck(t, now)
  }

  /** Number of due timers. */
  function DueCount(l: seq<Record>, now: nat): nat {
    if l == [] then 0 else (if l[0].expire <= now then 1 else 0) + DueCount(l[1..], now)
  }

  lemma {:induction false} InsertDueCount(l: seq<Record>, t: Record, now: nat)
    ensures DueCount(Insert(l, t), now) == DueCount(l, now) + (if t.expire <= now then 1 else 0)
  {
    if l == [] || l[0].expire > t.expire {
      assert ([t] + l)[1..] == l;
    } else {
      InsertDueCount(l[1..], t, now);
      assert Insert(l, t)[1..] == Insert(l[1..], t);
    }
  }

  lemma {:induction false} InsertMembers(l: seq<Record>, t: Record)
    ensures forall x :: x in Insert(l, t) <==> x in l || x == t
  {
    if !(l == [] || l[0].expire > t.expire) {
      InsertMembers(l[1..], t);
      assert l == [l[0]] + l[1..];
    }
  }

  lemma RearmedFuture(t: Record, now: nat)
    requires t.periodic && t.expire <= now && !Stuck(t, now)
    ensures Rearmed(t, now).expire > now && !Stuck(Rearmed(t, now), now)
  {
  }

  lemma TurnKeeps(l: seq<Record>, now: nat)
    requires Sorted(l) && IsDue(l, now)
    ensures Sorted(Turn(l, now))
    ensures NoneStuck(l, now) ==> NoneStuck(Turn(l, now), now) && DueCount(Turn(l, now), now) < DueCount(l, now)
  {
    hide Rearmed, Stuck, Insert;
    if l[0].periodic {
      assert l[0] in l;
      InsertSorted(l[1..], Rearmed(l[0], now));
      InsertMembers(l[1..], Rearmed(l[0], now));
      InsertDueCount(l[1..], Rearmed(l[0], now), now);
      if !Stuck(l[0], now) { RearmedFuture(l[0], now); }
    }
  }

  datatype Drained = Drained(fired: seq<Record>, rest: seq<Record>)

  /** The whole loop: the timers fired, in order, and the list left behind. */
  function Drain(l: seq<Record>, now: nat): (d: Drained)
    requires Sorted(l) && NoneStuck(l, now)
    decreases DueCount(l, now)
  {
    if !IsDue(l, now) then Drained([], l)
    else
      TurnKeeps(l, now);
      var d := Drain(Turn(l, now), now);
      d.(fired := [l[0]] + d.fired)
  }

  // ---------------------------------------------------------------- what draining does

  /** The due timers of a list, in list order. */
  function Due(l: seq<Record>, now: nat): (r: seq<Record>) {
    if l == [] then [] else if l[0].expire <= now then [l[0]] + Due(l[1..], now) else Due(l[1..], now)
  }

  /** The periodic ones among the due timers come back in, rearmed, one after the other. */
  function Reinsert(l: seq<Record>, due: seq<Record>, now: nat): (r: seq<Record>)
    decreases |due|
  {
    if due == [] then l
    else Reinsert(if due[0].periodic then Insert(l, Rearmed(due[0], now)) else l, due[1..], now)
  }

  lemma {:induction false} SortedDue(l: seq<Record>, now: nat)
    requires Sorted(l)
    ensures Due(l, now) <= l
    ensures forall i :: |Due(l, now)| <= i < |l| ==> l[i].expire > now
  {
    if l != [] {
      SortedDue(l[1..], now);
      if l[0].expire > now { NoneDue(l, now); }
    }
  }

  lemma {:induction false} NoneDue(l: seq<Record>, now: nat)
    requires Sorted(l) && (l == [] || l[0].expire > now)
    ensures Due(l, now) == [] && forall i :: 0 <= i < |l| ==> l[i].expire > now
  {
    if |l| > 1 { assert l[0].expire <= l[1].expire; NoneDue(l[1..], now); }
  }

  /** A timer in the future goes behind the due ones. */
  lemma {:induction false} InsertBehind(l: seq<Record>, t: Record, now: nat)
    requires Sorted(l) && t.expire > now
    ensures Due(Insert(l, t), now) == Due(l, now)
    ensures |Due(l, now)| <= |l| && Insert(l, t)[|Due(l, now)|..] == Insert(l[|Due(l, now)|..], t)
  {
    if l == [] || l[0].expire > now {
      InsertNoneDue(l, t, now);
    } else {
      InsertBehind(l[1..], t, now);
      InsertPastDue(l, t, now);
    }
  }

  lemma InsertNoneDue(l: seq<Record>, t: Record, now: nat)
    requires Sorted(l) && t.expire > now && (l == [] || l[0].expire > now)
    ensures Due(Insert(l, t), now) == Due(l, now) == [] && Insert(l, t)[0..] == Insert(l[0..], t)
  {
    InsertSorted(l, t);
    assert Insert(l, t)[0].expire > now && l[0..] == l;
    hide Sorted, Insert, Due;
    NoneDue(l, now);
    NoneDue(Insert(l, t), now);
  }

  lemma InsertPastDue(l: seq<Record>, t: Record, now: nat)
    requires l != [] && l[0].expire <= now < t.expire && Due(Insert(l[1..], t), now) == Due(l[1..], now)
    requires var n := |Due(l[1..], now)|; n <= |l[1..]| && Insert(l[1..], t)[n..] == Insert(l[1..][n..], t)
    ensures Due(Insert(l, t), now) == Due(l, now)
    ensures |Due(l, now)| <= |l| && Insert(l, t)[|Due(l, now)|..] == Insert(l[|Due(l, now)|..], t)
  {
    var r, n := Insert(l, t), |Due(l[1..], now)|;
    assert r[1..] == Insert(l[1..], t) && r[0] == l[0];
    assert Due(r, now) == [l[0]] + Due(l[1..], now) && Due(l, now) == [l[0]] + Due(l[1..], now);
    hide Due, Insert;
    assert l[1..][n..] == l[n + 1..];
    assert r[n + 1..] == r[1..][n..];
  }

  /**
   * Draining fires every due timer exactly once, in list order, which is expiry order with ties as they were inserted;
   * the list left behind is the timers that were not due with the periodic ones put back.
   */
  lemma {:induction false} DrainFires(l: seq<Record>, now: nat)
    requires Sorted(l) && NoneStuck(l, now)
    ensures var d, n := Drain(l, now), |Due(l, now)|;
            d.fired == Due(l, now) && n <= |l| && d.rest == Reinsert(l[n..], Due(l, now), now)
    decreases DueCount(l, now)
  {
    SortedDue(l, now);
    if !IsDue(l, now) {
      NoneDue(l, now);
      assert l[0..] == l;
    } else {
      TurnKeeps(l, now);
      DrainFires(Turn(l, now), now);
      var n := |Due(l[1..], now)|;
      assert Due(l, now)[1..] == Due(l[1..], now);
      assert l[n + 1..] == l[1..][n..];
      if l[0].periodic {
        assert !Stuck(l[0], now) by { assert l[0] in l; }
        InsertBehind(l[1..], Rearmed(l[0], now), now);
      }
    }
  }

  /** What a fired timer leaves: one that is periodic expires again one period from now, in 64 bits. */
  function After(t: Record, now: nat): seq<Record> {
    if t.periodic then [t.(expire := (now + t.period) % 0x1_0000_0000_0000_0000)] else []
  }

  function Again(fired: seq<Record>, now: nat): seq<Record> {
    if fired == [] then [] else After(fired[0], now) + Again(fired[1..], now)
  }

  /** One step of putting a fired timer back. */
  function PutBack(l: seq<Record>, t: Record, now: nat): seq<Record> {
    if t.periodic then Insert(l, Rearmed(t, now)) else l
  }

  lemma PutBackMultiset(l: seq<Record>, t: Record, now: nat)
    ensures multiset(PutBack(l, t, now)) == multiset(l) + multiset(After(t, now))
  {
    hide Insert;
    if t.periodic { InsertMultiset(l, Rearmed(t, now)); }
  }

  lemma {:induction false} ReinsertMultiset(l: seq<Record>, due: seq<Record>, now: nat)
    ensures multiset(Reinsert(l, due, now)) == multiset(l) + multiset(Again(due, now))
    decreases |due|
  {
    if due != [] {
      PutBackMultiset(l, due[0], now);
      assert Reinsert(l, due, now) == Reinsert(PutBack(l, due[0], now), due[1..], now);
      hide Insert, Rearmed, After, PutBack, Reinsert;
      ReinsertMultiset(PutBack(l, due[0], now), due[1..], now);
    }
  }

  /** So the timers left are those that were not due, as they were, and the fired periodic ones, a period from now. */
  lemma DrainLeaves(l: seq<Record>, now: nat)
    requires Sorted(l) && NoneStuck(l, now)
    ensures var n := |Due(l, now)|;
            && n <= |l| && l[..n] == Due(l, now)
            && multiset(Drain(l, now).rest) == multiset(l[n..]) + multiset(Again(l[..n], now))
  {
    DrainFires(l, now);
    SortedDue(l, now);
    hide Drain, Reinsert, Again, Due, Sorted;
    ReinsertMultiset(l[|Due(l, now)|..], Due(l, now), now);
  }

  /** What is left is sorted and lies in the future. */
  lemma {:induction false} DrainFuture(l: seq<Record>, now: nat)
    requires Sorted(l) && NoneStuck(l, now)
    ensures var r := Drain(l, now).rest; Sorted(r) && forall i :: 0 <= i < |r| ==> r[i].expire > now
    decreases DueCount(l, now)
  {
    if !IsDue(l, now) {
      NoneDue(l, now);
    } else {
      TurnKeeps(l, now);
      DrainFuture(Turn(l, now), now);
    }
  }

  // ---------------------------------------------------------------- termination, exactly

  /** The list after `n` turns of the loop, or where it stopped. */
  function Turns(l: seq<Record>, now: nat, n: nat): seq<Record>
    decreases n
  {
    if n == 0 || !IsDue(l, now) then l else Turns(Turn(l, now), now, n - 1)
  }

  lemma {:induction false} StuckStays(l: seq<Record>, now: nat, n: nat)
    requires Sorted(l) && !NoneStuck(l, now)
    ensures IsDue(Turns(l, now, n), now)
    decreases n
  {
    var t :| t in l && Stuck(t, now);
    StuckDue(l, now, t);
    hide Stuck, Turn, Sorted, NoneStuck, IsDue;
    if n > 0 {
      TurnKeeps(l, now);
      TurnStuck(l, now, t);
      StuckStays(Turn(l, now), now, n - 1);
    }
  }

  lemma StuckDue(l: seq<Record>, now: nat, t: Record)
    requires Sorted(l) && t in l && Stuck(t, now)
    ensures IsDue(l, now)
  {
    hide Rearmed;
    var i :| 0 <= i < |l| && l[i] == t;
    if i > 0 { assert l[0].expire <= l[i].expire; }
  }

  lemma TurnStuck(l: seq<Record>, now: nat, t: Record)
    requires l != [] && t in l && Stuck(t, now)
    ensures !NoneStuck(Turn(l, now), now)
  {
    var first := l[0];
    assert l == [first] + l[1..];
    if first.periodic { InsertMembers(l[1..], Rearmed(first, now)); }
    var x := if t == first then Rearmed(first, now) else t;
    assert x in Turn(l, now) && Stuck(x, now);
  }

  lemma {:induction false} Stops(l: seq<Record>, now: nat)
    requires Sorted(l) && NoneStuck(l, now)
    ensures !IsDue(Turns(l, now, DueCount(l, now)), now)
    decreases DueCount(l, now)
  {
    if IsDue(l, now) {
      TurnKeeps(l, now);
      Stops(Turn(l, now), now);
      Enough(Turn(l, now), now, DueCount(Turn(l, now), now), DueCount(l, now) - 1);
    }
  }

  lemma {:induction false} Enough(l: seq<Record>, now: nat, m: nat, n: nat)
    requires m <= n && !IsDue(Turns(l, now, m), now)
    ensures !IsDue(Turns(l, now, n), now)
    decreases m
  {
    if IsDue(l, now) && m > 0 { Enough(Turn(l, now), now, m - 1, n - 1); }
  }

  /** The loop ends exactly when no due periodic timer would be due again: period zero, or a sum past 64 bits. */
  lemma TerminatesIff(l: seq<Record>, now: nat)
    requires Sorted(l)
    ensures (exists n: nat :: !IsDue(Turns(l, now, n), now)) <==> NoneStuck(l, now)
  {
    if NoneStuck(l, now) {
      Stops(l, now);
    } else {
      forall n: nat ensures IsDue(Turns(l, now, n), now) { StuckStays(l, now, n); }
    }
  }

  /** A periodic timer is never stuck when its period is positive and the sum stays in 64 bits. */
  lemma PositivePeriod(t: Record, now: nat)
    requires now < U64 && t.period > 0 && now + t.period < U64
    ensures !Stuck(t, now)
  {
  }

  /** The failing input: one periodic timer of period zero keeps the loop busy for good. */
  lemma ZeroPeriodLoops(now: nat, n: nat)
    requires now < U64
    ensures IsDue(Turns([Record(0, now, true, 0)], now, n), now)
  {
    var t := Record(0, now, true, 0);
    assert t in [t] && Stuck(t, now);
    StuckStays([t], now, n);
  }

  /** The failing input: a one-shot timer made for any delay is due, and fires, the moment it is started. */
  lemma OneShotAtOnce(now: nat, delay: nat)
    requires delay > 0 && now + delay < U64
    ensures var l := Insert([], Started(Record(0, now + delay, false, delay), now));
            Sorted(l) && NoneStuck(l, now) && IsDue(l, now) && Drain(l, now) == Drained(l, [])
  {
    var t := Started(Record(0, now + delay, false, delay), now);
    var l := Insert([], t);
    assert l == [t] && Turn(l, now) == [];
    assert Drain([], now) == Drained([], []);
  }
}
