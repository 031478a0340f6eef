/** The table of CPU frequencies of kernel/power.c, and the pick the governor makes from it. */
module Frequencies {
  import opened GovModel

  ghost predicate Descending(s: seq<nat>) {
    forall i, j :: 0 <= i < j < |s| ==> s[i] >= s[j]
  }

  // ---------------------------------------------------------------- the one descending order

  function Place(x: nat, s: seq<nat>): (r: seq<nat>)
    ensures |r| == |s| + 1
  {
    if s == [] || x >= s[0] then [x] + s else [s[0]] + Place(x, s[1..])
  }

  /** The entries in descending order. */
  function Ranked(s: seq<nat>): (r: seq<nat>)
    ensures |r| == |s|
  {
    if s == [] then [] else Place(s[0], Ranked(s[1..]))
  }

  lemma {:induction false} PlaceMultiset(x: nat, s: seq<nat>)
    ensures multiset(Place(x, s)) == multiset(s) + multiset{x}
  {
    if !(s == [] || x >= s[0]) {
      PlaceMultiset(x, s[1..]);
      assert s == [s[0]] + s[1..];
    }
  }

  lemma {:induction false} RankedMultiset(s: seq<nat>)
    ensures multiset(Ranked(s)) == multiset(s)
  {
    if s != [] {
      RankedMultiset(s[1..]);
      PlaceMultiset(s[0], Ranked(s[1..]));
      assert s == [s[0]] + s[1..];
    }
  }

  lemma {:induction false} PlaceDescending(x: nat, s: seq<nat>)
    requires Descending(s)
    ensures Descending(Place(x, s))
  {
    if !(s == [] || x >= s[0]) {
      PlaceDescending(x, s[1..]);
      PlaceMultiset(x, s[1..]);
      var r := Place(x, s[1..]);
      forall i | 0 <= i < |r| ensures s[0] >= r[i] {
        assert r[i] in multiset(r);
        assert r[i] in s[1..] || r[i] == x;
      }
    }
  }

  lemma {:induction false} RankedDescending(s: seq<nat>)
    ensures Descending(Ranked(s))
  {
    if s != [] {
      RankedDescending(s[1..]);
      PlaceDescending(s[0], Ranked(s[1..]));
    }
  }

  lemma FirstIsMost(s: seq<nat>, x: nat)
    requires Descending(s) && s != [] && x in multiset(s)
    ensures s[0] >= x
  {
    assert x in s;
  }

  lemma TailMultiset(s: seq<nat>)
    requires s != []
    ensures multiset(s[1..]) == multiset(s) - multiset{s[0]} && s[0] in multiset(s)
  {
    assert s == [s[0]] + s[1..];
  }

  ghost predicate SameEntries(s: seq<nat>, t: seq<nat>) { multiset(s) == multiset(t) }

  lemma SameSize(s: seq<nat>, t: seq<nat>)
    requires SameEntries(s, t)
    ensures |s| == |t|
  {
    assert |multiset(s)| == |s| && |multiset(t)| == |t|;
  }

  lemma SameFirst(s: seq<nat>, t: seq<nat>)
    requires Descending(s) && Descending(t) && SameEntries(s, t) && s != [] && t != []
    ensures s[0] == t[0]
  {
    assert s[0] in multiset(s) && t[0] in multiset(t);
    FirstIsMost(s, t[0]);
    FirstIsMost(t, s[0]);
  }

  lemma SameTail(s: seq<nat>, t: seq<nat>)
    requires SameEntries(s, t) && s != [] && t != [] && s[0] == t[0]
    ensures SameEntries(s[1..], t[1..])
  {
    TailMultiset(s);
    TailMultiset(t);
  }

  /** Entries in descending order can be arranged in one way only. */
  lemma {:induction false} OneOrder(s: seq<nat>, t: seq<nat>)
    requires Descending(s) && Descending(t) && SameEntries(s, t)
    ensures s == t
    decreases |s|
  {
    hide SameEntries;
    SameSize(s, t);
    if s != [] {
      SameFirst(s, t);
      SameTail(s, t);
      OneOrder(s[1..], t[1..]);
      assert s == [s[0]] + s[1..] && t == [t[0]] + t[1..];
    }
  }

  // ---------------------------------------------------------------- the pick

  /** The place in the ranking that a level uses. */
  function Index(level: int, n: nat): (k: nat)
    requires n > 0
    ensures k < n
  {
    if level == PERFORMANCE then 0
    else if level == BALANCED then n / 2
    else if level == ECONOMY then (if n >= 2 then n - 2 else n - 1)
    else n - 1
  }

  /** freq_for_level: zero when the table is empty. */
  function FreqFor(table: seq<nat>, level: int): (f: nat) {
    if table == [] then 0 else Ranked(table)[Index(level, |table|)]
  }

  /** The clock once a level is applied: a table without a pick leaves it at `before`. */
  function Clocked(table: seq<nat>, level: int, before: nat): nat {
    if FreqFor(table, level) == 0 then before else FreqFor(table, level)
  }

  /** The pick is an entry of the table. */
  lemma PickInTable(table: seq<nat>, level: int)
    requires table != []
    ensures FreqFor(table, level) in table
  {
    RankedMultiset(table);
    assert FreqFor(table, level) in multiset(Ranked(table));
  }

  /** Entries faster, and entries no slower, than a frequency. */
  function Faster(s: seq<nat>, f: nat): nat {
    if s == [] then 0 else (if s[0] > f then 1 else 0) + Faster(s[1..], f)
  }

  function NotSlower(s: seq<nat>, f: nat): nat {
    if s == [] then 0 else (if s[0] >= f then 1 else 0) + NotSlower(s[1..], f)
  }

  lemma {:induction false} PlaceCounts(x: nat, s: seq<nat>, f: nat)
    ensures Faster(Place(x, s), f) == (if x > f then 1 else 0) + Faster(s, f)
    ensures NotSlower(Place(x, s), f) == (if x >= f then 1 else 0) + NotSlower(s, f)
  {
    if s == [] || x >= s[0] {
      assert ([x] + s)[1..] == s;
    } else {
      PlaceCounts(x, s[1..], f);
      assert Place(x, s)[1..] == Place(x, s[1..]);
    }
  }

  lemma {:induction false} RankedCounts(s: seq<nat>, f: nat)
    ensures Faster(Ranked(s), f) == Faster(s, f) && NotSlower(Ranked(s), f) == NotSlower(s, f)
  {
    if s != [] {
      RankedCounts(s[1..], f);
      PlaceCounts(s[0], Ranked(s[1..]), f);
    }
  }

  lemma {:induction false} CountsAt(s: seq<nat>, k: nat, f: nat)
    requires Descending(s) && k < |s| && s[k] == f
    ensures Faster(s, f) <= k < NotSlower(s, f)
    decreases k
  {
    if k == 0 {
      NoneFaster(s, f);
    } else {
      assert s[0] >= s[k];
      CountsAt(s[1..], k - 1, f);
    }
  }

  lemma {:induction false} NoneFaster(s: seq<nat>, f: nat)
    requires Descending(s) && (s != [] ==> s[0] <= f)
    ensures Faster(s, f) == 0
  {
    if |s| > 1 { assert s[0] >= s[1]; }
    if s != [] { NoneFaster(s[1..], f); }
  }

  /** `f` is the entry at place `k` from the fastest down: at most `k` are faster, and more than `k` no slower. */
  ghost predicate AtPlace(table: seq<nat>, f: nat, k: nat) {
    f in table && Faster(table, f) <= k < NotSlower(table, f)
  }

  /**
   * PERFORMANCE takes the fastest entry, COOL the slowest, ECONOMY the one before the slowest if there are two, and
   * BALANCED the one in the middle, the slower of two.
   */
  lemma PickedPlace(table: seq<nat>)
    requires table != []
    ensures AtPlace(table, FreqFor(table, PERFORMANCE), 0)
    ensures AtPlace(table, FreqFor(table, BALANCED), |table| / 2)
    ensures AtPlace(table, FreqFor(table, ECONOMY), if |table| == 1 then 0 else |table| - 2)
    ensures AtPlace(table, FreqFor(table, COOL), |table| - 1)
  {
    hide Ranked, Faster, NotSlower;
    PlaceOf(table, PERFORMANCE);
    PlaceOf(table, BALANCED);
    PlaceOf(table, ECONOMY);
    PlaceOf(table, COOL);
  }

  lemma PlaceOf(table: seq<nat>, level: int)
    requires table != []
    ensures AtPlace(table, FreqFor(table, level), Index(level, |table|))
  {
    hide Ranked, Faster, NotSlower, Index;
    var f, k := FreqFor(table, level), Index(level, |table|);
    PickInTable(table, level);
    RankedDescending(table);
    RankedCounts(table, f);
    CountsAt(Ranked(table), k, f);
  }

  /** So a level sets the clock to an entry of its place, whatever the clock was; an empty table leaves it. */
  lemma ClockedPlace(table: seq<nat>, before: nat)
    requires 0 !in table
    ensures table != [] ==> AtPlace(table, Clocked(table, PERFORMANCE, before), 0)
    ensures table != [] ==> AtPlace(table, Clocked(table, BALANCED, before), |table| / 2)
    ensures table != [] ==> AtPlace(table, Clocked(table, ECONOMY, before), if |table| == 1 then 0 else |table| - 2)
    ensures table != [] ==> AtPlace(table, Clocked(table, COOL, before), |table| - 1)
    ensures table == [] ==> forall level :: Clocked(table, level, before) == before
  {
    if table != [] {
      hide FreqFor, Faster, NotSlower;
      PickedPlace(table);
    }
  }

  ghost predicate InOrder(table: seq<nat>) {
    forall a, b :: COOL <= a <= b <= PERFORMANCE ==> FreqFor(table, a) <= FreqFor(table, b)
  }

  lemma IndexOrder(a: int, b: int, n: nat)
    requires n > 0 && n != 2 && COOL <= a <= b <= PERFORMANCE
    ensures Index(a, n) >= Index(b, n)
  {
  }

  lemma RankedPair(a: nat, b: nat)
    ensures Ranked([a, b]) == if a >= b then [a, b] else [b, a]
  {
    assert [a, b][1..] == [b] && [b][1..] == [];
    assert Ranked([b]) == Place(b, Ranked([])) == [b];
    assert Ranked([a, b]) == Place(a, [b]);
    assert a < b ==> Place(a, [b]) == [b] + Place(a, []);
  }

  /** A higher level never picks a lower frequency, exactly when the table does not hold two different entries alone. */
  lemma OrderIff(table: seq<nat>)
    ensures InOrder(table) <==> |table| != 2 || table[0] == table[1]
  {
    RankedDescending(table);
    if |table| == 2 {
      assert table == [table[0], table[1]];
      RankedPair(table[0], table[1]);
      if table[0] == table[1] {
        assert forall l :: FreqFor(table, l) == table[0];
      } else {
        assert FreqFor(table, ECONOMY) > FreqFor(table, BALANCED);
      }
    } else if table != [] {
      hide Ranked, Index;
      forall a, b | COOL <= a <= b <= PERFORMANCE ensures FreqFor(table, a) <= FreqFor(table, b) {
        IndexOrder(a, b, |table|);
      }
    }
  }

  /** The failing input: from two entries ECONOMY picks the faster one and BALANCED the slower. */
  lemma TwoEntries()
    ensures FreqFor([80, 160], ECONOMY) == 160 && FreqFor([80, 160], BALANCED) == 80
  {
    RankedPair(80, 160);
  }

  // ---------------------------------------------------------------- the sort

  method Swap(a: array<nat>, i: nat, j: nat)
    requires i < j < a.Length
    modifies a
    ensures a[i] == old(a[j]) && a[j] == old(a[i])
    ensures forall k :: 0 <= k < a.Length && k != i && k != j ==> a[k] == old(a[k])
    ensures multiset(a[..]) == multiset(old(a[..]))
  {
    a[i], a[j] := a[j], a[i];
  }

  ghost predicate Above(a: seq<nat>, i: nat, lo: nat, hi: nat)
    requires i < |a| && hi <= |a|
  {
    forall k :: lo <= k < hi ==> a[i] >= a[k]
  }

  /** The entries up to `i` are in order and no later one is larger. */
  ghost predicate Settled(a: seq<nat>, i: nat)
    requires i <= |a|
  {
    forall p, q :: 0 <= p < i && p < q < |a| ==> a[p] >= a[q]
  }

  /** The inner loop: the largest of the entries from `i` on comes to position `i`. */
  method Pull(a: array<nat>, i: nat)
    requires i < a.Length && Settled(a[..], i)
    modifies a
    ensures Settled(a[..], i + 1) && multiset(a[..]) == multiset(old(a[..]))
  {
    var j := i + 1;
    while j < a.Length
      invariant i + 1 <= j <= a.Length && Settled(a[..], i) && Above(a[..], i, i + 1, j)
      invariant multiset(a[..]) == multiset(old(a[..]))
    {
      if a[j] > a[i] { Exchange(a, i, j); }
      j := j + 1;
    }
  }

  method Exchange(a: array<nat>, i: nat, j: nat)
    requires i < j < a.Length && a[j] > a[i] && Settled(a[..], i) && Above(a[..], i, i + 1, j)
    modifies a
    ensures Settled(a[..], i) && Above(a[..], i, i + 1, j + 1) && multiset(a[..]) == multiset(old(a[..]))
  {
    ghost var s := a[..];
    Swap(a, i, j);
    ghost var t := a[..];
    assert forall k :: 0 <= k < |t| && k != i && k != j ==> t[k] == s[k];
    assert t[i] == s[j] && t[j] == s[i];
  }

  /** freq_for_level: sort a copy of the table in descending order, then index it. */
  method FreqForLevel(table: seq<nat>, level: int) returns (f: nat)
    ensures f == FreqFor(table, level)
  {
    var n := |table|;
    if n <= 0 { return 0; }
    var a := new nat[n](i requires 0 <= i < n => table[i]);
    assert a[..] == table;
    var i := 0;
    while i < n
      invariant 0 <= i <= n && Settled(a[..], i) && multiset(a[..]) == multiset(table)
    {
      Pull(a, i);
      i := i + 1;
    }
    RankedMultiset(table);
    RankedDescending(table);
    OneOrder(a[..], Ranked(table));
    return a[Index(level, n)];
  }

  // ---------------------------------------------------------------- kernel/power.c

  const SLOTS := 8

  /** Number of entries before the first zero. */
  function Leading(s: seq<nat>): (k: nat)
    ensures k <= |s| && 0 !in s[..k] && (k < |s| ==> s[k] == 0)
  {
    if s == [] || s[0] == 0 then 0 else
      assert s[..1 + Leading(s[1..])] == [s[0]] + s[1..][..Leading(s[1..])];
      1 + Leading(s[1..])
  }

  lemma LeadingAt(s: seq<nat>, i: nat)
    requires i < |s| && i <= Leading(s)
    ensures s[i] == 0 <==> Leading(s) == i
  {
    if i < Leading(s) { assert s[i] in s[..Leading(s)]; }
  }

  function Min(a: nat, b: nat): nat { if a < b then a else b }

  /** The slots of a table that held `before` once `given` has been copied up to its first zero. */
  function Copied(before: seq<nat>, given: seq<nat>): (after: seq<nat>)
    requires |before| == SLOTS && |given| <= SLOTS
    ensures |after| == SLOTS
  {
    given[..Leading(given)] + before[Leading(given)..]
  }

  /** A list of a legal length that is refused, for a zero in it. */
  predicate Refused(given: seq<nat>) { 1 <= |given| <= SLOTS && Leading(given) < |given| }

  /** Copying `given` leaves the table of `count` entries as it was. */
  predicate Harmless(before: seq<nat>, count: nat, given: seq<nat>)
    requires |before| == SLOTS && count <= SLOTS && |given| <= SLOTS
  {
    Copied(before, given)[..count] == before[..count]
  }

  /** A refused list leaves a table as it was exactly when each entry before its zero repeats the one in its place. */
  lemma RefusalHarmless(before: seq<nat>, count: nat, given: seq<nat>)
    requires |before| == SLOTS && count <= SLOTS && Refused(given)
    ensures Harmless(before, count, given)
            <==> forall i :: 0 <= i < Min(count, Leading(given)) ==> given[i] == before[i]
  {
    var k, after := Leading(given), Copied(before, given);
    assert forall i :: 0 <= i < SLOTS ==> after[i] == if i < k then given[i] else before[i];
    if Harmless(before, count, given) {
      forall i | 0 <= i < Min(count, k) ensures given[i] == before[i] {
        assert after[..count][i] == before[..count][i];
      }
    }
  }

  /** The slots hold a table of `count` entries as an accepted list leaves it. */
  predicate IsTable(before: seq<nat>, count: nat) {
    |before| == SLOTS && count <= SLOTS && 0 !in before[..count]
  }

  lemma StillTable(before: seq<nat>, count: nat, given: seq<nat>)
    requires |before| == SLOTS && count <= SLOTS && |given| <= SLOTS
    ensures IsTable(before, count) ==> IsTable(Copied(before, given), count)
  {
    var k, after := Leading(given), Copied(before, given);
    if IsTable(before, count) {
      forall i | 0 <= i < count ensures after[..count][i] != 0 {
        if i < k { assert after[i] in given[..k]; } else { assert after[i] == before[..count][i]; }
      }
    }
  }

  ghost predicate HarmlessAlways(given: seq<nat>)
    requires |given| <= SLOTS
  {
    forall before: seq<nat>, count: nat :: IsTable(before, count) ==> Harmless(before, count, given)
  }

  /** The failing input: a table that starts with another entry than a refused list that does not start with zero. */
  lemma FirstReplaced(before: seq<nat>, given: seq<nat>)
    requires |before| == SLOTS && Refused(given) && given[0] != 0 && before[0] != given[0]
    ensures !Harmless(before, 1, given) && Copied(before, given)[..1] == [given[0]]
  {
    LeadingAt(given, 0);
  }

  /** A refused list leaves every table as it was exactly when its first entry is the zero. */
  lemma RefusalHarmlessIff(given: seq<nat>)
    requires Refused(given)
    ensures HarmlessAlways(given) <==> given[0] == 0
  {
    LeadingAt(given, 0);
    if given[0] == 0 {
      forall before: seq<nat>, count: nat | IsTable(before, count)
        ensures Harmless(before, count, given)
      {
        assert Copied(before, given) == before;
      }
    } else {
      var before: seq<nat> := seq(SLOTS, _ => given[0] + 1);
      assert IsTable(before, 1);
      FirstReplaced(before, given);
    }
  }

  class Power {
    const freqs: array<nat>
    var count: nat
    var current: nat

    ghost predicate Valid()
      reads this
    {
      freqs.Length == SLOTS && count <= SLOTS
    }

    function Table(): (t: seq<nat>)
      requires Valid()
      reads this, freqs
      ensures |t| == count
    {
      freqs[..count]
    }

    constructor ()
      ensures Valid() && fresh(freqs) && count == 0
    {
      freqs := new nat[SLOTS](i => 0);
      count, current := 0, 0;
    }

    /**
     * power_set_available_freqs. A zero entry ends the copying with an error: the entries before it have then replaced
     * those of the table, whose length stays.
     */
    method SetAvailable(given: seq<nat>) returns (ok: bool)
      requires Valid()
      modifies this`count, freqs
      ensures Valid() && ok == (1 <= |given| <= SLOTS && Leading(given) == |given|)
      ensures ok ==> Table() == given
      ensures !ok ==> count == old(count)
      ensures IsTable(old(freqs[..]), old(count)) ==> IsTable(freqs[..], count)
      ensures freqs[..] == if 1 <= |given| <= SLOTS then Copied(old(freqs[..]), given) else old(freqs[..])
      ensures Refused(given) ==> (Table() == old(Table()) <==> Harmless(old(freqs[..]), old(count), given))
    {
      if |given| < 1 || |given| > SLOTS { return false; }
      var i := 0;
      while i < |given|
        invariant 0 <= i <= |given| && i <= Leading(given) && count == old(count)
        invariant freqs[..] == given[..i] + old(freqs[..])[i..]
      {
        if given[i] == 0 {
          LeadingAt(given, i);
          StillTable(old(freqs[..]), count, given);
          return false;
        }
        StoreOne(given, i, old(freqs[..]));
        i := i + 1;
      }
      assert given[..i] == given;
      count := |given|;
      return true;
    }

    /** One step of the copy into a table that held `before`. */
    method StoreOne(given: seq<nat>, i: nat, ghost before: seq<nat>)
      requires i < |given| <= SLOTS && freqs.Length == SLOTS == |before| && given[i] != 0 && i <= Leading(given)
      requires freqs[..] == given[..i] + before[i..]
      modifies freqs
      ensures i + 1 <= Leading(given) && freqs[..] == given[..i + 1] + before[i + 1..]
    {
      freqs[i] := given[i];
      LeadingAt(given, i);
    }

    /** power_get_available_freqs */
    method GetAvailable(max: nat) returns (out: seq<nat>)
      requires Valid()
      ensures out == Table()[..if count < max then count else max]
    {
      var n := if count < max then count else max;
      out := [];
      var i := 0;
      while i < n
        invariant 0 <= i <= n && out == freqs[..i]
      {
        out := out + [freqs[i]];
        i := i + 1;
      }
    }

    /** power_set_cpu_freq accepts exactly the entries of the table. */
    method SetCpuFreq(mhz: nat) returns (ok: bool)
      requires Valid()
      modifies this`current
      ensures ok == (mhz in Table()) && current == if ok then mhz else old(current)
    {
      var i := 0;
      while i < count
        invariant 0 <= i <= count && mhz !in freqs[..i]
      {
        if freqs[i] == mhz {
          assert mhz == Table()[i];
          current := mhz;
          return true;
        }
        assert freqs[..i + 1] == freqs[..i] + [freqs[i]];
        i := i + 1;
      }
      return false;
    }

    /** apply_level without an actuator: the pick is always accepted; an empty table or a zero pick leaves the clock. */
    method ApplyLevel(level: int)
      requires Valid()
      modifies this`current
      ensures current == Clocked(Table(), level, old(current))
    {
      var table := GetAvailable(SLOTS);
      assert table == Table();
      var mhz := FreqForLevel(table, level);
      if mhz != 0 {
        var ok := SetCpuFreq(mhz);
        if table != [] { PickInTable(table, level); }
      }
    }
  }
}
