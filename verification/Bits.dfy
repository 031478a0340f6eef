/** Powers of two and the branching bit search of the allocator (kernel/alloc.c). */
module Bits {
  import opened Basics

  function Pow2(n: nat): (p: nat)
    ensures p >= 1
  {
    if n == 0 then 1 else 2 * Pow2(n - 1)
  }

  /** Floor of the base-two logarithm, by halving. */
  function Log2(x: nat): (r: nat) {
    if x < 2 then 0 else 1 + Log2(x / 2)
  }

  lemma {:induction false} Log2Bounds(x: nat)
    requires x > 0
    ensures Pow2(Log2(x)) <= x < Pow2(Log2(x) + 1)
  {
    if x >= 2 { Log2Bounds(x / 2); }
  }

  /** Larger numbers have no smaller logarithm. */
  lemma {:induction false} Log2Mono(x: nat, y: nat)
    requires x <= y
    ensures Log2(x) <= Log2(y)
  {
    if x >= 2 { Log2Mono(x / 2, y / 2); }
  }

  lemma {:induction false} Log2Below(x: nat, n: nat)
    requires n > 0 && x < Pow2(n)
    ensures Log2(x) < n
  {
    if x >= 2 { Log2Below(x / 2, n - 1); }
  }

  /** Index of the highest set bit: shift out 16, 8, 4 and 2 bits, then look at the last one. */
  function Fls(x: nat): (r: nat)
    requires x < U32
  {
    var (x1, r1) := if x >= 0x10000 then (x / 0x10000, 16) else (x, 0);
    var (x2, r2) := if x1 >= 0x100 then (x1 / 0x100, r1 + 8) else (x1, r1);
    var (x3, r3) := if x2 >= 0x10 then (x2 / 0x10, r2 + 4) else (x2, r2);
    var (x4, r4) := if x3 >= 4 then (x3 / 4, r3 + 2) else (x3, r3);
    if x4 >= 2 then r4 + 1 else r4
  }

  lemma {:induction false} Pow2Shift(n: nat)
    ensures Pow2(n + 8) == 0x100 * Pow2(n)
  {
    assert Pow2(n + 8) == 2 * Pow2(n + 7) == 4 * Pow2(n + 6) == 8 * Pow2(n + 5);
    assert Pow2(n + 5) == 2 * Pow2(n + 4) == 4 * Pow2(n + 3) == 8 * Pow2(n + 2);
    assert Pow2(n + 2) == 2 * Pow2(n + 1) == 4 * Pow2(n);
  }

  lemma FlsHalve16(x: nat)
    requires 2 <= x < 0x10000
    ensures Fls(x) == 1 + Fls(x / 2) < 16
  {
  }

  lemma FlsSmall(x: nat)
    requires x < 2
    ensures Fls(x) == 0
  {
  }

  lemma FlsHigh(x: nat)
    requires 0x8000 <= x < U32
    ensures Fls(x) == if x < 0x10000 then 15 else 16 + Fls(x / 0x10000)
  {
  }

  lemma FlsHalve(x: nat)
    requires 2 <= x < U32
    ensures Fls(x) == 1 + Fls(x / 2) < 32
  {
    hide Fls;
    if x < 0x10000 {
      FlsHalve16(x);
    } else {
      FlsHigh(x);
      FlsHigh(x / 2);
      if x >= 0x20000 {
        FlsHalve16(x / 0x10000);
      } else {
        FlsSmall(x / 0x10000);
      }
    }
  }

  /** The branching search computes the floor of the base-two logarithm. */
  lemma {:induction false} FlsIsLog2(x: nat)
    requires x < U32
    ensures Fls(x) < 32 && Fls(x) == Log2(x)
  {
    hide Fls;
    if x >= 2 { FlsHalve(x); FlsIsLog2(x / 2); } else { FlsSmall(x); }
  }

  lemma Pow2Of32()
    ensures Pow2(32) == U32
  {
    Pow2Shift(0);
    Pow2Shift(8);
    Pow2Shift(16);
    Pow2Shift(24);
  }
}
