/** Blocks as bit strings and their multiplication, as in sections 6.2 and 6.3 of NIST SP 800-38D. */
module GcmBits {
  import opened Bytes

  type Bits = seq<bool>

  /** Bit `j` of a byte is the one under this mask; bit 0 is the most significant. */
  function Mask(j: nat): byte
    requires j < 8
  {
    if j == 0 then 0x80 else if j == 1 then 0x40 else if j == 2 then 0x20 else if j == 3 then 0x10
    else if j == 4 then 0x08 else if j == 5 then 0x04 else if j == 6 then 0x02 else 0x01
  }

  predicate Bit(b: byte, j: nat)
    requires j < 8
  {
    On(b, Mask(j))
  }

  predicate On(b: byte, mask: byte) { b & mask != 0 }

  /** A byte string as a bit string, most significant bits first. */
  function BitsOf(s: seq<byte>): (r: Bits)
    ensures |r| == 8 * |s|
    ensures forall k :: 0 <= k < |r| ==> r[k] == Bit(s[k / 8], k % 8)
  {
    seq(8 * |s|, k requires 0 <= k < 8 * |s| => Bit(s[k / 8], k % 8))
  }

  function XorBits(a: Bits, b: Bits): (r: Bits)
    requires |a| == |b|
    ensures |r| == |a| && forall i :: 0 <= i < |a| ==> r[i] == (a[i] != b[i])
  {
    seq(|a|, i requires 0 <= i < |a| => a[i] != b[i])
  }

  function ZeroBits(n: nat): (r: Bits)
    ensures |r| == n && forall i :: 0 <= i < n ==> !r[i]
  {
    seq(n, _ => false)
  }

  /** The reduction string R = 11100001 followed by 120 zeros. */
  function Reduction(): (r: Bits)
    ensures |r| == 128
    ensures forall i :: 0 <= i < 128 ==> r[i] == (i == 0 || i == 1 || i == 2 || i == 7)
  {
    seq(128, i => i == 0 || i == 1 || i == 2 || i == 7)
  }

  function ShiftRight(v: Bits): (r: Bits)
    requires |v| == 128
    ensures |r| == 128 && !r[0] && forall i :: 1 <= i < 128 ==> r[i] == v[i - 1]
  {
    [false] + v[..127]
  }

  /** One step of V: shift right, and add R when a one falls out. */
  function NextV(v: Bits): (r: Bits)
    requires |v| == 128
    ensures |r| == 128
  {
    if v[127] then XorBits(ShiftRight(v), Reduction()) else ShiftRight(v)
  }

  function V(y: Bits, i: nat): (r: Bits)
    requires |y| == 128
    ensures |r| == 128
  {
    if i == 0 then y else NextV(V(y, i - 1))
  }

  function Z(x: Bits, y: Bits, i: nat): (r: Bits)
    requires |x| == |y| == 128 && i <= 128
    ensures |r| == 128
  {
    if i == 0 then ZeroBits(128)
    else if x[i - 1] then XorBits(Z(x, y, i - 1), V(y, i - 1))
    else Z(x, y, i - 1)
  }

  /** The product of two blocks. */
  function Mul(x: Bits, y: Bits): (r: Bits)
    requires |x| == |y| == 128
    ensures |r| == 128
  {
    Z(x, y, 128)
  }

  // ---------------------------------------------------------------- the product distributes over XOR

  lemma NextVAt(v: Bits, i: nat)
    requires |v| == 128 && i < 128
    ensures NextV(v)[i] == ((i > 0 && v[i - 1]) != (v[127] && Reduction()[i]))
  {
  }

  lemma NextVLinear(a: Bits, b: Bits)
    requires |a| == |b| == 128
    ensures NextV(XorBits(a, b)) == XorBits(NextV(a), NextV(b))
  {
    hide NextV, Reduction;
    forall i: nat | i < 128 ensures NextV(XorBits(a, b))[i] == XorBits(NextV(a), NextV(b))[i] {
      NextVAt(XorBits(a, b), i);
      NextVAt(a, i);
      NextVAt(b, i);
    }
  }

  lemma {:induction false} VLinear(a: Bits, b: Bits, i: nat)
    requires |a| == |b| == 128
    ensures V(XorBits(a, b), i) == XorBits(V(a, i), V(b, i))
  {
    hide NextV;
    if i > 0 {
      VLinear(a, b, i - 1);
      NextVLinear(V(a, i - 1), V(b, i - 1));
    }
  }

  lemma {:induction false} ZLinearRight(x: Bits, a: Bits, b: Bits, i: nat)
    requires |x| == |a| == |b| == 128 && i <= 128
    ensures Z(x, XorBits(a, b), i) == XorBits(Z(x, a, i), Z(x, b, i))
  {
    hide V;
    if i > 0 {
      ZLinearRight(x, a, b, i - 1);
      VLinear(a, b, i - 1);
    }
  }

  lemma {:induction false} ZLinearLeft(a: Bits, b: Bits, y: Bits, i: nat)
    requires |a| == |b| == |y| == 128 && i <= 128
    ensures Z(XorBits(a, b), y, i) == XorBits(Z(a, y, i), Z(b, y, i))
  {
    hide V;
    if i > 0 { ZLinearLeft(a, b, y, i - 1); }
  }

  /** The product is linear in both operands. */
  lemma MulDistributes(a: Bits, b: Bits, y: Bits)
    requires |a| == |b| == |y| == 128
    ensures Mul(XorBits(a, b), y) == XorBits(Mul(a, y), Mul(b, y))
    ensures Mul(y, XorBits(a, b)) == XorBits(Mul(y, a), Mul(y, b))
  {
    ZLinearLeft(a, b, y, 128);
    ZLinearRight(y, a, b, 128);
  }

  // ---------------------------------------------------------------- the product is that of polynomials

  /** The power `i` of the unknown: the bit string with a one at position `i` alone. */
  function Power(i: nat): (r: Bits)
    requires i < 128
    ensures |r| == 128 && forall k :: 0 <= k < 128 ==> r[k] == (k == i)
  {
    seq(128, k => k == i)
  }

  /** The product with a power of the unknown is that many steps of V: shift and reduce. */
  lemma {:induction false} MulPowerUpTo(i: nat, y: Bits, n: nat)
    requires i < 128 && |y| == 128 && n <= 128
    ensures Z(Power(i), y, n) == if n <= i then ZeroBits(128) else V(y, i)
  {
    hide V;
    if n > 0 {
      MulPowerUpTo(i, y, n - 1);
      if n - 1 == i { XorZeroBits(V(y, i)); }
    }
  }

  lemma XorZeroBits(a: Bits)
    ensures XorBits(ZeroBits(|a|), a) == a && XorBits(a, ZeroBits(|a|)) == a
  {
  }

  lemma MulPower(i: nat, y: Bits)
    requires i < 128 && |y| == 128
    ensures Mul(Power(i), y) == V(y, i)
  {
    MulPowerUpTo(i, y, 128);
  }

  lemma {:induction false} VOfV(y: Bits, i: nat, j: nat)
    requires |y| == 128
    ensures V(V(y, i), j) == V(y, i + j)
    decreases j
  {
    hide NextV;
    if j > 0 { VOfV(y, i, j - 1); }
  }

  /** Below the degree of the reduction, powers are plain shifts of one. */
  lemma {:induction false} PowerIsV(i: nat)
    requires i < 128
    ensures V(Power(0), i) == Power(i)
  {
    if i > 0 {
      PowerIsV(i - 1);
      ShiftPower(i - 1);
    }
  }

  lemma ShiftPower(i: nat)
    requires i < 127
    ensures NextV(Power(i)) == Power(i + 1)
  {
    assert !Power(i)[127];
  }

  /** And the power of the degree is 1 + x + x^2 + x^7. */
  lemma ReducesTo()
    ensures Mul(Power(127), Power(1)) == Reduction()
  {
    hide V, NextV, Mul;
    MulPower(127, Power(1));
    PowerIsV(1);
    VOfV(Power(0), 1, 127);
    VOfV(Power(0), 127, 1);
    PowerIsV(127);
    TopPower();
    LastStep(Power(127));
  }

  lemma LastStep(y: Bits)
    requires |y| == 128
    ensures V(y, 1) == NextV(y)
  {
    hide NextV;
    assert V(y, 0) == y;
  }

  lemma TopPower()
    ensures NextV(Power(127)) == Reduction()
  {
  }

  lemma PowersCommute(i: nat, j: nat)
    requires i < 128 && j < 128
    ensures Mul(Power(i), Power(j)) == Mul(Power(j), Power(i))
  {
    hide V, Mul;
    MulPower(i, Power(j));
    MulPower(j, Power(i));
    PowerIsV(i);
    PowerIsV(j);
    VOfV(Power(0), i, j);
    VOfV(Power(0), j, i);
  }

  /** `x` without its bit `i`. */
  function WithoutBit(x: Bits, i: nat): (r: Bits)
    requires |x| == 128 && i < 128
    ensures |r| == 128
  {
    x[i := false]
  }

  lemma BitBack(x: Bits, i: nat)
    requires |x| == 128 && i < 128 && x[i]
    ensures XorBits(WithoutBit(x, i), Power(i)) == x
  {
  }

  lemma MulZero(y: Bits, x: Bits)
    requires |y| == |x| == 128 && x == ZeroBits(128)
    ensures Mul(x, y) == x && Mul(y, x) == x
  {
    hide Mul;
    MulDistributes(x, x, y);
    SameBits(x);
    SameBits(Mul(x, y));
    SameBits(Mul(y, x));
  }

  lemma SameBits(a: Bits)
    ensures XorBits(a, a) == ZeroBits(|a|)
  {
  }

  lemma {:induction false} PowerCommutes(i: nat, y: Bits, n: nat)
    requires i < 128 && |y| == 128 && n <= 128 && forall k :: n <= k < 128 ==> !y[k]
    ensures Mul(Power(i), y) == Mul(y, Power(i))
    decreases n
  {
    hide Mul, Power, WithoutBit;
    if n == 0 {
      assert y == ZeroBits(128);
      MulZero(Power(i), y);
    } else if !y[n - 1] {
      PowerCommutes(i, y, n - 1);
    } else {
      var y' := WithoutBit(y, n - 1);
      WithoutIs(y, n - 1);
      BitBack(y, n - 1);
      PowerCommutes(i, y', n - 1);
      PowersCommute(i, n - 1);
      MulDistributes(y', Power(n - 1), Power(i));
    }
  }

  lemma WithoutIs(x: Bits, i: nat)
    requires |x| == 128 && i < 128
    ensures forall k :: 0 <= k < 128 ==> WithoutBit(x, i)[k] == (x[k] && k != i)
  {
  }

  lemma {:induction false} CommutesUpTo(x: Bits, y: Bits, n: nat)
    requires |x| == |y| == 128 && n <= 128 && forall k :: n <= k < 128 ==> !x[k]
    ensures Mul(x, y) == Mul(y, x)
    decreases n
  {
    hide Mul, Power, WithoutBit;
    if n == 0 {
      assert x == ZeroBits(128);
      MulZero(y, x);
    } else if !x[n - 1] {
      CommutesUpTo(x, y, n - 1);
    } else {
      var x' := WithoutBit(x, n - 1);
      WithoutIs(x, n - 1);
      BitBack(x, n - 1);
      CommutesUpTo(x', y, n - 1);
      PowerCommutes(n - 1, y, 128);
      MulDistributes(x', Power(n - 1), y);
    }
  }

  /** The product commutes, and the string 100...0 is its one. */
  lemma MulCommutes(x: Bits, y: Bits)
    requires |x| == |y| == 128
    ensures Mul(x, y) == Mul(y, x) && Mul(Power(0), y) == y
  {
    hide Mul;
    CommutesUpTo(x, y, 128);
    MulPower(0, y);
  }

  // ---------------------------------------------------------------- bits and bytes

  lemma BitXor(a: byte, b: byte, j: nat)
    requires j < 8
    ensures Bit(XorB(a, b), j) == (Bit(a, j) != Bit(b, j))
  {
    hide On, XorB;
    BitXorAt(a, b, Mask(j));
  }

  lemma BitXorAt(a: byte, b: byte, m: byte)
    requires m == 0x80 || m == 0x40 || m == 0x20 || m == 0x10 || m == 0x08 || m == 0x04 || m == 0x02 || m == 0x01
    ensures On(XorB(a, b), m) == (On(a, m) != On(b, m))
  {
  }

  /** A byte moved right by one, with the low bit of its left neighbour coming in on top. */
  function ShiftIn(left: byte, b: byte): byte { (b >> 1) | (left << 7) }

  lemma BitShiftIn(left: byte, b: byte, j: nat)
    requires j < 8
    ensures Bit(ShiftIn(left, b), j) == if j == 0 then Bit(left, 7) else Bit(b, j - 1)
  {
    hide On, ShiftIn;
    ShiftInMasks(left, b);
  }

  lemma ShiftInMasks(left: byte, b: byte)
    ensures var s := ShiftIn(left, b);
            && (On(s, 0x80) <==> On(left, 0x01)) && (On(s, 0x40) <==> On(b, 0x80))
            && (On(s, 0x20) <==> On(b, 0x40)) && (On(s, 0x10) <==> On(b, 0x20))
            && (On(s, 0x08) <==> On(b, 0x10)) && (On(s, 0x04) <==> On(b, 0x08))
            && (On(s, 0x02) <==> On(b, 0x04)) && (On(s, 0x01) <==> On(b, 0x02))
  {
  }

  lemma BitsXor(a: seq<byte>, b: seq<byte>, c: seq<byte>)
    requires |a| == |b| == |c| && forall i :: 0 <= i < |a| ==> c[i] == XorB(a[i], b[i])
    ensures BitsOf(c) == XorBits(BitsOf(a), BitsOf(b))
  {
    hide XorB, Bit;
    forall k | 0 <= k < 8 * |a| ensures BitsOf(c)[k] == XorBits(BitsOf(a), BitsOf(b))[k] {
      BitXor(a[k / 8], b[k / 8], k % 8);
    }
  }

  lemma BitsZero(n: nat)
    ensures BitsOf(Zeros(n)) == ZeroBits(8 * n)
  {
    assert forall j: nat :: j < 8 ==> !Bit(0, j);
  }
}
