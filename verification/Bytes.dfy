/** Bytes and their numeric values. */
module Bytes {

  type byte = bv8

  function Nat(b: byte): (n: nat) { b as int }

  lemma NatSucc(b: byte)
    requires b as int < 0xFF
    ensures (b + 1) as int == b as int + 1
  {
  }

  /** The byte with value `n`. */
  function Byte(n: int): (b: byte)
    requires 0 <= n < 0x100
    ensures Nat(b) == n
    decreases n
  {
    if n == 0 then 0 else NatSucc(Byte(n - 1)); Byte(n - 1) + 1
  }

  lemma NatOneToOne(a: byte, b: byte)
    requires a as int == b as int
    ensures a == b
  {
  }

  lemma ByteOfNat(b: byte)
    ensures Nat(b) < 0x100 && Byte(Nat(b)) == b
  {
    hide Byte;
    NatOneToOne(Byte(Nat(b)), b);
  }

  function XorB(a: byte, b: byte): byte { a ^ b }

  lemma XorBBack(a: byte, b: byte)
    ensures XorB(XorB(a, b), b) == a
  {
  }

  function XorBytes(a: seq<byte>, b: seq<byte>): (r: seq<byte>)
    requires |a| == |b|
    ensures |r| == |a|
  {
    seq(|a|, i requires 0 <= i < |a| => XorB(a[i], b[i]))
  }

  /** `n` zero bytes. */
  function Zeros(n: nat): (z: seq<byte>)
    ensures |z| == n
  {
    seq(n, _ => 0)
  }

  /** A number as `k` bytes, low byte first. */
  function Little(n: nat, k: nat): (r: seq<byte>)
    ensures |r| == k
    decreases k
  {
    if k == 0 then [] else [Byte(n % 0x100)] + Little(n / 0x100, k - 1)
  }

  function FromLittle(s: seq<byte>): (n: nat)
    decreases |s|
  {
    if s == [] then 0 else Nat(s[0]) + 0x100 * FromLittle(s[1..])
  }

  /** 256 to the power `k`. */
  function Base(k: nat): (p: nat)
    ensures p >= 1
  {
    if k == 0 then 1 else 0x100 * Base(k - 1)
  }

  lemma {:induction false} LittleRoundTrip(n: nat, k: nat)
    requires n < Base(k)
    ensures FromLittle(Little(n, k)) == n
    decreases k
  {
    hide Byte, Nat;
    if k > 0 {
      LittleRoundTrip(n / 0x100, k - 1);
      assert Little(n, k)[1..] == Little(n / 0x100, k - 1);
    }
  }

  lemma {:induction false} LittleBytes(s: seq<byte>)
    ensures FromLittle(s) < Base(|s|) && Little(FromLittle(s), |s|) == s
    decreases |s|
  {
    hide Byte, Nat;
    if s != [] {
      LittleBytes(s[1..]);
      ByteOfNat(s[0]);
      DigitOf(FromLittle(s[1..]), Nat(s[0]));
      assert s == [s[0]] + s[1..];
    }
  }

  /** A number as `k` bytes, high byte first. */
  function Big(n: nat, k: nat): (r: seq<byte>)
    ensures |r| == k
    decreases k
  {
    if k == 0 then [] else Big(n / 0x100, k - 1) + [Byte(n % 0x100)]
  }

  function FromBig(s: seq<byte>): (n: nat)
    decreases |s|
  {
    if s == [] then 0 else 0x100 * FromBig(s[..|s| - 1]) + Nat(s[|s| - 1])
  }

  lemma {:induction false} BigRoundTrip(n: nat, k: nat)
    requires n < Base(k)
    ensures FromBig(Big(n, k)) == n
    decreases k
  {
    hide Byte, Nat;
    if k > 0 {
      BigRoundTrip(n / 0x100, k - 1);
      assert Big(n, k)[..k - 1] == Big(n / 0x100, k - 1);
    }
  }

  lemma {:induction false} BigBytes(s: seq<byte>)
    ensures FromBig(s) < Base(|s|) && Big(FromBig(s), |s|) == s
    decreases |s|
  {
    hide Byte, Nat, Big;
    if s == [] {
      assert |Big(0, 0)| == 0;
    } else {
      var k := |s| - 1;
      BigBytes(s[..k]);
      ByteOfNat(s[k]);
      BigDigit(FromBig(s[..k]), Nat(s[k]), k);
      assert s == s[..k] + [s[k]];
    }
  }

  lemma BigDigit(q: nat, r: nat, k: nat)
    requires r < 0x100
    ensures Big(0x100 * q + r, k + 1) == Big(q, k) + [Byte(r)]
  {
    hide Byte;
    DigitOf(q, r);
  }

  lemma DigitOf(q: nat, r: nat)
    requires r < 0x100
    ensures (0x100 * q + r) / 0x100 == q && (0x100 * q + r) % 0x100 == r
  {
  }

  /** memcpy of `src` to position `at`. */
  method Copy(out: array<byte>, at: nat, src: seq<byte>)
    requires at + |src| <= out.Length
    modifies out
    ensures out[..] == old(out[..at]) + src + old(out[at + |src|..])
  {
    forall i | 0 <= i < |src| { out[at + i] := src[i]; }
  }
}
