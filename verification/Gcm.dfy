/** AES-128-GCM of link/link_crypto.c over byte arrays; the AES block cipher is a parameter. */
module Gcm {
  import opened Bytes
  import opened GcmBits

  type Block = b: seq<byte> | |b| == 16 witness Zeros(16)

  // ---------------------------------------------------------------- block multiplication

  method XorBlock(dst: array<byte>, src: array<byte>)
    requires dst.Length == src.Length == 16 && dst != src
    modifies dst
    ensures BitsOf(dst[..]) == XorBits(old(BitsOf(dst[..])), BitsOf(src[..]))
  {
    hide XorB, BitsOf;
    ghost var before := dst[..];
    for i := 0 to 16
      invariant forall k :: 0 <= k < i ==> dst[k] == XorB(before[k], src[k])
      invariant forall k :: i <= k < 16 ==> dst[k] == before[k]
    {
      dst[i] := XorB(dst[i], src[i]);
    }
    BitsXor(before, src[..], dst[..]);
  }

  /** The block after shift_right_block, byte by byte. */
  function Shifted(s: Block): (r: Block) {
    var first := ShiftIn(0, s[0]);
    [if On(s[15], 1) then XorB(first, 0xe1) else first] + seq(15, i requires 0 <= i < 15 => ShiftIn(s[i], s[i + 1]))
  }

  lemma ShiftedAt(s: Block)
    ensures Shifted(s)[0] == if On(s[15], 1) then XorB(ShiftIn(0, s[0]), 0xe1) else ShiftIn(0, s[0])
    ensures forall k {:trigger Shifted(s)[k]} :: 0 < k < 16 ==> Shifted(s)[k] == ShiftIn(s[k - 1], s[k])
  {
    hide On, XorB, ShiftIn;
  }

  lemma ReductionBits(j: nat)
    requires j < 8
    ensures Bit(0xe1, j) == Reduction()[j] && !Bit(0, j)
  {
  }

  lemma ShiftedFirst(s: Block, j: nat)
    requires j < 8
    ensures Bit(Shifted(s)[0], j) == ((j > 0 && Bit(s[0], j - 1)) != (On(s[15], 1) && Reduction()[j]))
  {
    hide On, XorB, ShiftIn, Reduction;
    ReductionBits(j);
    ReductionBits(7);
    BitShiftIn(0, s[0], j);
    BitXor(ShiftIn(0, s[0]), 0xe1, j);
  }

  /** Shifting the bytes is the step of V. */
  lemma ShiftedBits(s: Block)
    ensures BitsOf(Shifted(s)) == NextV(BitsOf(s))
  {
    hide On, Bit, XorB, ShiftIn, NextV, Reduction;
    assert BitsOf(s)[127] == Bit(s[15], 7);
    LastBit(s[15]);
    var t := Shifted(s);
    forall k: nat | k < 128 ensures BitsOf(t)[k] == NextV(BitsOf(s))[k] {
      NextVAt(BitsOf(s), k);
      if k < 8 {
        ShiftedFirst(s, k);
      } else {
        NoReduction(k);
        BitShiftIn(s[k / 8 - 1], s[k / 8], k % 8);
        if k % 8 == 0 { assert (k - 1) / 8 == k / 8 - 1 && (k - 1) % 8 == 7; }
        else { assert (k - 1) / 8 == k / 8 && (k - 1) % 8 == k % 8 - 1; }
      }
    }
  }

  lemma LastBit(b: byte)
    ensures Bit(b, 7) == On(b, 1)
  {
  }

  lemma NoReduction(k: nat)
    requires 8 <= k < 128
    ensures !Reduction()[k]
  {
  }

  method ShiftRightBlock(v: array<byte>)
    requires v.Length == 16
    modifies v
    ensures BitsOf(v[..]) == NextV(old(BitsOf(v[..])))
  {
    hide On, XorB, ShiftIn, BitsOf, NextV, Shifted;
    ghost var s: Block := v[..];
    var lsb := On(v[15], 1);
    var i := 15;
    while i > 0
      invariant 0 <= i <= 15
      invariant forall k :: 0 <= k <= i ==> v[k] == s[k]
      invariant forall k :: i < k < 16 ==> v[k] == ShiftIn(s[k - 1], s[k])
    {
      v[i] := ShiftIn(v[i - 1], v[i]);
      i := i - 1;
    }
    v[0] := ShiftIn(0, v[0]);
    if lsb { v[0] := XorB(v[0], 0xe1); }
    ShiftedAt(s);
    assert v[..] == Shifted(s);
    ShiftedBits(s);
  }

  /** The inner loop of gcm_mul, over the bits of byte `i` of the multiplier. */
  method MulByte(b: byte, z: array<byte>, v: array<byte>, ghost x: Block, ghost y: Bits, ghost i: nat)
    requires z.Length == v.Length == 16 && z != v && |y| == 128 && i < 16 && b == x[i]
    requires BitsOf(z[..]) == Z(BitsOf(x), y, 8 * i) && BitsOf(v[..]) == V(y, 8 * i)
    modifies z, v
    ensures BitsOf(z[..]) == Z(BitsOf(x), y, 8 * i + 8) && BitsOf(v[..]) == V(y, 8 * i + 8)
  {
    hide BitsOf, NextV, V, Bit, XorBits;
    for bit := 0 to 8
      invariant BitsOf(z[..]) == Z(BitsOf(x), y, 8 * i + bit) && BitsOf(v[..]) == V(y, 8 * i + bit)
    {
      BitsAt(x, i, bit);
      if Bit(b, bit) { XorBlock(z, v); }
      VNext(y, 8 * i + bit);
      ShiftRightBlock(v);
    }
  }

  /** gcm_mul: the byte loops compute the block product. */
  method GcmMul(x: array<byte>, h: Block)
    requires x.Length == 16
    modifies x
    ensures BitsOf(x[..]) == Mul(old(BitsOf(x[..])), BitsOf(h))
  {
    hide BitsOf, V, Z;
    var z := new byte[16](_ => 0);
    var v := new byte[16](i requires 0 <= i < 16 => h[i]);
    assert z[..] == Zeros(16) && v[..] == h;
    ghost var bx: Block, bh := x[..], BitsOf(h);
    BitsZero(16);
    VStart(bh);
    ZStart(BitsOf(bx), bh);
    for i := 0 to 16
      invariant x[..] == bx && BitsOf(z[..]) == Z(BitsOf(bx), bh, 8 * i) && BitsOf(v[..]) == V(bh, 8 * i)
    {
      MulByte(x[i], z, v, bx, bh, i);
    }
    forall i | 0 <= i < 16 { x[i] := z[i]; }
    assert x[..] == z[..];
  }

  lemma ZStart(x: Bits, y: Bits)
    requires |x| == |y| == 128
    ensures Z(x, y, 0) == ZeroBits(128)
  {
  }

  lemma VStart(y: Bits)
    requires |y| == 128
    ensures V(y, 0) == y
  {
  }

  lemma VNext(y: Bits, i: nat)
    requires |y| == 128
    ensures V(y, i + 1) == NextV(V(y, i))
  {
  }

  lemma BitsAt(s: seq<byte>, i: nat, j: nat)
    requires i < |s| && j < 8
    ensures BitsOf(s)[8 * i + j] == Bit(s[i], j)
  {
    assert (8 * i + j) / 8 == i && (8 * i + j) % 8 == j;
  }

  // ---------------------------------------------------------------- GHASH

  /** Up to sixteen bytes as a block, zero behind. */
  function PadBlock(d: seq<byte>): Block
    requires |d| <= 16
  {
    d + Zeros(16 - |d|)
  }

  function Front(d: seq<byte>): nat { if |d| > 16 then 16 else |d| }

  /** The hash of `data` from the state `y`: one block at a time, the last one padded. */
  function Ghash(y: Bits, h: Bits, data: seq<byte>): (r: Bits)
    requires |y| == |h| == 128
    ensures |r| == 128
    decreases |data|
  {
    if data == [] then y
    else Ghash(Mul(XorBits(y, BitsOf(PadBlock(data[..Front(data)]))), h), h, data[Front(data)..])
  }

  /** `data` padded with zeros to whole blocks. */
  function Padded(data: seq<byte>): (r: seq<byte>)
    ensures |r| % 16 == 0
  {
    data + Zeros(Missing(|data|))
  }

  /** Bytes missing to whole blocks. */
  function Missing(n: nat): (k: nat)
    ensures k < 16 && (n + k) % 16 == 0
  {
    (16 - n % 16) % 16
  }

  /** Hashing in pieces is hashing the whole, when the first piece is whole blocks. */
  lemma {:induction false} GhashConcat(y: Bits, h: Bits, a: seq<byte>, b: seq<byte>)
    requires |y| == |h| == 128 && |a| % 16 == 0
    ensures Ghash(y, h, a + b) == Ghash(Ghash(y, h, a), h, b)
    decreases |a|
  {
    hide Mul, XorBits, BitsOf;
    if a == [] {
      assert a + b == b;
    } else {
      assert (a + b)[..16] == a[..16] && (a + b)[16..] == a[16..] + b;
      GhashConcat(Mul(XorBits(y, BitsOf(PadBlock(a[..16]))), h), h, a[16..], b);
    }
  }

  lemma PaddedStep(data: seq<byte>)
    requires |data| >= 16
    ensures |Padded(data)| >= 16 && Padded(data)[..16] == data[..16] && Padded(data)[16..] == Padded(data[16..])
  {
    MissingAlike(|data|);
    hide Missing;
    var z := Zeros(Missing(|data|));
    assert (data + z)[..16] == data[..16] && (data + z)[16..] == data[16..] + z;
  }

  lemma MissingAlike(n: nat)
    requires n >= 16
    ensures Missing(n) == Missing(n - 16)
  {
  }

  lemma PaddedShort(data: seq<byte>)
    requires 0 < |data| < 16
    ensures Padded(data) == PadBlock(data) == PadBlock(Padded(data)[..16]) && Padded(data)[16..] == []
  {
  }

  /** Padding the last block beforehand makes no difference. */
  lemma {:induction false} GhashPadded(y: Bits, h: Bits, data: seq<byte>)
    requires |y| == |h| == 128
    ensures Ghash(y, h, Padded(data)) == Ghash(y, h, data)
    decreases |data|
  {
    hide Mul, XorBits, BitsOf, Padded, Ghash;
    if |data| >= 16 {
      PaddedStep(data);
      GhashStep(y, h, data);
      GhashStep(y, h, Padded(data));
      GhashPadded(Mul(XorBits(y, BitsOf(PadBlock(data[..16]))), h), h, data[16..]);
    } else if data != [] {
      PaddedShort(data);
      GhashStep(y, h, data);
      GhashStep(y, h, Padded(data));
      assert data[..|data|] == data && data[|data|..] == [];
    } else {
      PaddedNone();
    }
  }

  lemma PaddedNone()
    ensures Padded([]) == []
  {
  }

  lemma GhashStep(y: Bits, h: Bits, data: seq<byte>)
    requires |y| == |h| == 128 && data != []
    ensures Ghash(y, h, data)
            == Ghash(Mul(XorBits(y, BitsOf(PadBlock(data[..Front(data)]))), h), h, data[Front(data)..])
  {
  }

  /** One round of ghash_update. */
  method AbsorbBlock(y: array<byte>, h: Block, d: seq<byte>)
    requires y.Length == 16 && |d| <= 16
    modifies y
    ensures BitsOf(y[..]) == Mul(XorBits(old(BitsOf(y[..])), BitsOf(PadBlock(d))), BitsOf(h))
  {
    hide BitsOf, Mul;
    var block := new byte[16](_ => 0);
    forall i | 0 <= i < |d| { block[i] := d[i]; }
    ghost var padded, y0 := block[..], y[..];
    assert padded == PadBlock(d);
    assert y0 == old(y[..]);
    XorBlock(y, block);
    assert block[..] == padded;
    ghost var y1 := y[..];
    assert BitsOf(y1) == XorBits(BitsOf(y0), BitsOf(padded));
    GcmMul(y, h);
    assert BitsOf(y[..]) == Mul(BitsOf(y1), BitsOf(h));
  }

  /** ghash_update */
  method GhashUpdate(y: array<byte>, h: Block, data: seq<byte>)
    requires y.Length == 16
    modifies y
    ensures BitsOf(y[..]) == Ghash(old(BitsOf(y[..])), BitsOf(h), data)
  {
    hide BitsOf, Mul, Ghash;
    var off := 0;
    assert data[0..] == data;
    while off < |data|
      invariant 0 <= off <= |data|
      invariant Ghash(BitsOf(y[..]), BitsOf(h), data[off..]) == Ghash(old(BitsOf(y[..])), BitsOf(h), data)
    {
      var n := |data| - off;
      if n > 16 { n := 16; }
      GhashStep(BitsOf(y[..]), BitsOf(h), data[off..]);
      assert data[off..][..n] == data[off..off + n] && data[off..][n..] == data[off + n..];
      AbsorbBlock(y, h, data[off..off + n]);
      off := off + n;
    }
    assert data[off..] == [];
    GhashEmpty(BitsOf(y[..]), BitsOf(h));
  }

  // ---------------------------------------------------------------- the tag

  /** put_be64 */
  method PutBe64(out: array<byte>, at: nat, value: nat)
    requires at + 8 <= out.Length
    modifies out
    ensures out[..] == old(out[..at]) + Big(value, 8) + old(out[at + 8..])
  {
    ghost var before := out[..];
    var v, i := value, 8;
    assert out[at + 8..at + 8] == [];
    hide Byte, Big;
    while i > 0
      invariant 0 <= i <= 8 && out[..at] == before[..at] && out[at + 8..] == before[at + 8..]
      invariant Big(v, i) + out[at + i..at + 8] == Big(value, 8)
    {
      ghost var done := out[at + i..at + 8];
      i := i - 1;
      out[at + i] := Byte(v % 0x100);
      BigNext(v, i, done);
      assert out[at + i..at + 8] == [Byte(v % 0x100)] + done;
      v := v / 0x100;
    }
    assert |Big(v, 0)| == 0;
    assert out[at..at + 8] == Big(value, 8);
    assert out[..] == out[..at] + out[at..at + 8] + out[at + 8..];
  }

  lemma BigNext(v: nat, i: nat, done: seq<byte>)
    ensures Big(v, i + 1) + done == Big(v / 0x100, i) + ([Byte(v % 0x100)] + done)
  {
    assert Big(v, i + 1) == Big(v / 0x100, i) + [Byte(v % 0x100)];
  }

  /** The lengths block: bit counts of the two strings. */
  function Lengths(aad: nat, ct: nat): Block {
    Big(8 * aad, 8) + Big(8 * ct, 8)
  }

  /** The lengths block holds the two lengths in bits, first that of the additional data. */
  lemma LengthsAre(aad: nat, ct: nat)
    requires 8 * aad < Base(8) && 8 * ct < Base(8)
    ensures FromBig(Lengths(aad, ct)[..8]) == 8 * aad && FromBig(Lengths(aad, ct)[8..]) == 8 * ct
  {
    hide Big, FromBig, Base;
    BigRoundTrip(8 * aad, 8);
    BigRoundTrip(8 * ct, 8);
    assert Lengths(aad, ct)[..8] == Big(8 * aad, 8) && Lengths(aad, ct)[8..] == Big(8 * ct, 8);
  }

  /** The tag of section 7.1: GHASH of the padded strings and their lengths, masked with the encrypted J0. */
  function TagBits(enc: Block -> Block, j0: Block, aad: seq<byte>, ct: seq<byte>): (r: Bits)
    ensures |r| == 128
  {
    var h := BitsOf(enc(Zeros(16)));
    XorBits(Ghash(ZeroBits(128), h, Padded(aad) + Padded(ct) + Lengths(|aad|, |ct|)), BitsOf(enc(j0)))
  }

  /** The three hash calls of gcm_tag. */
  method HashParts(h: Block, aad: seq<byte>, ct: seq<byte>) returns (y: array<byte>)
    ensures fresh(y) && y.Length == 16
    ensures BitsOf(y[..])
            == Ghash(Ghash(Ghash(ZeroBits(128), BitsOf(h), aad), BitsOf(h), ct), BitsOf(h), Lengths(|aad|, |ct|))
  {
    hide BitsOf, Ghash, Big, ZeroBits;
    y := new byte[16](_ => 0);
    assert y[..] == Zeros(16);
    BitsZero(16);
    GhashEmpty(BitsOf(y[..]), BitsOf(h));
    if |aad| > 0 { GhashUpdate(y, h, aad); }
    GhashEmpty(BitsOf(y[..]), BitsOf(h));
    if |ct| > 0 { GhashUpdate(y, h, ct); }
    ghost var y2 := y[..];
    var lengths := new byte[16](_ => 0);
    PutBe64(lengths, 0, 8 * |aad|);
    PutBe64(lengths, 8, 8 * |ct|);
    assert lengths[..] == Lengths(|aad|, |ct|) && y[..] == y2;
    GhashUpdate(y, h, lengths[..]);
  }

  /** gcm_tag hashes in three calls; together they hash the one string of section 7.1. */
  method GcmTag(enc: Block -> Block, h: Block, j0: Block, aad: seq<byte>, ct: seq<byte>) returns (tag: array<byte>)
    requires h == enc(Zeros(16))
    ensures fresh(tag) && tag.Length == 16 && BitsOf(tag[..]) == TagBits(enc, j0, aad, ct)
  {
    hide BitsOf, Ghash, Padded, Lengths, ZeroBits;
    tag := HashParts(h, aad, ct);
    TagInPieces(BitsOf(h), aad, ct, Lengths(|aad|, |ct|));
    ghost var y := tag[..];
    var ek := new byte[16](i requires 0 <= i < 16 => enc(j0)[i]);
    assert ek[..] == enc(j0) && tag[..] == y;
    XorBlock(tag, ek);
  }

  lemma GhashEmpty(y: Bits, h: Bits)
    requires |y| == |h| == 128
    ensures Ghash(y, h, []) == y
  {
  }

  lemma TagInPieces(h: Bits, aad: seq<byte>, ct: seq<byte>, l: seq<byte>)
    requires |h| == 128
    ensures Ghash(Ghash(Ghash(ZeroBits(128), h, aad), h, ct), h, l)
            == Ghash(ZeroBits(128), h, Padded(aad) + Padded(ct) + l)
  {
    hide Ghash, Padded, ZeroBits;
    var y, a, c := ZeroBits(128), Padded(aad), Padded(ct);
    GhashPadded(y, h, aad);
    GhashPadded(Ghash(y, h, aad), h, ct);
    GhashConcat(y, h, a, c);
    assert |a + c| % 16 == 0;
    GhashConcat(y, h, a + c, l);
  }

  lemma GhashBlock(y: Bits, h: Bits, b: Block, rest: seq<byte>)
    requires |y| == |h| == 128
    ensures Ghash(y, h, b + rest) == Ghash(Mul(XorBits(y, BitsOf(b)), h), h, rest)
  {
    hide Ghash, Mul, XorBits, BitsOf;
    GhashStep(y, h, b + rest);
    assert (b + rest)[..16] == b && (b + rest)[16..] == rest;
    assert PadBlock(b) == b;
  }

  lemma WholePadded(b: Block)
    ensures Padded(b) == b
  {
  }

  /** With a block of additional data and one of ciphertext: three products, and the encrypted J0 on top. */
  lemma TagOfTwo(enc: Block -> Block, j0: Block, a: Block, c: Block)
    ensures var h := BitsOf(enc(Zeros(16)));
            var x := Mul(XorBits(Mul(BitsOf(a), h), BitsOf(c)), h);
            TagBits(enc, j0, a, c) == XorBits(Mul(XorBits(x, BitsOf(Lengths(16, 16))), h), BitsOf(enc(j0)))
  {
    WholePadded(a);
    WholePadded(c);
    hide Ghash, Mul, XorBits, BitsOf, Padded, Lengths, ZeroBits;
    var h, l := BitsOf(enc(Zeros(16))), Lengths(16, 16);
    var y0 := ZeroBits(128);
    XorZeroBits(BitsOf(a));
    var y1 := Mul(XorBits(y0, BitsOf(a)), h);
    var y2 := Mul(XorBits(y1, BitsOf(c)), h);
    assert a + c + l == a + (c + l);
    GhashBlock(y0, h, a, c + l);
    GhashBlock(y1, h, c, l);
    assert l + [] == l;
    GhashBlock(y2, h, l, []);
    GhashEmpty(Mul(XorBits(y2, BitsOf(l)), h), h);
  }

  /** The tag of nothing is the encrypted J0. */
  lemma TagOfNothing(enc: Block -> Block, j0: Block)
    ensures TagBits(enc, j0, [], []) == BitsOf(enc(j0))
  {
    PaddedNone();
    hide Ghash, Mul, XorBits, BitsOf, Padded, ZeroBits;
    var h, y := BitsOf(enc(Zeros(16))), ZeroBits(128);
    NoLengths();
    assert [] + [] + Lengths(0, 0) == Zeros(16) && Zeros(16) + [] == Zeros(16);
    GhashBlock(y, h, Zeros(16), []);
    BitsZero(16);
    XorZeroBits(y);
    MulZero(h, y);
    GhashEmpty(y, h);
    XorZeroBits(BitsOf(enc(j0)));
  }

  lemma NoLengths()
    ensures Lengths(0, 0) == Zeros(16)
  {
    hide Byte;
    BigNone(8);
  }

  lemma {:induction false} BigNone(k: nat)
    ensures Big(0, k) == Zeros(k)
  {
    hide Byte;
    if k > 0 {
      BigNone(k - 1);
      NatOneToOne(Byte(0), 0);
    }
  }
}
