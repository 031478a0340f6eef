/** Counter mode, encryption and decryption of link/link_crypto.c (NIST SP 800-38D, sections 6.2, 6.5, 7.1 and 7.2). */
module GcmCtr {
  import opened Basics
  import opened Bytes
  import opened GcmBits
  import opened Gcm

  // ---------------------------------------------------------------- the counter

  /** The last four bytes as a number, high byte first. */
  function Word(b: Block): (w: nat) {
    FromBig(b[12..])
  }

  lemma BaseFour()
    ensures Base(4) == U32
  {
    assert Base(2) == 0x10000;
  }

  /** inc32 of section 6.2: one more in the last 32 bits, modulo 2^32. */
  function Inc(b: Block): (r: Block)
    ensures r[..12] == b[..12]
  {
    b[..12] + Big((Word(b) + 1) % U32, 4)
  }

  lemma IncWord(b: Block)
    ensures Word(Inc(b)) == (Word(b) + 1) % U32 && Word(b) < U32
  {
    hide Big, FromBig;
    BaseFour();
    BigBytes(b[12..]);
    BigRoundTrip((Word(b) + 1) % U32, 4);
    assert Inc(b)[12..] == Big((Word(b) + 1) % U32, 4);
  }

  function IncN(b: Block, k: nat): (r: Block)
    ensures r[..12] == b[..12]
  {
    if k == 0 then b else Inc(IncN(b, k - 1))
  }

  lemma {:induction false} IncNWord(b: Block, k: nat)
    ensures Word(IncN(b, k)) == (Word(b) + k) % U32
  {
    hide Word, Inc;
    if k == 0 {
      IncWord(b);
    } else {
      IncNWord(b, k - 1);
      IncWord(IncN(b, k - 1));
    }
  }

  /** J0 of a 96-bit nonce: the nonce and a counter of one. */
  function J0(nonce: seq<byte>): (r: Block)
    requires |nonce| == 12
  {
    nonce + [0, 0, 0, 1]
  }

  /** The counter blocks of one message differ from each other and from J0, for as long as the counter allows. */
  lemma CountersDistinct(b: Block, i: nat, j: nat)
    requires i < j < U32
    ensures IncN(b, i) != IncN(b, j)
  {
    hide Word, IncN;
    IncNWord(b, i);
    IncNWord(b, j);
    ModDistinct(Word(b), i, j);
  }

  lemma ModDistinct(w: nat, i: nat, j: nat)
    requires i < j < U32
    ensures (w + i) % U32 != (w + j) % U32
  {
    var q := (w + i) / U32;
    assert w + i == q * U32 + (w + i) % U32;
    if (w + i) % U32 + (j - i) < U32 {
      assert (w + j) / U32 == q;
    } else {
      assert (w + j) / U32 == q + 1;
    }
  }

  // ---------------------------------------------------------------- the carry loop

  function Bump(x: byte): byte { x + 1 }

  /** One more, byte by byte from the right, as long as bytes run over. */
  function Carry(s: seq<byte>): (r: seq<byte>)
    ensures |r| == |s|
    decreases |s|
  {
    if s == [] then []
    else
      var n := |s| - 1;
      if Bump(s[n]) != 0 then s[..n] + [Bump(s[n])] else Carry(s[..n]) + [0]
  }

  lemma BumpNat(x: byte)
    ensures if Bump(x) == 0 then Nat(x) == 0xFF else Nat(x) < 0xFF && Nat(Bump(x)) == Nat(x) + 1
    ensures Nat(0) == 0
  {
    FullByte(x);
    if x as int < 0xFF { NatSucc(x); }
  }

  lemma FullByte(x: byte)
    ensures x as int <= 0xFF && (x as int == 0xFF <==> Bump(x) == 0)
  {
  }

  function Wrap(a: nat, m: nat): nat
    requires m > 0
  {
    a % m
  }

  lemma CarryArith(t: nat, base: nat, x: nat)
    requires t < base && x < 0x100
    ensures x < 0xFF ==> Wrap(0x100 * t + x + 1, 0x100 * base) == 0x100 * t + x + 1
    ensures x == 0xFF ==> Wrap(0x100 * t + x + 1, 0x100 * base) == 0x100 * Wrap(t + 1, base)
  {
    hide Wrap;
    SmallMod(0x100 * t + x + 1, 0x100 * base);
    SmallMod(t + 1, base);
  }

  lemma SmallMod(a: nat, m: nat)
    requires 0 < m && a <= m
    ensures Wrap(a, m) == if a == m then 0 else a
  {
  }

  lemma FromBigLast(s: seq<byte>, x: byte)
    ensures FromBig(s + [x]) == 0x100 * FromBig(s) + Nat(x)
  {
    hide Nat;
    assert (s + [x])[..|s|] == s;
  }

  lemma CarryLast(s: seq<byte>, x: byte)
    ensures Carry(s + [x]) == if Bump(x) != 0 then s + [Bump(x)] else Carry(s) + [0]
  {
    hide Bump;
    assert (s + [x])[..|s|] == s;
  }

  lemma BaseNext(n: nat)
    ensures Base(n + 1) == 0x100 * Base(n)
  {
  }

  lemma CarryAddsNone()
    ensures FromBig(Carry([])) == Wrap(FromBig([]) + 1, Base(0))
  {
  }

  /** The carry adds one, modulo the size of the field. */
  lemma {:induction false} CarryAdds(s: seq<byte>)
    ensures FromBig(Carry(s)) == Wrap(FromBig(s) + 1, Base(|s|))
    decreases |s|
  {
    hide Nat, Bump, Big, FromBig, Carry, Base, Wrap;
    if s == [] {
      CarryAddsNone();
    } else {
      var t, x := s[..|s| - 1], s[|s| - 1];
      assert s == t + [x];
      CarryAdds(t);
      CarryLast(t, x);
      FromBigLast(t, x);
      FromBigLast(t, Bump(x));
      FromBigLast(Carry(t), 0);
      BaseNext(|t|);
      BumpNat(x);
      BigBytes(t);
      ByteOfNat(x);
      CarryArith(FromBig(t), Base(|t|), Nat(x));
    }
  }

  lemma CarryIsInc(b: Block)
    ensures b[..12] + Carry(b[12..]) == Inc(b)
  {
    hide Big, FromBig, Carry;
    BaseFour();
    CarryAdds(b[12..]);
    BigBytes(Carry(b[12..]));
  }

  /** One turn of the carry loop at byte `i` of a block whose later bytes have run over. */
  lemma CarryTurn(b: Block, i: nat)
    requires 12 <= i < 16 && Carry(b[12..]) == Carry(b[12..i + 1]) + Zeros(15 - i)
    ensures if Bump(b[i]) != 0 then b[..12] + Carry(b[12..]) == b[..i] + [Bump(b[i])] + Zeros(15 - i)
            else Carry(b[12..]) == Carry(b[12..i]) + Zeros(16 - i)
  {
    hide Bump;
    var s := b[12..i + 1];
    assert s[..|s| - 1] == b[12..i] && s[|s| - 1] == b[i];
    if Bump(b[i]) != 0 {
      assert b[..12] + b[12..i] == b[..i];
    } else {
      assert [0] + Zeros(15 - i) == Zeros(16 - i);
    }
  }

  /** The carry loop of inc32. */
  method Inc32(counter: array<byte>)
    requires counter.Length == 16
    modifies counter
    ensures counter[..] == Inc(old(counter[..]))
  {
    hide Inc, Bump, Carry;
    ghost var b: Block := counter[..];
    CarryIsInc(b);
    assert b[12..] == b[12..16] && Carry(b[12..]) == Carry(b[12..]) + Zeros(0);
    var i := 15;
    while i >= 12
      invariant 11 <= i <= 15
      invariant counter[..] == b[..i + 1] + Zeros(15 - i)
      invariant Carry(b[12..]) == Carry(b[12..i + 1]) + Zeros(15 - i)
    {
      CarryTurn(b, i);
      counter[i] := Bump(counter[i]);
      if counter[i] != 0 { return; }
      i := i - 1;
    }
    assert Carry(b[12..12]) == [];
  }

  // ---------------------------------------------------------------- counter mode

  /** Byte `k` of the key stream that starts behind `icb`. */
  function StreamByte(enc: Block -> Block, icb: Block, k: nat): byte {
    enc(IncN(icb, k / 16 + 1))[k % 16]
  }

  /** The data masked with the key stream, whatever its length. */
  function Ctr(enc: Block -> Block, icb: Block, data: seq<byte>): (r: seq<byte>)
    ensures |r| == |data|
  {
    seq(|data|, k requires 0 <= k < |data| => XorB(data[k], StreamByte(enc, icb, k)))
  }

  /** Counter mode undoes itself. */
  lemma CtrInvolutive(enc: Block -> Block, icb: Block, data: seq<byte>)
    ensures Ctr(enc, icb, Ctr(enc, icb, data)) == data
  {
    hide XorB, StreamByte;
    forall k | 0 <= k < |data| ensures Ctr(enc, icb, Ctr(enc, icb, data))[k] == data[k] {
      XorBBack(data[k], StreamByte(enc, icb, k));
    }
  }

  /** ctr_xor: whole blocks, then a partial one. */
  method CtrXor(enc: Block -> Block, counter: array<byte>, data: seq<byte>) returns (out: array<byte>)
    requires counter.Length == 16
    modifies counter
    ensures fresh(out) && out[..] == Ctr(enc, old(counter[..]), data)
  {
    hide XorB, IncN, Inc;
    out := new byte[|data|];
    ghost var icb: Block := counter[..];
    IncNStart(icb);
    var off := 0;
    while off < |data|
      invariant 0 <= off <= |data| && (off % 16 == 0 || off == |data|)
      invariant off % 16 == 0 ==> counter[..] == IncN(icb, off / 16)
      invariant forall k :: 0 <= k < off ==> out[k] == XorB(data[k], StreamByte(enc, icb, k))
    {
      var n := |data| - off;
      if n > 16 { n := 16; }
      IncNNext(icb, off / 16);
      Inc32(counter);
      var stream := enc(counter[..]);
      for i := 0 to n
        invariant counter[..] == IncN(icb, off / 16 + 1)
        invariant forall k :: 0 <= k < off + i ==> out[k] == XorB(data[k], StreamByte(enc, icb, k))
      {
        assert (off + i) / 16 == off / 16 && (off + i) % 16 == i;
        out[off + i] := XorB(data[off + i], stream[i]);
      }
      off := off + n;
    }
  }

  lemma IncNStart(b: Block)
    ensures IncN(b, 0) == b
  {
  }

  lemma IncNNext(b: Block, k: nat)
    ensures IncN(b, k + 1) == Inc(IncN(b, k))
  {
  }

  // ---------------------------------------------------------------- authenticated encryption

  lemma MaskBits(j: nat, k: nat)
    requires j < 8 && k < 8
    ensures Bit(Mask(j), k) == (j == k) && !Bit(0, k)
  {
  }

  /** The byte whose first `n` bits are those of `bits` and whose others are clear. */
  function PackByte(bits: Bits, n: nat): (b: byte)
    requires |bits| == 8 && n <= 8
    ensures forall j :: 0 <= j < 8 ==> Bit(b, j) == (j < n && bits[j])
  {
    hide Bit, Mask, XorB;
    if n == 0 then
      assert forall j :: 0 <= j < 8 ==> !Bit(0, j) by { forall j | 0 <= j < 8 ensures !Bit(0, j) { MaskBits(0, j); } }
      0
    else
      var p := PackByte(bits, n - 1);
      if !bits[n - 1] then p
      else
        assert forall j :: 0 <= j < 8 ==> Bit(XorB(p, Mask(n - 1)), j) == (j < n && bits[j]) by {
          forall j | 0 <= j < 8 ensures Bit(XorB(p, Mask(n - 1)), j) == (j < n && bits[j]) {
            BitXor(p, Mask(n - 1), j);
            MaskBits(n - 1, j);
          }
        }
        XorB(p, Mask(n - 1))
  }

  lemma SameBits(a: byte, b: byte)
    requires On(a, 0x80) == On(b, 0x80) && On(a, 0x40) == On(b, 0x40) && On(a, 0x20) == On(b, 0x20)
             && On(a, 0x10) == On(b, 0x10)
    requires On(a, 0x08) == On(b, 0x08) && On(a, 0x04) == On(b, 0x04) && On(a, 0x02) == On(b, 0x02)
             && On(a, 0x01) == On(b, 0x01)
    ensures a == b
  {
  }

  lemma BitsOneToOne(s: seq<byte>, t: seq<byte>)
    requires BitsOf(s) == BitsOf(t)
    ensures s == t
  {
    hide On, BitsOf;
    assert |s| == |t|;
    forall i: nat | i < |s| ensures s[i] == t[i] {
      forall j: nat | j < 8 ensures Bit(s[i], j) == Bit(t[i], j) {
        BitsAt(s, i, j);
        BitsAt(t, i, j);
      }
      assert Bit(s[i], 0) == Bit(t[i], 0) && Bit(s[i], 1) == Bit(t[i], 1) && Bit(s[i], 2) == Bit(t[i], 2);
      assert Bit(s[i], 3) == Bit(t[i], 3) && Bit(s[i], 4) == Bit(t[i], 4) && Bit(s[i], 5) == Bit(t[i], 5);
      assert Bit(s[i], 6) == Bit(t[i], 6) && Bit(s[i], 7) == Bit(t[i], 7);
      SameBits(s[i], t[i]);
    }
  }

  /** The block with these bits. */
  function Pack(bits: Bits): (b: Block)
    requires |bits| == 128
    ensures BitsOf(b) == bits
  {
    hide Bit;
    var b := seq(16, i requires 0 <= i < 16 => PackByte(bits[8 * i..8 * i + 8], 8));
    assert forall k :: 0 <= k < 128 ==> BitsOf(b)[k] == bits[k] by {
      forall k | 0 <= k < 128 ensures BitsOf(b)[k] == bits[k] {
        assert b[k / 8] == PackByte(bits[8 * (k / 8)..8 * (k / 8) + 8], 8);
        assert bits[8 * (k / 8)..8 * (k / 8) + 8][k % 8] == bits[k];
      }
    }
    b
  }

  function Tag(enc: Block -> Block, j0: Block, aad: seq<byte>, ct: seq<byte>): Block {
    Pack(TagBits(enc, j0, aad, ct))
  }

  datatype Sealed = Sealed(ct: seq<byte>, tag: Block)

  /** GCM-AE of section 7.1. */
  function Encrypt(enc: Block -> Block, nonce: seq<byte>, aad: seq<byte>, pt: seq<byte>): (r: Sealed)
    requires |nonce| == 12
    ensures |r.ct| == |pt|
  {
    var ct := Ctr(enc, J0(nonce), pt);
    Sealed(ct, Tag(enc, J0(nonce), aad, ct))
  }

  datatype Opened = Refused | Opened(pt: seq<byte>)

  /** GCM-AD of section 7.2: the tag is checked before anything is decrypted. */
  function Decrypt(enc: Block -> Block, nonce: seq<byte>, aad: seq<byte>, ct: seq<byte>, tag: Block): (r: Opened)
    requires |nonce| == 12
    ensures r.Opened? ==> |r.pt| == |ct|
  {
    if tag == Tag(enc, J0(nonce), aad, ct) then Opened(Ctr(enc, J0(nonce), ct)) else Refused
  }

  /** Decryption gives back what was encrypted, for every length. */
  lemma DecryptEncrypt(enc: Block -> Block, nonce: seq<byte>, aad: seq<byte>, pt: seq<byte>)
    requires |nonce| == 12
    ensures var s := Encrypt(enc, nonce, aad, pt); Decrypt(enc, nonce, aad, s.ct, s.tag) == Opened(pt)
  {
    hide Tag, Ctr;
    CtrInvolutive(enc, J0(nonce), pt);
  }

  method AesGcmEncrypt(enc: Block -> Block, nonce: seq<byte>, aad: seq<byte>, pt: seq<byte>)
    returns (ct: seq<byte>, tag: Block)
    requires |nonce| == 12
    ensures Sealed(ct, tag) == Encrypt(enc, nonce, aad, pt)
  {
    hide BitsOf, TagBits, Ctr;
    var h := enc(Zeros(16));
    var j0 := nonce + [0, 0, 0, 1];
    ct := [];
    CtrNothing(enc, j0);
    if |pt| > 0 {
      var counter := new byte[16](i requires 0 <= i < 16 => j0[i]);
      assert counter[..] == j0;
      var out := CtrXor(enc, counter, pt);
      ct := out[..];
    }
    var t := GcmTag(enc, h, j0, aad, ct);
    tag := t[..];
    BitsOneToOne(tag, Tag(enc, j0, aad, ct));
  }

  lemma CtrNothing(enc: Block -> Block, icb: Block)
    ensures Ctr(enc, icb, []) == []
  {
  }

  function OrB(a: byte, b: byte): byte { a | b }

  lemma OrXor(d: byte, a: byte, b: byte)
    ensures OrB(d, XorB(a, b)) == 0 <==> d == 0 && a == b
  {
  }

  /** The comparison that looks at every byte. */
  method TagsDiffer(want: Block, tag: Block) returns (diff: byte)
    ensures diff == 0 <==> want == tag
  {
    hide OrB, XorB;
    diff := 0;
    for i := 0 to 16
      invariant diff == 0 <==> forall k :: 0 <= k < i ==> want[k] == tag[k]
    {
      OrXor(diff, want[i], tag[i]);
      diff := OrB(diff, XorB(want[i], tag[i]));
    }
  }

  method AesGcmDecrypt(enc: Block -> Block, nonce: seq<byte>, aad: seq<byte>, ct: seq<byte>, tag: Block)
    returns (r: Opened)
    requires |nonce| == 12
    ensures r == Decrypt(enc, nonce, aad, ct, tag)
  {
    hide BitsOf, TagBits, Ctr;
    var h := enc(Zeros(16));
    var j0 := nonce + [0, 0, 0, 1];
    var want := GcmTag(enc, h, j0, aad, ct);
    BitsOneToOne(want[..], Tag(enc, j0, aad, ct));
    var diff := TagsDiffer(want[..], tag);
    if diff != 0 { return Refused; }
    CtrNothing(enc, j0);
    var pt := [];
    if |ct| > 0 {
      var counter := new byte[16](i requires 0 <= i < 16 => j0[i]);
      assert counter[..] == j0;
      var out := CtrXor(enc, counter, ct);
      pt := out[..];
    }
    r := Opened(pt);
  }
}
