/** Which changes of a module image the checksum of drivers/module.c does not notice. */
module ImageErrors {
  import opened Bytes
  import opened Crc32
  import opened CrcCheck
  import opened ModuleImage

  // ---------------------------------------------------------------- when a change escapes

  lemma PackXor(a: byte, b: byte, c: byte, d: byte, a': byte, b': byte, c': byte, d': byte)
    ensures Pack(XorB(a, a'), XorB(b, b'), XorB(c, c'), XorB(d, d')) == Xor(Pack(a, b, c, d), Pack(a', b', c', d'))
  {
  }

  lemma WordXor(s: seq<byte>, t: seq<byte>)
    requires |s| == |t| == 4
    ensures WordOf(XorBytes(s, t)) == Xor(WordOf(s), WordOf(t))
  {
    hide Pack, Xor, XorB;
    PackXor(s[0], s[1], s[2], s[3], t[0], t[1], t[2], t[3]);
  }

  lemma SameError(p: bv32, q: bv32, p': bv32, q': bv32)
    requires p == q
    ensures p' == q' <==> Xor(p, p') == Xor(q, q')
  {
  }

  /** The error in the checksum field. */
  function StoredError(d: seq<byte>, e: seq<byte>): bv32
    requires |d| >= HEADER && |e| >= HEADER
  {
    WordOf(XorBytes(d[CRC_AT..CRC_AT + 4], e[CRC_AT..CRC_AT + 4]))
  }

  /** Any change of an intact image escapes exactly when the error in the checksum is the one the rest of it causes. */
  lemma ChangeEscapesIff(d: seq<byte>, e: seq<byte>)
    requires Intact(d) && |e| == |d|
    ensures Intact(e) <==> Run(0, XorBytes(Zeroed(d), Zeroed(e))) == StoredError(d, e)
  {
    hide Update, Run, WordOf, Xor, XorBytes, Zeroed;
    var f, g := d[CRC_AT..CRC_AT + 4], e[CRC_AT..CRC_AT + 4];
    UpdateError(0, Zeroed(d), Zeroed(e));
    WordXor(f, g);
    SameError(Update(0, Zeroed(d)), WordOf(f), Update(0, Zeroed(e)), WordOf(g));
  }

  /** So one across the front end of the checksum escapes exactly when its two parts match, `n` bytes further on. */
  lemma FrontEscapesIff(d: seq<byte>, k: nat, m: seq<byte>)
    requires Intact(d) && k < CRC_AT < k + |m| <= CRC_AT + 4
    ensures var e, n := Patched(d, k, m), |d| - CRC_AT;
            Intact(e) <==> Run(0, XorBytes(d[k..CRC_AT], m[..CRC_AT - k]) + Zeros(n)) == StoredError(d, e)
  {
    hide Update, Run, StoredError, XorBytes, Zeroed, Patched, Zeros;
    FrontError(d, k, m);
    ErrorEscapesIff(d, Patched(d, k, m), k, XorBytes(d[k..CRC_AT], m[..CRC_AT - k]), |d| - CRC_AT);
  }

  /** An error `x` outside the checksum, `k` bytes in and `n` bytes from the end. */
  lemma ErrorEscapesIff(d: seq<byte>, e: seq<byte>, k: nat, x: seq<byte>, n: nat)
    requires Intact(d) && |e| == |d| && XorBytes(Zeroed(d), Zeroed(e)) == Zeros(k) + x + Zeros(n)
    ensures Intact(e) <==> Run(0, x + Zeros(n)) == StoredError(d, e)
  {
    hide Update, Run, StoredError, XorBytes, Zeroed, Zeros;
    ChangeEscapesIff(d, e);
    LeadingZeros(k, x + Zeros(n));
    assert Zeros(k) + x + Zeros(n) == Zeros(k) + (x + Zeros(n));
  }

  lemma LeadingZeros(k: nat, x: seq<byte>)
    ensures Run(0, Zeros(k) + x) == Run(0, x)
  {
    hide Run;
    RunConcat(0, Zeros(k), x);
    RunZeros(k);
  }

  lemma FrontError(d: seq<byte>, k: nat, m: seq<byte>)
    requires |d| >= HEADER && k < CRC_AT < k + |m| <= CRC_AT + 4
    ensures XorBytes(Zeroed(d), Zeroed(Patched(d, k, m)))
            == Zeros(k) + XorBytes(d[k..CRC_AT], m[..CRC_AT - k]) + Zeros(|d| - CRC_AT)
  {
    hide XorB;
    var a, b := Zeroed(d), Zeroed(Patched(d, k, m));
    forall i | 0 <= i < |d| ensures XorBytes(a, b)[i] == (if k <= i < CRC_AT then XorB(d[i], m[i - k]) else 0) {
      XorSame(a[i]);
    }
  }

  /** And one across its rear end likewise. */
  lemma RearEscapesIff(d: seq<byte>, k: nat, m: seq<byte>)
    requires Intact(d) && CRC_AT <= k < CRC_AT + 4 < k + |m| <= |d|
    ensures var e, j, n := Patched(d, k, m), CRC_AT + 4 - k, |d| - k - |m|;
            Intact(e) <==> Run(0, XorBytes(d[CRC_AT + 4..k + |m|], m[j..]) + Zeros(n)) == StoredError(d, e)
  {
    hide Update, Run, StoredError, XorBytes, Zeroed, Patched, Zeros;
    var e, j, n := Patched(d, k, m), CRC_AT + 4 - k, |d| - k - |m|;
    RearError(d, k, m);
    ErrorEscapesIff(d, e, CRC_AT + 4, XorBytes(d[CRC_AT + 4..k + |m|], m[j..]), n);
  }

  lemma RearError(d: seq<byte>, k: nat, m: seq<byte>)
    requires |d| >= HEADER && CRC_AT <= k < CRC_AT + 4 < k + |m| <= |d|
    ensures XorBytes(Zeroed(d), Zeroed(Patched(d, k, m)))
            == Zeros(CRC_AT + 4) + XorBytes(d[CRC_AT + 4..k + |m|], m[CRC_AT + 4 - k..]) + Zeros(|d| - k - |m|)
  {
    hide XorB;
    var a, b := Zeroed(d), Zeroed(Patched(d, k, m));
    forall i | 0 <= i < |d|
      ensures XorBytes(a, b)[i] == (if CRC_AT + 4 <= i < k + |m| then XorB(d[i], m[i - k]) else 0)
    {
      XorSame(a[i]);
    }
  }

  // ---------------------------------------------------------------- one that does

  function Four(c: bv32): bv32 { Eight(Eight(Eight(Eight(c)))) }

  lemma FourIs(c: bv32, n: nat)
    requires n >= 4
    ensures Run(c, Zeros(n)) == Run(Four(c), Zeros(n - 4))
  {
    hide Feed, Eight;
    ZeroNext(c, n);
    ZeroNext(Eight(c), n - 1);
    ZeroNext(Eight(Eight(c)), n - 2);
    ZeroNext(Eight(Eight(Eight(c))), n - 3);
  }

  lemma ZeroNext(c: bv32, n: nat)
    requires n > 0
    ensures Run(c, Zeros(n)) == Run(Eight(c), Zeros(n - 1))
  {
    EightIs(c);
    hide Feed, Eight;
    assert Zeros(n)[1..] == Zeros(n - 1);
  }

  function Sixteen(c: bv32): bv32 { Four(Four(Four(Four(c)))) }

  lemma SixteenIs(c: bv32, n: nat)
    requires n >= 16
    ensures Run(c, Zeros(n)) == Run(Sixteen(c), Zeros(n - 16))
  {
    hide Four, Run;
    FourIs(c, n);
    FourIs(Four(c), n - 4);
    FourIs(Four(Four(c)), n - 8);
    FourIs(Four(Four(Four(c))), n - 12);
  }

  lemma HopTo(c: bv32, r: bv32, n: nat)
    requires n >= 16 && Sixteen(c) == r
    ensures Run(c, Zeros(n)) == Run(r, Zeros(n - 16))
  {
    hide Run, Sixteen;
    SixteenIs(c, n);
  }

  lemma Hop1()
    ensures Sixteen(0xF7BD_37B2) == 0x8551_A779
  {
  }

  lemma Hop2()
    ensures Sixteen(0x8551_A779) == 0x581F_C017
  {
  }

  lemma Hop3()
    ensures Sixteen(0x581F_C017) == 0xFC0D_21AB
  {
  }

  lemma Hop4()
    ensures Sixteen(0xFC0D_21AB) == 0x17F9_C871
  {
  }

  lemma Hop5()
    ensures Sixteen(0x17F9_C871) == 0x34C5_66AC
  {
  }

  lemma LastHop(n: nat)
    requires n == 8
    ensures Run(0x34C5_66AC, Zeros(n)) == 0x1A5D
  {
    LastValue();
    hide Four, Feed;
    FourIs(0x34C5_66AC, 8);
    FourIs(Four(0x34C5_66AC), 4);
    assert Zeros(0) == [];
  }

  lemma LastValue()
    ensures Four(Four(0x34C5_66AC)) == 0x1A5D
  {
  }

  lemma PairValue()
    ensures Feed(Feed(0, 0xAC), 0x57) == 0xF7BD_37B2
  {
    FeedAs(0, 0xAC);
    FeedAs(Feed(0, 0xAC), 0x57);
    hide Feed, Shifts;
    assert Eight(0xAC) == 0xDF60_EFC3;
  }

  lemma PairRun(x: seq<byte>)
    requires x == [0xAC, 0x57]
    ensures Run(0, x) == 0xF7BD_37B2
  {
    PairValue();
    hide Feed, Run;
    RunSingle(0, 0xAC);
    RunSingle(Feed(0, 0xAC), 0x57);
    RunConcat(0, [0xAC], [0x57]);
    assert x == [0xAC] + [0x57];
  }

  /** Two bytes, and what 88 zeros behind them leave in the register. */
  lemma PairError(x: seq<byte>, n: nat)
    requires x == [0xAC, 0x57] && n == 88
    ensures Run(0, x + Zeros(n)) == 0x1A5D
  {
    hide Run, Sixteen;
    PairRun(x);
    RunConcat(0, x, Zeros(n));
    Hop1();
    Hop2();
    Hop3();
    Hop4();
    Hop5();
    HopTo(0xF7BD_37B2, 0x8551_A779, n);
    HopTo(0x8551_A779, 0x581F_C017, n - 16);
    HopTo(0x581F_C017, 0xFC0D_21AB, n - 32);
    HopTo(0xFC0D_21AB, 0x17F9_C871, n - 48);
    HopTo(0x17F9_C871, 0x34C5_66AC, n - 64);
    LastHop(n - 80);
  }

  /** `d` with the two bytes in front of the checksum and its two low bytes changed. */
  function Struck(d: seq<byte>): (m: seq<byte>)
    requires |d| >= HEADER
    ensures |m| == 4
  {
    var k := CRC_AT - 2;
    [XorB(d[k], 0xAC), XorB(d[k + 1], 0x57), XorB(d[k + 2], 0x5D), XorB(d[k + 3], 0x1A)]
  }

  lemma XorTwice(a: byte, b: byte)
    ensures XorB(a, XorB(a, b)) == b && XorB(a, a) == 0
  {
  }

  lemma LowWord()
    ensures Pack(0x5D, 0x1A, 0, 0) == 0x1A5D
  {
  }

  lemma StruckParts(d: seq<byte>, k: nat, m: seq<byte>)
    requires |d| >= HEADER && k == CRC_AT - 2 && m == Struck(d)
    ensures XorBytes(d[k..CRC_AT], m[..2]) == [0xAC, 0x57]
    ensures XorBytes(d[CRC_AT..CRC_AT + 4], Patched(d, k, m)[CRC_AT..CRC_AT + 4]) == [0x5D, 0x1A, 0, 0]
  {
    hide XorB;
    XorTwice(d[k], 0xAC);
    XorTwice(d[k + 1], 0x57);
    XorTwice(d[k + 2], 0x5D);
    XorTwice(d[k + 3], 0x1A);
    XorTwice(d[k + 4], 0);
    XorTwice(d[k + 5], 0);
    var e := Patched(d, k, m);
    assert e[k + 2] == m[2] && e[k + 3] == m[3] && e[k + 4] == d[k + 4] && e[k + 5] == d[k + 5];
  }

  /** The failing input: of every intact image that is a header alone, four adjacent bytes can change unnoticed. */
  lemma StruckEscapes(d: seq<byte>)
    requires Intact(d) && |d| == HEADER
    ensures Struck(d) != d[CRC_AT - 2..CRC_AT + 2] && Intact(Patched(d, CRC_AT - 2, Struck(d)))
  {
    var k, m := CRC_AT - 2, Struck(d);
    StruckParts(d, k, m);
    StruckDiffers(d);
    LowWord();
    hide Intact, Run, XorBytes, Patched, Struck, Pack;
    FrontEscapesIff(d, k, m);
    PairError(XorBytes(d[k..CRC_AT], m[..2]), |d| - CRC_AT);
  }

  lemma StruckDiffers(d: seq<byte>)
    requires |d| >= HEADER
    ensures Struck(d) != d[CRC_AT - 2..CRC_AT + 2]
  {
    hide XorB;
    XorTwice(d[CRC_AT - 2], 0xAC);
    assert d[CRC_AT - 2..CRC_AT + 2][0] == d[CRC_AT - 2];
  }
}
