/** The two checksums on constants: their check values, and the steps in a form a constant can be put through. */
module CrcCheck {
  import opened Bytes
  import opened Crc32
  import C16 = Crc16

  /** The digits from 1 to 9, on which catalogues of checksums give the check value. */
  const DIGITS: seq<byte> := [0x31, 0x32, 0x33, 0x34, 0x35, 0x36, 0x37, 0x38, 0x39]

  // ---------------------------------------------------------------- CRC-32

  /** Shift, spelled out for constants. */
  function One(c: bv32): bv32 { if c & 1 != 0 then 0xEDB8_8320 ^ (c >> 1) else c >> 1 }

  function Eight(c: bv32): bv32 { One(One(One(One(One(One(One(One(c)))))))) }

  lemma OneIs(c: bv32)
    ensures One(c) == Shift(c)
  {
    hide Shift, Feedback;
    ShiftStep(c);
  }

  lemma OnesAre(c: bv32, n: nat)
    requires n > 0
    ensures Shifts(c, n) == Shifts(One(c), n - 1)
  {
    hide Shift, One;
    OneIs(c);
  }

  lemma FeedZero(c: bv32)
    ensures Feed(c, 0) == Shifts(c, 8)
  {
    hide Shifts;
    XorNone(c);
  }

  lemma EightIs(c: bv32)
    ensures Feed(c, 0) == Eight(c)
  {
    hide One, Xor, Shift, Feed, Wide;
    FeedZero(c);
    var c1 := One(c);
    var c2 := One(c1);
    var c3 := One(c2);
    var c4 := One(c3);
    var c5 := One(c4);
    var c6 := One(c5);
    var c7 := One(c6);
    OnesAre(c, 8);
    OnesAre(c1, 7);
    OnesAre(c2, 6);
    OnesAre(c3, 5);
    OnesAre(c4, 4);
    OnesAre(c5, 3);
    OnesAre(c6, 2);
    OnesAre(c7, 1);
  }

  lemma FeedAs(c: bv32, b: byte)
    ensures Feed(c, b) == Eight(c ^ (b as bv32))
  {
    EightIs(Xor(c, Wide(b)));
    hide Eight, Shifts;
    XorNone(Xor(c, Wide(b)));
  }

  lemma NextTo(c: bv32, r: bv32, data: seq<byte>, k: nat)
    requires k < |data| && Eight(c ^ (data[k] as bv32)) == r
    ensures Run(c, data[k..]) == Run(r, data[k + 1..])
  {
    FeedAs(c, data[k]);
    hide Feed, Eight;
    assert data[k..][1..] == data[k + 1..];
  }

  lemma Digit1()
    ensures Eight(0xFFFF_FFFF ^ 0x31) == 0x7C23_1048
  {
  }

  lemma Digit2()
    ensures Eight(0x7C23_1048 ^ 0x32) == 0xB0AC_BB32
  {
  }

  lemma Digit3()
    ensures Eight(0xB0AC_BB32 ^ 0x33) == 0x77B7_9C2D
  {
  }

  lemma Digit4()
    ensures Eight(0x77B7_9C2D ^ 0x34) == 0x641C_1F5C
  {
  }

  lemma Digit5()
    ensures Eight(0x641C_1F5C ^ 0x35) == 0x340A_C5E3
  {
  }

  lemma Digit6()
    ensures Eight(0x340A_C5E3 ^ 0x36) == 0xF68D_2C9E
  {
  }

  lemma Digit7()
    ensures Eight(0xF68D_2C9E ^ 0x37) == 0xAFFC_9660
  {
  }

  lemma Digit8()
    ensures Eight(0xAFFC_9660 ^ 0x38) == 0x651F_2550
  {
  }

  lemma Digit9()
    ensures Eight(0x651F_2550 ^ 0x39) == 0x340B_C6D9
  {
  }

  /** The check value of CRC-32. */
  lemma CheckValue32(data: seq<byte>)
    requires data == DIGITS
    ensures Update(0, data) == 0xCBF4_3926
  {
    hide Run, Eight;
    Digit1();
    NextTo(0xFFFF_FFFF, 0x7C23_1048, data, 0);
    Digit2();
    NextTo(0x7C23_1048, 0xB0AC_BB32, data, 1);
    Digit3();
    NextTo(0xB0AC_BB32, 0x77B7_9C2D, data, 2);
    Digit4();
    NextTo(0x77B7_9C2D, 0x641C_1F5C, data, 3);
    Digit5();
    NextTo(0x641C_1F5C, 0x340A_C5E3, data, 4);
    Digit6();
    NextTo(0x340A_C5E3, 0xF68D_2C9E, data, 5);
    Digit7();
    NextTo(0xF68D_2C9E, 0xAFFC_9660, data, 6);
    Digit8();
    NextTo(0xAFFC_9660, 0x651F_2550, data, 7);
    Digit9();
    NextTo(0x651F_2550, 0x340B_C6D9, data, 8);
    RunNothing(0x340B_C6D9, data[9..]);
    assert data[0..] == data;
    LastNot();
  }

  lemma RunNothing(c: bv32, data: seq<byte>)
    requires data == []
    ensures Run(c, data) == c
  {
  }

  lemma LastNot()
    ensures Not(0) == 0xFFFF_FFFF && Not(0x340B_C6D9) == 0xCBF4_3926
  {
  }

  // ---------------------------------------------------------------- CRC-16

  function One16(c: bv16): bv16 { if c & 0x8000 != 0 then (c << 1) ^ 0x1021 else c << 1 }

  function Eight16(c: bv16): bv16 { One16(One16(One16(One16(One16(One16(One16(One16(c)))))))) }

  lemma OneIs16(c: bv16)
    ensures One16(c) == C16.Shift(c)
  {
    hide C16.Shift, C16.Feedback;
    C16.ShiftStep(c);
  }

  lemma OnesAre16(c: bv16, n: nat)
    requires n > 0
    ensures C16.Shifts(c, n) == C16.Shifts(One16(c), n - 1)
  {
    hide C16.Shift, One16;
    OneIs16(c);
  }

  lemma EightIs16(c: bv16)
    ensures C16.Shifts(c, 8) == Eight16(c)
  {
    hide One16, C16.Shift;
    var c1 := One16(c);
    var c2 := One16(c1);
    var c3 := One16(c2);
    var c4 := One16(c3);
    var c5 := One16(c4);
    var c6 := One16(c5);
    var c7 := One16(c6);
    OnesAre16(c, 8);
    OnesAre16(c1, 7);
    OnesAre16(c2, 6);
    OnesAre16(c3, 5);
    OnesAre16(c4, 4);
    OnesAre16(c5, 3);
    OnesAre16(c6, 2);
    OnesAre16(c7, 1);
  }

  lemma NextTo16(c: bv16, r: bv16, data: seq<byte>, k: nat)
    requires k < |data| && Eight16(c ^ ((data[k] as bv16) << 8)) == r
    ensures C16.Run(c, data[k..]) == C16.Run(r, data[k + 1..])
  {
    FeedAs16(c, data[k]);
    hide C16.Feed, Eight16;
    assert data[k..][1..] == data[k + 1..];
  }

  lemma FeedAs16(c: bv16, b: byte)
    ensures C16.Feed(c, b) == Eight16(c ^ ((b as bv16) << 8))
  {
    EightIs16(C16.Xor(c, C16.High(b)));
    hide Eight16, C16.Shifts;
  }

  lemma Digit1Of16()
    ensures Eight16(0xFFFF ^ (0x31 << 8)) == 0xC782
  {
  }

  lemma Digit2Of16()
    ensures Eight16(0xC782 ^ (0x32 << 8)) == 0x3DBA
  {
  }

  lemma Digit3Of16()
    ensures Eight16(0x3DBA ^ (0x33 << 8)) == 0x5BCE
  {
  }

  lemma Digit4Of16()
    ensures Eight16(0x5BCE ^ (0x34 << 8)) == 0x5349
  {
  }

  lemma Digit5Of16()
    ensures Eight16(0x5349 ^ (0x35 << 8)) == 0x4560
  {
  }

  lemma Digit6Of16()
    ensures Eight16(0x4560 ^ (0x36 << 8)) == 0x2EF4
  {
  }

  lemma Digit7Of16()
    ensures Eight16(0x2EF4 ^ (0x37 << 8)) == 0x7718
  {
  }

  lemma Digit8Of16()
    ensures Eight16(0x7718 ^ (0x38 << 8)) == 0xA12B
  {
  }

  lemma Digit9Of16()
    ensures Eight16(0xA12B ^ (0x39 << 8)) == 0x29B1
  {
  }

  lemma RunNothing16(c: bv16, data: seq<byte>)
    requires data == []
    ensures C16.Run(c, data) == c
  {
  }

  /** The check value of CRC-16/CCITT-FALSE. */
  lemma CheckValue16(data: seq<byte>)
    requires data == DIGITS
    ensures C16.Crc(data) == 0x29B1
  {
    hide C16.Run, Eight16;
    Digit1Of16();
    NextTo16(0xFFFF, 0xC782, data, 0);
    Digit2Of16();
    NextTo16(0xC782, 0x3DBA, data, 1);
    Digit3Of16();
    NextTo16(0x3DBA, 0x5BCE, data, 2);
    Digit4Of16();
    NextTo16(0x5BCE, 0x5349, data, 3);
    Digit5Of16();
    NextTo16(0x5349, 0x4560, data, 4);
    Digit6Of16();
    NextTo16(0x4560, 0x2EF4, data, 5);
    Digit7Of16();
    NextTo16(0x2EF4, 0x7718, data, 6);
    Digit8Of16();
    NextTo16(0x7718, 0xA12B, data, 7);
    Digit9Of16();
    NextTo16(0xA12B, 0x29B1, data, 8);
    RunNothing16(0x29B1, data[9..]);
    assert data[0..] == data;
  }
}
