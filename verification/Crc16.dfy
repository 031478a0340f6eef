/** CRC-16/CCITT-FALSE of link/link_frame.c and scripts/link_codec.py, and the errors it must catch. */
module Crc16 {
  import opened Bytes

  function Xor(a: bv16, b: bv16): bv16 { a ^ b }

  function Double(a: bv16): bv16 { a << 1 }

  /** A byte in the high half of the register. */
  function High(b: byte): bv16 { (b as bv16) << 8 }

  predicate Top(crc: bv16) { crc & 0x8000 != 0 }

  /** The polynomial x^16 + x^12 + x^5 + 1, fed back when the top bit leaves the register. */
  function Feedback(crc: bv16): bv16 {
    if Top(crc) then 0x1021 else 0
  }

  function Shift(crc: bv16): bv16 {
    Xor(Double(crc), Feedback(crc))
  }

  function Shifts(crc: bv16, n: nat): bv16
    decreases n
  {
    if n == 0 then crc else Shifts(Shift(crc), n - 1)
  }

  function Feed(crc: bv16, b: byte): bv16 {
    Shifts(Xor(crc, High(b)), 8)
  }

  /** The register after `data`, from the state `crc`. */
  function Run(crc: bv16, data: seq<byte>): bv16
    decreases |data|
  {
    if data == [] then crc else Run(Feed(crc, data[0]), data[1..])
  }

  const INIT: bv16 := 0xffff

  function Crc(data: seq<byte>): bv16 {
    Run(INIT, data)
  }

  lemma {:induction false} RunConcat(crc: bv16, a: seq<byte>, b: seq<byte>)
    ensures Run(crc, a + b) == Run(Run(crc, a), b)
    decreases |a|
  {
    hide Feed;
    if a == [] {
      assert a + b == b;
    } else {
      assert (a + b)[1..] == a[1..] + b;
      RunConcat(Feed(crc, a[0]), a[1..], b);
    }
  }

  lemma ShiftStep(crc: bv16)
    ensures Shift(crc) == if crc & 0x8000 != 0 then Xor(Double(crc), 0x1021) else Double(crc)
  {
    hide Xor, Double;
    XorNone(Double(crc));
  }

  lemma XorNone(a: bv16)
    ensures Xor(0, a) == a && Xor(a, 0) == a && Xor(a, a) == 0
  {
  }

  /** The nested loops compute the fold. */
  method LinkCrc16(data: seq<byte>) returns (crc: bv16)
    ensures crc == Crc(data)
  {
    hide Shift, Feed;
    crc := INIT;
    for i := 0 to |data|
      invariant Run(INIT, data) == Run(crc, data[i..])
    {
      assert data[i..][1..] == data[i + 1..];
      crc := FeedBits(crc, data[i]);
    }
  }

  /** The inner loop over the bits of one byte. */
  method FeedBits(before: bv16, b: byte) returns (crc: bv16)
    ensures crc == Feed(before, b)
  {
    hide Shift, Xor, Double, High;
    crc := Xor(before, High(b));
    for bit := 0 to 8
      invariant Shifts(crc, 8 - bit) == Feed(before, b)
    {
      ShiftStep(crc);
      if crc & 0x8000 != 0 {
        crc := Xor(Double(crc), 0x1021);
      } else {
        crc := Double(crc);
      }
    }
  }

  // ---------------------------------------------------------------- linear and one-to-one

  lemma XorSwap(a: bv16, b: bv16, c: bv16, d: bv16)
    ensures Xor(Xor(a, b), Xor(c, d)) == Xor(Xor(a, c), Xor(b, d))
  {
    hide Xor;
    XorAssoc(a, b, Xor(c, d));
    XorAssoc(b, c, d);
    XorComm(b, c);
    XorAssoc(c, b, d);
    XorAssoc(a, c, Xor(b, d));
  }

  lemma XorAssoc(a: bv16, b: bv16, c: bv16)
    ensures Xor(Xor(a, b), c) == Xor(a, Xor(b, c))
  {
  }

  lemma XorComm(a: bv16, b: bv16)
    ensures Xor(a, b) == Xor(b, a)
  {
  }

  lemma XorBack(a: bv16, b: bv16)
    ensures Xor(Xor(a, b), b) == a && Xor(a, Xor(a, b)) == b
  {
  }

  lemma XorZero(a: bv16, b: bv16)
    requires Xor(a, b) == 0
    ensures a == b
  {
  }

  lemma DoubleLinear(a: bv16, b: bv16)
    ensures Double(Xor(a, b)) == Xor(Double(a), Double(b))
  {
  }

  lemma HighLinear(a: byte, b: byte)
    ensures High(XorB(a, b)) == Xor(High(a), High(b))
  {
  }

  lemma TopBit(a: bv16, b: bv16)
    ensures Top(Xor(a, b)) <==> Top(a) != Top(b)
  {
  }

  lemma FeedbackLinear(a: bv16, b: bv16)
    ensures Feedback(Xor(a, b)) == Xor(Feedback(a), Feedback(b))
  {
    TopBit(a, b);
    XorNone(Feedback(a));
    XorNone(Feedback(b));
    hide Top, Xor;
  }

  lemma ShiftLinear(a: bv16, b: bv16)
    ensures Shift(Xor(a, b)) == Xor(Shift(a), Shift(b))
  {
    hide Xor, Double, Feedback;
    DoubleLinear(a, b);
    FeedbackLinear(a, b);
    XorSwap(Double(a), Double(b), Feedback(a), Feedback(b));
  }

  lemma {:induction false} ShiftsLinear(a: bv16, b: bv16, n: nat)
    ensures Shifts(Xor(a, b), n) == Xor(Shifts(a, n), Shifts(b, n))
    decreases n
  {
    hide Xor, Shift;
    if n > 0 {
      ShiftLinear(a, b);
      ShiftsLinear(Shift(a), Shift(b), n - 1);
    }
  }

  /** No register but zero shifts to zero: the polynomial has a constant term. */
  lemma ShiftKernel(a: bv16)
    requires Shift(a) == 0
    ensures a == 0
  {
  }

  lemma ShiftOneToOne(a: bv16, b: bv16)
    requires Shift(a) == Shift(b)
    ensures a == b
  {
    hide Xor, Shift;
    ShiftLinear(a, b);
    XorNone(Shift(b));
    ShiftKernel(Xor(a, b));
    XorZero(a, b);
  }

  lemma {:induction false} ShiftsOneToOne(a: bv16, b: bv16, n: nat)
    requires Shifts(a, n) == Shifts(b, n)
    ensures a == b
    decreases n
  {
    hide Shift;
    if n > 0 {
      ShiftsOneToOne(Shift(a), Shift(b), n - 1);
      ShiftOneToOne(a, b);
    }
  }

  lemma FeedLinear(x: bv16, y: bv16, a: byte, b: byte)
    ensures Feed(Xor(x, y), XorB(a, b)) == Xor(Feed(x, a), Feed(y, b))
  {
    hide Xor, High, Shifts, XorB;
    HighLinear(a, b);
    XorSwap(x, y, High(a), High(b));
    ShiftsLinear(Xor(x, High(a)), Xor(y, High(b)), 8);
  }

  /** The checksum is linear over GF(2) in register and data together. */
  lemma {:induction false} RunLinear(x: bv16, y: bv16, a: seq<byte>, b: seq<byte>)
    requires |a| == |b|
    ensures Run(Xor(x, y), XorBytes(a, b)) == Xor(Run(x, a), Run(y, b))
    decreases |a|
  {
    hide Xor, Feed, XorB;
    if a != [] {
      FeedLinear(x, y, a[0], b[0]);
      RunLinear(Feed(x, a[0]), Feed(y, b[0]), a[1..], b[1..]);
      assert XorBytes(a, b)[1..] == XorBytes(a[1..], b[1..]);
    }
  }

  lemma FeedOneToOne(x: bv16, y: bv16, b: byte)
    requires Feed(x, b) == Feed(y, b)
    ensures x == y
  {
    hide Xor, High, Shifts;
    ShiftsOneToOne(Xor(x, High(b)), Xor(y, High(b)), 8);
    XorBack(x, High(b));
    XorBack(y, High(b));
  }

  /** For fixed data the register is mapped one to one. */
  lemma {:induction false} RunOneToOne(x: bv16, y: bv16, data: seq<byte>)
    requires Run(x, data) == Run(y, data)
    ensures x == y
    decreases |data|
  {
    hide Feed;
    if data != [] {
      RunOneToOne(Feed(x, data[0]), Feed(y, data[0]), data[1..]);
      FeedOneToOne(x, y, data[0]);
    }
  }

  // ---------------------------------------------------------------- short errors

  lemma ClearShift(x: bv16)
    requires x & 0x8000 == 0
    ensures Shift(x) == Double(x)
  {
    hide Xor, Double;
    ShiftStep(x);
  }

  /** Two doublings of a register whose top two bits are clear. */
  lemma ClearShifts(x: bv16)
    requires x & 0xC000 == 0
    ensures Shifts(x, 2) == x << 2
  {
    assert x & 0x8000 == 0 && Double(x) & 0x8000 == 0;
    assert Double(Double(x)) == x << 2;
    hide Double, Shift;
    ClearShift(x);
    ClearShift(Double(x));
    assert Shifts(x, 2) == Shifts(Double(x), 1) == Shifts(Double(Double(x)), 0);
  }

  /** Eight shifts carry a low byte into the high half without feedback. */
  lemma LowRises(b: byte)
    ensures Shifts(b as bv16, 8) == High(b)
  {
    var x := b as bv16;
    RaisedClear(b);
    hide Shift, Shifts, High;
    ShiftsSplit(x, 2, 6);
    ShiftsSplit(x << 2, 2, 4);
    ShiftsSplit(x << 4, 2, 2);
    ClearShifts(x);
    ClearShifts(x << 2);
    ClearShifts(x << 4);
    ClearShifts(x << 6);
  }

  lemma RaisedClear(b: byte)
    ensures var x := b as bv16;
            && x & 0xC000 == 0 && (x << 2) & 0xC000 == 0 && (x << 4) & 0xC000 == 0 && (x << 6) & 0xC000 == 0
            && x << 2 << 2 == x << 4 && x << 4 << 2 == x << 6 && x << 6 << 2 == High(b)
  {
  }

  lemma {:induction false} ShiftsSplit(x: bv16, m: nat, n: nat)
    ensures Shifts(x, m + n) == Shifts(Shifts(x, m), n)
    decreases m
  {
    hide Shift;
    if m > 0 { ShiftsSplit(Shift(x), m - 1, n); }
  }

  /** Feeding two bytes is feeding their sixteen bits at once. */
  lemma TwoFeeds(crc: bv16, a: byte, b: byte)
    ensures Feed(Feed(crc, a), b) == Shifts(Xor(Xor(crc, High(a)), b as bv16), 16)
  {
    hide Xor, High, Shifts;
    var x := Xor(crc, High(a));
    ShiftsLinear(x, b as bv16, 8);
    LowRises(b);
    ShiftsSplit(Xor(x, b as bv16), 8, 8);
  }

  lemma WordOneToOne(a: byte, b: byte, c: byte, d: byte)
    requires Xor(High(a), b as bv16) == Xor(High(c), d as bv16)
    ensures a == c && b == d
  {
  }

  lemma TwoBytesDiffer(crc: bv16, a: byte, b: byte, c: byte, d: byte)
    requires Feed(Feed(crc, a), b) == Feed(Feed(crc, c), d)
    ensures a == c && b == d
  {
    hide Xor, High, Feed, Shifts;
    TwoFeeds(crc, a, b);
    TwoFeeds(crc, c, d);
    ShiftsOneToOne(Xor(Xor(crc, High(a)), b as bv16), Xor(Xor(crc, High(c)), d as bv16), 16);
    XorAssoc(crc, High(a), b as bv16);
    XorAssoc(crc, High(c), d as bv16);
    XorBack(crc, Xor(High(a), b as bv16));
    XorBack(crc, Xor(High(c), d as bv16));
    WordOneToOne(a, b, c, d);
  }

  lemma RunTwo(s: bv16, m: seq<byte>)
    requires |m| == 2
    ensures Run(s, m) == Feed(Feed(s, m[0]), m[1])
  {
    hide Feed;
    assert m[1..] == [m[1]];
    assert Run(Feed(s, m[0]), [m[1]]) == Run(Feed(Feed(s, m[0]), m[1]), []);
  }

  lemma WindowDiffers(s: bv16, m: seq<byte>, m': seq<byte>)
    requires 1 <= |m| == |m'| <= 2 && Run(s, m) == Run(s, m')
    ensures m == m'
  {
    hide Feed;
    if |m| == 1 {
      assert Run(s, m) == Feed(s, m[0]) && Run(s, m') == Feed(s, m'[0]);
      TwoBytesDiffer(s, m[0], 0, m'[0], 0);
    } else {
      RunTwo(s, m);
      RunTwo(s, m');
      TwoBytesDiffer(s, m[0], m[1], m'[0], m'[1]);
    }
  }

  /** Inputs that differ in one byte, or in two adjacent bytes, and nowhere else have different checksums. */
  lemma ShortErrorDetected(pre: seq<byte>, m: seq<byte>, m': seq<byte>, post: seq<byte>)
    requires 1 <= |m| == |m'| <= 2 && m != m'
    ensures Crc(pre + m + post) != Crc(pre + m' + post)
  {
    hide Run;
    var s := Run(INIT, pre);
    RunConcat(INIT, pre + m, post);
    RunConcat(INIT, pre, m);
    RunConcat(INIT, pre + m', post);
    RunConcat(INIT, pre, m');
    if Run(s, m) == Run(s, m') {
      WindowDiffers(s, m, m');
    } else if Run(Run(s, m), post) == Run(Run(s, m'), post) {
      RunOneToOne(Run(s, m), Run(s, m'), post);
    }
  }
}
