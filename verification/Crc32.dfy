/** CRC-32 of drivers/module.c and fs/ota.c: the table-driven loop against the bitwise definition. */
module Crc32 {
  import opened Bytes

  function Xor(a: bv32, b: bv32): bv32 { a ^ b }

  function Not(a: bv32): bv32 { !a }

  function Half(a: bv32): bv32 { a >> 1 }

  function Down(a: bv32): bv32 { a >> 8 }

  /** The bits above the low byte. */
  function Upper(a: bv32): bv32 { a & 0xFFFF_FF00 }

  /** The low byte, which picks the table entry. */
  function LowByte(a: bv32): byte { (a & 0xFF) as bv8 }

  function Wide(b: byte): bv32 { b as bv32 }

  predicate Low(c: bv32) { c & 1 != 0 }

  /** The reflected polynomial, fed back when a one leaves the register. */
  function Feedback(c: bv32): bv32 {
    if Low(c) then 0xEDB8_8320 else 0
  }

  function Shift(c: bv32): bv32 {
    Xor(Feedback(c), Half(c))
  }

  function Shifts(c: bv32, n: nat): bv32
    decreases n
  {
    if n == 0 then c else Shifts(Shift(c), n - 1)
  }

  /** The register after one byte, bit by bit (section 8 of RFC 1952). */
  function Feed(c: bv32, b: byte): bv32 {
    Shifts(Xor(c, Wide(b)), 8)
  }

  function Run(c: bv32, data: seq<byte>): bv32
    decreases |data|
  {
    if data == [] then c else Run(Feed(c, data[0]), data[1..])
  }

  /** crc32_update: the register is complemented before and after. */
  function Update(crc: bv32, data: seq<byte>): bv32 {
    Not(Run(Not(crc), data))
  }

  // ---------------------------------------------------------------- chaining

  lemma {:induction false} RunConcat(c: bv32, a: seq<byte>, b: seq<byte>)
    ensures Run(c, a + b) == Run(Run(c, a), b)
    decreases |a|
  {
    hide Feed;
    if a == [] {
      assert a + b == b;
    } else {
      assert (a + b)[1..] == a[1..] + b;
      RunConcat(Feed(c, a[0]), a[1..], b);
    }
  }

  lemma NotNot(a: bv32)
    ensures Not(Not(a)) == a
  {
  }

  /** The checksum of a concatenation is the checksum of the parts in turn. */
  lemma UpdateConcat(crc: bv32, a: seq<byte>, b: seq<byte>)
    ensures Update(crc, a + b) == Update(Update(crc, a), b)
  {
    hide Run, Not;
    RunConcat(Not(crc), a, b);
    NotNot(Run(Not(crc), a));
  }

  // ---------------------------------------------------------------- linear

  lemma XorSwap(a: bv32, b: bv32, c: bv32, d: bv32)
    ensures Xor(Xor(a, b), Xor(c, d)) == Xor(Xor(a, c), Xor(b, d))
  {
    hide Xor;
    XorAssoc(a, b, Xor(c, d));
    XorAssoc(b, c, d);
    XorComm(b, c);
    XorAssoc(c, b, d);
    XorAssoc(a, c, Xor(b, d));
  }

  lemma XorAssoc(a: bv32, b: bv32, c: bv32)
    ensures Xor(Xor(a, b), c) == Xor(a, Xor(b, c))
  {
  }

  lemma XorComm(a: bv32, b: bv32)
    ensures Xor(a, b) == Xor(b, a)
  {
  }

  lemma XorNone(a: bv32)
    ensures Xor(0, a) == a && Xor(a, 0) == a && Xor(a, a) == 0
  {
  }

  lemma XorBack(a: bv32, b: bv32)
    ensures Xor(Xor(a, b), b) == a && Xor(a, Xor(a, b)) == b
  {
  }

  lemma XorZero(a: bv32, b: bv32)
    requires Xor(a, b) == 0
    ensures a == b
  {
  }

  lemma HalfLinear(a: bv32, b: bv32)
    ensures Half(Xor(a, b)) == Xor(Half(a), Half(b))
  {
  }

  lemma LowBit(a: bv32, b: bv32)
    ensures Low(Xor(a, b)) <==> Low(a) != Low(b)
  {
  }

  lemma FeedbackLinear(a: bv32, b: bv32)
    ensures Feedback(Xor(a, b)) == Xor(Feedback(a), Feedback(b))
  {
    LowBit(a, b);
    XorNone(Feedback(a));
    XorNone(Feedback(b));
    hide Low, Xor;
  }

  lemma ShiftLinear(a: bv32, b: bv32)
    ensures Shift(Xor(a, b)) == Xor(Shift(a), Shift(b))
  {
    hide Xor, Half, Feedback;
    HalfLinear(a, b);
    FeedbackLinear(a, b);
    XorSwap(Feedback(a), Feedback(b), Half(a), Half(b));
  }

  lemma {:induction false} ShiftsLinear(a: bv32, b: bv32, n: nat)
    ensures Shifts(Xor(a, b), n) == Xor(Shifts(a, n), Shifts(b, n))
    decreases n
  {
    hide Xor, Shift;
    if n > 0 {
      ShiftLinear(a, b);
      ShiftsLinear(Shift(a), Shift(b), n - 1);
    }
  }

  // ---------------------------------------------------------------- eight bits at once

  lemma ClearShift(x: bv32)
    requires x & 1 == 0
    ensures Shift(x) == Half(x)
  {
    hide Xor, Half;
    XorNone(Half(x));
  }

  lemma {:induction false} ShiftsSplit(x: bv32, m: nat, n: nat)
    ensures Shifts(x, m + n) == Shifts(Shifts(x, m), n)
    decreases m
  {
    hide Shift;
    if m > 0 { ShiftsSplit(Shift(x), m - 1, n); }
  }

  function Quarter(x: bv32): bv32 { x >> 2 }

  predicate Clear(x: bv32) { x & 3 == 0 }

  /** Two shifts of a register whose low two bits are clear. */
  lemma ClearShifts(x: bv32)
    requires Clear(x)
    ensures Shifts(x, 2) == Quarter(x)
  {
    ClearTwo(x);
    hide Half, Shift, Quarter;
    ClearShift(x);
    ClearShift(Half(x));
    assert Shifts(x, 2) == Shifts(Half(x), 1) == Shifts(Half(Half(x)), 0);
  }

  lemma ClearTwo(x: bv32)
    requires Clear(x)
    ensures x & 1 == 0 && Half(x) & 1 == 0 && Half(Half(x)) == Quarter(x)
  {
  }

  lemma UpperClear(a: bv32)
    ensures var x := Upper(a);
            && Clear(x) && Clear(Quarter(x)) && Clear(Quarter(Quarter(x))) && Clear(Quarter(Quarter(Quarter(x))))
            && Quarter(Quarter(Quarter(Quarter(x)))) == Down(a)
  {
  }

  /** The upper bits move down a byte without feedback. */
  lemma UpperFalls(a: bv32)
    ensures Shifts(Upper(a), 8) == Down(a)
  {
    hide Shift, Shifts, Upper, Down, Quarter, Clear;
    UpperClear(a);
    var x0 := Upper(a);
    var x1 := Quarter(x0);
    var x2 := Quarter(x1);
    var x3 := Quarter(x2);
    ShiftsSplit(x0, 2, 6);
    ShiftsSplit(x1, 2, 4);
    ShiftsSplit(x2, 2, 2);
    ClearShifts(x0);
    ClearShifts(x1);
    ClearShifts(x2);
    ClearShifts(x3);
  }

  lemma Halves(a: bv32)
    ensures a == Xor(Wide(LowByte(a)), Upper(a))
  {
  }

  lemma DownFeed(c: bv32, b: byte)
    ensures Down(Xor(c, Wide(b))) == Down(c)
  {
  }

  /** The entry the table holds for a byte. */
  function Entry(b: byte): bv32 { Shifts(Wide(b), 8) }

  /** One table look-up does what eight shifts do. */
  lemma TableStep(c: bv32, b: byte)
    ensures Feed(c, b) == Xor(Entry(LowByte(Xor(c, Wide(b)))), Down(c))
  {
    hide Xor, Shifts, Upper, Down, Wide, LowByte;
    var x := Xor(c, Wide(b));
    Halves(x);
    ShiftsLinear(Wide(LowByte(x)), Upper(x), 8);
    UpperFalls(x);
    DownFeed(c, b);
  }

  // ---------------------------------------------------------------- the table and the loop

  class Table {
    const entries: array<bv32>
    var ready: bool

    ghost predicate Valid()
      reads this, entries
    {
      entries.Length == 256 && (ready ==> forall k :: 0 <= k < 256 ==> entries[k] == Entry(Byte(k)))
    }

    constructor ()
      ensures Valid() && fresh(entries) && !ready
    {
      entries := new bv32[256](i => 0);
      ready := false;
    }

    /** crc32_init_table */
    method Init()
      requires Valid()
      modifies this, entries
      ensures Valid() && ready
    {
      hide Entry;
      if ready { return; }
      for i := 0 to 256
        invariant !ready && forall k :: 0 <= k < i ==> entries[k] == Entry(Byte(k))
      {
        var c := EntryBits(Byte(i));
        entries[i] := c;
      }
      ready := true;
    }

    /** crc32_update, ota_crc32_update */
    method UpdateWith(before: bv32, data: seq<byte>) returns (crc: bv32)
      requires Valid()
      modifies this, entries
      ensures Valid() && crc == Update(before, data)
    {
      hide Entry, Feed, Not, LowByte, Xor, Wide, Down, Byte, Nat;
      Init();
      crc := Not(before);
      for i := 0 to |data|
        invariant Valid() && ready && Run(Not(before), data) == Run(crc, data[i..])
      {
        assert data[i..][1..] == data[i + 1..];
        TableStep(crc, data[i]);
        var index := LowByte(Xor(crc, Wide(data[i])));
        ByteOfNat(index);
        crc := Xor(entries[Nat(index)], Down(crc));
      }
      crc := Not(crc);
    }
  }

  lemma ShiftStep(c: bv32)
    ensures Shift(c) == if c & 1 != 0 then Xor(0xEDB8_8320, Half(c)) else Half(c)
  {
    hide Xor, Half;
    XorNone(Half(c));
  }

  /** The inner loop over the bits of a table index. */
  method EntryBits(b: byte) returns (c: bv32)
    ensures c == Entry(b)
  {
    hide Shift, Xor, Half, Wide;
    c := Wide(b);
    for j := 0 to 8
      invariant Shifts(c, 8 - j) == Entry(b)
    {
      ShiftStep(c);
      if c & 1 != 0 {
        c := Xor(0xEDB8_8320, Half(c));
      } else {
        c := Half(c);
      }
    }
  }

  // ---------------------------------------------------------------- one-to-one

  lemma ShiftKernel(a: bv32)
    requires Shift(a) == 0
    ensures a == 0
  {
  }

  lemma ShiftOneToOne(a: bv32, b: bv32)
    requires Shift(a) == Shift(b)
    ensures a == b
  {
    hide Xor, Shift;
    ShiftLinear(a, b);
    XorNone(Shift(b));
    ShiftKernel(Xor(a, b));
    XorZero(a, b);
  }

  lemma {:induction false} ShiftsOneToOne(a: bv32, b: bv32, n: nat)
    requires Shifts(a, n) == Shifts(b, n)
    ensures a == b
    decreases n
  {
    hide Shift;
    if n > 0 {
      ShiftsOneToOne(Shift(a), Shift(b), n - 1);
      ShiftOneToOne(a, b);
    }
  }

  lemma WideOneToOne(a: byte, b: byte)
    requires Wide(a) == Wide(b)
    ensures a == b
  {
  }

  /** Feeding is one-to-one in the register, and in the byte. */
  lemma FeedOneToOne(x: bv32, y: bv32, a: byte, b: byte)
    requires Feed(x, a) == Feed(y, b) && (x == y || a == b)
    ensures x == y && a == b
  {
    hide Xor, Wide, Shifts;
    ShiftsOneToOne(Xor(x, Wide(a)), Xor(y, Wide(b)), 8);
    XorBack(x, Wide(a));
    XorBack(y, Wide(b));
    if x == y { WideOneToOne(a, b); }
  }

  lemma {:induction false} RunOneToOne(x: bv32, y: bv32, data: seq<byte>)
    requires Run(x, data) == Run(y, data)
    ensures x == y
    decreases |data|
  {
    hide Feed;
    if data != [] {
      RunOneToOne(Feed(x, data[0]), Feed(y, data[0]), data[1..]);
      FeedOneToOne(x, y, data[0], data[0]);
    }
  }

  // ---------------------------------------------------------------- four bytes at once

  function Up(x: bv32): bv32 { x << 8 }

  /** The top byte is clear. */
  predicate Small(x: bv32) { x & 0xFF00_0000 == 0 }

  lemma UpFalls(x: bv32)
    requires Small(x)
    ensures Shifts(Up(x), 8) == x
  {
    UpUpper(x);
    hide Shifts, Upper, Down, Up;
    UpperFalls(Up(x));
  }

  lemma UpUpper(x: bv32)
    requires Small(x)
    ensures Upper(Up(x)) == Up(x) && Down(Up(x)) == x
  {
  }

  /** A byte fed after eight shifts could have been put in above them. */
  lemma FeedAbove(c: bv32, x: bv32)
    requires Small(x)
    ensures Xor(Shifts(c, 8), x) == Shifts(Xor(c, Up(x)), 8)
  {
    UpFalls(x);
    hide Xor, Shifts, Up;
    ShiftsLinear(c, Up(x), 8);
  }

  /** Up to four bytes as one word, the first byte lowest. */
  function Word(m: seq<byte>): bv32
    requires |m| == 4
  {
    Xor(Wide(m[0]), Up(Xor(Wide(m[1]), Up(Xor(Wide(m[2]), Up(Wide(m[3])))))))
  }

  lemma WordOneToOne(m: seq<byte>, m': seq<byte>)
    requires |m| == |m'| == 4 && Word(m) == Word(m')
    ensures m == m'
  {
    WordSmall(m[1], m[2], m[3]);
    WordSmall(m'[1], m'[2], m'[3]);
    hide Xor, Wide, Up, Small;
    var x3, x3' := Wide(m[3]), Wide(m'[3]);
    var x2, x2' := Xor(Wide(m[2]), Up(x3)), Xor(Wide(m'[2]), Up(x3'));
    var x1, x1' := Xor(Wide(m[1]), Up(x2)), Xor(Wide(m'[1]), Up(x2'));
    Unstack(m[0], x1, m'[0], x1');
    Unstack(m[1], x2, m'[1], x2');
    Unstack(m[2], x3, m'[2], x3');
    WideOneToOne(m[3], m'[3]);
  }

  /** A byte below a word of 24 bits can be told apart from it. */
  lemma Unstack(a: byte, x: bv32, b: byte, y: bv32)
    requires Small(x) && Small(y) && Xor(Wide(a), Up(x)) == Xor(Wide(b), Up(y))
    ensures a == b && x == y
  {
    LowPart(a, x);
    LowPart(b, y);
    hide Xor, Wide, Up, Small, LowByte, Down;
  }

  lemma LowPart(a: byte, x: bv32)
    requires Small(x)
    ensures LowByte(Xor(Wide(a), Up(x))) == a && Down(Xor(Wide(a), Up(x))) == x
  {
  }

  lemma WordSmall(b: byte, c: byte, d: byte)
    ensures Small(Wide(d)) && Small(Xor(Wide(c), Up(Wide(d)))) && Small(Xor(Wide(b), Up(Xor(Wide(c), Up(Wide(d))))))
  {
  }

  /** Feeding a byte and then a word is feeding both at once. */
  lemma FeedThen(c: bv32, a: byte, x: bv32, n: nat)
    requires Small(x)
    ensures Shifts(Xor(Feed(c, a), x), n) == Shifts(Xor(c, Xor(Wide(a), Up(x))), 8 + n)
  {
    hide Xor, Shifts, Up, Wide;
    FeedAbove(Xor(c, Wide(a)), x);
    XorAssoc(c, Wide(a), Up(x));
    ShiftsSplit(Xor(c, Xor(Wide(a), Up(x))), 8, n);
  }

  /** Feeding four bytes is feeding their 32 bits at once. */
  lemma FourFeeds(c: bv32, m: seq<byte>)
    requires |m| == 4
    ensures Run(c, m) == Shifts(Xor(c, Word(m)), 32)
  {
    hide Xor, Shifts, Up, Wide, Small, Run;
    var c1 := Feed(c, m[0]);
    var c2 := Feed(c1, m[1]);
    var c3 := Feed(c2, m[2]);
    RunFour(c, m);
    var x3 := Wide(m[3]);
    var x2 := Xor(Wide(m[2]), Up(x3));
    var x1 := Xor(Wide(m[1]), Up(x2));
    WordSmall(m[1], m[2], m[3]);
    assert Feed(c3, m[3]) == Shifts(Xor(c3, x3), 8);
    hide Feed;
    FeedThen(c2, m[2], x3, 8);
    FeedThen(c1, m[1], x2, 16);
    FeedThen(c, m[0], x1, 24);
  }

  lemma RunFour(c: bv32, m: seq<byte>)
    requires |m| == 4
    ensures Run(c, m) == Feed(Feed(Feed(Feed(c, m[0]), m[1]), m[2]), m[3])
  {
    hide Feed;
    assert m == [m[0]] + [m[1]] + [m[2]] + [m[3]];
    RunConcat(c, [m[0]] + [m[1]] + [m[2]], [m[3]]);
    RunConcat(c, [m[0]] + [m[1]], [m[2]]);
    RunConcat(c, [m[0]], [m[1]]);
    RunSingle(c, m[0]);
    RunSingle(Feed(c, m[0]), m[1]);
    RunSingle(Feed(Feed(c, m[0]), m[1]), m[2]);
    RunSingle(Feed(Feed(Feed(c, m[0]), m[1]), m[2]), m[3]);
  }

  lemma RunSingle(c: bv32, b: byte)
    ensures Run(c, [b]) == Feed(c, b)
  {
    hide Feed;
    assert Run(Feed(c, b), [b][1..]) == Feed(c, b);
  }

  lemma FourDiffer(c: bv32, m: seq<byte>, m': seq<byte>)
    requires |m| == |m'| == 4 && Run(c, m) == Run(c, m')
    ensures m == m'
  {
    hide Run, Shifts, Xor, Word;
    FourFeeds(c, m);
    FourFeeds(c, m');
    ShiftsOneToOne(Xor(c, Word(m)), Xor(c, Word(m')), 32);
    XorBack(c, Word(m));
    XorBack(c, Word(m'));
    WordOneToOne(m, m');
  }

  lemma WindowDiffers(c: bv32, m: seq<byte>, m': seq<byte>)
    requires |m| == |m'| <= 4 && Run(c, m) == Run(c, m')
    ensures m == m'
  {
    hide Run;
    var z := Zeros(4 - |m|);
    RunConcat(c, m, z);
    RunConcat(c, m', z);
    FourDiffer(c, m + z, m' + z);
    assert m == (m + z)[..|m|] && m' == (m' + z)[..|m|];
  }

  /** Inputs that differ only within four adjacent bytes have different checksums. */
  lemma ShortErrorDetected(crc: bv32, pre: seq<byte>, m: seq<byte>, m': seq<byte>, post: seq<byte>)
    requires |m| == |m'| <= 4 && m != m'
    ensures Update(crc, pre + m + post) != Update(crc, pre + m' + post)
  {
    hide Run, Not;
    var s := Run(Not(crc), pre);
    RunConcat(Not(crc), pre + m, post);
    RunConcat(Not(crc), pre + m', post);
    RunConcat(Not(crc), pre, m);
    RunConcat(Not(crc), pre, m');
    NotNot(Run(Not(crc), pre + m + post));
    NotNot(Run(Not(crc), pre + m' + post));
    if Run(s, m) == Run(s, m') {
      WindowDiffers(s, m, m');
    } else if Run(Run(s, m), post) == Run(Run(s, m'), post) {
      RunOneToOne(Run(s, m), Run(s, m'), post);
    }
  }

  // ---------------------------------------------------------------- errors

  lemma WideLinear(a: byte, b: byte)
    ensures Wide(XorB(a, b)) == Xor(Wide(a), Wide(b))
  {
  }

  lemma FeedLinear(x: bv32, y: bv32, a: byte, b: byte)
    ensures Feed(Xor(x, y), XorB(a, b)) == Xor(Feed(x, a), Feed(y, b))
  {
    hide Xor, Wide, Shifts, XorB;
    WideLinear(a, b);
    XorSwap(x, y, Wide(a), Wide(b));
    ShiftsLinear(Xor(x, Wide(a)), Xor(y, Wide(b)), 8);
  }

  lemma {:induction false} RunLinear(x: bv32, y: bv32, a: seq<byte>, b: seq<byte>)
    requires |a| == |b|
    ensures Run(Xor(x, y), XorBytes(a, b)) == Xor(Run(x, a), Run(y, b))
    decreases |a|
  {
    hide Xor, Feed, XorB;
    if a != [] {
      FeedLinear(x, y, a[0], b[0]);
      RunLinear(Feed(x, a[0]), Feed(y, b[0]), a[1..], b[1..]);
      assert XorBytes(a, b)[1..] == XorBytes(a[1..], b[1..]);
    }
  }

  lemma NotLinear(a: bv32, b: bv32)
    ensures Xor(Not(a), Not(b)) == Xor(a, b)
  {
  }

  /** The checksums of two inputs differ by what the error alone leaves in an empty register. */
  lemma UpdateError(crc: bv32, a: seq<byte>, b: seq<byte>)
    requires |a| == |b|
    ensures Xor(Update(crc, a), Update(crc, b)) == Run(0, XorBytes(a, b))
  {
    hide Xor, Not, Run, XorBytes;
    var c := Not(crc);
    NotLinear(Run(c, a), Run(c, b));
    RunLinear(c, c, a, b);
    XorNone(c);
  }

  lemma {:induction false} RunZeros(n: nat)
    ensures Run(0, Zeros(n)) == 0
  {
    if n > 0 {
      FeedNothing();
      assert Zeros(n)[1..] == Zeros(n - 1);
      RunZeros(n - 1);
    }
  }

  lemma FeedNothing()
    ensures Feed(0, 0) == 0
  {
    hide Xor, Shifts, XorB;
    FeedLinear(0, 0, 0, 0);
    XorNone(Feed(0, 0));
    XorNone(0);
    assert XorB(0, 0) == 0 by { XorSame(0); }
  }

  lemma XorSame(b: byte)
    ensures XorB(b, b) == 0
  {
  }
}
