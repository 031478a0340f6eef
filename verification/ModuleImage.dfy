/** Module images (drivers/module.c): building, checking and loading them. */
module ModuleImage {
  import opened Basics
  import opened Bytes
  import opened Crc32

  const MAGIC := 0x4D4F_4441
  const VERSION := 1
  const MAX_SYMBOLS := 64
  const MAX_DEPS := 16
  const NAME_MAX := 32
  const HEADER := 100
  const SYMBOL := 40
  const DEP := 49
  const CRC_AT := 12

  // ---------------------------------------------------------------- 32-bit words as bytes

  function B0(w: bv32): byte { (w & 0xFF) as byte }
  function B1(w: bv32): byte { ((w >> 8) & 0xFF) as byte }
  function B2(w: bv32): byte { ((w >> 16) & 0xFF) as byte }
  function B3(w: bv32): byte { ((w >> 24) & 0xFF) as byte }

  function Pack(a: byte, b: byte, c: byte, d: byte): bv32 {
    (a as bv32) | ((b as bv32) << 8) | ((c as bv32) << 16) | ((d as bv32) << 24)
  }

  lemma PackUnpack(w: bv32)
    ensures Pack(B0(w), B1(w), B2(w), B3(w)) == w
  {
  }

  lemma UnpackPack(a: byte, b: byte, c: byte, d: byte)
    ensures var w := Pack(a, b, c, d); B0(w) == a && B1(w) == b && B2(w) == c && B3(w) == d
  {
  }

  function WordBytes(w: bv32): (r: seq<byte>)
    ensures |r| == 4
  {
    [B0(w), B1(w), B2(w), B3(w)]
  }

  function WordOf(s: seq<byte>): bv32
    requires |s| == 4
  {
    Pack(s[0], s[1], s[2], s[3])
  }

  lemma WordRoundTrip(w: bv32)
    ensures WordOf(WordBytes(w)) == w
  {
    hide Pack, B0, B1, B2, B3;
    PackUnpack(w);
  }

  lemma WordOneToOne(s: seq<byte>, t: seq<byte>)
    requires |s| == |t| == 4 && WordOf(s) == WordOf(t)
    ensures s == t
  {
    hide Pack, B0, B1, B2, B3;
    UnpackPack(s[0], s[1], s[2], s[3]);
    UnpackPack(t[0], t[1], t[2], t[3]);
  }

  // ---------------------------------------------------------------- layout

  /**
   * What ardmod_create is given. `symbols` and `deps` are the bytes of the arrays of structs, or None for a null
   * pointer; `name` holds the characters before the terminating null.
   */
  datatype Source = Source(name: seq<byte>, kind: nat, code: seq<byte>, symbols: Option<seq<byte>>, symbolCount: nat,
                           deps: Option<seq<byte>>, depCount: nat)

  predicate Shaped(s: Source) {
    && s.kind < U32 && 0 !in s.name
    && (s.symbols.Some? ==> |s.symbols.value| == SYMBOL * s.symbolCount)
    && (s.deps.Some? ==> |s.deps.value| == DEP * s.depCount)
  }

  predicate Fits(s: Source) {
    s.symbolCount <= MAX_SYMBOLS && s.depCount <= MAX_DEPS
  }

  function SymbolBytes(s: Source): (r: seq<byte>)
    requires Shaped(s)
    ensures |r| == SYMBOL * s.symbolCount
  {
    if s.symbols.Some? then s.symbols.value else Zeros(SYMBOL * s.symbolCount)
  }

  function DepBytes(s: Source): (r: seq<byte>)
    requires Shaped(s)
    ensures |r| == DEP * s.depCount
  {
    if s.deps.Some? then s.deps.value else Zeros(DEP * s.depCount)
  }

  /** A string cut to `n - 1` characters and filled up with nulls to `n`. */
  function Padded(s: seq<byte>, n: nat): (r: seq<byte>)
    requires n > 0
    ensures |r| == n
  {
    var k := if |s| < n then |s| else n - 1;
    s[..k] + Zeros(n - k)
  }

  const RELEASE: seq<byte> := [0x31, 0x2E, 0x30, 0x2E, 0x30]

  function CodeAt(s: Source): nat { HEADER + SYMBOL * s.symbolCount + DEP * s.depCount }

  function Total(s: Source): nat { CodeAt(s) + |s.code| }

  /** Magic number, version, flags and size, in front of the checksum. */
  function Lead(s: Source): (r: seq<byte>)
    ensures |r| == CRC_AT
  {
    Little(MAGIC, 4) + Little(VERSION, 2) + Zeros(2) + Little(Total(s), 4)
  }

  function Strings(s: Source): (r: seq<byte>)
    ensures |r| == 48
  {
    Padded(s.name, NAME_MAX) + Padded(RELEASE, 16)
  }

  /** Type, load address, entry point, two sizes, the counts and the two offsets. */
  function Numbers(s: Source): (r: seq<byte>)
    ensures |r| == 36
  {
    Little(s.kind, 4) + Zeros(16) + Little(s.symbolCount, 4) + Little(s.depCount, 4) + Little(HEADER, 4)
      + Little(CodeAt(s), 4)
  }

  function Body(s: Source): (r: seq<byte>)
    requires Shaped(s)
    ensures |r| == Total(s) - HEADER
  {
    SymbolBytes(s) + DepBytes(s) + s.code
  }

  function Laid(s: Source, crc: seq<byte>): (r: seq<byte>)
    requires Shaped(s) && |crc| == 4
    ensures |r| == Total(s)
  {
    Lead(s) + crc + Strings(s) + Numbers(s) + Body(s)
  }

  /** The image: its checksum is taken with the checksum field zero. */
  function Image(s: Source): (r: seq<byte>)
    requires Shaped(s)
    ensures |r| == Total(s) >= HEADER
  {
    Laid(s, WordBytes(Update(0, Laid(s, Zeros(4)))))
  }

  // ---------------------------------------------------------------- checking

  function Zeroed(d: seq<byte>): (r: seq<byte>)
    requires |d| >= HEADER
    ensures |r| == |d|
  {
    d[..CRC_AT] + Zeros(4) + d[CRC_AT + 4..]
  }

  /** ardmod_verify_crc */
  predicate Intact(d: seq<byte>) {
    |d| >= HEADER && Update(0, Zeroed(d)) == WordOf(d[CRC_AT..CRC_AT + 4])
  }

  lemma LaidParts(s: Source, crc: seq<byte>)
    requires Shaped(s) && |crc| == 4
    ensures var d := Laid(s, crc);
            && d[..CRC_AT] == Lead(s) && d[CRC_AT..CRC_AT + 4] == crc
            && d[CRC_AT + 4..] == Strings(s) + Numbers(s) + Body(s)
  {
    hide Lead, Strings, Numbers, Body;
  }

  lemma LeadSlices(s: Source, l: seq<byte>)
    requires l == Lead(s)
    ensures l[..4] == Little(MAGIC, 4) && l[4..6] == Little(VERSION, 2) && l[6..8] == Zeros(2)
    ensures l[8..12] == Little(Total(s), 4)
  {
    hide Little, Zeros;
  }

  lemma StringSlices(s: Source, l: seq<byte>)
    requires l == Strings(s)
    ensures l[..32] == Padded(s.name, 32) && l[32..48] == Padded(RELEASE, 16)
  {
    hide Padded;
  }

  /** A string field holds the string as far as it fits before a last null, and nulls behind it. */
  lemma PaddedIs(s: seq<byte>, n: nat, i: nat)
    requires i < n
    ensures Padded(s, n)[i] == if i < |s| && i < n - 1 then s[i] else 0
  {
  }

  /** The parts of an image, by offset. */
  ghost predicate LaidOut(s: Source, d: seq<byte>)
    requires Shaped(s) && |d| == Total(s)
  {
    var m := 100 + 40 * s.symbolCount + 49 * s.depCount;
    && |d| == m + |s.code| && d[..4] == Little(0x4D4F_4441, 4) && d[4..6] == Little(1, 2) && d[6..8] == Zeros(2)
    && d[8..12] == Little(|d|, 4) && d[16..48] == Padded(s.name, 32) && d[48..64] == Padded(RELEASE, 16)
    && d[100..m] == SymbolBytes(s) + DepBytes(s) && d[m..] == s.code
  }

  /** Where an image has what: magic, version, size, strings, then symbols, dependencies and code. */
  lemma ImageLayout(s: Source)
    requires Shaped(s)
    ensures LaidOut(s, Image(s))
  {
    var crc := WordBytes(Update(0, Laid(s, Zeros(4))));
    var d, l, t, u, b := Image(s), Lead(s), Strings(s), Numbers(s), Body(s);
    LaidParts(s, crc);
    LeadSlices(s, l);
    StringSlices(s, t);
    hide Image, Laid, Lead, Strings, Numbers, Body, Little, Zeros, Padded, Update, WordBytes;
    assert d[..12] == l && d[16..] == t + u + b;
    Slices(d, l, t, u, b);
    BodyParts(s, b);
  }

  lemma BodyParts(s: Source, b: seq<byte>)
    requires Shaped(s) && b == Body(s)
    ensures var m := 40 * s.symbolCount + 49 * s.depCount;
            |b| == m + |s.code| && b[..m] == SymbolBytes(s) + DepBytes(s) && b[m..] == s.code
  {
    hide SymbolBytes, DepBytes;
  }

  lemma Slices(d: seq<byte>, l: seq<byte>, t: seq<byte>, u: seq<byte>, b: seq<byte>)
    requires |d| >= 100 && |l| == 12 && |t| == 48 && |u| == 36 && d[..12] == l && d[16..] == t + u + b
    ensures d[..4] == l[..4] && d[4..6] == l[4..6] && d[6..8] == l[6..8] && d[8..12] == l[8..12]
    ensures d[16..48] == t[..32] && d[48..64] == t[32..48] && d[100..] == b
    ensures forall m :: 0 <= m <= |b| ==> d[100..100 + m] == b[..m] && d[100 + m..] == b[m..]
  {
    assert d[16..][..32] == t[..32] && d[16..][32..48] == t[32..48] && d[16..][84..] == b;
    assert d[100..] == d[16..][84..];
    assert forall m :: 0 <= m <= |b| ==> d[100..100 + m] == d[100..][..m] && d[100 + m..] == d[100..][m..];
  }

  /** Every image that ardmod_create makes passes ardmod_verify_crc. */
  lemma ImageIntact(s: Source)
    requires Shaped(s)
    ensures Intact(Image(s))
  {
    hide Lead, Strings, Numbers, Body, Laid, Update, WordBytes, WordOf;
    var blank := Laid(s, Zeros(4));
    var crc := Update(0, blank);
    LaidParts(s, WordBytes(crc));
    LaidParts(s, Zeros(4));
    WordRoundTrip(crc);
    assert Zeroed(Image(s)) == blank;
  }

  /** `d` with the bytes from `k` on replaced by `m`. */
  function Patched(d: seq<byte>, k: nat, m: seq<byte>): (r: seq<byte>)
    requires k + |m| <= |d|
    ensures |r| == |d|
  {
    d[..k] + m + d[k + |m|..]
  }

  lemma PatchOutside(d: seq<byte>, k: nat, m: seq<byte>)
    requires |d| >= HEADER && k + |m| <= |d| && (k + |m| <= CRC_AT || CRC_AT + 4 <= k)
    ensures Zeroed(Patched(d, k, m)) == Zeroed(d)[..k] + m + Zeroed(d)[k + |m|..]
    ensures Zeroed(d) == Zeroed(d)[..k] + d[k..k + |m|] + Zeroed(d)[k + |m|..]
    ensures Patched(d, k, m)[CRC_AT..CRC_AT + 4] == d[CRC_AT..CRC_AT + 4]
  {
  }

  lemma PatchInside(d: seq<byte>, k: nat, m: seq<byte>)
    requires |d| >= HEADER && CRC_AT <= k && k + |m| <= CRC_AT + 4 && m != d[k..k + |m|]
    ensures Zeroed(Patched(d, k, m)) == Zeroed(d)
    ensures Patched(d, k, m)[CRC_AT..CRC_AT + 4] != d[CRC_AT..CRC_AT + 4]
  {
    var e := Patched(d, k, m);
    var i :| 0 <= i < |m| && m[i] != d[k..k + |m|][i];
    assert e[CRC_AT..CRC_AT + 4][k + i - CRC_AT] == m[i] && d[CRC_AT..CRC_AT + 4][k + i - CRC_AT] == d[k + i];
  }

  /** A change of an intact image within four adjacent bytes is noticed, unless it crosses an end of the checksum. */
  lemma ShortChangeRejected(d: seq<byte>, k: nat, m: seq<byte>)
    requires Intact(d) && |m| <= 4 && k + |m| <= |d| && m != d[k..k + |m|]
    requires k + |m| <= CRC_AT || CRC_AT + 4 <= k || (CRC_AT <= k && k + |m| <= CRC_AT + 4)
    ensures !Intact(Patched(d, k, m))
  {
    hide Update, WordOf, Zeroed;
    var e := Patched(d, k, m);
    if CRC_AT <= k && k + |m| <= CRC_AT + 4 {
      PatchInside(d, k, m);
      if WordOf(e[CRC_AT..CRC_AT + 4]) == WordOf(d[CRC_AT..CRC_AT + 4]) {
        WordOneToOne(e[CRC_AT..CRC_AT + 4], d[CRC_AT..CRC_AT + 4]);
      }
    } else {
      PatchOutside(d, k, m);
      ShortErrorDetected(0, Zeroed(d)[..k], d[k..k + |m|], m, Zeroed(d)[k + |m|..]);
    }
  }

  // ---------------------------------------------------------------- loading

  function Field(d: seq<byte>, at: nat, n: nat): nat
    requires at + n <= |d|
  {
    FromLittle(d[at..at + n])
  }

  datatype Handle = Handle(header: seq<byte>, data: seq<byte>, symbols: Option<seq<byte>>, deps: Option<seq<byte>>)

  predicate Loads(d: seq<byte>) {
    |d| >= HEADER && Field(d, 0, 4) == MAGIC && Field(d, 4, 2) == VERSION && Intact(d)
  }

  function SymbolCount(d: seq<byte>): nat
    requires |d| >= HEADER
  {
    Field(d, 84, 4)
  }

  function DepCount(d: seq<byte>): nat
    requires |d| >= HEADER
  {
    Field(d, 88, 4)
  }

  function ManifestAt(d: seq<byte>): nat
    requires |d| >= HEADER
  {
    Field(d, 92, 4)
  }

  /** The dependency offset is a 32-bit variable. */
  function DepsAt(d: seq<byte>): nat
    requires |d| >= HEADER
  {
    (ManifestAt(d) + SYMBOL * SymbolCount(d)) % U32
  }

  /** Which of the allocations of a load succeed. A table without memory is left out and not read. */
  datatype Memory = Memory(handle: bool, data: bool, symbols: bool, deps: bool)

  const ENOUGH := Memory(true, true, true, true)

  /** The tables that are read lie inside the image; the code does not check this. */
  predicate InBounds(d: seq<byte>, mem: Memory)
    requires |d| >= HEADER
  {
    && (mem.symbols && SymbolCount(d) > 0 && ManifestAt(d) > 0 ==> ManifestAt(d) + SYMBOL * SymbolCount(d) <= |d|)
    && (mem.deps && DepCount(d) > 0 ==> DepsAt(d) + DEP * DepCount(d) <= |d|)
  }

  /** Fault: bytes behind the end of the image are read. */
  datatype Loading = Refused | Fault | Loaded(handle: Handle)

  /** ardmod_load */
  function Load(d: seq<byte>, mem: Memory): Loading {
    if !Loads(d) || !mem.handle || !mem.data then Refused
    else if !InBounds(d, mem) then Fault
    else
      var n, m, at, off := SymbolCount(d), DepCount(d), ManifestAt(d), DepsAt(d);
      Loaded(Handle(d[..HEADER], d, if mem.symbols && n > 0 && at > 0 then Some(d[at..at + SYMBOL * n]) else None,
                    if mem.deps && m > 0 then Some(d[off..off + DEP * m]) else None))
  }

  /**
   * An image is not refused exactly when there is memory for it, it has a whole header that starts with the bytes of
   * the magic number and the version, and it is intact.
   */
  lemma LoadIff(d: seq<byte>, mem: Memory)
    ensures !Load(d, mem).Refused? <==>
              && mem.handle && mem.data && |d| >= 100
              && d[..4] == Little(MAGIC, 4) && d[4..6] == Little(VERSION, 2) && Intact(d)
  {
    hide Intact, InBounds, Little, FromLittle;
    if |d| >= HEADER {
      assert d[0..4] == d[..4];
      FieldIs(d, 0, 4, MAGIC);
      FieldIs(d, 4, 2, VERSION);
    }
  }

  lemma FieldIs(d: seq<byte>, at: nat, n: nat, v: nat)
    requires at + n <= |d| && ((n == 4 && v < U32) || (n == 2 && v < 0x1_0000))
    ensures Field(d, at, n) == v <==> d[at..at + n] == Little(v, n)
  {
    hide Little, FromLittle;
    LittleOf(v, n);
    LittleBytes(d[at..at + n]);
  }

  /** So a created image that was changed within four adjacent bytes, not across an end of its checksum, is refused. */
  lemma ChangedRefused(s: Source, k: nat, m: seq<byte>, mem: Memory)
    requires Shaped(s) && |m| <= 4 && k + |m| <= |Image(s)| && m != Image(s)[k..k + |m|]
    requires k + |m| <= CRC_AT || CRC_AT + 4 <= k || (CRC_AT <= k && k + |m| <= CRC_AT + 4)
    ensures Load(Patched(Image(s), k, m), mem) == Refused
  {
    hide Intact, Image, Patched, Load;
    ImageIntact(s);
    ShortChangeRejected(Image(s), k, m);
    LoadIff(Patched(Image(s), k, m), mem);
  }

  /** The numbers in the header of an image. */
  lemma NumbersAt(s: Source, d: seq<byte>)
    requires Shaped(s) && Fits(s) && d == Image(s)
    ensures SymbolCount(d) == s.symbolCount && DepCount(d) == s.depCount && ManifestAt(d) == HEADER
    ensures Field(d, 0, 4) == MAGIC && Field(d, 4, 2) == VERSION
  {
    var crc := WordBytes(Update(0, Laid(s, Zeros(4))));
    assert d == Laid(s, crc);
    hide Image, Update, WordBytes, Little, FromLittle, Zeros, Padded;
    NumberSlices(s, crc);
    LittleOf(s.symbolCount, 4);
    LittleOf(s.depCount, 4);
    LittleOf(HEADER, 4);
    LittleOf(MAGIC, 4);
    LittleOf(VERSION, 2);
  }

  lemma LittleOf(n: nat, k: nat)
    requires (k == 4 && n < U32) || (k == 2 && n < 0x1_0000)
    ensures FromLittle(Little(n, k)) == n
  {
    assert Base(4) == U32 && Base(2) == 0x1_0000;
    LittleRoundTrip(n, k);
  }

  lemma NumberSlices(s: Source, crc: seq<byte>)
    requires Shaped(s) && |crc| == 4
    ensures var d := Laid(s, crc);
            && d[84..88] == Little(s.symbolCount, 4) && d[88..92] == Little(s.depCount, 4)
            && d[92..96] == Little(HEADER, 4)
            && d[0..4] == Little(MAGIC, 4) && d[4..6] == Little(VERSION, 2)
  {
    hide Little, Zeros, Padded, Body, Strings;
    var d := Laid(s, crc);
    assert d[64..100] == Numbers(s);
    assert d[84..88] == Numbers(s)[20..24] && d[88..92] == Numbers(s)[24..28] && d[92..96] == Numbers(s)[28..32];
    assert d[0..12] == Lead(s);
    assert d[0..4] == Lead(s)[0..4] && d[4..6] == Lead(s)[4..6];
  }

  lemma TablesAt(s: Source, crc: seq<byte>)
    requires Shaped(s) && |crc| == 4
    ensures var d, k := Laid(s, crc), HEADER + SYMBOL * s.symbolCount;
            d[HEADER..k] == SymbolBytes(s) && d[k..k + DEP * s.depCount] == DepBytes(s)
  {
    hide Lead, Strings, Numbers, SymbolBytes, DepBytes;
    var d := Laid(s, crc);
    assert d[HEADER..] == Body(s);
    assert d[HEADER..HEADER + SYMBOL * s.symbolCount] == Body(s)[..SYMBOL * s.symbolCount];
    var k := HEADER + SYMBOL * s.symbolCount;
    assert d[k..k + DEP * s.depCount] == Body(s)[SYMBOL * s.symbolCount..SYMBOL * s.symbolCount + DEP * s.depCount];
  }

  lemma DepsBehindSymbols(d: seq<byte>, n: nat)
    requires |d| >= HEADER && ManifestAt(d) == HEADER && SymbolCount(d) == n <= MAX_SYMBOLS
    ensures DepsAt(d) == HEADER + SYMBOL * n
  {
    hide Field;
  }

  /** Loading what was created gives back the symbols and dependencies. */
  lemma LoadImage(s: Source)
    requires Shaped(s) && Fits(s)
    ensures Load(Image(s), ENOUGH) == Loaded(Handle(Image(s)[..HEADER], Image(s),
                                                    if s.symbolCount > 0 then Some(SymbolBytes(s)) else None,
                                                    if s.depCount > 0 then Some(DepBytes(s)) else None))
  {
    hide Laid, Update, WordBytes, SymbolBytes, DepBytes, Field, Intact, SymbolCount, DepCount, ManifestAt, DepsAt;
    var d := Image(s);
    ImageIntact(s);
    NumbersAt(s, d);
    DepsBehindSymbols(d, s.symbolCount);
    TablesAt(s, WordBytes(Update(0, Laid(s, Zeros(4)))));
  }

  // ---------------------------------------------------------------- tables outside the image

  /** `x` with the checksum of `x` in its checksum field. */
  function Stamped(x: seq<byte>): (d: seq<byte>)
    requires |x| >= HEADER
    ensures |d| == |x|
  {
    x[..CRC_AT] + WordBytes(Update(0, x)) + x[CRC_AT + 4..]
  }

  lemma StampedIntact(x: seq<byte>)
    requires |x| >= HEADER && x[CRC_AT..CRC_AT + 4] == Zeros(4)
    ensures Intact(Stamped(x))
  {
    hide Update, WordBytes, WordOf;
    var d := Stamped(x);
    WordRoundTrip(Update(0, x));
    assert d[CRC_AT..CRC_AT + 4] == WordBytes(Update(0, x));
    assert Zeroed(d) == x;
  }

  /** A module with one symbol, of which only the header is kept. */
  function Bare(): (s: Source)
    ensures Shaped(s)
  {
    Source([], 0, [], None, 1, None, 0)
  }

  /** The header is as the creator writes it, with a checksum field of zeros. */
  ghost predicate IsBare(x: seq<byte>) {
    && |x| == HEADER && x[CRC_AT..CRC_AT + 4] == Zeros(4) && x[84..88] == Little(1, 4)
    && x[92..96] == Little(HEADER, 4) && x[0..4] == Little(MAGIC, 4) && x[4..6] == Little(VERSION, 2)
  }

  lemma BareHeader(s: Source, l: seq<byte>)
    requires s == Bare() && l == Laid(s, Zeros(4))
    ensures |l| >= HEADER && IsBare(l[..HEADER])
  {
    assert s.symbolCount == 1;
    hide *;
    LaidParts(s, Zeros(4));
    NumberSlices(s, Zeros(4));
    BareSlices(l, l[..HEADER]);
  }

  lemma BareSlices(l: seq<byte>, x: seq<byte>)
    requires |l| >= HEADER && x == l[..HEADER] && l[CRC_AT..CRC_AT + 4] == Zeros(4) && l[84..88] == Little(1, 4)
    requires l[92..96] == Little(HEADER, 4) && l[0..4] == Little(MAGIC, 4) && l[4..6] == Little(VERSION, 2)
    ensures IsBare(x)
  {
    hide Little, Zeros;
    assert x[84..88] == l[84..88] && x[92..96] == l[92..96] && x[0..4] == l[0..4] && x[4..6] == l[4..6];
    assert x[CRC_AT..CRC_AT + 4] == l[CRC_AT..CRC_AT + 4];
  }

  lemma StampedNumbers(x: seq<byte>, d: seq<byte>)
    requires IsBare(x) && d == Stamped(x)
    ensures SymbolCount(d) == 1 && ManifestAt(d) == HEADER && Field(d, 0, 4) == MAGIC && Field(d, 4, 2) == VERSION
  {
    hide Little, FromLittle, Update, WordBytes, Zeros;
    assert d[84..88] == x[84..88] && d[92..96] == x[92..96] && d[0..4] == x[0..4] && d[4..6] == x[4..6];
    LittleOf(1, 4);
    LittleOf(HEADER, 4);
    LittleOf(MAGIC, 4);
    LittleOf(VERSION, 2);
  }

  /** The failing input: an intact image of one hundred bytes whose header names a symbol behind its end. */
  lemma OutsideTable(s: Source, l: seq<byte>)
    requires s == Bare() && l == Laid(s, Zeros(4))
    ensures |l| >= HEADER && Intact(Stamped(l[..HEADER])) && Load(Stamped(l[..HEADER]), ENOUGH) == Fault
  {
    hide Laid, Intact, Field, SymbolCount, ManifestAt, DepCount, DepsAt, Stamped;
    BareHeader(s, l);
    StampedIntact(l[..HEADER]);
    StampedNumbers(l[..HEADER], Stamped(l[..HEADER]));
  }

  // ---------------------------------------------------------------- the code

  /** ardmod_verify_crc: the checksum of a copy of the header with the field zeroed, then of the rest. */
  method VerifyCrc(table: Table, data: seq<byte>) returns (ok: bool)
    requires table.Valid()
    modifies table, table.entries
    ensures table.Valid() && ok == Intact(data)
  {
    hide Update, WordOf;
    if |data| < HEADER { return false; }
    var copy := new byte[HEADER](i requires 0 <= i < HEADER => data[i]);
    assert copy[..] == data[..HEADER];
    Copy(copy, CRC_AT, Zeros(4));
    var crc := table.UpdateWith(0, copy[..]);
    ghost var first := copy[..];
    assert first + data[HEADER..] == Zeroed(data);
    UpdateConcat(0, first, data[HEADER..]);
    if |data| > HEADER {
      crc := table.UpdateWith(crc, data[HEADER..]);
    } else {
      assert first + data[HEADER..] == first;
    }
    return crc == WordOf(data[CRC_AT..CRC_AT + 4]);
  }

  /** ardmod_load, up to the first byte it would read behind the end of the image. */
  method LoadModule(table: Table, data: seq<byte>, mem: Memory) returns (r: Loading)
    requires table.Valid()
    modifies table, table.entries
    ensures table.Valid() && r == Load(data, mem)
  {
    hide Intact, Field;
    if |data| < HEADER || !mem.handle { return Refused; }
    if Field(data, 0, 4) != MAGIC || Field(data, 4, 2) != VERSION { return Refused; }
    var ok := VerifyCrc(table, data);
    if !ok || !mem.data { return Refused; }
    var symbols, deps := None, None;
    var at, n, m := Field(data, 92, 4), Field(data, 84, 4), Field(data, 88, 4);
    if n > 0 && at > 0 && mem.symbols {
      if at + SYMBOL * n > |data| { return Fault; }
      symbols := Some(data[at..at + SYMBOL * n]);
    }
    if m > 0 && mem.deps {
      var off := (at + SYMBOL * n) % U32;
      if off + DEP * m > |data| { return Fault; }
      deps := Some(data[off..off + DEP * m]);
    }
    return Loaded(Handle(data[..HEADER], data, symbols, deps));
  }

  // The fields and tables are written from front to back into a zeroed buffer.

  /** `done` has been written, the rest is still zero. */
  ghost predicate Filled(out: seq<byte>, done: seq<byte>) {
    |done| <= |out| && out == done + Zeros(|out| - |done|)
  }

  lemma FillNext(out: seq<byte>, done: seq<byte>, src: seq<byte>)
    requires Filled(out, done) && |done| + |src| <= |out|
    ensures Filled(out[..|done|] + src + out[|done| + |src|..], done + src)
  {
  }

  lemma FillSkip(out: seq<byte>, done: seq<byte>, n: nat)
    requires Filled(out, done) && |done| + n <= |out|
    ensures Filled(out, done + Zeros(n))
  {
  }

  /** Copy `src` to the position behind `done`. */
  method Append(out: array<byte>, ghost done: seq<byte>, at: nat, src: seq<byte>)
    requires Filled(out[..], done) && at == |done| && at + |src| <= out.Length
    modifies out
    ensures Filled(out[..], done + src)
  {
    FillNext(out[..], done, src);
    hide Filled;
    ghost var all := out[..];
    assert out[..at] == all[..at] && out[at + |src|..] == all[at + |src|..];
    Copy(out, at, src);
  }

  /** strncpy of at most `n - 1` characters into a field of `n`. */
  method AppendName(out: array<byte>, ghost done: seq<byte>, at: nat, name: seq<byte>, n: nat)
    requires Filled(out[..], done) && at == |done| && 0 < n && at + n <= out.Length
    modifies out
    ensures Filled(out[..], done + Padded(name, n))
  {
    hide Filled;
    var k := if |name| < n then |name| else n - 1;
    Append(out, done, at, name[..k]);
    FillSkip(out[..], done + name[..k], n - k);
    assert done + name[..k] + Zeros(n - k) == done + Padded(name, n);
  }

  /** Magic number, version, flags and size, then the zero checksum. */
  method PutLead(out: array<byte>, s: Source)
    requires out.Length >= HEADER && Filled(out[..], [])
    modifies out
    ensures Filled(out[..], Lead(s) + Zeros(4))
  {
    hide Little, Zeros, Filled;
    ghost var done: seq<byte> := [];
    Append(out, done, 0, Little(MAGIC, 4));
    done := done + Little(MAGIC, 4);
    Append(out, done, 4, Little(VERSION, 2));
    done := done + Little(VERSION, 2);
    Append(out, done, 6, Zeros(2));
    done := done + Zeros(2);
    Append(out, done, 8, Little(Total(s), 4));
    done := done + Little(Total(s), 4);
    assert done == Lead(s);
    Append(out, done, CRC_AT, Zeros(4));
  }

  /** The numeric fields behind the strings. */
  method PutNumbers(out: array<byte>, ghost front: seq<byte>, s: Source)
    requires |front| == 64 && out.Length >= HEADER && Filled(out[..], front)
    modifies out
    ensures Filled(out[..], front + Numbers(s))
  {
    hide Little, Zeros, Filled;
    ghost var done := front;
    Append(out, done, 64, Little(s.kind, 4));
    done := done + Little(s.kind, 4);
    Append(out, done, 68, Zeros(16));
    done := done + Zeros(16);
    Append(out, done, 84, Little(s.symbolCount, 4));
    done := done + Little(s.symbolCount, 4);
    Append(out, done, 88, Little(s.depCount, 4));
    done := done + Little(s.depCount, 4);
    Append(out, done, 92, Little(HEADER, 4));
    done := done + Little(HEADER, 4);
    Append(out, done, 96, Little(CodeAt(s), 4));
    done := done + Little(CodeAt(s), 4);
    assert done == front + Numbers(s);
  }

  /** A table, left zero when its pointer is null. */
  method PutTable(out: array<byte>, ghost done: seq<byte>, at: nat, table: Option<seq<byte>>, count: nat, size: nat)
    requires Filled(out[..], done) && at == |done| && at + size * count <= out.Length
    requires table.Some? ==> |table.value| == size * count
    modifies out
    ensures Filled(out[..], done + if table.Some? then table.value else Zeros(size * count))
  {
    hide Filled;
    if count > 0 && table.Some? {
      Append(out, done, at, table.value);
    } else {
      FillSkip(out[..], done, size * count);
      assert table.Some? ==> table.value == Zeros(size * count);
    }
  }

  /** The manifest and the code. */
  method PutBody(out: array<byte>, ghost head: seq<byte>, s: Source)
    requires Shaped(s) && out.Length == Total(s) && |head| == HEADER && Filled(out[..], head)
    modifies out
    ensures out[..] == head + Body(s)
  {
    ghost var done := head + SymbolBytes(s);
    ghost var done2 := done + DepBytes(s);
    FilledAll(done2 + s.code);
    assert done2 + s.code == head + Body(s);
    hide Filled;
    PutTable(out, head, HEADER, s.symbols, s.symbolCount, SYMBOL);
    PutTable(out, done, HEADER + SYMBOL * s.symbolCount, s.deps, s.depCount, DEP);
    Append(out, done2, CodeAt(s), s.code);
  }

  lemma FilledAll(done: seq<byte>)
    ensures forall out :: Filled(out, done) && |out| == |done| ==> out == done
  {
  }

  /** ardmod_create */
  method CreateModule(table: Table, s: Source) returns (ok: bool, out: array<byte>)
    requires table.Valid() && Shaped(s)
    modifies table, table.entries
    ensures table.Valid() && ok == Fits(s) && fresh(out)
    ensures ok ==> out[..] == Image(s)
  {
    hide Lead, Strings, Numbers, Body, Update, WordBytes;
    if s.symbolCount > MAX_SYMBOLS || s.depCount > MAX_DEPS {
      out := new byte[0];
      return false, out;
    }
    out := new byte[Total(s)](i => 0);
    Assemble(out, s);
    ghost var blank := out[..];
    var crc := table.UpdateWith(0, out[..]);
    assert out[..] == blank;
    Copy(out, CRC_AT, WordBytes(crc));
    LaidParts(s, Zeros(4));
    assert out[..] == Laid(s, WordBytes(crc));
    return true, out;
  }

  /** The header, with a zero checksum. */
  method PutHead(out: array<byte>, s: Source)
    requires out.Length >= HEADER && Filled(out[..], [])
    modifies out
    ensures Filled(out[..], Head(s))
  {
    hide Filled, Lead, Numbers, Padded, Zeros;
    PutLead(out, s);
    ghost var done := Lead(s) + Zeros(4);
    AppendName(out, done, 16, s.name, NAME_MAX);
    done := done + Padded(s.name, NAME_MAX);
    AppendName(out, done, 48, RELEASE, 16);
    done := done + Padded(RELEASE, 16);
    PutNumbers(out, done, s);
    assert done + Numbers(s) == Head(s);
  }

  function Head(s: Source): (r: seq<byte>)
    ensures |r| == HEADER
  {
    Lead(s) + Zeros(4) + Strings(s) + Numbers(s)
  }

  lemma HeadBody(s: Source)
    requires Shaped(s)
    ensures Head(s) + Body(s) == Laid(s, Zeros(4))
  {
    hide Lead, Strings, Numbers, Body, Zeros;
  }

  /** Everything but the checksum. */
  method Assemble(out: array<byte>, s: Source)
    requires Shaped(s) && out.Length == Total(s) && forall i :: 0 <= i < out.Length ==> out[i] == 0
    modifies out
    ensures out[..] == Laid(s, Zeros(4))
  {
    assert Filled(out[..], []);
    hide Filled, Head, Body, Laid, Zeros;
    PutHead(out, s);
    PutBody(out, Head(s), s);
    HeadBody(s);
  }
}
