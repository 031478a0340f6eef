/** The frame codec of link/link_frame.c and scripts/link_codec.py. */
module LinkFrame {
  import opened Basics
  import opened Bytes
  import opened Crc16

  const MAGIC_LO: byte := 0x07
  const MAGIC_HI: byte := 0xAB
  const VERSION: byte := 1
  const MAX_PAYLOAD := 240
  const HEADER_LEN := 9
  const MAX_FRAME := 251

  /** link_frame_t: `length` is a 16-bit field, `payload` a buffer of 240 bytes. */
  datatype Frame = Frame(version: byte, flags: byte, channel: byte, msgId: bv16, length: nat, payload: seq<byte>)

  predicate Shaped(f: Frame) {
    f.length < 0x10000 && |f.payload| == MAX_PAYLOAD
  }

  // ---------------------------------------------------------------- two-byte fields, low byte first

  function Lo(w: bv16): byte { (w & 0xff) as byte }
  function Hi(w: bv16): byte { (w >> 8) as byte }
  function Word(lo: byte, hi: byte): bv16 { (lo as bv16) | ((hi as bv16) << 8) }

  lemma WordRoundTrip(w: bv16)
    ensures Word(Lo(w), Hi(w)) == w
  {
  }

  lemma WordBytes(lo: byte, hi: byte)
    ensures Lo(Word(lo, hi)) == lo && Hi(Word(lo, hi)) == hi
  {
  }

  function LenLo(n: nat): byte { Byte(n % 0x100) }
  function LenHi(n: nat): byte { Byte(n / 0x100 % 0x100) }
  function Len(lo: byte, hi: byte): (n: nat) { Nat(lo) + 0x100 * Nat(hi) }

  lemma LenRoundTrip(n: nat)
    requires n < 0x10000
    ensures Len(LenLo(n), LenHi(n)) == n
  {
    hide Byte, Nat;
  }

  lemma LenBytes(lo: byte, hi: byte)
    ensures LenLo(Len(lo, hi)) == lo && LenHi(Len(lo, hi)) == hi && Len(lo, hi) < 0x10000
  {
    hide Byte, Nat;
    ByteOfNat(lo);
    ByteOfNat(hi);
    assert Len(lo, hi) % 0x100 == Nat(lo) && Len(lo, hi) / 0x100 % 0x100 == Nat(hi);
  }

  // ---------------------------------------------------------------- encoding

  /** Header and payload under the version byte `v`. */
  function Body(f: Frame, v: byte): (r: seq<byte>)
    requires Shaped(f) && f.length <= MAX_PAYLOAD
    ensures |r| == HEADER_LEN + f.length
  {
    Header(f, v) + f.payload[..f.length]
  }

  function Header(f: Frame, v: byte): (r: seq<byte>)
    ensures |r| == HEADER_LEN
  {
    [MAGIC_LO, MAGIC_HI, v, f.flags, f.channel, Lo(f.msgId), Hi(f.msgId), LenLo(f.length), LenHi(f.length)]
  }

  function Sealed(body: seq<byte>): (r: seq<byte>)
    ensures |r| == |body| + 2
  {
    body + [Lo(Crc(body)), Hi(Crc(body))]
  }

  function VersionOf(f: Frame): byte {
    if f.version != 0 then f.version else VERSION
  }

  /** The bytes link_frame_encode writes for a frame that fits. */
  function Wire(f: Frame): (r: seq<byte>)
    requires Shaped(f) && f.length <= MAX_PAYLOAD
    ensures |r| == HEADER_LEN + f.length + 2
  {
    Sealed(Body(f, VersionOf(f)))
  }

  method PutHeader(f: Frame, out: array<byte>)
    requires HEADER_LEN <= out.Length
    modifies out
    ensures out[..] == Header(f, VersionOf(f)) + old(out[HEADER_LEN..])
  {
    hide Lo, Hi, LenLo, LenHi;
    out[0], out[1] := MAGIC_LO, MAGIC_HI;
    out[2] := if f.version != 0 then f.version else VERSION;
    out[3], out[4] := f.flags, f.channel;
    out[5], out[6] := Lo(f.msgId), Hi(f.msgId);
    out[7], out[8] := LenLo(f.length), LenHi(f.length);
  }

  /** link_frame_encode into a buffer of which `cap` bytes may be used. */
  method Encode(f: Frame, out: array<byte>, cap: nat) returns (rc: int)
    requires Shaped(f) && cap <= out.Length
    modifies out
    ensures rc == if f.length > MAX_PAYLOAD || cap < HEADER_LEN + f.length + 2 then -1 else HEADER_LEN + f.length + 2
    ensures rc >= 0 ==> out[..] == Wire(f) + old(out[rc..])
    ensures rc < 0 ==> out[..] == old(out[..])
  {
    hide Crc, Header, Lo, Hi;
    if f.length > MAX_PAYLOAD { return -1; }
    var n := HEADER_LEN + f.length;
    if cap < n + 2 { return -1; }
    ghost var tail, body := out[n + 2..], Body(f, VersionOf(f));
    PutHeader(f, out);
    assert out[n + 2..] == tail;
    Copy(out, HEADER_LEN, f.payload[..f.length]);
    assert out[n + 2..] == tail && out[..n] == body;
    var crc := LinkCrc16(out[..n]);
    Copy(out, n, [Lo(crc), Hi(crc)]);
    rc := n + 2;
  }

  // ---------------------------------------------------------------- decoding

  predicate Magic(s: seq<byte>) {
    |s| >= 2 && s[0] == MAGIC_LO && s[1] == MAGIC_HI
  }

  function LengthAt(s: seq<byte>): (n: nat)
    requires |s| >= HEADER_LEN
  {
    Len(s[7], s[8])
  }

  predicate Accepts(s: seq<byte>) {
    && |s| >= HEADER_LEN + 2 && Magic(s) && LengthAt(s) <= MAX_PAYLOAD && |s| >= HEADER_LEN + LengthAt(s) + 2
    && var n := HEADER_LEN + LengthAt(s);
    && Crc(s[..n]) == Word(s[n], s[n + 1])
  }

  function Fields(s: seq<byte>): Frame
    requires |s| >= HEADER_LEN && LengthAt(s) <= MAX_PAYLOAD && |s| >= HEADER_LEN + LengthAt(s)
  {
    Frame(s[2], s[3], s[4], Word(s[5], s[6]), LengthAt(s),
          s[HEADER_LEN..HEADER_LEN + LengthAt(s)] + Zeros(MAX_PAYLOAD - LengthAt(s)))
  }

  function Decode(s: seq<byte>): Option<Frame> {
    if Accepts(s) then Some(Fields(s)) else None
  }

  /** link_frame_decode: the number of bytes used and the frame, or -1 and the frame as it was. */
  method LinkFrameDecode(s: seq<byte>, prior: Frame) returns (used: int, frame: Frame)
    ensures Decode(s) == None ==> used == -1 && frame == prior
    ensures Decode(s) != None ==> used == HEADER_LEN + LengthAt(s) + 2 && Decode(s) == Some(frame)
  {
    hide Crc, Word, Len;
    frame := prior;
    if |s| < HEADER_LEN + 2 { return -1, frame; }
    if s[0] != MAGIC_LO || s[1] != MAGIC_HI { return -1, frame; }
    var length := Len(s[7], s[8]);
    if length > MAX_PAYLOAD || |s| < HEADER_LEN + length + 2 { return -1, frame; }
    var crc := LinkCrc16(s[..HEADER_LEN + length]);
    var got := Word(s[HEADER_LEN + length], s[HEADER_LEN + length + 1]);
    if crc != got { return -1, frame; }
    frame := Frame(s[2], s[3], s[4], Word(s[5], s[6]), length,
                   s[HEADER_LEN..HEADER_LEN + length] + Zeros(MAX_PAYLOAD - length));
    used := HEADER_LEN + length + 2;
  }

  // ---------------------------------------------------------------- round trips

  /** What a frame looks like after a trip: version 0 has become 1, the payload behind `length` is zero. */
  function Normal(f: Frame): Frame
    requires Shaped(f) && f.length <= MAX_PAYLOAD
  {
    f.(version := VersionOf(f), payload := f.payload[..f.length] + Zeros(MAX_PAYLOAD - f.length))
  }

  /** Where the encoding puts what: two bytes of magic, the fields, the payload, and the checksum of all before it. */
  lemma WireLayout(f: Frame)
    requires Shaped(f) && f.length <= MAX_PAYLOAD
    ensures var w, n := Wire(f), 9 + f.length;
            && |w| == n + 2 && w[0] == 0x07 && w[1] == 0xAB && w[2] == (if f.version == 0 then 1 else f.version)
            && w[3] == f.flags && w[4] == f.channel
            && w[5] == (f.msgId & 0xFF) as byte && w[6] == (f.msgId >> 8) as byte
            && Nat(w[7]) + 0x100 * Nat(w[8]) == f.length && w[9..n] == f.payload[..f.length]
            && w[n] == (Crc(w[..n]) & 0xFF) as byte && w[n + 1] == (Crc(w[..n]) >> 8) as byte
  {
    hide Crc, LenLo, LenHi, Nat;
    LenRoundTrip(f.length);
    assert Wire(f)[..9 + f.length] == Body(f, VersionOf(f));
  }

  /** Decoding undoes encoding, whatever follows the frame. */
  lemma RoundTrip(f: Frame, rest: seq<byte>)
    requires Shaped(f) && f.length <= MAX_PAYLOAD
    ensures Decode(Wire(f) + rest) == Some(Normal(f))
    ensures LengthAt(Wire(f) + rest) == f.length
  {
    hide Crc, Lo, Hi, Word, LenLo, LenHi, Len;
    var s, body := Wire(f) + rest, Body(f, VersionOf(f));
    LenRoundTrip(f.length);
    WordRoundTrip(f.msgId);
    WordRoundTrip(Crc(body));
    assert s[..HEADER_LEN + f.length] == body;
    assert s[HEADER_LEN..HEADER_LEN + f.length] == f.payload[..f.length];
  }

  /** Nothing else is accepted: an accepted input starts with the encoding of the frame it decodes to. */
  lemma DecodeSound(s: seq<byte>)
    requires Accepts(s)
    ensures var f := Fields(s);
            && Shaped(f) && f.length <= MAX_PAYLOAD && |s| >= HEADER_LEN + f.length + 2
            && s[..HEADER_LEN + f.length + 2] == Sealed(Body(f, f.version))
  {
    hide Crc, Lo, Hi, Word, LenLo, LenHi, Len;
    var f, n := Fields(s), HEADER_LEN + LengthAt(s);
    LenBytes(s[7], s[8]);
    WordBytes(s[5], s[6]);
    WordBytes(s[n], s[n + 1]);
    assert f.payload[..f.length] == s[HEADER_LEN..n];
    assert s[..n] == Body(f, f.version);
    assert s[..n + 2] == s[..n] + [s[n], s[n + 1]];
  }

  // ---------------------------------------------------------------- corruption

  /** `w` with the bytes from `p` on replaced by `m`. */
  function Patch(w: seq<byte>, p: nat, m: seq<byte>): (r: seq<byte>)
    requires p + |m| <= |w|
    ensures |r| == |w|
  {
    w[..p] + m + w[p + |m|..]
  }

  /**
   * A frame hit in one byte, or in two adjacent ones, is rejected: in the bytes before the length field, in the
   * payload, or in the checksum.
   */
  lemma CorruptionRejected(f: Frame, p: nat, m: seq<byte>)
    requires Shaped(f) && f.length <= MAX_PAYLOAD && 1 <= |m| <= 2
    requires p + |m| <= 7 || (HEADER_LEN <= p && p + |m| <= HEADER_LEN + f.length)
             || (HEADER_LEN + f.length <= p && p + |m| <= HEADER_LEN + f.length + 2)
    requires m != Wire(f)[p..p + |m|]
    ensures Decode(Patch(Wire(f), p, m)) == None
  {
    hide Crc, Lo, Hi, Word, LengthAt, Header;
    var w, n := Wire(f), HEADER_LEN + f.length;
    var s := Patch(w, p, m);
    WireLength(f, s);
    if p + |m| <= n {
      BodyHit(f, p, m);
    } else {
      CrcHit(f, p - n, m);
    }
  }

  /** A frame hit so that its length field names more bytes than were sent is rejected, wherever else it was hit. */
  lemma RaisedLengthRejected(f: Frame, p: nat, m: seq<byte>)
    requires Shaped(f) && f.length <= MAX_PAYLOAD && p + |m| <= HEADER_LEN + f.length + 2
    requires LengthAt(Patch(Wire(f), p, m)) > f.length
    ensures Decode(Patch(Wire(f), p, m)) == None
  {
    hide Wire, Patch;
  }

  lemma CrcHit(f: Frame, p: nat, m: seq<byte>)
    requires Shaped(f) && f.length <= MAX_PAYLOAD && p + |m| <= 2
    requires m != Wire(f)[HEADER_LEN + f.length + p..HEADER_LEN + f.length + p + |m|]
    ensures var s, n := Patch(Wire(f), HEADER_LEN + f.length + p, m), HEADER_LEN + f.length;
            Crc(s[..n]) != Word(s[n], s[n + 1])
  {
    hide Crc, Lo, Hi, Word, Header;
    var w, body, n := Wire(f), Body(f, VersionOf(f)), HEADER_LEN + f.length;
    var s := Patch(w, n + p, m);
    assert s[..n] == body;
    WordBytes(s[n], s[n + 1]);
    var tail := w[n..];
    assert tail == [Lo(Crc(body)), Hi(Crc(body))];
    assert m != tail[p..p + |m|] by { assert tail[p..p + |m|] == w[n + p..n + p + |m|]; }
    PatchDiffers(tail, p, m);
    assert Patch(tail, p, m) == [s[n], s[n + 1]];
  }

  lemma PatchDiffers(w: seq<byte>, p: nat, m: seq<byte>)
    requires p + |m| <= |w| && m != w[p..p + |m|]
    ensures Patch(w, p, m) != w
  {
    assert Patch(w, p, m)[p..p + |m|] == m;
  }

  lemma WireLength(f: Frame, s: seq<byte>)
    requires Shaped(f) && f.length <= MAX_PAYLOAD && |s| >= HEADER_LEN && s[7] == Wire(f)[7] && s[8] == Wire(f)[8]
    ensures LengthAt(s) == f.length
  {
    hide Crc, Lo, Hi, LenLo, LenHi, Len;
    LenRoundTrip(f.length);
  }

  lemma BodyHit(f: Frame, p: nat, m: seq<byte>)
    requires Shaped(f) && f.length <= MAX_PAYLOAD && 1 <= |m| <= 2 && p + |m| <= HEADER_LEN + f.length
    requires m != Wire(f)[p..p + |m|]
    ensures var s, n := Patch(Wire(f), p, m), HEADER_LEN + f.length; Crc(s[..n]) != Word(s[n], s[n + 1])
  {
    hide Crc, Lo, Hi, Word, Header;
    var w, body, n := Wire(f), Body(f, VersionOf(f)), HEADER_LEN + f.length;
    var s := Patch(w, p, m);
    WordRoundTrip(Crc(body));
    var m0, post := body[p..p + |m|], body[p + |m|..];
    assert w[..n] == body;
    assert m0 == w[p..p + |m|];
    PatchParts(w, n, p, m);
    ShortErrorDetected(body[..p], m0, m, post);
    assert s[n] == w[n] && s[n + 1] == w[n + 1];
  }

  lemma PatchParts(w: seq<byte>, n: nat, p: nat, m: seq<byte>)
    requires p + |m| <= n <= |w|
    ensures w[..n] == w[..n][..p] + w[..n][p..p + |m|] + w[..n][p + |m|..]
    ensures Patch(w, p, m)[..n] == w[..n][..p] + m + w[..n][p + |m|..]
    ensures forall i :: n <= i < |w| ==> Patch(w, p, m)[i] == w[i]
  {
  }

  /** The last payload byte off by `d` together with the low checksum byte off by `e`. */
  function Straddle(f: Frame, d: byte, e: byte): (s: seq<byte>)
    requires Shaped(f) && 0 < f.length <= MAX_PAYLOAD
    ensures |s| == HEADER_LEN + f.length + 2
  {
    var w, n := Wire(f), HEADER_LEN + f.length;
    Patch(w, n - 1, [XorB(w[n - 1], d), XorB(w[n], e)])
  }

  /** Two adjacent bytes on both sides of the payload's end escape the checksum exactly when the errors match. */
  lemma StraddleEscapesIff(f: Frame, d: byte, e: byte)
    requires Shaped(f) && 0 < f.length <= MAX_PAYLOAD
    ensures Accepts(Straddle(f, d, e)) <==> Feed(0, d) == e as bv16
  {
    hide Crc, Lo, Hi, Word, LengthAt, Feed, Straddle, Body, Xor, XorB;
    var body, n, s := Body(f, VersionOf(f)), HEADER_LEN + f.length, Straddle(f, d, e);
    StraddleLength(f, d, e);
    StraddleMagic(f, d, e);
    StraddleBytes(f, d, e);
    CrcLastByte(body[..n - 1], body[n - 1], d);
    WordLowError(Crc(body), e);
    XorCancel(Crc(body), Feed(0, d), e as bv16);
  }

  lemma StraddleLength(f: Frame, d: byte, e: byte)
    requires Shaped(f) && 0 < f.length <= MAX_PAYLOAD
    ensures LengthAt(Straddle(f, d, e)) == f.length
  {
    hide Crc, Lo, Hi, Header, LengthAt, XorB;
    WireLength(f, Straddle(f, d, e));
  }

  lemma StraddleBytes(f: Frame, d: byte, e: byte)
    requires Shaped(f) && 0 < f.length <= MAX_PAYLOAD
    ensures var body, n, s := Body(f, VersionOf(f)), HEADER_LEN + f.length, Straddle(f, d, e);
            && body == body[..n - 1] + [body[n - 1]] && s[..n] == body[..n - 1] + [XorB(body[n - 1], d)]
            && s[n] == XorB(Lo(Crc(body)), e) && s[n + 1] == Hi(Crc(body))
  {
    hide Crc, Lo, Hi, Header, XorB;
    var w, n := Wire(f), HEADER_LEN + f.length;
    var m := [XorB(w[n - 1], d), XorB(w[n], e)];
    assert Straddle(f, d, e) == w[..n - 1] + m + w[n + 1..];
    assert w[..n - 1] == Body(f, VersionOf(f))[..n - 1];
  }

  lemma StraddleMagic(f: Frame, d: byte, e: byte)
    requires Shaped(f) && 0 < f.length <= MAX_PAYLOAD
    ensures Magic(Straddle(f, d, e))
  {
    hide Crc, Lo, Hi, LenLo, LenHi, XorB;
  }

  lemma CrcLastByte(pre: seq<byte>, b: byte, d: byte)
    ensures Crc(pre + [XorB(b, d)]) == Xor(Crc(pre + [b]), Feed(0, d))
  {
    hide Run, Xor, Feed, XorB;
    RunConcat(INIT, pre, [b]);
    RunConcat(INIT, pre, [XorB(b, d)]);
    RunOne(Run(INIT, pre), b);
    RunOne(Run(INIT, pre), XorB(b, d));
    XorNone(Run(INIT, pre));
    FeedLinear(Run(INIT, pre), 0, b, d);
  }

  lemma RunOne(s: bv16, b: byte)
    ensures Run(s, [b]) == Feed(s, b)
  {
    hide Feed;
    assert Run(Feed(s, b), [b][1..]) == Feed(s, b);
  }

  lemma WordLowError(c: bv16, e: byte)
    ensures Word(XorB(Lo(c), e), Hi(c)) == Xor(c, e as bv16)
  {
  }

  lemma XorCancel(a: bv16, x: bv16, y: bv16)
    ensures Xor(a, x) == Xor(a, y) <==> x == y
  {
    hide Xor;
    XorBack(a, x);
    XorBack(a, y);
  }

  /** Such a match exists, so the boundary between payload and checksum is a real gap, for every frame. */
  lemma StraddleGap(f: Frame)
    requires Shaped(f) && 0 < f.length <= MAX_PAYLOAD
    ensures Accepts(Straddle(f, 0x89, 0xA1))
  {
    hide Straddle, Accepts, Feed;
    FeedExample();
    StraddleEscapesIff(f, 0x89, 0xA1);
  }

  lemma FeedExample()
    ensures Feed(0, 0x89) == 0x00A1
  {
    assert Xor(0, High(0x89)) == 0x8900;
    assert Shift(0x8900) == 0x0221 && Shift(0x0221) == 0x0442 && Shift(0x0442) == 0x0884 && Shift(0x0884) == 0x1108;
    assert Shift(0x1108) == 0x2210 && Shift(0x2210) == 0x4420 && Shift(0x4420) == 0x8840 && Shift(0x8840) == 0x00A1;
    hide Shift;
    assert Shifts(0x8900, 8) == Shifts(0x0442, 6) == Shifts(0x1108, 4) == Shifts(0x4420, 2) == 0x00A1;
  }
}
