/** What the stream parsers do with bytes that are not a frame: nothing corrupt is delivered, and later frames are. */
module StreamErrors {
  import opened Basics
  import opened Bytes
  import opened LinkFrame
  import opened LinkStream
  import Crc16

  // ---------------------------------------------------------------- soundness

  /** A whole frame and no byte more: right magic, length and checksum. */
  predicate Whole(f: seq<byte>) {
    Accepts(f) && |f| == HEADER_LEN + LengthAt(f) + 2
  }

  lemma AcceptsPrefix(buf: seq<byte>, n: nat)
    requires HEADER_LEN + 2 <= n <= |buf| && n == HEADER_LEN + LengthAt(buf) + 2
    ensures LengthAt(buf[..n]) == LengthAt(buf) && (Accepts(buf[..n]) <==> Accepts(buf))
  {
    hide Crc16.Crc, Word, Len;
    assert buf[..n][..n - 2] == buf[..n - 2];
  }

  /**
   * A frame is handed out exactly when the buffer starts with one, and a byte is dropped only when no frame starts
   * there, whatever follows.
   */
  lemma NextIff(buf: seq<byte>, more: seq<byte>)
    ensures Next(buf).Emit? <==> Accepts(buf)
    ensures Next(buf).Emit? ==> Whole(buf[..Next(buf).size])
    ensures Next(buf).Drop? ==> !Accepts(buf + more)
  {
    NextEmits(buf);
    hide Accepts, LengthAt;
    if Next(buf).Drop? {
      NextStands(buf, more);
      NextEmits(buf + more);
    }
  }

  lemma NextEmits(buf: seq<byte>)
    ensures Next(buf).Emit? <==> Accepts(buf)
    ensures Next(buf).Emit? ==> Whole(buf[..Next(buf).size])
  {
    hide Crc16.Crc, Word, Len;
    if |buf| >= HEADER_LEN && |buf| >= HEADER_LEN + LengthAt(buf) + 2 {
      AcceptsPrefix(buf, HEADER_LEN + LengthAt(buf) + 2);
    }
  }

  /** Whatever comes in, every frame found is whole and its checksum is right. */
  lemma {:induction false} ParseSound(buf: seq<byte>)
    ensures forall f :: f in Parse(buf).frames ==> Whole(f)
    decreases |buf|
  {
    NextEmits(buf);
    hide Next, Whole, Accepts;
    match Next(buf)
    case Wait =>
    case Drop => ParseSound(buf[1..]);
    case Emit(n) => ParseSound(buf[n..]);
  }

  lemma {:induction false} DeliverSound(buf: seq<byte>, accept: seq<byte> -> bool)
    ensures forall f :: f in Deliver(buf, accept).frames ==> Whole(f)
    decreases |buf|
  {
    NextEmits(buf);
    hide Next, Whole, Accepts;
    match Next(buf)
    case Wait =>
    case Drop => DeliverSound(buf[1..], accept);
    case Emit(n) => DeliverSound(buf[n..], accept);
  }

  /** And so is every frame the callback is given, over every run of pushes, also where the buffer overflows. */
  lemma {:induction false} BoundedSound(buf: seq<byte>, chunks: seq<seq<byte>>, accept: seq<byte> -> bool)
    ensures forall f :: f in BoundedAll(buf, chunks, accept).frames ==> Whole(f)
    decreases |chunks|
  {
    hide Deliver, Whole, Kept;
    if chunks != [] {
      DeliverSound(Kept(buf + chunks[0]), accept);
      BoundedSound(Deliver(Kept(buf + chunks[0]), accept).rest, chunks[1..], accept);
    }
  }

  // ---------------------------------------------------------------- a frame that was hit

  /** Where one wrong byte, or two adjacent ones, are always noticed. */
  predicate HitPlace(f: Frame, p: nat, m: seq<byte>) {
    && 1 <= |m| <= 2
    && (p + |m| <= 7 || (HEADER_LEN <= p && p + |m| <= HEADER_LEN + f.length)
        || (HEADER_LEN + f.length <= p && p + |m| <= HEADER_LEN + f.length + 2))
  }

  /** `s` is the encoding of `f`, hit there. */
  ghost predicate HitOf(f: Frame, p: nat, m: seq<byte>, s: seq<byte>) {
    && Shaped(f) && f.length <= MAX_PAYLOAD && HitPlace(f, p, m)
    && m != Wire(f)[p..p + |m|] && s == Patch(Wire(f), p, m)
  }

  lemma HitRejected(f: Frame, p: nat, m: seq<byte>, s: seq<byte>)
    requires HitOf(f, p, m, s)
    ensures !Accepts(s) && |s| == HEADER_LEN + f.length + 2 && LengthAt(s) == f.length
  {
    hide Wire, Patch, Accepts, LengthAt;
    CorruptionRejected(f, p, m);
    HitLength(f, p, m, s);
  }

  lemma HitLength(f: Frame, p: nat, m: seq<byte>, s: seq<byte>)
    requires HitOf(f, p, m, s)
    ensures |s| == HEADER_LEN + f.length + 2 && LengthAt(s) == f.length
  {
    hide Wire, LengthAt, Patch;
    PatchAside(Wire(f), p, m, 7);
    PatchAside(Wire(f), p, m, 8);
    WireLength(f, s);
  }

  lemma PatchAside(w: seq<byte>, p: nat, m: seq<byte>, i: nat)
    requires p + |m| <= |w| && i < |w| && (i < p || p + |m| <= i)
    ensures Patch(w, p, m)[i] == w[i]
  {
  }

  /** A frame that was hit comes out of no stream. */
  lemma HitNeverFound(f: Frame, p: nat, m: seq<byte>, s: seq<byte>, buf: seq<byte>)
    requires HitOf(f, p, m, s)
    ensures s !in Parse(buf).frames
  {
    HitRejected(f, p, m, s);
    ParseSound(buf);
    hide HitOf, Accepts, Parse;
  }

  lemma HitDropped(f: Frame, p: nat, m: seq<byte>, s: seq<byte>, rest: seq<byte>)
    requires HitOf(f, p, m, s)
    ensures Next(s + rest) == Drop && |s| >= HEADER_LEN + 2
  {
    hide HitOf, Accepts;
    HitRejected(f, p, m, s);
    hide LengthAt;
    LengthPrefix(s, rest);
    HitFits(f, p, m, s);
    assert (s + rest)[..|s|] == s;
  }

  lemma HitFits(f: Frame, p: nat, m: seq<byte>, s: seq<byte>)
    requires HitOf(f, p, m, s)
    ensures f.length <= MAX_PAYLOAD
  {
  }

  /** Frames, one that was hit and holds no further magic pair, and frames: exactly the intact ones come out. */
  lemma HitSkipped(before: seq<Frame>, f: Frame, p: nat, m: seq<byte>, s: seq<byte>, after: seq<Frame>)
    requires AllFit(before) && AllFit(after) && HitOf(f, p, m, s) && NoMagic(s[1..])
    ensures Parse(Concat(Wires(before)) + (s + Concat(Wires(after)))).frames == Wires(before) + Wires(after)
  {
    hide Parse, HitOf, Wires, Concat;
    var rest := Concat(Wires(after));
    FramesParse(before);
    FramesParse(after);
    HitAlone(f, p, m, s, after);
    ParseSplit(Concat(Wires(before)), s + rest);
    assert [] + (s + rest) == s + rest;
  }

  lemma HitAlone(f: Frame, p: nat, m: seq<byte>, s: seq<byte>, after: seq<Frame>)
    requires AllFit(after) && HitOf(f, p, m, s) && NoMagic(s[1..])
    ensures Parse(s + Concat(Wires(after))).frames == Wires(after)
  {
    hide Parse, HitOf, Next, Wires, Concat, NoMagic;
    var rest := Concat(Wires(after));
    HitDropped(f, p, m, s, rest);
    ParseStep(s + rest);
    assert (s + rest)[1..] == s[1..] + rest;
    FramesParse(after);
    WiresStart(after);
    if after == [] {
      assert s[1..] + rest == s[1..];
      NothingFound(s[1..]);
    } else {
      GarbageSkipped(s[1..], rest);
    }
  }

  lemma WiresStart(fs: seq<Frame>)
    requires AllFit(fs)
    ensures var c := Concat(Wires(fs)); if fs == [] then c == [] && Wires(fs) == [] else |c| >= 2 && c[0] == MAGIC_LO
  {
    hide Wire;
    if fs != [] { WireMagic(fs[0], Concat(Wires(fs)[1..])); }
  }

  /** The same of the bounded parser, however the stream is cut into pushes that find room. */
  lemma HitSkippedBounded(before: seq<Frame>, f: Frame, p: nat, m: seq<byte>, s: seq<byte>, after: seq<Frame>,
                          chunks: seq<seq<byte>>, accept: seq<byte> -> bool)
    requires AllFit(before) && AllFit(after) && HitOf(f, p, m, s) && NoMagic(s[1..])
    requires Concat(chunks) == Concat(Wires(before)) + (s + Concat(Wires(after))) && FitRun([], chunks)
    requires forall x :: x in Wires(before) + Wires(after) ==> accept(x)
    ensures BoundedAll([], chunks, accept).frames == Wires(before) + Wires(after)
  {
    hide Parse, HitOf, Wires, Concat, FitRun, BoundedAll;
    HitSkipped(before, f, p, m, s, after);
    FitRunWhole(chunks, accept);
  }

  // ---------------------------------------------------------------- a frame the callback refuses

  function AllBut(s: seq<seq<byte>>): seq<seq<byte>>
    requires s != []
  {
    s[..|s| - 1]
  }

  /**
   * A refused frame was the first the callback did not take; it stays in front of what is left over, and nothing is
   * lost: the frames taken and those still to be found are all frames of the buffer.
   */
  lemma {:induction false} RefusalConserves(buf: seq<byte>, accept: seq<byte> -> bool)
    ensures var d := Deliver(buf, accept);
            && (d.refused ==> d.frames != [] && !accept(d.frames[|d.frames| - 1]))
            && (d.refused ==> Parse(buf).frames == AllBut(d.frames) + Parse(d.rest).frames)
            && (d.refused ==> Parse(d.rest).frames != [] && Parse(d.rest).frames[0] == d.frames[|d.frames| - 1])
            && (!d.refused ==> d.frames == Parse(buf).frames && d.rest == Parse(buf).rest)
            && (forall i :: 0 <= i < (if d.refused then |d.frames| - 1 else |d.frames|) ==> accept(d.frames[i]))
    decreases |buf|
  {
    DeliverStep(buf, accept);
    ParseStep(buf);
    hide Next, Deliver, Parse;
    match Next(buf)
    case Wait =>
    case Drop => RefusalConserves(buf[1..], accept);
    case Emit(n) =>
      if accept(buf[..n]) {
        RefusalConserves(buf[n..], accept);
        var d := Deliver(buf[n..], accept);
        if d.refused {
          assert AllBut([buf[..n]] + d.frames) == [buf[..n]] + AllBut(d.frames);
        }
      }
  }
}
