/** The resynchronising parsers: FrameStream of scripts/link_codec.py and link_stream_push of link/link_frame.c. */
module LinkStream {
  import opened Basics
  import opened Bytes
  import opened LinkFrame

  datatype Action = Wait | Drop | Emit(size: nat)

  /** What the parsers do with the front of the buffer. */
  function Next(buf: seq<byte>): (a: Action)
    ensures a.Emit? ==> HEADER_LEN + 2 <= a.size <= MAX_FRAME && a.size <= |buf|
    ensures a.Drop? ==> |buf| >= 2
  {
    if |buf| >= 2 && !Magic(buf) then Drop
    else if |buf| < HEADER_LEN then Wait
    else if LengthAt(buf) > MAX_PAYLOAD then Drop
    else if |buf| < HEADER_LEN + LengthAt(buf) + 2 then Wait
    else if Decode(buf[..HEADER_LEN + LengthAt(buf) + 2]) == None then Drop
    else Emit(HEADER_LEN + LengthAt(buf) + 2)
  }

  datatype Parsed = Parsed(frames: seq<seq<byte>>, rest: seq<byte>)

  /** Act until nothing more can be done: the frames found, and the bytes left over. */
  function Parse(buf: seq<byte>): (p: Parsed)
    ensures |p.rest| <= |buf| && |p.rest| < MAX_FRAME
    decreases |buf|
  {
    match Next(buf)
    case Wait => Parsed([], buf)
    case Drop => Parse(buf[1..])
    case Emit(n) => var p := Parse(buf[n..]); p.(frames := [buf[..n]] + p.frames)
  }

  // ---------------------------------------------------------------- chunking does not matter

  /** A decision taken on a buffer stands when more bytes arrive. */
  lemma NextStands(buf: seq<byte>, more: seq<byte>)
    requires !Next(buf).Wait?
    ensures Next(buf + more) == Next(buf)
  {
    hide LengthAt, Decode;
    if |buf| >= HEADER_LEN {
      LengthPrefix(buf, more);
      if |buf| >= HEADER_LEN + LengthAt(buf) + 2 {
        assert (buf + more)[..HEADER_LEN + LengthAt(buf) + 2] == buf[..HEADER_LEN + LengthAt(buf) + 2];
      }
    }
  }

  lemma LengthPrefix(buf: seq<byte>, more: seq<byte>)
    requires |buf| >= HEADER_LEN
    ensures LengthAt(buf + more) == LengthAt(buf)
  {
  }

  /** Parsing `a` and then the leftovers with `b` is parsing `a + b`. */
  lemma {:induction false} ParseSplit(a: seq<byte>, b: seq<byte>)
    ensures var p := Parse(a);
            var q := Parse(p.rest + b);
            Parse(a + b) == Parsed(p.frames + q.frames, q.rest)
    decreases |a|
  {
    hide Next;
    match Next(a)
    case Wait =>
      assert Parse(a) == Parsed([], a);
      assert [] + Parse(a + b).frames == Parse(a + b).frames;
    case Drop =>
      NextStands(a, b);
      assert (a + b)[1..] == a[1..] + b;
      ParseSplit(a[1..], b);
    case Emit(n) =>
      NextStands(a, b);
      assert (a + b)[n..] == a[n..] + b && (a + b)[..n] == a[..n];
      ParseSplit(a[n..], b);
      var p, q := Parse(a[n..]), Parse(Parse(a[n..]).rest + b);
      assert [a[..n]] + (p.frames + q.frames) == ([a[..n]] + p.frames) + q.frames;
  }

  function Concat(chunks: seq<seq<byte>>): seq<byte> {
    if chunks == [] then [] else chunks[0] + Concat(chunks[1..])
  }

  /** A run of pushes into a parser holding `buf`. */
  function PushAll(buf: seq<byte>, chunks: seq<seq<byte>>): (p: Parsed)
    decreases |chunks|
  {
    if chunks == [] then Parsed([], buf)
    else
      var p := Parse(buf + chunks[0]);
      var q := PushAll(p.rest, chunks[1..]);
      Parsed(p.frames + q.frames, q.rest)
  }

  /** The leftovers hold nothing that could be acted on. */
  lemma {:induction false} RestWaits(buf: seq<byte>)
    ensures Next(Parse(buf).rest).Wait?
    decreases |buf|
  {
    match Next(buf)
    case Wait =>
    case Drop => RestWaits(buf[1..]);
    case Emit(n) => RestWaits(buf[n..]);
  }

  /** However a byte stream is cut into pushes, the same frames come out and the same bytes stay behind. */
  lemma {:induction false} ChunkingIrrelevant(buf: seq<byte>, chunks: seq<seq<byte>>)
    requires Next(buf).Wait?
    ensures PushAll(buf, chunks) == Parse(buf + Concat(chunks))
    decreases |chunks|
  {
    hide Next;
    if chunks == [] {
      assert buf + [] == buf;
    } else {
      var p := Parse(buf + chunks[0]);
      RestWaits(buf + chunks[0]);
      ChunkingIrrelevant(p.rest, chunks[1..]);
      ParseSplit(buf + chunks[0], Concat(chunks[1..]));
      assert buf + Concat(chunks) == (buf + chunks[0]) + Concat(chunks[1..]);
    }
  }

  // ---------------------------------------------------------------- resynchronisation

  /** magic_at */
  predicate MagicAt(buf: seq<byte>, i: nat) {
    i + 1 < |buf| && buf[i] == MAGIC_LO && buf[i + 1] == MAGIC_HI
  }

  /** No two adjacent bytes are the magic. */
  ghost predicate NoMagic(g: seq<byte>) {
    forall i: nat :: i < |g| ==> !MagicAt(g, i)
  }

  ghost predicate AllFit(fs: seq<Frame>) {
    forall i :: 0 <= i < |fs| ==> Shaped(fs[i]) && fs[i].length <= MAX_PAYLOAD
  }

  function Wires(fs: seq<Frame>): (w: seq<seq<byte>>)
    requires AllFit(fs)
    ensures |w| == |fs|
  {
    seq(|fs|, i requires 0 <= i < |fs| => Wire(fs[i]))
  }

  lemma WireEmits(f: Frame, rest: seq<byte>)
    requires Shaped(f) && f.length <= MAX_PAYLOAD
    ensures Next(Wire(f) + rest) == Emit(|Wire(f)|)
  {
    hide LengthAt, Wire;
    WireMagic(f, rest);
    RoundTrip(f, rest);
    RoundTrip(f, []);
    assert (Wire(f) + rest)[..|Wire(f)|] == Wire(f) + [];
  }

  lemma WireMagic(f: Frame, rest: seq<byte>)
    requires Shaped(f) && f.length <= MAX_PAYLOAD
    ensures Magic(Wire(f) + rest) && Wire(f)[0] == MAGIC_LO
  {
  }

  lemma {:induction false} FramesParse(fs: seq<Frame>)
    requires AllFit(fs)
    ensures Parse(Concat(Wires(fs))) == Parsed(Wires(fs), [])
    decreases |fs|
  {
    hide Next, Wire;
    if fs == [] {
      WaitOnNothing();
    } else {
      var w, rest := Wire(fs[0]), Concat(Wires(fs[1..]));
      assert Wires(fs)[1..] == Wires(fs[1..]);
      WireEmits(fs[0], rest);
      FramesParse(fs[1..]);
      assert (w + rest)[..|w|] == w && (w + rest)[|w|..] == rest;
      assert [w] + Wires(fs[1..]) == Wires(fs);
    }
  }

  lemma WaitOnNothing()
    ensures Next([]).Wait?
  {
  }

  /** Garbage without the magic is skipped, byte by byte, up to the first frame. */
  lemma {:induction false} GarbageSkipped(g: seq<byte>, s: seq<byte>)
    requires NoMagic(g) && |s| >= 2 && s[0] == MAGIC_LO
    ensures Parse(g + s) == Parse(s)
    decreases |g|
  {
    if g == [] {
      assert g + s == s;
    } else {
      GarbageFront(g, s);
      assert (g + s)[1..] == g[1..] + s;
      assert NoMagic(g[1..]) by {
        forall i: nat | i < |g| - 1 ensures !MagicAt(g[1..], i) { assert !MagicAt(g, i + 1); }
      }
      GarbageSkipped(g[1..], s);
    }
  }

  lemma GarbageFront(g: seq<byte>, s: seq<byte>)
    requires NoMagic(g) && g != [] && |s| >= 2 && s[0] == MAGIC_LO
    ensures Next(g + s) == Drop
  {
    assert !MagicAt(g, 0);
  }

  /**
   * Any garbage without the magic, then any frames: exactly those frames come out, in order, nothing is left over,
   * and each decodes to what was encoded.
   */
  lemma Resync(g: seq<byte>, fs: seq<Frame>)
    requires NoMagic(g) && AllFit(fs) && fs != []
    ensures Parse(g + Concat(Wires(fs))) == Parsed(Wires(fs), [])
    ensures forall i :: 0 <= i < |fs| ==> Decode(Wires(fs)[i]) == Some(Normal(fs[i]))
  {
    hide Wire, Parse, Decode;
    FramesParse(fs);
    var w, rest := Wire(fs[0]), Concat(Wires(fs)[1..]);
    WireMagic(fs[0], rest);
    GarbageSkipped(g, Concat(Wires(fs)));
    forall i | 0 <= i < |fs| ensures Decode(Wires(fs)[i]) == Some(Normal(fs[i])) {
      RoundTrip(fs[i], []);
      assert Wire(fs[i]) + [] == Wire(fs[i]);
    }
  }

  // ---------------------------------------------------------------- the unbounded parser

  /** FrameStream of scripts/link_codec.py. */
  class FrameStream {
    var buf: seq<byte>

    constructor ()
      ensures buf == []
    {
      buf := [];
    }

    method Push(data: seq<byte>) returns (frames: seq<seq<byte>>)
      modifies this
      ensures Parsed(frames, buf) == Parse(old(buf) + data)
    {
      hide Parse;
      buf := buf + data;
      frames := [];
      while true
        invariant Parse(old(buf) + data) == Parsed(frames + Parse(buf).frames, Parse(buf).rest)
        decreases |buf|
      {
        var done, frame := Advance();
        if done { return; }
        if frame.Some? {
          assert frames + ([frame.value] + Parse(buf).frames) == (frames + [frame.value]) + Parse(buf).frames;
          frames := frames + [frame.value];
        }
      }
    }

    /** One turn of the loop: wait, drop a byte, or hand out the frame in front. */
    method Advance() returns (done: bool, frame: Option<seq<byte>>)
      modifies this
      ensures done ==> Parse(old(buf)) == Parsed([], buf)
      ensures !done ==> |buf| < |old(buf)|
      ensures !done ==> Parse(old(buf)) == match frame
                          case None => Parse(buf)
                          case Some(f) => Parsed([f] + Parse(buf).frames, Parse(buf).rest)
    {
      hide Decode, LengthAt, Parse;
      var start := FindMagic(buf);
      SkipTo(buf, start);
      buf := buf[start..];
      ParseStep(buf);
      if |buf| < HEADER_LEN { return true, None; }
      var length := LengthAt(buf);
      var total := HEADER_LEN + length + 2;
      if length <= MAX_PAYLOAD && |buf| < total { return true, None; }
      if length > MAX_PAYLOAD || Decode(buf[..total]) == None {
        buf := buf[1..];
        return false, None;
      }
      frame := Some(buf[..total]);
      buf := buf[total..];
      return false, frame;
    }
  }

  lemma ParseStep(buf: seq<byte>)
    ensures Parse(buf) == match Next(buf)
                          case Wait => Parsed([], buf)
                          case Drop => Parse(buf[1..])
                          case Emit(n) => Parsed([buf[..n]] + Parse(buf[n..]).frames, Parse(buf[n..]).rest)
  {
    hide Next;
  }

  /** Everything before `k` would be dropped, and `k` is where dropping for want of the magic stops. */
  ghost predicate MagicFrom(buf: seq<byte>, k: nat) {
    && (k == 0 || k < |buf|) && (forall i: nat :: i < k ==> !MagicAt(buf, i))
    && (k + 1 < |buf| ==> MagicAt(buf, k))
  }

  /** The scan for the magic. */
  method FindMagic(buf: seq<byte>) returns (start: nat)
    ensures MagicFrom(buf, start)
  {
    start := 0;
    while start + 1 < |buf| && !(buf[start] == MAGIC_LO && buf[start + 1] == MAGIC_HI)
      invariant (start == 0 || start < |buf|) && forall i: nat :: i < start ==> !MagicAt(buf, i)
    {
      start := start + 1;
    }
  }

  lemma MagicFromTail(buf: seq<byte>, k: nat)
    requires MagicFrom(buf, k) && k > 0
    ensures MagicFrom(buf[1..], k - 1)
  {
    forall i: nat | i < k - 1 ensures !MagicAt(buf[1..], i) { assert !MagicAt(buf, i + 1); }
    assert k + 1 < |buf| ==> MagicAt(buf[1..], k - 1);
  }

  /** The scan is a run of drops. */
  lemma {:induction false} SkipTo(buf: seq<byte>, k: nat)
    requires MagicFrom(buf, k)
    ensures Parse(buf) == Parse(buf[k..])
    ensures |buf[k..]| >= 2 ==> Magic(buf[k..])
    decreases k
  {
    hide Decode, LengthAt;
    if k == 0 {
      assert buf[0..] == buf;
    } else {
      assert !MagicAt(buf, 0);
      MagicFromTail(buf, k);
      SkipTo(buf[1..], k - 1);
      assert buf[1..][k - 1..] == buf[k..];
    }
  }

  // ---------------------------------------------------------------- the bounded parser

  datatype Delivered = Delivered(frames: seq<seq<byte>>, rest: seq<byte>, refused: bool)

  /** Parsing with a callback that may refuse a frame: a refused frame has been delivered but stays in the buffer. */
  function Deliver(buf: seq<byte>, accept: seq<byte> -> bool): (d: Delivered)
    ensures |d.rest| <= |buf| && (!d.refused ==> |d.rest| < MAX_FRAME)
    decreases |buf|
  {
    match Next(buf)
    case Wait => Delivered([], buf, false)
    case Drop => Deliver(buf[1..], accept)
    case Emit(n) =>
      if !accept(buf[..n]) then Delivered([buf[..n]], buf, true)
      else var d := Deliver(buf[n..], accept); d.(frames := [buf[..n]] + d.frames)
  }

  /** With a callback that takes every frame, delivery is parsing. */
  lemma {:induction false} DeliverAccepting(buf: seq<byte>, accept: seq<byte> -> bool)
    requires forall f :: f in Parse(buf).frames ==> accept(f)
    ensures Deliver(buf, accept) == Delivered(Parse(buf).frames, Parse(buf).rest, false)
    decreases |buf|
  {
    hide Next;
    match Next(buf)
    case Wait =>
    case Drop => DeliverAccepting(buf[1..], accept);
    case Emit(n) =>
      var fs := Parse(buf).frames;
      assert fs[0] == buf[..n] && fs[0] in fs;
      assert fs[1..] == Parse(buf[n..]).frames;
      assert forall f :: f in fs[1..] ==> f in fs;
      DeliverAccepting(buf[n..], accept);
  }

  /** The last `MAX_FRAME` bytes: what a full buffer keeps of its input. */
  function Kept(s: seq<byte>): (r: seq<byte>)
    ensures |r| <= MAX_FRAME && (|s| <= MAX_FRAME ==> r == s)
  {
    if |s| <= MAX_FRAME then s else s[|s| - MAX_FRAME..]
  }

  lemma KeptOne(c: seq<byte>, b: byte, d: seq<byte>)
    requires |c| <= MAX_FRAME && d == if |c| >= MAX_FRAME then c[1..] else c
    ensures Kept(c + [b]) == d + [b]
  {
  }

  lemma KeptAppend(s: seq<byte>, b: byte)
    ensures Kept(Kept(s) + [b]) == Kept(s + [b])
  {
  }

  /** link_stream_t. */
  class BoundedStream {
    const buf: array<byte>
    var len: nat

    ghost predicate Valid()
      reads this
    {
      buf.Length == MAX_FRAME && len <= MAX_FRAME
    }

    ghost function Contents(): seq<byte>
      reads this, buf
      requires Valid()
    {
      buf[..len]
    }

    constructor ()
      ensures Valid() && fresh(buf) && Contents() == []
    {
      buf := new byte[MAX_FRAME];
      len := 0;
    }

    /** memmove of the bytes behind the first `n` to the front. */
    method Discard(n: nat)
      requires Valid() && n <= len
      modifies this`len, buf
      ensures Valid() && Contents() == old(Contents())[n..]
    {
      forall i | 0 <= i < len - n { buf[i] := buf[i + n]; }
      len := len - n;
    }

    /** One byte in; a full buffer loses its oldest byte. */
    method Append(b: byte)
      requires Valid()
      modifies this`len, buf
      ensures Valid() && Contents() == Kept(old(Contents()) + [b])
    {
      hide Kept;
      ghost var c := Contents();
      if len >= MAX_FRAME { Discard(1); }
      ghost var d := Contents();
      buf[len] := b;
      len := len + 1;
      assert Contents() == d + [b];
      KeptOne(c, b, d);
    }

    /** The filling loop. */
    method Fill(data: seq<byte>)
      requires Valid()
      modifies this`len, buf
      ensures Valid() && Contents() == Kept(old(Contents()) + data)
    {
      hide Kept;
      ghost var start := Contents();
      assert start + data[..0] == start;
      for i := 0 to |data|
        invariant Valid() && Contents() == Kept(start + data[..i])
      {
        Append(data[i]);
        KeptAppend(start + data[..i], data[i]);
        assert start + data[..i + 1] == (start + data[..i]) + [data[i]];
      }
      assert data[..|data|] == data;
    }

    /** The tests link_stream_push makes once the magic is in front, or fewer than two bytes are left. */
    method Inspect() returns (a: Action)
      requires Valid() && (len >= 2 ==> Magic(Contents()))
      ensures a == Next(Contents())
    {
      hide Decode, LengthAt;
      if len < HEADER_LEN { return Wait; }
      var length := LengthAt(buf[..len]);
      if length > MAX_PAYLOAD { return Drop; }
      var total := HEADER_LEN + length + 2;
      if len < total { return Wait; }
      assert buf[..total] == buf[..len][..total];
      if Decode(buf[..total]) == None { return Drop; }
      a := Emit(total);
    }

    /** link_stream_push. `accept` is the callback's verdict on a frame; the frames handed to it are returned. */
    method Push(data: seq<byte>, accept: seq<byte> -> bool) returns (rc: int, frames: seq<seq<byte>>)
      requires Valid()
      modifies this`len, buf
      ensures Valid()
      ensures Delivered(frames, Contents(), rc != 0) == Deliver(Kept(old(Contents()) + data), accept)
      ensures rc == 0 || rc == -1
    {
      hide Next, Deliver, Magic, MagicFrom, Kept, OnTrack;
      Fill(data);
      frames := [];
      ghost var goal := Deliver(Contents(), accept);
      TrackStart(Contents(), accept);
      while true
        invariant Valid() && OnTrack(goal, frames, Contents(), accept)
        decreases len
      {
        var start := FindMagic(buf[..len]);
        TrackSkip(goal, frames, Contents(), accept, start);
        Discard(start);
        var action := Inspect();
        TrackStep(goal, frames, Contents(), accept);
        if action.Wait? { return 0, frames; }
        if action.Drop? {
          Discard(1);
          continue;
        }
        var frame := buf[..action.size];
        Shorter(buf[..], len, action.size);
        assert frame == Contents()[..action.size];
        frames := frames + [frame];
        if !accept(frame) { return -1, frames; }
        Discard(action.size);
      }
    }
  }

  lemma Shorter(s: seq<byte>, n: nat, k: nat)
    requires k <= n <= |s|
    ensures s[..n][..k] == s[..k]
  {
  }

  /** What is still to be delivered from `buf` completes `frames` to the goal. */
  ghost predicate OnTrack(goal: Delivered, frames: seq<seq<byte>>, buf: seq<byte>, accept: seq<byte> -> bool) {
    var d := Deliver(buf, accept);
    goal == Delivered(frames + d.frames, d.rest, d.refused)
  }

  lemma TrackStart(buf: seq<byte>, accept: seq<byte> -> bool)
    ensures OnTrack(Deliver(buf, accept), [], buf, accept)
  {
    hide Deliver;
    assert [] + Deliver(buf, accept).frames == Deliver(buf, accept).frames;
  }

  lemma TrackSkip(goal: Delivered, frames: seq<seq<byte>>, buf: seq<byte>, accept: seq<byte> -> bool, k: nat)
    requires OnTrack(goal, frames, buf, accept) && MagicFrom(buf, k)
    ensures OnTrack(goal, frames, buf[k..], accept) && (|buf[k..]| >= 2 ==> Magic(buf[k..]))
  {
    hide Deliver, MagicFrom, Magic;
    DeliverSkip(buf, k, accept);
  }

  lemma TrackStep(goal: Delivered, frames: seq<seq<byte>>, buf: seq<byte>, accept: seq<byte> -> bool)
    requires OnTrack(goal, frames, buf, accept)
    ensures match Next(buf)
            case Wait => goal == Delivered(frames, buf, false)
            case Drop => OnTrack(goal, frames, buf[1..], accept)
            case Emit(n) =>
              if !accept(buf[..n]) then goal == Delivered(frames + [buf[..n]], buf, true)
              else OnTrack(goal, frames + [buf[..n]], buf[n..], accept)
  {
    hide Next, Deliver;
    DeliverStep(buf, accept);
    match Next(buf)
    case Wait => assert frames + [] == frames;
    case Drop =>
    case Emit(n) =>
      var d := Deliver(buf[n..], accept);
      assert frames + ([buf[..n]] + d.frames) == (frames + [buf[..n]]) + d.frames;
  }

  lemma DeliverStep(buf: seq<byte>, accept: seq<byte> -> bool)
    ensures Deliver(buf, accept) == match Next(buf)
                                    case Wait => Delivered([], buf, false)
                                    case Drop => Deliver(buf[1..], accept)
                                    case Emit(n) =>
                                      if !accept(buf[..n]) then Delivered([buf[..n]], buf, true)
                                      else var d := Deliver(buf[n..], accept); d.(frames := [buf[..n]] + d.frames)
  {
    hide Next;
  }

  lemma {:induction false} DeliverSkip(buf: seq<byte>, k: nat, accept: seq<byte> -> bool)
    requires MagicFrom(buf, k)
    ensures Deliver(buf, accept) == Deliver(buf[k..], accept)
    ensures |buf[k..]| >= 2 ==> Magic(buf[k..])
    decreases k
  {
    hide Decode, LengthAt;
    if k == 0 {
      assert buf[0..] == buf;
    } else {
      assert !MagicAt(buf, 0);
      MagicFromTail(buf, k);
      DeliverSkip(buf[1..], k - 1, accept);
      assert buf[1..][k - 1..] == buf[k..];
    }
  }

  // ---------------------------------------------------------------- bounded against unbounded

  /** A push that fits the buffer, with every frame taken, does what the unbounded parser does. */
  lemma BoundedAgrees(buf: seq<byte>, data: seq<byte>, accept: seq<byte> -> bool)
    requires |buf| + |data| <= MAX_FRAME && forall f :: f in Parse(buf + data).frames ==> accept(f)
    ensures Deliver(Kept(buf + data), accept) == Delivered(Parse(buf + data).frames, Parse(buf + data).rest, false)
  {
    DeliverAccepting(buf + data, accept);
  }

  /** A run of pushes into the bounded parser: the frames handed over, the bytes left, and whether one was refused. */
  function BoundedAll(buf: seq<byte>, chunks: seq<seq<byte>>, accept: seq<byte> -> bool): (d: Delivered)
    decreases |chunks|
  {
    if chunks == [] then Delivered([], buf, false)
    else
      var d := Deliver(Kept(buf + chunks[0]), accept);
      var r := BoundedAll(d.rest, chunks[1..], accept);
      Delivered(d.frames + r.frames, r.rest, d.refused || r.refused)
  }

  /** Every push finds room: what is left over and what comes in are together no longer than the buffer. */
  predicate FitRun(buf: seq<byte>, chunks: seq<seq<byte>>)
    decreases |chunks|
  {
    chunks == [] || (|buf| + |chunks[0]| <= MAX_FRAME && FitRun(Parse(buf + chunks[0]).rest, chunks[1..]))
  }

  /** As long as every push finds room and every frame is taken, the bounded parser does what the unbounded one does. */
  lemma {:induction false} FitRunAgrees(buf: seq<byte>, chunks: seq<seq<byte>>, accept: seq<byte> -> bool)
    requires FitRun(buf, chunks) && forall f :: f in PushAll(buf, chunks).frames ==> accept(f)
    ensures var p := PushAll(buf, chunks); BoundedAll(buf, chunks, accept) == Delivered(p.frames, p.rest, false)
    decreases |chunks|
  {
    hide Parse, Deliver, Kept;
    if chunks != [] {
      BoundedAgrees(buf, chunks[0], accept);
      FitRunAgrees(Parse(buf + chunks[0]).rest, chunks[1..], accept);
    }
  }

  /** So however a stream is cut into pushes that find room, the frames and leftovers are those of the whole. */
  lemma FitRunWhole(chunks: seq<seq<byte>>, accept: seq<byte> -> bool)
    requires FitRun([], chunks) && forall f :: f in Parse(Concat(chunks)).frames ==> accept(f)
    ensures var p := Parse(Concat(chunks)); BoundedAll([], chunks, accept) == Delivered(p.frames, p.rest, false)
  {
    hide Parse, FitRun, BoundedAll;
    WaitOnNothing();
    ChunkingIrrelevant([], chunks);
    assert [] + Concat(chunks) == Concat(chunks);
    FitRunAgrees([], chunks, accept);
  }

  function Singles(s: seq<byte>): (r: seq<seq<byte>>) {
    seq(|s|, i requires 0 <= i < |s| => [s[i]])
  }

  lemma {:induction false} ConcatSingles(s: seq<byte>)
    ensures Concat(Singles(s)) == s
  {
    if s != [] {
      assert Singles(s)[1..] == Singles(s[1..]);
      ConcatSingles(s[1..]);
    }
  }

  lemma {:induction false} BytesFit(buf: seq<byte>, chunks: seq<seq<byte>>)
    requires |buf| < MAX_FRAME && forall i :: 0 <= i < |chunks| ==> |chunks[i]| <= 1
    ensures FitRun(buf, chunks)
    decreases |chunks|
  {
    hide Parse;
    if chunks != [] { BytesFit(Parse(buf + chunks[0]).rest, chunks[1..]); }
  }

  /** Fed a byte at a time the bounded parser never loses a byte: it finds what the unbounded one finds in the whole. */
  lemma ByteFed(s: seq<byte>, accept: seq<byte> -> bool)
    requires forall f :: f in Parse(s).frames ==> accept(f)
    ensures BoundedAll([], Singles(s), accept) == Delivered(Parse(s).frames, Parse(s).rest, false)
  {
    hide Parse, FitRun, BoundedAll;
    BytesFit([], Singles(s));
    ConcatSingles(s);
    FitRunWhole(Singles(s), accept);
  }

  /** So the byte-fed bounded parser resynchronises: garbage, then frames, gives exactly the frames. */
  lemma ByteFedResync(g: seq<byte>, fs: seq<Frame>, accept: seq<byte> -> bool)
    requires NoMagic(g) && AllFit(fs) && fs != [] && forall f :: f in Wires(fs) ==> accept(f)
    ensures BoundedAll([], Singles(g + Concat(Wires(fs))), accept) == Delivered(Wires(fs), [], false)
  {
    hide Parse, BoundedAll, Wires;
    Resync(g, fs);
    ByteFed(g + Concat(Wires(fs)), accept);
  }

  /** One byte too many in one push costs a frame: the byte dropped at the front was its magic. */
  lemma OverflowLosesFrame(f: Frame, x: byte)
    requires Shaped(f) && f.length == MAX_PAYLOAD && NoMagic((Wire(f) + [x])[1..])
    ensures Parse(Wire(f) + [x]).frames == [Wire(f)] && Parse(Kept(Wire(f) + [x])).frames == []
  {
    hide Wire, Parse, Next;
    var s := Wire(f) + [x];
    WireEmits(f, [x]);
    ParseStep(s);
    assert s[|Wire(f)|..] == [x] && s[..|Wire(f)|] == Wire(f);
    ShortWaits(x);
    ParseStep([x]);
    assert Kept(s) == s[1..];
    NothingFound(s[1..]);
  }

  lemma ShortWaits(x: byte)
    ensures Next([x]).Wait?
  {
  }

  lemma {:induction false} NothingFound(s: seq<byte>)
    requires NoMagic(s)
    ensures Parse(s).frames == []
    decreases |s|
  {
    if |s| >= 2 {
      assert !MagicAt(s, 0);
      assert NoMagic(s[1..]) by {
        forall i: nat | i < |s| - 1 ensures !MagicAt(s[1..], i) { assert !MagicAt(s, i + 1); }
      }
      NothingFound(s[1..]);
    }
  }
}
