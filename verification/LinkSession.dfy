/** The counter session of link/link_session.c and scripts/link_codec.py, over a lossy channel. */
module LinkSession {
  import opened Basics
  import opened Bytes
  import opened LinkFrame
  import opened Gcm
  import G = GcmCtr

  const ENCRYPTED: byte := 0x08
  const DIR_HOST: byte := 0
  const DIR_DEVICE: byte := 1
  const MAX_PLAIN := 216
  const OVERHEAD := 24

  /** link_session_t; the key is the block cipher under it. */
  datatype Session = Session(enc: Block -> Block, keyId: byte, session: bv16, tx: nat, rx: nat, txDir: byte, open: bool)

  function Peer(dir: byte): byte {
    if dir == DIR_HOST then DIR_DEVICE else DIR_HOST
  }

  function Nonce(s: Session, dir: byte, counter: nat): (n: seq<byte>)
    ensures |n| == 12
  {
    [dir, s.keyId, Lo(s.session), Hi(s.session)] + Little(counter, 8)
  }

  /** header_aad and the counter: what the tag covers beside the ciphertext. */
  function Aad(f: Frame): (a: seq<byte>)
    requires |f.payload| == MAX_PAYLOAD
  {
    [VersionOf(f), f.flags, f.channel, Lo(f.msgId), Hi(f.msgId), LenLo(f.length), LenHi(f.length)] + f.payload[..8]
  }

  // ---------------------------------------------------------------- sealing

  datatype Message = Message(channel: byte, msgId: bv16, pt: seq<byte>)

  /** The sealed frame before its ciphertext is filled in: header and counter are all the tag needs of it. */
  function Envelope(m: Message, counter: nat): (f: Frame)
    requires |m.pt| <= MAX_PLAIN
    ensures |f.payload| == MAX_PAYLOAD
  {
    Frame(VERSION, ENCRYPTED, m.channel, m.msgId, OVERHEAD + |m.pt|, Little(counter, 8) + Zeros(MAX_PAYLOAD - 8))
  }

  function SealedFrame(s: Session, m: Message, counter: nat): (f: Frame)
    requires |m.pt| <= MAX_PLAIN
    ensures Shaped(f) && f.length <= MAX_PAYLOAD
  {
    var e := Envelope(m, counter);
    var g := G.Encrypt(s.enc, Nonce(s, s.txDir, counter), Aad(e), m.pt);
    e.(payload := Little(counter, 8) + g.ct + g.tag + Zeros(MAX_PLAIN - |m.pt|))
  }

  predicate Sealable(s: Session, m: Message) {
    s.open && |m.pt| <= MAX_PLAIN
  }

  function NextTx(s: Session): nat { (s.tx + 1) % U64 }

  /** Session and bytes after link_session_seal; the counter is spent even when the frame does not fit `cap`. */
  function Seal(s: Session, m: Message, cap: nat): (Session, Option<seq<byte>>) {
    if !Sealable(s, m) then (s, None)
    else
      var f := SealedFrame(s, m, NextTx(s));
      (s.(tx := NextTx(s)), if cap < HEADER_LEN + f.length + 2 then None else Some(Wire(f)))
  }

  /** A counter is spent exactly when the session is open and the text fits; a frame then comes out if it has room. */
  lemma SealIff(s: Session, m: Message, cap: nat)
    ensures var (t, w) := Seal(s, m, cap);
            && t == (if s.open && |m.pt| <= 216 then s.(tx := (s.tx + 1) % 0x1_0000_0000_0000_0000) else s)
            && (w.Some? <==> s.open && |m.pt| <= 216 && 35 + |m.pt| <= cap)
            && (w.Some? ==> |w.value| == 35 + |m.pt|)
  {
    hide Wire, SealedFrame;
    if |m.pt| <= MAX_PLAIN { SealedHeader(s, m, NextTx(s)); }
  }

  // ---------------------------------------------------------------- opening

  predicate IsEncrypted(f: Frame) { f.flags & ENCRYPTED != 0 }

  function Clear(flags: byte): byte { flags & 0xF7 }

  function CounterOf(f: Frame): nat
    requires |f.payload| == MAX_PAYLOAD
  {
    FromLittle(f.payload[..8])
  }

  /** Why a frame is not even decrypted. */
  predicate Stale(s: Session, f: Frame)
    requires |f.payload| == MAX_PAYLOAD
  {
    !s.open || !IsEncrypted(f) || f.length < OVERHEAD || CounterOf(f) == 0 || CounterOf(f) <= s.rx
  }

  function Opening(s: Session, f: Frame): (r: G.Opened)
    requires |f.payload| == MAX_PAYLOAD && OVERHEAD <= f.length <= MAX_PAYLOAD
    ensures r.Opened? ==> |r.pt| == f.length - OVERHEAD
  {
    var n := f.length - OVERHEAD;
    G.Decrypt(s.enc, Nonce(s, Peer(s.txDir), CounterOf(f)), Aad(f), f.payload[8..8 + n], f.payload[8 + n..OVERHEAD + n])
  }

  function Plain(f: Frame, pt: seq<byte>): Frame
    requires |pt| <= MAX_PAYLOAD
  {
    Frame(f.version, Clear(f.flags), f.channel, f.msgId, |pt|, pt + Zeros(MAX_PAYLOAD - |pt|))
  }

  /** Session and plain frame after link_session_open. */
  function Open(s: Session, f: Frame): (Session, Option<Frame>)
    requires |f.payload| == MAX_PAYLOAD && f.length <= MAX_PAYLOAD
  {
    if Stale(s, f) then (s, None)
    else
      match Opening(s, f)
      case Refused => (s, None)
      case Opened(pt) => (s.(rx := CounterOf(f)), Some(Plain(f, pt)))
  }

  /** The receive counter moves up on acceptance and stays on refusal, whatever the frame. */
  lemma OpenMonotone(s: Session, f: Frame)
    requires |f.payload| == MAX_PAYLOAD && f.length <= MAX_PAYLOAD
    ensures var (s', r) := Open(s, f);
            && s' == s.(rx := s'.rx) && (r.Some? ==> s'.rx > s.rx) && (r.None? ==> s' == s)
  {
    hide Opening, CounterOf, IsEncrypted, Plain;
  }

  /** The bytes the tag belongs to determine the header fields, the counter and the lengths: none can be exchanged. */
  lemma AadOneToOne(f: Frame, g: Frame)
    requires Shaped(f) && Shaped(g) && Aad(f) == Aad(g)
    ensures VersionOf(f) == VersionOf(g) && f.flags == g.flags && f.channel == g.channel && f.msgId == g.msgId
    ensures f.length == g.length && CounterOf(f) == CounterOf(g)
  {
    AadParts(f);
    AadParts(g);
    hide Aad, Word, Len, VersionOf, FromLittle;
  }

  lemma AadParts(f: Frame)
    requires Shaped(f)
    ensures var a := Aad(f);
            && |a| == 15 && a[0] == VersionOf(f) && a[1] == f.flags && a[2] == f.channel && Word(a[3], a[4]) == f.msgId
            && Len(a[5], a[6]) == f.length && a[7..] == f.payload[..8]
  {
    hide Lo, Hi, Word, Len, LenLo, LenHi;
    WordRoundTrip(f.msgId);
    LenRoundTrip(f.length);
  }

  /** The tag a frame must carry under the counter in it. */
  function RightTag(s: Session, f: Frame): Block
    requires |f.payload| == MAX_PAYLOAD && OVERHEAD <= f.length <= MAX_PAYLOAD
  {
    G.Tag(s.enc, G.J0(Nonce(s, Peer(s.txDir), CounterOf(f))), Aad(f), f.payload[8..f.length - 16])
  }

  /** The plain frame of `f`: the same header without the encryption flag, the text unmasked, and zeros behind it. */
  ghost predicate OpensAs(s: Session, f: Frame, p: Frame)
    requires |f.payload| == MAX_PAYLOAD && OVERHEAD <= f.length <= MAX_PAYLOAD
  {
    var n, j0 := f.length - 24, G.J0(Nonce(s, Peer(s.txDir), CounterOf(f)));
    && p.version == f.version && p.flags == f.flags & 0xF7 && p.channel == f.channel && p.msgId == f.msgId
    && p.length == n && p.payload == G.Ctr(s.enc, j0, f.payload[8..8 + n]) + Zeros(MAX_PAYLOAD - n)
  }

  /** A frame is accepted exactly when the session is open, its counter is ahead, and its last 16 bytes are its tag. */
  lemma OpenIff(s: Session, f: Frame)
    requires |f.payload| == MAX_PAYLOAD && f.length <= MAX_PAYLOAD
    ensures Open(s, f).1.Some? <==>
              && s.open && f.flags & 0x08 != 0 && 24 <= f.length && s.rx < CounterOf(f)
              && f.payload[f.length - 16..f.length] == RightTag(s, f)
    ensures Open(s, f).1.Some? ==> Open(s, f).0.rx == CounterOf(f)
    ensures Open(s, f).1.None? ==> Open(s, f).0 == s
    ensures Open(s, f).1.Some? ==> OpensAs(s, f, Open(s, f).1.value)
  {
    hide G.Tag, G.Ctr, CounterOf, Aad, Nonce, G.J0;
    if 24 <= f.length {
      var n := f.length - OVERHEAD;
      assert 8 + n == f.length - 16 && OVERHEAD + n == f.length;
    }
  }

  // ---------------------------------------------------------------- the round trip

  /** Two ends of one session: the same key, key id and session number, opposite directions. */
  ghost predicate Paired(a: Session, b: Session) {
    a.enc == b.enc && a.keyId == b.keyId && a.session == b.session && a.txDir == Peer(b.txDir) && b.open
  }

  lemma BaseEight()
    ensures Base(8) == U64
  {
    assert Base(2) == 0x10000;
    assert Base(4) == 0x1_0000_0000;
    assert Base(6) == 0x1_0000_0000_0000;
  }

  lemma FlagSet()
    ensures ENCRYPTED & ENCRYPTED != 0 && Clear(ENCRYPTED) == 0
  {
  }

  /** What the receiver cuts out of a sealed payload. */
  lemma SealedParts(s: Session, m: Message, c: nat)
    requires |m.pt| <= MAX_PLAIN && c < U64
    ensures var f, n := SealedFrame(s, m, c), |m.pt|;
            var g := G.Encrypt(s.enc, Nonce(s, s.txDir, c), Aad(Envelope(m, c)), m.pt);
            && CounterOf(f) == c && f.payload[8..8 + n] == g.ct && f.payload[8 + n..OVERHEAD + n] == g.tag
            && Aad(f) == Aad(Envelope(m, c)) && Normal(f) == f
  {
    hide G.Encrypt, Little, FromLittle, Nonce;
    var f := SealedFrame(s, m, c);
    BaseEight();
    LittleRoundTrip(c, 8);
    assert f.payload[..8] == Little(c, 8) == Envelope(m, c).payload[..8];
    assert f.payload[..f.length] + Zeros(MAX_PAYLOAD - f.length) == f.payload;
  }

  lemma SealedDecodes(a: Session, m: Message, c: nat)
    requires |m.pt| <= MAX_PLAIN && c < U64
    ensures Decode(Wire(SealedFrame(a, m, c))) == Some(SealedFrame(a, m, c))
  {
    hide SealedFrame, Wire, Decode, Aad, CounterOf, Nonce, G.Encrypt;
    var f := SealedFrame(a, m, c);
    SealedParts(a, m, c);
    RoundTrip(f, []);
    assert Wire(f) + [] == Wire(f);
  }

  lemma SealedOpens(a: Session, b: Session, m: Message, c: nat)
    requires Paired(a, b) && |m.pt| <= MAX_PLAIN && c < U64
    ensures Opening(b, SealedFrame(a, m, c)) == G.Opened(m.pt)
  {
    hide SealedFrame, Aad, CounterOf, G.Encrypt, G.Decrypt, Normal, Envelope, Little;
    SealedHeader(a, m, c);
    SealedParts(a, m, c);
    G.DecryptEncrypt(a.enc, Nonce(a, a.txDir, c), Aad(Envelope(m, c)), m.pt);
  }

  /** What is sealed at one end, sent, and opened at the other comes out as it went in. */
  lemma SealOpen(a: Session, b: Session, m: Message, c: nat)
    requires Paired(a, b) && |m.pt| <= MAX_PLAIN && b.rx < c < U64
    ensures Decode(Wire(SealedFrame(a, m, c))) == Some(SealedFrame(a, m, c))
    ensures Open(b, SealedFrame(a, m, c)) ==
            (b.(rx := c), Some(Frame(VERSION, 0, m.channel, m.msgId, |m.pt|, m.pt + Zeros(MAX_PAYLOAD - |m.pt|))))
  {
    hide SealedFrame, Wire, Decode, Aad, Clear, CounterOf, Opening, Normal, Nonce, G.Encrypt, Envelope;
    SealedDecodes(a, m, c);
    SealedHeader(a, m, c);
    SealedParts(a, m, c);
    SealedOpens(a, b, m, c);
    FlagSet();
  }

  lemma SealedHeader(s: Session, m: Message, c: nat)
    requires |m.pt| <= MAX_PLAIN
    ensures var f := SealedFrame(s, m, c);
            && f.version == VERSION && f.flags == ENCRYPTED && f.channel == m.channel && f.msgId == m.msgId
            && f.length == OVERHEAD + |m.pt|
  {
  }

  /** A frame of the peer whose counter is not ahead is refused. */
  lemma ReplayRefused(a: Session, b: Session, m: Message, c: nat)
    requires |m.pt| <= MAX_PLAIN && c < U64 && c <= b.rx
    ensures Open(b, SealedFrame(a, m, c)) == (b, None)
  {
    hide SealedFrame;
    SealedParts(a, m, c);
  }

  // ---------------------------------------------------------------- a lossy channel, both ways

  /** One direction of the channel. */
  datatype Lane = Lane(
    wires: seq<seq<byte>>,   // every frame sealed and put on the wire so far
    sent: seq<Message>,      // the message in it
    counters: seq<nat>,      // and the counter it was sealed under
    got: seq<Message>,       // what the receiver accepted
    taken: seq<nat>)         // and which frame it came from

  const EMPTY := Lane([], [], [], [], [])

  datatype Net = Net(a: Session, b: Session, ab: Lane, ba: Lane)

  /**
   * An end seals a message into a buffer of `cap` bytes, or the channel hands over the `i`-th frame of a lane, perhaps
   * late, again or never.
   */
  datatype Event = SealA(m: Message, cap: nat) | SealB(m: Message, cap: nat) | DeliverToB(i: nat) | DeliverToA(i: nat)

  function Received(f: Frame): Message
    requires f.length <= |f.payload|
  {
    Message(f.channel, f.msgId, f.payload[..f.length])
  }

  /** The sender and the lane after an attempt to seal; a buffer that is too short spends a counter. */
  function SealOn(s: Session, l: Lane, m: Message, cap: nat): (Session, Lane) {
    var (s', w) := Seal(s, m, cap);
    (s', if w.None? then l
         else l.(wires := l.wires + [w.value], sent := l.sent + [m], counters := l.counters + [s'.tx]))
  }

  /** The receiver and the lane after a delivery. */
  function DeliverOn(s: Session, l: Lane, i: nat): (Session, Lane) {
    if i >= |l.wires| || Decode(l.wires[i]).None? then (s, l)
    else
      var (s', r) := Open(s, Decode(l.wires[i]).value);
      (s', if r.None? then l else l.(got := l.got + [Received(r.value)], taken := l.taken + [i]))
  }

  function Step(n: Net, e: Event): Net {
    match e
    case SealA(m, cap) => var (a, l) := SealOn(n.a, n.ab, m, cap); n.(a := a, ab := l)
    case SealB(m, cap) => var (b, l) := SealOn(n.b, n.ba, m, cap); n.(b := b, ba := l)
    case DeliverToB(i) => var (b, l) := DeliverOn(n.b, n.ab, i); n.(b := b, ab := l)
    case DeliverToA(i) => var (a, l) := DeliverOn(n.a, n.ba, i); n.(a := a, ba := l)
  }

  function Run(n: Net, es: seq<Event>): Net
    decreases |es|
  {
    if es == [] then n else Run(Step(n, es[0]), es[1..])
  }

  /** What sealing and opening depend on, besides the counters. */
  function Key(s: Session): Session { s.(tx := 0, rx := 0) }

  lemma SealedFrameKey(s: Session, m: Message, c: nat)
    requires |m.pt| <= MAX_PLAIN
    ensures SealedFrame(s, m, c) == SealedFrame(Key(s), m, c)
  {
    hide G.Encrypt, Little;
    assert Nonce(s, s.txDir, c) == Nonce(Key(s), s.txDir, c);
  }

  /** Frame `i` carries message `i` under its counter. */
  ghost predicate Carries(key: Session, l: Lane, i: nat)
    requires i < |l.wires| && i < |l.sent| && i < |l.counters|
  {
    |l.sent[i].pt| <= MAX_PLAIN && l.wires[i] == Wire(SealedFrame(key, l.sent[i], l.counters[i]))
  }

  ghost predicate Increasing(t: seq<nat>) {
    forall i, j :: 0 <= i < j < |t| ==> t[i] < t[j]
  }

  /** The accepted messages are the sent ones picked out by `taken`, in order and none twice. */
  ghost predicate Subsequence(l: Lane) {
    && |l.got| == |l.taken| && Increasing(l.taken)
    && (forall j :: 0 <= j < |l.taken| ==> l.taken[j] < |l.sent| && l.got[j] == l.sent[l.taken[j]])
  }

  /** Counters, frames and accepted messages of one direction are in step. */
  ghost predicate LaneInv(from: Session, to: Session, l: Lane) {
    && Paired(from, to) && |l.wires| == |l.sent| == |l.counters| && to.rx <= from.tx
    && Increasing(l.counters) && (forall i :: 0 <= i < |l.counters| ==> 0 < l.counters[i] <= from.tx)
    && (forall i: nat :: i < |l.wires| ==> Carries(Key(from), l, i))
    && Subsequence(l) && (forall j :: 0 <= j < |l.taken| ==> l.counters[l.taken[j]] <= to.rx)
  }

  ghost predicate Inv(n: Net) {
    LaneInv(n.a, n.b, n.ab) && LaneInv(n.b, n.a, n.ba)
  }

  /** A direction does not look at its sender's receive counter nor at its receiver's send counter. */
  lemma LaneFrame(from: Session, to: Session, from': Session, to': Session, l: Lane)
    requires LaneInv(from, to, l) && Key(from') == Key(from) && Key(to') == Key(to)
    requires from'.tx == from.tx && to'.rx == to.rx
    ensures LaneInv(from', to', l)
  {
    hide Carries, Subsequence;
  }

  lemma SealCases(s: Session, m: Message, cap: nat)
    requires s.tx + 1 < U64
    ensures var (s', w) := Seal(s, m, cap);
            || (s' == s && w.None?)
            || (s' == s.(tx := s.tx + 1) && w.None?)
            || (s' == s.(tx := s.tx + 1) && |m.pt| <= MAX_PLAIN && w == Some(Wire(SealedFrame(Key(s), m, s.tx + 1))))
  {
    hide SealedFrame, Wire;
    if Sealable(s, m) { SealedFrameKey(s, m, s.tx + 1); }
  }

  lemma SealLane(from: Session, to: Session, l: Lane, m: Message, cap: nat)
    requires LaneInv(from, to, l) && from.tx + 1 < U64
    ensures var (s, l') := SealOn(from, l, m, cap);
            LaneInv(s, to, l') && Key(s) == Key(from) && s.rx == from.rx && from.tx <= s.tx <= from.tx + 1
  {
    hide SealedFrame, Wire, Seal;
    SealCases(from, m, cap);
    var (s, l') := SealOn(from, l, m, cap);
    forall i: nat | i < |l'.wires| ensures Carries(Key(s), l', i) {
      if i < |l.wires| { assert Carries(Key(from), l, i); }
    }
  }

  lemma PlainBack(m: Message)
    requires |m.pt| <= MAX_PLAIN
    ensures Received(Frame(VERSION, 0, m.channel, m.msgId, |m.pt|, m.pt + Zeros(MAX_PAYLOAD - |m.pt|))) == m
  {
  }

  lemma DeliverLane(from: Session, to: Session, l: Lane, i: nat)
    requires LaneInv(from, to, l) && from.tx < U64
    ensures var (s, l') := DeliverOn(to, l, i);
            LaneInv(from, s, l') && Key(s) == Key(to) && s.tx == to.tx
    ensures i < |l.wires| && to.rx < l.counters[i] ==> DeliverOn(to, l, i).1.got == l.got + [l.sent[i]]
  {
    hide SealedFrame, Wire, Decode, Open;
    if i < |l.wires| {
      assert Carries(Key(from), l, i);
      var m, c := l.sent[i], l.counters[i];
      SealedDecodes(Key(from), m, c);
      var (s, l') := DeliverOn(to, l, i);
      if c <= to.rx {
        ReplayRefused(Key(from), to, m, c);
      } else {
        SealOpen(Key(from), to, m, c);
        PlainBack(m);
        assert l'.taken == l.taken + [i] && l'.got == l.got + [m] && s.rx == c;
      }
      forall k: nat | k < |l'.wires| ensures Carries(Key(from), l', k) { assert Carries(Key(from), l, k); }
    }
  }

  /** Counters spent so far, both ways. */
  function Spent(n: Net): nat { n.a.tx + n.b.tx }

  lemma StepInv(n: Net, e: Event)
    requires Inv(n) && Spent(n) + 1 < U64
    ensures Inv(Step(n, e)) && Spent(Step(n, e)) <= Spent(n) + 1
  {
    hide LaneInv, SealOn, DeliverOn;
    var r := Step(n, e);
    match e
    case SealA(m, cap) => SealLane(n.a, n.b, n.ab, m, cap); LaneFrame(n.b, n.a, n.b, r.a, n.ba);
    case SealB(m, cap) => SealLane(n.b, n.a, n.ba, m, cap); LaneFrame(n.a, n.b, n.a, r.b, n.ab);
    case DeliverToB(i) => DeliverLane(n.a, n.b, n.ab, i); LaneFrame(n.b, n.a, r.b, n.a, n.ba);
    case DeliverToA(i) => DeliverLane(n.b, n.a, n.ba, i); LaneFrame(n.a, n.b, r.a, n.b, n.ab);
  }

  lemma {:induction false} RunInv(n: Net, es: seq<Event>)
    requires Inv(n) && Spent(n) + |es| < U64
    ensures Inv(Run(n, es))
    decreases |es|
  {
    hide Step, Inv, Spent;
    if es != [] {
      StepInv(n, es[0]);
      RunInv(Step(n, es[0]), es[1..]);
    }
  }

  /**
   * Both ends talk, and whatever the channel drops, repeats or reorders, what each end accepts is a subsequence of what
   * the other one sealed, in order and without repeats, with channel, message id and text intact.
   */
  lemma InOrderOnce(a: Session, b: Session, es: seq<Event>)
    requires Paired(a, b) && Paired(b, a) && a.tx == b.tx == a.rx == b.rx == 0 && |es| < U64
    ensures var n := Run(Net(a, b, EMPTY, EMPTY), es); Subsequence(n.ab) && Subsequence(n.ba)
  {
    hide Run, Inv, Spent, Paired, Subsequence;
    FreshInv(a, b);
    RunInv(Net(a, b, EMPTY, EMPTY), es);
    InvOrder(Run(Net(a, b, EMPTY, EMPTY), es));
  }

  lemma FreshInv(a: Session, b: Session)
    requires Paired(a, b) && Paired(b, a) && a.tx == b.tx == a.rx == b.rx == 0
    ensures Inv(Net(a, b, EMPTY, EMPTY)) && Spent(Net(a, b, EMPTY, EMPTY)) == 0
  {
    hide Carries;
  }

  lemma InvOrder(n: Net)
    requires Inv(n)
    ensures Subsequence(n.ab) && Subsequence(n.ba)
  {
    hide Carries, Subsequence, Paired;
  }

  /** And frames are lost for good reasons only: one delivered before any later one of its lane is accepted. */
  lemma FreshAccepted(n: Net, i: nat)
    requires Inv(n) && Spent(n) < U64
    ensures i < |n.ab.wires| == |n.ab.counters| == |n.ab.sent| && n.b.rx < n.ab.counters[i] ==>
              Step(n, DeliverToB(i)).ab.got == n.ab.got + [n.ab.sent[i]]
    ensures i < |n.ba.wires| == |n.ba.counters| == |n.ba.sent| && n.a.rx < n.ba.counters[i] ==>
              Step(n, DeliverToA(i)).ba.got == n.ba.got + [n.ba.sent[i]]
  {
    hide DeliverOn;
    DeliverLane(n.a, n.b, n.ab, i);
    DeliverLane(n.b, n.a, n.ba, i);
  }
}
