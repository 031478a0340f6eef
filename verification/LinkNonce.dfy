/** The nonces of link/link_session.c: none is used twice in a session, so no block is masked twice under a key. */
module LinkNonce {
  import opened Basics
  import opened Bytes
  import opened LinkFrame
  import opened LinkSession
  import opened Gcm
  import G = GcmCtr

  // ---------------------------------------------------------------- one nonce

  /** Direction, key id, session number and the whole counter can be read off a nonce. */
  lemma NonceParts(s: Session, dir: byte, c: nat)
    requires c < U64
    ensures var n := Nonce(s, dir, c);
            n[0] == dir && n[1] == s.keyId && Word(n[2], n[3]) == s.session && FromLittle(n[4..]) == c
  {
    hide Lo, Hi, Word, Little, FromLittle;
    BaseEight();
    LittleRoundTrip(c, 8);
    WordRoundTrip(s.session);
    assert Nonce(s, dir, c)[4..] == Little(c, 8);
  }

  /** So nonces are one to one. */
  lemma NonceOneToOne(s: Session, t: Session, d: byte, d': byte, c: nat, c': nat)
    requires c < U64 && c' < U64 && Nonce(s, d, c) == Nonce(t, d', c')
    ensures d == d' && c == c' && s.keyId == t.keyId && s.session == t.session
  {
    hide Nonce, Word, FromLittle;
    NonceParts(s, d, c);
    NonceParts(t, d', c');
  }

  lemma NonceKey(s: Session, dir: byte, c: nat)
    ensures Nonce(s, dir, c) == Nonce(Key(s), dir, c)
  {
    hide Little, Lo, Hi;
  }

  /** What link_session_seal puts out is masked and tagged under the nonce of its direction and the next counter. */
  lemma SealUses(s: Session, m: Message, cap: nat)
    requires Seal(s, m, cap).1.Some? && s.tx + 1 < U64
    ensures var nonce, f, n := Nonce(s, s.txDir, s.tx + 1), SealedFrame(s, m, s.tx + 1), |m.pt|;
            && Seal(s, m, cap) == (s.(tx := s.tx + 1), Some(Wire(f))) && CounterOf(f) == s.tx + 1
            && f.payload[8..8 + n] == G.Ctr(s.enc, G.J0(nonce), m.pt)
            && f.payload[8 + n..OVERHEAD + n] == G.Tag(s.enc, G.J0(nonce), Aad(f), f.payload[8..8 + n])
  {
    hide SealedFrame, Wire, Aad, CounterOf, Nonce, G.Ctr, G.Tag, Envelope, Normal, G.J0;
    SealedHeader(s, m, s.tx + 1);
    SealedParts(s, m, s.tx + 1);
  }

  // ---------------------------------------------------------------- all nonces of a run

  /** The nonce an event encrypts under, if it encrypts; a frame that then finds no room counts. */
  function Uses(n: Net, e: Event): seq<seq<byte>> {
    match e
    case SealA(m, _) => if Sealable(n.a, m) then [Nonce(n.a, n.a.txDir, NextTx(n.a))] else []
    case SealB(m, _) => if Sealable(n.b, m) then [Nonce(n.b, n.b.txDir, NextTx(n.b))] else []
    case _ => []
  }

  /** The nonces of a run, both ends together, in order. */
  function Used(n: Net, es: seq<Event>): seq<seq<byte>>
    decreases |es|
  {
    if es == [] then [] else Uses(n, es[0]) + Used(Step(n, es[0]), es[1..])
  }

  /** A nonce under which this end has not sealed yet. */
  ghost predicate AheadOf(s: Session, x: seq<byte>) {
    exists c: nat :: s.tx < c < U64 && x == Nonce(s, s.txDir, c)
  }

  ghost predicate Ahead(n: Net, x: seq<byte>) {
    AheadOf(n.a, x) || AheadOf(n.b, x)
  }

  ghost predicate Distinct(xs: seq<seq<byte>>) {
    forall i, j :: 0 <= i < j < |xs| ==> xs[i] != xs[j]
  }

  /** One end is as it was but for its counters, of which the sending one has not gone back. */
  ghost predicate Onward(s: Session, t: Session) {
    Key(s) == Key(t) && s.tx <= t.tx
  }

  lemma AheadBefore(s: Session, t: Session, x: seq<byte>)
    requires Onward(s, t) && AheadOf(t, x)
    ensures AheadOf(s, x)
  {
    var c: nat :| t.tx < c < U64 && x == Nonce(t, t.txDir, c);
    NonceKey(s, s.txDir, c);
    NonceKey(t, t.txDir, c);
    hide Nonce;
  }

  lemma SealTx(s: Session, m: Message, cap: nat)
    requires s.tx + 1 < U64
    ensures Seal(s, m, cap).0 == if Sealable(s, m) then s.(tx := s.tx + 1) else s
  {
    hide SealedFrame, Wire;
  }

  lemma DeliverTx(s: Session, l: Lane, i: nat)
    ensures var t := DeliverOn(s, l, i).0; t == s.(rx := t.rx)
  {
    hide Decode, Stale, Opening, Plain, Received;
  }

  /** An end moves on by one counter exactly when it encrypts. */
  lemma StepTx(n: Net, e: Event)
    requires Spent(n) + 1 < U64
    ensures var r := Step(n, e);
            && Onward(n.a, r.a) && Onward(n.b, r.b)
            && (e.SealA? && Sealable(n.a, e.m) ==> r.a.tx == n.a.tx + 1)
            && (e.SealB? && Sealable(n.b, e.m) ==> r.b.tx == n.b.tx + 1)
  {
    hide Seal, DeliverOn, Sealable;
    match e
    case SealA(m, cap) => SealTx(n.a, m, cap);
    case SealB(m, cap) => SealTx(n.b, m, cap);
    case DeliverToB(i) => DeliverTx(n.b, n.ab, i);
    case DeliverToA(i) => DeliverTx(n.a, n.ba, i);
  }

  /** Every nonce of a run is ahead of where the run starts. */
  lemma {:induction false} UsedAhead(n: Net, es: seq<Event>, x: seq<byte>)
    requires Spent(n) + |es| < U64 && x in Used(n, es)
    ensures Ahead(n, x)
    decreases |es|
  {
    hide Step, Nonce, Sealable;
    StepTx(n, es[0]);
    if x in Uses(n, es[0]) {
      FirstUse(n, es[0], x);
    } else {
      var r := Step(n, es[0]);
      StepSpent(n, es[0]);
      UsedAhead(r, es[1..], x);
      if AheadOf(r.a, x) { AheadBefore(n.a, r.a, x); } else { AheadBefore(n.b, r.b, x); }
    }
  }

  lemma FirstUse(n: Net, e: Event, x: seq<byte>)
    requires Spent(n) + 1 < U64 && x in Uses(n, e)
    ensures Ahead(n, x)
    ensures if e.SealA? then Sealable(n.a, e.m) && x == Nonce(n.a, n.a.txDir, n.a.tx + 1)
            else e.SealB? && Sealable(n.b, e.m) && x == Nonce(n.b, n.b.txDir, n.b.tx + 1)
  {
    hide Nonce, Sealable;
  }

  lemma StepSpent(n: Net, e: Event)
    requires Spent(n) + 1 < U64
    ensures Spent(Step(n, e)) <= Spent(n) + 1
  {
    hide Seal, DeliverOn;
    match e
    case SealA(m, cap) => SealTx(n.a, m, cap);
    case SealB(m, cap) => SealTx(n.b, m, cap);
    case DeliverToB(i) => DeliverTx(n.b, n.ab, i);
    case DeliverToA(i) => DeliverTx(n.a, n.ba, i);
  }

  /** The two ends send in different directions. */
  lemma Opposite(a: Session, b: Session)
    requires Paired(a, b) && Paired(b, a)
    ensures a.txDir != b.txDir
  {
  }

  /** A nonce just used is not one that either end still has ahead. */
  lemma UsedOnce(n: Net, e: Event, x: seq<byte>)
    requires n.a.txDir != n.b.txDir && Spent(n) + 1 < U64 && x in Uses(n, e)
    ensures !Ahead(Step(n, e), x)
  {
    hide Step, Nonce, Sealable, Uses;
    FirstUse(n, e, x);
    StepTx(n, e);
    var r := Step(n, e);
    if AheadOf(r.a, x) { NotAhead(n, e, x, r.a); }
    if AheadOf(r.b, x) { NotAhead(n, e, x, r.b); }
  }

  lemma NotAhead(n: Net, e: Event, x: seq<byte>, t: Session)
    requires n.a.txDir != n.b.txDir && Spent(n) + 1 < U64 && (e.SealA? || e.SealB?)
    requires var s := if e.SealA? then n.a else n.b;
             && x == Nonce(s, s.txDir, s.tx + 1)
             && (if t.txDir == s.txDir then s.tx + 1 <= t.tx else true)
    ensures !AheadOf(t, x)
  {
    hide Nonce;
    var s := if e.SealA? then n.a else n.b;
    forall c: nat | t.tx < c < U64 ensures x != Nonce(t, t.txDir, c) {
      if x == Nonce(t, t.txDir, c) { NonceOneToOne(s, t, s.txDir, t.txDir, s.tx + 1, c); }
    }
  }

  /** Over every run of both ends no nonce is used twice, whether the frame was sent or not. */
  lemma {:induction false} NoncesDistinct(n: Net, es: seq<Event>)
    requires n.a.txDir != n.b.txDir && Spent(n) + |es| < U64
    ensures Distinct(Used(n, es))
    decreases |es|
  {
    hide Step, Nonce, Sealable, Ahead, Onward, Uses;
    if es != [] {
      var first, r := Uses(n, es[0]), Step(n, es[0]);
      StepSpent(n, es[0]);
      StepSides(n, es[0]);
      NoncesDistinct(r, es[1..]);
      UsesOne(n, es[0]);
      var rest := Used(r, es[1..]);
      forall j | 0 <= j < |rest| && first != [] ensures first[0] != rest[j] {
        UsedAhead(r, es[1..], rest[j]);
        UsedOnce(n, es[0], first[0]);
      }
    }
  }

  lemma UsesOne(n: Net, e: Event)
    ensures |Uses(n, e)| <= 1
  {
    hide Nonce;
  }

  lemma StepSides(n: Net, e: Event)
    requires Spent(n) + 1 < U64
    ensures Step(n, e).a.txDir == n.a.txDir && Step(n, e).b.txDir == n.b.txDir
  {
    hide Step;
    StepTx(n, e);
  }

  /** The nonce of the `i`-th frame on a lane. */
  ghost function NonceAt(from: Session, l: Lane, i: nat): seq<byte>
    requires i < |l.counters|
  {
    Nonce(from, from.txDir, l.counters[i])
  }

  /** No two frames on the wires of both lanes were sealed under the same nonce, in every reachable state. */
  lemma WiresDistinct(a: Session, b: Session, es: seq<Event>, i: nat, j: nat)
    requires Paired(a, b) && Paired(b, a) && a.tx == b.tx == a.rx == b.rx == 0 && |es| < U64
    ensures var n := Run(Net(a, b, EMPTY, EMPTY), es);
            && |n.ab.wires| == |n.ab.counters| && |n.ba.wires| == |n.ba.counters|
            && (i < j < |n.ab.wires| ==> NonceAt(n.a, n.ab, i) != NonceAt(n.a, n.ab, j))
            && (i < j < |n.ba.wires| ==> NonceAt(n.b, n.ba, i) != NonceAt(n.b, n.ba, j))
            && (i < |n.ab.wires| && j < |n.ba.wires| ==> NonceAt(n.a, n.ab, i) != NonceAt(n.b, n.ba, j))
  {
    hide Run, Inv, Spent, Paired, NonceAt;
    FreshInv(a, b);
    RunInv(Net(a, b, EMPTY, EMPTY), es);
    RunSpent(Net(a, b, EMPTY, EMPTY), es);
    LanesDistinct(Run(Net(a, b, EMPTY, EMPTY), es), i, j);
  }

  lemma {:induction false} RunSpent(n: Net, es: seq<Event>)
    requires Spent(n) + |es| < U64
    ensures Spent(Run(n, es)) < U64
    decreases |es|
  {
    hide Step, Spent;
    if es != [] {
      StepSpent(n, es[0]);
      RunSpent(Step(n, es[0]), es[1..]);
    }
  }

  lemma LanesDistinct(n: Net, i: nat, j: nat)
    requires Inv(n) && Spent(n) < U64
    ensures |n.ab.wires| == |n.ab.counters| && |n.ba.wires| == |n.ba.counters|
    ensures i < j < |n.ab.wires| ==> NonceAt(n.a, n.ab, i) != NonceAt(n.a, n.ab, j)
    ensures i < j < |n.ba.wires| ==> NonceAt(n.b, n.ba, i) != NonceAt(n.b, n.ba, j)
    ensures i < |n.ab.wires| && j < |n.ba.wires| ==> NonceAt(n.a, n.ab, i) != NonceAt(n.b, n.ba, j)
  {
    Opposite(n.a, n.b);
    hide Carries, Subsequence, Paired, Nonce;
    if i < j < |n.ab.wires| { Apart(n.a, n.a, n.ab.counters[i], n.ab.counters[j]); }
    if i < j < |n.ba.wires| { Apart(n.b, n.b, n.ba.counters[i], n.ba.counters[j]); }
    if i < |n.ab.wires| && j < |n.ba.wires| { Apart(n.a, n.b, n.ab.counters[i], n.ba.counters[j]); }
  }

  lemma Apart(s: Session, t: Session, c: nat, c': nat)
    requires c < U64 && c' < U64 && (s.txDir != t.txDir || c != c')
    ensures Nonce(s, s.txDir, c) != Nonce(t, t.txDir, c')
  {
    hide Nonce;
    if Nonce(s, s.txDir, c) == Nonce(t, t.txDir, c') { NonceOneToOne(s, t, s.txDir, t.txDir, c, c'); }
  }

  // ---------------------------------------------------------------- the blocks that are masked with

  /** Counter blocks of different nonces, or of different places under one nonce, differ; none is the zero block. */
  lemma BlocksApart(x: seq<byte>, y: seq<byte>, i: nat, j: nat)
    requires |x| == |y| == 12 && i < U32 - 1 && j < U32 - 1 && (x != y || i != j)
    ensures G.IncN(G.J0(x), i) != G.IncN(G.J0(y), j) && G.IncN(G.J0(x), i) != Zeros(16)
  {
    hide G.IncN;
    assert G.IncN(G.J0(x), i)[..12] == G.J0(x)[..12] == x;
    assert G.IncN(G.J0(y), j)[..12] == G.J0(y)[..12] == y;
    if x == y { if i < j { G.CountersDistinct(G.J0(x), i, j); } else { G.CountersDistinct(G.J0(x), j, i); } }
    NotZero(x, i);
  }

  lemma NotZero(x: seq<byte>, i: nat)
    requires |x| == 12 && i < U32 - 1
    ensures G.IncN(G.J0(x), i) != Zeros(16)
  {
    hide G.IncN;
    G.IncNWord(G.J0(x), i);
    StartWord(x);
    ZeroWord();
  }

  lemma StartWord(x: seq<byte>)
    requires |x| == 12
    ensures G.Word(G.J0(x)) == 1
  {
    var t := G.J0(x)[12..];
    assert t == [0, 0, 0, 1] && Nat(1) == 1;
    assert t[..3] == [0, 0, 0];
    NoValue();
  }

  lemma ZeroWord()
    ensures G.Word(Zeros(16)) == 0
  {
    var t := Zeros(16)[12..];
    assert t == [0, 0, 0, 0];
    assert t[..3] == [0, 0, 0];
    NoValue();
  }

  lemma NoValue()
    ensures FromBig([0, 0, 0]) == 0
  {
    var t: seq<byte> := [0, 0, 0];
    assert t[..2] == [0, 0] && t[..2][..1] == [0] && t[..2][..1][..0] == [];
    assert FromBig([]) == 0;
    assert FromBig([0]) == 0;
    assert FromBig([0, 0]) == 0;
  }

  /** Byte `k` of a text is masked with block `k / 16 + 1` of its nonce, and its tag with block 0. */
  lemma MaskedWith(enc: Block -> Block, nonce: seq<byte>, pt: seq<byte>, k: nat)
    requires |nonce| == 12 && k < |pt| <= MAX_PLAIN
    ensures G.Ctr(enc, G.J0(nonce), pt)[k] == XorB(pt[k], enc(G.IncN(G.J0(nonce), k / 16 + 1))[k % 16])
    ensures 1 <= k / 16 + 1 <= 14 && G.IncN(G.J0(nonce), 0) == G.J0(nonce)
  {
    hide XorB, G.J0, G.IncN;
    G.IncNStart(G.J0(nonce));
    Sixteenths(k);
  }

  lemma Sixteenths(k: nat)
    requires k < MAX_PLAIN
    ensures 1 <= k / 16 + 1 <= 14
  {
  }

  /**
   * So within a session, over every run of both ends, no input of the block cipher comes up twice: not among the
   * counter blocks of all messages, and not with the zero block the hash key comes from.
   */
  lemma BlocksOnce(n: Net, es: seq<Event>, p: nat, q: nat, i: nat, j: nat)
    requires Paired(n.a, n.b) && Paired(n.b, n.a) && Spent(n) + |es| < U64
    requires p < |Used(n, es)| && q < |Used(n, es)| && i <= 14 && j <= 14 && (p != q || i != j)
    ensures var x, y := Used(n, es)[p], Used(n, es)[q];
            && |x| == |y| == 12
            && G.IncN(G.J0(x), i) != G.IncN(G.J0(y), j) && G.IncN(G.J0(x), i) != Zeros(16)
  {
    hide Used, Nonce, G.IncN, G.J0, Spent;
    Opposite(n.a, n.b);
    NoncesDistinct(n, es);
    var x, y := Used(n, es)[p], Used(n, es)[q];
    UsedSize(n, es, x);
    UsedSize(n, es, y);
    assert p < q ==> x != y;
    assert q < p ==> x != y;
    BlocksApart(x, y, i, j);
  }

  lemma {:induction false} UsedSize(n: Net, es: seq<Event>, x: seq<byte>)
    requires x in Used(n, es)
    ensures |x| == 12
    decreases |es|
  {
    hide Step, Nonce, Sealable;
    if x !in Uses(n, es[0]) { UsedSize(Step(n, es[0]), es[1..], x); }
  }
}
