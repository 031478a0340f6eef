/** Tag-length-value fields of link/link_frame.c and the Hello handshake of link/link_session.c. */
module LinkHello {
  import opened Basics
  import opened Bytes
  import opened LinkFrame
  import opened LinkSession
  import opened Gcm
  import G = GcmCtr

  // ---------------------------------------------------------------- tag-length-value

  datatype Tlv = Tlv(tag: byte, value: seq<byte>)

  /**
   * link_tlv_put where size_t has `w` values: the field behind the first `used` bytes of the buffer, or a refusal that
   * changes nothing. A count at the end of size_t makes the sum run over: of the field `before` bytes then belong in
   * front of the buffer, and the others are at its start.
   */
  method TlvPut(w: nat, buf: array<byte>, cap: nat, used: nat, t: Tlv) returns (rc: int, used': nat, before: nat)
    requires IsWord(w) && used < w && cap <= buf.Length < w && |t.value| < 0x100
    modifies buf
    ensures before > 0 <==> w <= used + 2 + |t.value| <= w + cap
    ensures before == 0 ==> (rc == 0 <==> used + 2 + |t.value| <= cap)
    ensures before == 0 && rc == 0 ==> used' == used + 2 + |t.value| && buf[..used'] == old(buf[..used]) + Put(t)
    ensures before == 0 && rc == 0 ==> buf[used] == t.tag && Nat(buf[used + 1]) == |t.value|
    ensures before == 0 && rc == 0 ==> buf[used + 2..used'] == t.value
    ensures before > 0 ==> rc == 0 && before == w - used <= |Put(t)| && used' == used + |Put(t)| - w
    ensures before > 0 ==> buf[..] == Put(t)[before..] + old(buf[used'..])
    ensures rc != 0 ==> rc == -1 && used' == used && buf[..] == old(buf[..])
  {
    hide Byte, End;
    var sum := End(w, used, |t.value|);
    if sum > cap { return -1, used, 0; }
    var field := [t.tag, Byte(|t.value|)] + t.value;
    if used + 2 + |t.value| >= w {
      Copy(buf, 0, field[w - used..]);
      return 0, sum, w - used;
    }
    Copy(buf, used, field);
    return 0, sum, 0;
  }

  /** Where a field of `n` bytes ends, in size_t. */
  function End(w: nat, used: nat, n: nat): (r: nat)
    requires IsWord(w) && used < w && n < 0x100
    ensures r == if used + 2 + n < w then used + 2 + n else used + 2 + n - w
  {
    (used + 2 + n) % w
  }

  function Put(t: Tlv): seq<byte>
    requires |t.value| < 0x100
  {
    [t.tag, Byte(|t.value|)] + t.value
  }

  /** The fields one after the other. */
  function PutAll(ts: seq<Tlv>): seq<byte>
    requires forall i :: 0 <= i < |ts| ==> |ts[i].value| < 0x100
  {
    if ts == [] then [] else Put(ts[0]) + PutAll(ts[1..])
  }

  /** The value under the first matching tag, if the fields before it are whole and it fits `cap`. */
  function Get(buf: seq<byte>, tag: byte, cap: nat): Option<seq<byte>>
    decreases |buf|
  {
    if |buf| < 2 then None
    else
      var n := Nat(buf[1]);
      if 2 + n > |buf| then None
      else if buf[0] == tag then (if n > cap then None else Some(buf[2..2 + n]))
      else Get(buf[2 + n..], tag, cap)
  }

  /** link_tlv_get: the loop. */
  method TlvGet(buf: seq<byte>, tag: byte, cap: nat) returns (r: Option<seq<byte>>)
    ensures r == Get(buf, tag, cap)
  {
    hide Nat;
    var i := 0;
    assert buf[0..] == buf;
    while i + 2 <= |buf|
      invariant 0 <= i <= |buf| && Get(buf, tag, cap) == Get(buf[i..], tag, cap)
    {
      var n := Nat(buf[i + 1]);
      if i + 2 + n > |buf| { return None; }
      if buf[i] == tag {
        if n > cap { return None; }
        assert buf[i..][2..2 + n] == buf[i + 2..i + 2 + n];
        return Some(buf[i + 2..i + 2 + n]);
      }
      assert buf[i..][2 + n..] == buf[i + 2 + n..];
      i := i + 2 + n;
    }
    r := None;
  }

  /** The first field with this tag. */
  function First(ts: seq<Tlv>, tag: byte): Option<seq<byte>> {
    if ts == [] then None else if ts[0].tag == tag then Some(ts[0].value) else First(ts[1..], tag)
  }

  /** Reading what was written: the first field under the tag, if it fits, whatever bytes are too few to be a field. */
  lemma {:induction false} GetPutAll(ts: seq<Tlv>, tag: byte, cap: nat)
    requires forall i :: 0 <= i < |ts| ==> |ts[i].value| < 0x100
    ensures Get(PutAll(ts), tag, cap) ==
            match First(ts, tag)
            case None => None
            case Some(v) => if |v| > cap then None else Some(v)
    decreases |ts|
  {
    hide Byte, Nat, Get, Put;
    if ts == [] {
      GetNone(tag, cap);
    } else {
      GetPut(ts[0], PutAll(ts[1..]), tag, cap);
      GetPutAll(ts[1..], tag, cap);
    }
  }

  lemma GetNone(tag: byte, cap: nat)
    ensures Get([], tag, cap) == None
  {
  }

  lemma GetPut(t: Tlv, rest: seq<byte>, tag: byte, cap: nat)
    requires |t.value| < 0x100
    ensures Get(Put(t) + rest, tag, cap) ==
            if t.tag != tag then Get(rest, tag, cap) else if |t.value| > cap then None else Some(t.value)
  {
    hide Byte, Nat;
    var buf, n := Put(t) + rest, |t.value|;
    assert Nat(buf[1]) == n && buf[2..2 + n] == t.value && buf[2 + n..] == rest;
  }

  // ---------------------------------------------------------------- Hello

  const TAG_VERSION: byte := 1
  const TAG_KEY_ID: byte := 2
  const TAG_SESSION: byte := 3
  const CH_HELLO: byte := 0

  function HelloFields(s: Session, sessionId: bv16): seq<Tlv> {
    [Tlv(TAG_VERSION, [VERSION]), Tlv(TAG_KEY_ID, [s.keyId]), Tlv(TAG_SESSION, [Lo(sessionId), Hi(sessionId)])]
  }

  /** The frame link_session_encode_hello sends. */
  function Hello(s: Session, sessionId: bv16, msgId: bv16): (f: Frame)
    ensures Shaped(f) && f.length == 10
  {
    var p := PutAll(HelloFields(s, sessionId));
    HelloSize(s, sessionId);
    Frame(VERSION, 0, CH_HELLO, msgId, |p|, p + Zeros(MAX_PAYLOAD - |p|))
  }

  lemma HelloSize(s: Session, sessionId: bv16)
    ensures |PutAll(HelloFields(s, sessionId))| == 10
  {
    hide Byte, Lo, Hi;
    var ts := HelloFields(s, sessionId);
    assert ts[1..][1..] == [ts[2]] && ts[1..] == [ts[1], ts[2]] && ts[2..] == [ts[2]];
    assert PutAll([]) == [];
    assert PutAll([ts[2]]) == Put(ts[2]) + PutAll([ts[2]][1..]);
    assert PutAll(ts[1..]) == Put(ts[1]) + PutAll(ts[1..][1..]);
  }

  /** The ten bytes of a Hello: version, key id and session number, each behind its tag and length. */
  lemma HelloBytes(s: Session, sessionId: bv16)
    ensures PutAll(HelloFields(s, sessionId))
            == [1, 1, 1, 2, 1, s.keyId, 3, 2, (sessionId & 0xFF) as byte, (sessionId >> 8) as byte]
  {
    var ts := HelloFields(s, sessionId);
    PutOne(ts[0]);
    PutOne(ts[1]);
    PutTwo(ts[2]);
    hide Put, Byte;
    assert ts[1..] == [ts[1], ts[2]] && ts[1..][1..] == [ts[2]] && ts[1..][1..][1..] == [];
    assert PutAll([]) == [];
    assert PutAll([ts[2]]) == Put(ts[2]) + PutAll([ts[2]][1..]);
    assert PutAll([ts[1], ts[2]]) == Put(ts[1]) + PutAll([ts[1], ts[2]][1..]);
  }

  lemma PutOne(t: Tlv)
    requires |t.value| == 1
    ensures Put(t) == [t.tag, 1, t.value[0]]
  {
    hide Byte;
    NatOneToOne(Byte(1), 1);
  }

  lemma PutTwo(t: Tlv)
    requires |t.value| == 2
    ensures Put(t) == [t.tag, 2, t.value[0], t.value[1]]
  {
    hide Byte;
    NatOneToOne(Byte(2), 2);
  }

  /** Session and verdict after link_session_accept_hello. */
  function AcceptHello(s: Session, f: Frame, sessionId: bv16): (Session, bool)
    requires f.length <= |f.payload|
  {
    var p := f.payload[..f.length];
    if f.channel != CH_HELLO || IsEncrypted(f) then (s, false)
    else if Get(p, TAG_VERSION, 1) != Some([VERSION]) then (s, false)
    else if Get(p, TAG_KEY_ID, 1) != Some([s.keyId]) then (s, false)
    else
      match Get(p, TAG_SESSION, 2)
      case None => (s, false)
      case Some(raw) =>
        if |raw| != 2 then (s, false)
        else if s.txDir == DIR_DEVICE then (s.(session := sessionId, tx := 0, rx := 0, open := true), true)
        else if Word(raw[0], raw[1]) == 0 then (s, false)
        else (s.(session := Word(raw[0], raw[1]), tx := 0, rx := 0, open := true), true)
  }

  /**
   * A frame of written fields opens a session exactly when it is a plain Hello whose first version, key id and session
   * fields are the version, the own key id and two bytes, which the host does not take when they are zero.
   */
  lemma AcceptIff(s: Session, f: Frame, sessionId: bv16, ts: seq<Tlv>)
    requires f.length <= |f.payload| && (forall i :: 0 <= i < |ts| ==> |ts[i].value| < 0x100)
    requires f.payload[..f.length] == PutAll(ts)
    ensures var (t, ok) := AcceptHello(s, f, sessionId);
            var raw := First(ts, TAG_SESSION);
            && (ok <==>
                  && f.channel == CH_HELLO && f.flags & 0x08 == 0
                  && First(ts, TAG_VERSION) == Some([VERSION]) && First(ts, TAG_KEY_ID) == Some([s.keyId])
                  && raw.Some? && |raw.value| == 2 && (s.txDir == DIR_DEVICE || Word(raw.value[0], raw.value[1]) != 0))
            && t == if ok then s.(session := if s.txDir == DIR_DEVICE then sessionId
                                             else Word(raw.value[0], raw.value[1]), tx := 0, rx := 0, open := true)
                    else s
  {
    hide Get, PutAll, First, Word;
    GetPutAll(ts, TAG_VERSION, 1);
    GetPutAll(ts, TAG_KEY_ID, 1);
    GetPutAll(ts, TAG_SESSION, 2);
  }

  lemma HelloRead(s: Session, sessionId: bv16, msgId: bv16)
    ensures var f := Normal(Hello(s, sessionId, msgId));
            var p := f.payload[..f.length];
            && f.channel == CH_HELLO && !IsEncrypted(f)
            && Get(p, TAG_VERSION, 1) == Some([VERSION]) && Get(p, TAG_KEY_ID, 1) == Some([s.keyId])
            && Get(p, TAG_SESSION, 2) == Some([Lo(sessionId), Hi(sessionId)])
  {
    hide Byte, Lo, Hi, PutAll, Get;
    var ts := HelloFields(s, sessionId);
    HelloSize(s, sessionId);
    var f := Normal(Hello(s, sessionId, msgId));
    assert f.payload[..f.length] == PutAll(ts);
    GetPutAll(ts, TAG_VERSION, 1);
    GetPutAll(ts, TAG_KEY_ID, 1);
    GetPutAll(ts, TAG_SESSION, 2);
    assert ts[1..][0] == ts[1] && ts[1..][1..][0] == ts[2];
    assert First(ts[1..][1..], TAG_SESSION) == Some(ts[2].value);
    NotEncrypted();
  }

  lemma NotEncrypted()
    ensures (0 as byte) & ENCRYPTED == 0
  {
  }

  /**
   * The handshake: the device takes the host's Hello under a session number of its own, the host takes the device's
   * Hello with that number, each as it arrives over the wire. Then the two are the ends of one open session, both ways.
   */
  lemma Handshake(host: Session, device: Session, sid: bv16, any: bv16, m1: bv16, m2: bv16)
    requires host.enc == device.enc && host.keyId == device.keyId
    requires host.txDir == DIR_HOST && device.txDir == DIR_DEVICE && sid != 0
    ensures var (device', ok1) := AcceptHello(device, Normal(Hello(host, any, m1)), sid);
            var (host', ok2) := AcceptHello(host, Normal(Hello(device', sid, m2)), any);
            && ok1 && ok2 && Paired(host', device') && Paired(device', host') && host'.open && device'.open
            && host'.tx == host'.rx == device'.tx == device'.rx == 0
            && Decode(Wire(Hello(host, any, m1))) == Some(Normal(Hello(host, any, m1)))
            && Decode(Wire(Hello(device', sid, m2))) == Some(Normal(Hello(device', sid, m2)))
  {
    hide Lo, Hi, Word, Get, Hello, Wire, Decode, IsEncrypted;
    HelloRead(host, any, m1);
    var (device', ok1) := AcceptHello(device, Normal(Hello(host, any, m1)), sid);
    HelloRead(device', sid, m2);
    WordRoundTrip(sid);
    HelloDecodes(host, any, m1);
    HelloDecodes(device', sid, m2);
  }

  lemma HelloDecodes(s: Session, sessionId: bv16, msgId: bv16)
    ensures Decode(Wire(Hello(s, sessionId, msgId))) == Some(Normal(Hello(s, sessionId, msgId)))
  {
    hide Hello, Wire, Decode, Normal;
    var f := Hello(s, sessionId, msgId);
    RoundTrip(f, []);
    assert Wire(f) + [] == Wire(f);
  }

  // ---------------------------------------------------------------- the session object

  /** A frame of zero bytes. */
  const CLEARED := Frame(0, 0, 0, 0, 0, Zeros(MAX_PAYLOAD))

  /** link_session_t with its fields updated in place. */
  class LinkEnd {
    const enc: Block -> Block
    const keyId: byte
    const txDir: byte
    var session: bv16
    var txCounter: nat
    var rxCounter: nat
    var open: bool

    function State(): Session
      reads this
    {
      Session(enc, keyId, session, txCounter, rxCounter, txDir, open)
    }

    constructor (enc: Block -> Block, keyId: byte, txDir: byte)
      ensures State() == Session(enc, keyId, 0, 0, 0, txDir, false)
    {
      this.enc, this.keyId, this.txDir := enc, keyId, txDir;
      session, txCounter, rxCounter, open := 0, 0, 0, false;
    }

    /** link_session_accept_hello */
    method Accept(f: Frame, sessionId: bv16) returns (rc: int)
      requires f.length <= |f.payload|
      modifies this
      ensures (State(), rc == 0) == AcceptHello(old(State()), f, sessionId) && (rc == 0 || rc == -1)
    {
      hide Word, Get, IsEncrypted;
      if f.channel != CH_HELLO || IsEncrypted(f) { return -1; }
      var p := f.payload[..f.length];
      var v := TlvGet(p, TAG_VERSION, 1);
      if v != Some([VERSION]) { return -1; }
      var k := TlvGet(p, TAG_KEY_ID, 1);
      if k != Some([keyId]) { return -1; }
      var raw := TlvGet(p, TAG_SESSION, 2);
      if raw.None? || |raw.value| != 2 { return -1; }
      var gotSession := Word(raw.value[0], raw.value[1]);
      if txDir == DIR_DEVICE {
        session := sessionId;
      } else if gotSession == 0 {
        return -1;
      } else {
        session := gotSession;
      }
      txCounter, rxCounter, open := 0, 0, true;
      rc := 0;
    }

    /** link_session_seal into a buffer of which `cap` bytes may be used. */
    method Seal(m: Message, out: array<byte>, cap: nat) returns (rc: int)
      requires cap <= out.Length
      modifies this`txCounter, out
      ensures State() == LinkSession.Seal(old(State()), m, cap).0
      ensures match LinkSession.Seal(old(State()), m, cap).1
              case None => rc == -1 && out[..] == old(out[..])
              case Some(w) => rc == |w| && out[..] == w + old(out[|w|..])
    {
      hide G.Encrypt, Little, Wire, Aad, Nonce;
      if !open || |m.pt| > MAX_PLAIN { return -1; }
      var counter := (txCounter + 1) % U64;
      var frame := Frame(VERSION, ENCRYPTED, m.channel, m.msgId, 8 + |m.pt| + 16,
                         Little(counter, 8) + Zeros(MAX_PAYLOAD - 8));
      var ct, tag := G.AesGcmEncrypt(enc, Nonce(State(), txDir, counter), Aad(frame), m.pt);
      frame := frame.(payload := Little(counter, 8) + ct + tag + Zeros(MAX_PLAIN - |m.pt|));
      assert frame == SealedFrame(State(), m, counter);
      txCounter := counter;
      rc := Encode(frame, out, cap);
    }

    /** link_session_open, with `before` in the caller's frame; a wrong tag leaves that frame cleared. */
    method Open(f: Frame, before: Frame) returns (rc: int, plain: Frame)
      requires |f.payload| == MAX_PAYLOAD && f.length <= MAX_PAYLOAD
      modifies this`rxCounter
      ensures State() == LinkSession.Open(old(State()), f).0
      ensures match LinkSession.Open(old(State()), f).1
              case Some(p) => rc == 0 && plain == p
              case None => rc == -1 && plain == if Stale(old(State()), f) then before else CLEARED
    {
      hide G.Decrypt, FromLittle, Aad, Nonce, Clear, IsEncrypted;
      if !open || !IsEncrypted(f) || f.length < OVERHEAD { return -1, before; }
      var counter := FromLittle(f.payload[..8]);
      if counter == 0 || counter <= rxCounter { return -1, before; }
      var n := f.length - OVERHEAD;
      var direction := if txDir == DIR_HOST then DIR_DEVICE else DIR_HOST;
      var r := G.AesGcmDecrypt(enc, Nonce(State(), direction, counter), Aad(f), f.payload[8..8 + n],
                               f.payload[8 + n..OVERHEAD + n]);
      if r.Refused? { return -1, CLEARED; }
      rxCounter := counter;
      return 0, Plain(f, r.pt);
    }
  }
}
