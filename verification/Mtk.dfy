/** The MediaTek binary frame decoder: two sync bytes, 33 payload bytes, and the same two-byte checksum. */
module Mtk {
  import opened Fletcher
  import opened Framing

  const SYNC1: byte := 0xd0
  const SYNC2: byte := 0xdd
  const PAYLOAD: nat := 33
  const PACKET: nat := 35

  datatype Phase = Uninit | GotCkA | GotCkB

  datatype State = State(phase: Phase, ck: Ck, rx: nat, buf: seq<byte>)

  predicate Ready(s: State) {
    |s.buf| >= PACKET && s.rx < PACKET
  }

  function Reset(buf: seq<byte>): State {
    State(Uninit, ZERO, 0, buf)
  }

  datatype Parsed = Parsed(state: State, got: bool)

  function Parse(s: State, b: byte): (p: Parsed)
    requires Ready(s)
    ensures Ready(p.state) && |p.state.buf| == |s.buf|
  {
    match s.phase
    case Uninit => Parsed(if b == SYNC1 then s.(phase := GotCkA) else s, false)
    case GotCkA => Parsed(if b == SYNC2 then s.(phase := GotCkB) else Reset(s.buf), false)
    case GotCkB =>
      var ck := if s.rx < PAYLOAD then Add(s.ck, b) else s.ck;
      var buf := s.buf[s.rx := b];
      if s.rx + 1 >= PACKET then Parsed(Reset(buf), ck == Ck(buf[PAYLOAD], buf[PAYLOAD + 1]))
      else Parsed(State(GotCkB, ck, s.rx + 1, buf), false)
  }

  function Final(s: State, bytes: seq<byte>): (t: State)
    requires Ready(s)
    ensures Ready(t) && |t.buf| == |s.buf|
    decreases |bytes|
  {
    if bytes == [] then s else Final(Parse(s, bytes[0]).state, bytes[1..])
  }

  /** Whether each byte completed a packet with the right checksum. */
  function Reports(s: State, bytes: seq<byte>): (rs: seq<bool>)
    requires Ready(s)
    ensures |rs| == |bytes|
    decreases |bytes|
  {
    if bytes == [] then [] else [Parse(s, bytes[0]).got] + Reports(Parse(s, bytes[0]).state, bytes[1..])
  }

  lemma {:induction false} RunConcat(s: State, a: seq<byte>, b: seq<byte>)
    requires Ready(s)
    ensures Final(s, a + b) == Final(Final(s, a), b)
    ensures Reports(s, a + b) == Reports(s, a) + Reports(Final(s, a), b)
    decreases |a|
  {
    if a == [] {
      assert a + b == b;
    } else {
      assert (a + b)[0] == a[0] && (a + b)[1..] == a[1..] + b;
      RunConcat(Parse(s, a[0]).state, a[1..], b);
    }
  }

  // ----- frames

  /** 33 payload bytes and a checksum. */
  datatype Frame = Frame(payload: seq<byte>, ck: Ck)

  predicate Intact(f: Frame) {
    |f.payload| == PAYLOAD
  }

  predicate Right(f: Frame) {
    AddAll(ZERO, f.payload) == f.ck
  }

  function Body(f: Frame): seq<byte> {
    f.payload + [f.ck.a, f.ck.b]
  }

  function Bytes(f: Frame): seq<byte> {
    [SYNC1, SYNC2] + Body(f)
  }

  /** `k` bytes into the body of `f`: in the buffer, and the payload part of them in the checksum. */
  ghost predicate Within(s: State, f: Frame, k: nat)
    requires Intact(f) && k <= PACKET
  {
    s.phase == GotCkB && s.rx == k && s.ck == AddAll(ZERO, f.payload[..if k < PAYLOAD then k else PAYLOAD]) &&
    |s.buf| >= PACKET && s.buf[..k] == Body(f)[..k]
  }

  lemma BodyByte(s: State, f: Frame, k: nat)
    requires Intact(f) && k < PACKET && Within(s, f, k)
    ensures Ready(s)
    ensures k + 1 < PACKET ==> Within(Parse(s, Body(f)[k]).state, f, k + 1) && !Parse(s, Body(f)[k]).got
    ensures k + 1 == PACKET ==> Parse(s, Body(f)[k]).state == Reset(s.buf[k := Body(f)[k]]) &&
                                Parse(s, Body(f)[k]).got == Right(f)
  {
    var b := Body(f);
    assert b[..k + 1] == b[..k] + [b[k]];
    assert s.buf[k := b[k]][..k + 1] == s.buf[..k] + [b[k]];
    if k < PAYLOAD {
      AddLast(ZERO, f.payload, k);
    } else {
      assert f.payload[..PAYLOAD] == f.payload;
    }
    if k + 1 == PACKET {
      var buf := s.buf[k := b[k]];
      assert buf[..PACKET][PAYLOAD] == b[..PACKET][PAYLOAD];
    }
  }

  lemma {:induction false} BodyRuns(s: State, f: Frame, k: nat)
    requires Intact(f) && k < PACKET && Within(s, f, k)
    ensures Ready(s)
    ensures Final(s, Body(f)[k..]) == Reset(Final(s, Body(f)[k..]).buf)
    ensures Reports(s, Body(f)[k..]) == Nothing(false, PACKET - 1 - k) + [Right(f)]
    decreases PACKET - k
  {
    var b := Body(f);
    BodyByte(s, f, k);
    assert b[k..][1..] == b[k + 1..];
    if k + 1 < PACKET {
      BodyRuns(Parse(s, b[k]).state, f, k + 1);
      assert Nothing(false, PACKET - 1 - k) == [false] + Nothing(false, PACKET - 2 - k);
    } else {
      assert b[k + 1..] == [] && Nothing(false, 0) == [];
    }
  }

  function FrameReports(f: Frame): seq<bool> {
    Nothing(false, PACKET + 1) + [Right(f)]
  }

  /** A frame is consumed whole, right or wrong, and reported at its last byte if right. */
  lemma FrameRuns(f: Frame, buf: seq<byte>)
    requires Intact(f) && |buf| >= PACKET
    ensures Final(Reset(buf), Bytes(f)) == Reset(Final(Reset(buf), Bytes(f)).buf)
    ensures Reports(Reset(buf), Bytes(f)) == FrameReports(f)
  {
    var s1 := Parse(Reset(buf), SYNC1).state;
    var s2 := Parse(s1, SYNC2).state;
    assert f.payload[..0] == [] && Body(f)[..0] == buf[..0];
    BodyRuns(s2, f, 0);
    assert Body(f)[0..] == Body(f);
    assert Bytes(f)[1..] == [SYNC2] + Body(f) && Bytes(f)[1..][1..] == Body(f);
    assert FrameReports(f) == [false] + ([false] + (Nothing(false, PACKET - 1) + [Right(f)]));
  }

  lemma {:induction false} NoiseRuns(bytes: seq<byte>, buf: seq<byte>)
    requires Noise(bytes, SYNC1, SYNC2) && |buf| >= PACKET
    ensures Final(Reset(buf), bytes) == Reset(buf) && Reports(Reset(buf), bytes) == Nothing(false, |bytes|)
    decreases |bytes|
  {
    if bytes != [] {
      if bytes[0] != SYNC1 {
        NoiseRuns(bytes[1..], buf);
        assert Nothing(false, |bytes|) == [false] + Nothing(false, |bytes| - 1);
      } else {
        NoiseRuns(bytes[2..], buf);
        assert bytes[1..][0] == bytes[1] && bytes[1..][1..] == bytes[2..];
        assert Nothing(false, |bytes|) == [false] + ([false] + Nothing(false, |bytes| - 2));
      }
    }
  }

  predicate StreamOk(stream: seq<Segment<Frame>>) {
    forall i :: 0 <= i < |stream| ==> Noise(stream[i].noise, SYNC1, SYNC2) && Intact(stream[i].frame)
  }

  function StreamBytes(stream: seq<Segment<Frame>>): seq<byte> {
    if stream == [] then [] else stream[0].noise + (Bytes(stream[0].frame) + StreamBytes(stream[1..]))
  }

  function StreamReports(stream: seq<Segment<Frame>>): seq<bool> {
    if stream == [] then []
    else Nothing(false, |stream[0].noise|) + (FrameReports(stream[0].frame) + StreamReports(stream[1..]))
  }

  /** Any stream of frames and noise reports exactly the right frames, each at its last byte. */
  lemma {:induction false} StreamRuns(stream: seq<Segment<Frame>>, buf: seq<byte>)
    requires StreamOk(stream) && |buf| >= PACKET
    ensures Final(Reset(buf), StreamBytes(stream)) == Reset(Final(Reset(buf), StreamBytes(stream)).buf)
    ensures Reports(Reset(buf), StreamBytes(stream)) == StreamReports(stream)
    decreases |stream|
  {
    if stream != [] {
      var noise, f := stream[0].noise, stream[0].frame;
      NoiseRuns(noise, buf);
      RunConcat(Reset(buf), noise, Bytes(f) + StreamBytes(stream[1..]));
      FrameRuns(f, buf);
      RunConcat(Reset(buf), Bytes(f), StreamBytes(stream[1..]));
      StreamRuns(stream[1..], Final(Reset(buf), Bytes(f)).buf);
    }
  }

  /** In particular over any stream whose noise is free of the first sync byte. */
  lemma SyncFreeStreamRuns(stream: seq<Segment<Frame>>, buf: seq<byte>)
    requires |buf| >= PACKET
    requires forall i :: 0 <= i < |stream| ==> SyncFree(stream[i].noise, SYNC1) && Intact(stream[i].frame)
    ensures Final(Reset(buf), StreamBytes(stream)) == Reset(Final(Reset(buf), StreamBytes(stream)).buf)
    ensures Reports(Reset(buf), StreamBytes(stream)) == StreamReports(stream)
  {
    forall i | 0 <= i < |stream| ensures Noise(stream[i].noise, SYNC1, SYNC2) {
      SyncFreeIsNoise(stream[i].noise, SYNC1, SYNC2);
    }
    StreamRuns(stream, buf);
  }

  /** A right frame with one payload byte altered, or two at an odd distance, is consumed whole and never
      reported. */
  lemma CorruptedRejected(f: Frame, payload: seq<byte>, buf: seq<byte>)
    requires Intact(f) && Right(f) && Corrupted(f.payload, payload) && |buf| >= PACKET
    ensures var g := f.(payload := payload);
            Final(Reset(buf), Bytes(g)) == Reset(Final(Reset(buf), Bytes(g)).buf) &&
            Reports(Reset(buf), Bytes(g)) == Nothing(false, |Bytes(g)|)
  {
    var g := f.(payload := payload);
    CorruptionNoticed(f.payload, payload);
    FrameRuns(g, buf);
    assert FrameReports(g) == Nothing(false, |Bytes(g)|);
  }

  // ----- the decoder as it runs

  class Decoder {
    var phase: Phase
    var ckA: byte
    var ckB: byte
    var rxCount: nat
    const rxBuffer: array<byte>

    ghost function Now(): State
      reads this, rxBuffer
    {
      State(phase, Ck(ckA, ckB), rxCount, rxBuffer[..])
    }

    constructor (size: nat)
      requires size >= PACKET
      ensures rxBuffer.Length == size && Now() == Reset(rxBuffer[..]) && fresh(rxBuffer)
    {
      phase, ckA, ckB, rxCount := Uninit, 0, 0, 0;
      rxBuffer := new byte[size](_ => 0);
    }

    method DecodeInit()
      modifies this
      ensures Now() == Reset(rxBuffer[..])
    {
      phase, ckA, ckB, rxCount := Uninit, 0, 0, 0;
    }

    method ParseByte(b: byte) returns (got: bool)
      requires Ready(Now())
      modifies this, rxBuffer
      ensures Parsed(Now(), got) == Parse(old(Now()), b)
      ensures Ready(Now())
    {
      got := false;
      match phase
      case Uninit =>
        if b == SYNC1 {
          phase := GotCkA;
        }
      case GotCkA =>
        if b == SYNC2 {
          phase := GotCkB;
        } else {
          DecodeInit();
        }
      case GotCkB =>
        if rxCount < PAYLOAD {
          ckA := (ckA + b) % 256;
          ckB := (ckB + ckA) % 256;
        }
        rxBuffer[rxCount] := b;
        rxCount := rxCount + 1;
        if rxCount >= PACKET {
          got := ckA == rxBuffer[PAYLOAD] && ckB == rxBuffer[PAYLOAD + 1];
          DecodeInit();
        }
    }
  }
}
