/** The u-blox frame decoder, one byte at a time, and the sender that frames configuration messages. */
module Ubx {
  import opened Fletcher
  import opened Framing

  const SYNC1: byte := 0xb5
  const SYNC2: byte := 0x62
  /** Large enough for every checksum position a fixed-length message is read at. */
  const MIN_BUFFER: nat := 54

  datatype Phase = Uninit | GotSync1 | GotSync2 | GotClass | GotMessageId | GotLength1 | GotLength2

  datatype Class = ClassUnknown | Nav | Rxm

  datatype Id = IdUnknown | NavPosllh | NavSol | NavTimeutc | NavDop | NavSvinfo | NavVelned | RxmSvsi

  datatype State = State(phase: Phase, ck: Ck, rx: nat, size: nat, cls: Class, id: Id, buf: seq<byte>)

  predicate Ready(s: State) {
    |s.buf| >= MIN_BUFFER && (s.phase == GotLength2 ==> s.rx < |s.buf|)
  }

  /** The decoder reset; the packet buffer keeps what it holds. */
  function Reset(buf: seq<byte>): State {
    State(Uninit, ZERO, 0, 0, ClassUnknown, IdUnknown, buf)
  }

  function ClassOf(b: byte): Class {
    if b == 0x01 then Nav else if b == 0x02 then Rxm else ClassUnknown
  }

  function IdOf(cls: Class, b: byte): Id {
    if cls == Nav then
      if b == 0x02 then NavPosllh
      else if b == 0x06 then NavSol
      else if b == 0x21 then NavTimeutc
      else if b == 0x04 then NavDop
      else if b == 0x30 then NavSvinfo
      else if b == 0x12 then NavVelned
      else IdUnknown
    else if cls == Rxm && b == 0x20 then RxmSvsi
    else IdUnknown
  }

  /** Payload length of the packet structure a message is read as; the last two have none. */
  function FixedLength(id: Id): nat {
    match id
    case NavPosllh => 28
    case NavSol => 52
    case NavTimeutc => 20
    case NavDop => 18
    case NavVelned => 36
    case _ => 0
  }

  predicate Variable(id: Id) {
    id == NavSvinfo || id == RxmSvsi
  }

  /** The checksum in the buffer: behind the structure, or for variable messages the last two bytes. */
  function StoredCk(s: State): Ck
    requires |s.buf| >= MIN_BUFFER && 0 < s.rx < |s.buf|
  {
    var at := if Variable(s.id) then s.rx - 1 else FixedLength(s.id);
    Ck(s.buf[at], s.buf[at + 1])
  }

  /** A decoder state and, if this byte completed a packet with the right checksum, which one. */
  datatype Parsed = Parsed(state: State, got: Id)

  function ParseLast(s: State): Parsed
    requires |s.buf| >= MIN_BUFFER && 0 < s.rx < |s.buf|
  {
    if s.id == IdUnknown then Parsed(Reset(s.buf).(rx := 1), IdUnknown)
    else Parsed(Reset(s.buf), if s.ck == StoredCk(s) then s.id else IdUnknown)
  }

  function Parse(s: State, b: byte): (p: Parsed)
    requires Ready(s)
    ensures |p.state.buf| == |s.buf|
  {
    match s.phase
    case Uninit => Parsed(if b == SYNC1 then s.(phase := GotSync1) else s, IdUnknown)
    case GotSync1 => Parsed(if b == SYNC2 then s.(phase := GotSync2) else Reset(s.buf), IdUnknown)
    case GotSync2 =>
      var cls := ClassOf(b);
      Parsed(if cls == ClassUnknown then Reset(s.buf) else s.(ck := Add(s.ck, b), phase := GotClass, cls := cls),
             IdUnknown)
    case GotClass =>
      var id := IdOf(s.cls, b);
      Parsed(if id == IdUnknown then Reset(s.buf) else s.(ck := Add(s.ck, b), phase := GotMessageId, id := id),
             IdUnknown)
    case GotMessageId => Parsed(s.(ck := Add(s.ck, b), size := b, phase := GotLength1), IdUnknown)
    case GotLength1 =>
      Parsed(s.(ck := Add(s.ck, b), size := (s.size + b * 256) % 0x1_0000, phase := GotLength2), IdUnknown)
    case GotLength2 =>
      var s1 := s.(ck := if s.rx < s.size then Add(s.ck, b) else s.ck, buf := s.buf[s.rx := b]);
      if s.rx >= s.size + 1 then ParseLast(s1) else Parsed(s1.(rx := s.rx + 1), IdUnknown)
  }

  // ----- streams

  /** Every byte finds room in the buffer. */
  predicate Runs(s: State, bytes: seq<byte>)
    decreases |bytes|
  {
    Ready(s) && (bytes == [] || Runs(Parse(s, bytes[0]).state, bytes[1..]))
  }

  function Final(s: State, bytes: seq<byte>): State
    requires Runs(s, bytes)
    decreases |bytes|
  {
    if bytes == [] then s else Final(Parse(s, bytes[0]).state, bytes[1..])
  }

  /** What is reported at each byte. */
  function Reports(s: State, bytes: seq<byte>): (rs: seq<Id>)
    requires Runs(s, bytes)
    ensures |rs| == |bytes|
    decreases |bytes|
  {
    if bytes == [] then [] else [Parse(s, bytes[0]).got] + Reports(Parse(s, bytes[0]).state, bytes[1..])
  }

  /** `bytes` take `s` to `t` and report `rs`. */
  ghost predicate Decodes(s: State, bytes: seq<byte>, t: State, rs: seq<Id>) {
    Runs(s, bytes) && Final(s, bytes) == t && Reports(s, bytes) == rs
  }

  lemma {:induction false} DecodesConcat(s: State, a: seq<byte>, t: State, r: seq<Id>,
                                         b: seq<byte>, u: State, q: seq<Id>)
    requires Decodes(s, a, t, r) && Decodes(t, b, u, q)
    ensures Decodes(s, a + b, u, r + q)
    decreases |a|
  {
    if a == [] {
      assert a + b == b && r + q == q;
    } else {
      assert (a + b)[0] == a[0] && (a + b)[1..] == a[1..] + b;
      DecodesConcat(Parse(s, a[0]).state, a[1..], t, r[1..], b, u, q);
      assert r + q == [r[0]] + (r[1..] + q);
    }
  }

  lemma OneByte(s: State, b: byte)
    requires Ready(s) && Ready(Parse(s, b).state)
    ensures Decodes(s, [b], Parse(s, b).state, [Parse(s, b).got])
  {
    assert [b][1..] == [];
  }

  // ----- frames

  datatype Frame = Frame(cls: byte, id: byte, payload: seq<byte>, ck: Ck)

  function IdOfFrame(f: Frame): Id {
    IdOf(ClassOf(f.cls), f.id)
  }

  /** A message the decoder knows, with the payload length its structure has, that fits the buffer. */
  predicate Intact(f: Frame, buffer: nat) {
    IdOfFrame(f) != IdUnknown && |f.payload| + 2 <= buffer && |f.payload| < 0x1_0000 &&
    (!Variable(IdOfFrame(f)) ==> |f.payload| == FixedLength(IdOfFrame(f)))
  }

  function Header(f: Frame): seq<byte>
    requires |f.payload| < 0x1_0000
  {
    [f.cls, f.id, |f.payload| % 256, |f.payload| / 256]
  }

  /** The bytes the checksum covers. */
  function Covered(f: Frame): seq<byte>
    requires |f.payload| < 0x1_0000
  {
    Header(f) + f.payload
  }

  predicate Right(f: Frame)
    requires |f.payload| < 0x1_0000
  {
    AddAll(ZERO, Covered(f)) == f.ck
  }

  function Bytes(f: Frame): seq<byte>
    requires |f.payload| < 0x1_0000
  {
    [SYNC1, SYNC2] + Covered(f) + [f.ck.a, f.ck.b]
  }

  /** The decoder behind the header of `f`. */
  function Headed(f: Frame, buf: seq<byte>): State
    requires |f.payload| < 0x1_0000
  {
    State(GotLength2, AddAll(ZERO, Header(f)), 0, |f.payload|, ClassOf(f.cls), IdOfFrame(f), buf)
  }

  lemma NextByte(s: State, bytes: seq<byte>, t: State, rs: seq<Id>, b: byte)
    requires Decodes(s, bytes, t, rs) && Ready(t) && Ready(Parse(t, b).state)
    ensures Decodes(s, bytes + [b], Parse(t, b).state, rs + [Parse(t, b).got])
  {
    OneByte(t, b);
    DecodesConcat(s, bytes, t, rs, [b], Parse(t, b).state, [Parse(t, b).got]);
  }

  lemma TwoBytes(s: State, a: byte, b: byte)
    requires Ready(s) && Ready(Parse(s, a).state) && Ready(Parse(Parse(s, a).state, b).state)
    requires Parse(s, a).got == IdUnknown && Parse(Parse(s, a).state, b).got == IdUnknown
    ensures Decodes(s, [a, b], Parse(Parse(s, a).state, b).state, Nothing(IdUnknown, 2))
  {
    OneByte(s, a);
    NextByte(s, [a], Parse(s, a).state, [IdUnknown], b);
    assert [a] + [b] == [a, b] && [IdUnknown] + [IdUnknown] == Nothing(IdUnknown, 2);
  }

  lemma AddTwo(ck: Ck, a: byte, b: byte)
    ensures AddAll(ck, [a, b]) == Add(Add(ck, a), b)
  {
    assert [a, b][1..] == [b] && [b][1..] == [];
    assert AddAll(ck, [a, b]) == AddAll(Add(ck, a), [b]);
    assert AddAll(Add(ck, a), [b]) == AddAll(Add(Add(ck, a), b), []);
  }

  /** The decoder behind class and id of `f`. */
  function Named(f: Frame, buf: seq<byte>): State {
    State(GotMessageId, Add(Add(ZERO, f.cls), f.id), 0, 0, ClassOf(f.cls), IdOfFrame(f), buf)
  }

  lemma NameDecodes(f: Frame, buf: seq<byte>)
    requires Intact(f, |buf|) && |buf| >= MIN_BUFFER
    ensures Decodes(Reset(buf), [SYNC1, SYNC2] + [f.cls, f.id], Named(f, buf), Nothing(IdUnknown, 4))
  {
    var s2 := Reset(buf).(phase := GotSync2);
    TwoBytes(Reset(buf), SYNC1, SYNC2);
    TwoBytes(s2, f.cls, f.id);
    DecodesConcat(Reset(buf), [SYNC1, SYNC2], s2, Nothing(IdUnknown, 2),
                  [f.cls, f.id], Named(f, buf), Nothing(IdUnknown, 2));
    assert Nothing(IdUnknown, 2) + Nothing(IdUnknown, 2) == Nothing(IdUnknown, 4);
  }

  lemma HeaderCk(f: Frame)
    requires |f.payload| < 0x1_0000
    ensures AddAll(ZERO, Header(f)) == Add(Add(Add(Add(ZERO, f.cls), f.id), |f.payload| % 256), |f.payload| / 256)
  {
    var lo, hi := |f.payload| % 256, |f.payload| / 256;
    AddAllConcat(ZERO, [f.cls, f.id], [lo, hi]);
    assert Header(f) == [f.cls, f.id] + [lo, hi];
    AddTwo(ZERO, f.cls, f.id);
    AddTwo(Add(Add(ZERO, f.cls), f.id), lo, hi);
  }

  lemma JoinSize(n: nat)
    requires n < 0x1_0000
    ensures (n % 256 + n / 256 * 256) % 0x1_0000 == n
  {
  }

  lemma SizeStates(f: Frame, buf: seq<byte>, lo: byte, hi: byte)
    requires Intact(f, |buf|) && |buf| >= MIN_BUFFER
    requires lo == |f.payload| % 256 && hi == |f.payload| / 256
    ensures Parse(Parse(Named(f, buf), lo).state, hi).state == Headed(f, buf)
  {
    JoinSize(|f.payload|);
    HeaderCk(f);
  }

  lemma SizeDecodes(f: Frame, buf: seq<byte>, lo: byte, hi: byte)
    requires Intact(f, |buf|) && |buf| >= MIN_BUFFER
    requires lo == |f.payload| % 256 && hi == |f.payload| / 256
    ensures Decodes(Named(f, buf), [lo, hi], Headed(f, buf), Nothing(IdUnknown, 2))
  {
    SizeStates(f, buf, lo, hi);
    TwoBytes(Named(f, buf), lo, hi);
  }

  lemma HeaderDecodes(f: Frame, buf: seq<byte>)
    requires Intact(f, |buf|) && |buf| >= MIN_BUFFER
    ensures Decodes(Reset(buf), [SYNC1, SYNC2] + Header(f), Headed(f, buf), Nothing(IdUnknown, 6))
  {
    var lo: byte, hi: byte := |f.payload| % 256, |f.payload| / 256;
    NameDecodes(f, buf);
    SizeDecodes(f, buf, lo, hi);
    DecodesConcat(Reset(buf), [SYNC1, SYNC2] + [f.cls, f.id], Named(f, buf), Nothing(IdUnknown, 4),
                  [lo, hi], Headed(f, buf), Nothing(IdUnknown, 2));
    assert [SYNC1, SYNC2] + Header(f) == [SYNC1, SYNC2] + [f.cls, f.id] + [lo, hi];
    assert Nothing(IdUnknown, 6) == Nothing(IdUnknown, 4) + Nothing(IdUnknown, 2);
  }

  /** `k` payload bytes into `f`: they are in the buffer and in the checksum. */
  ghost predicate Within(s: State, f: Frame, k: nat)
    requires |f.payload| < 0x1_0000 && k <= |f.payload|
  {
    s == Headed(f, s.buf).(rx := k, ck := AddAll(ZERO, Header(f) + f.payload[..k])) &&
    k <= |s.buf| && s.buf[..k] == f.payload[..k]
  }

  lemma PayloadByte(s: State, f: Frame, k: nat)
    requires |f.payload| < 0x1_0000 && k < |f.payload| && Within(s, f, k) && Intact(f, |s.buf|) && |s.buf| >= MIN_BUFFER
    ensures Ready(s) && Parse(s, f.payload[k]).got == IdUnknown && |Parse(s, f.payload[k]).state.buf| == |s.buf|
    ensures Within(Parse(s, f.payload[k]).state, f, k + 1)
  {
    var h := Header(f);
    var t := Parse(s, f.payload[k]).state;
    assert h + f.payload[..k + 1] == (h + f.payload[..k]) + [f.payload[k]];
    AddAllConcat(ZERO, h + f.payload[..k], [f.payload[k]]);
    assert AddAll(s.ck, [f.payload[k]]) == AddAll(Add(s.ck, f.payload[k]), []);
    assert t.buf[..k + 1] == s.buf[..k] + [f.payload[k]];
  }

  lemma {:induction false} PayloadDecodes(s: State, f: Frame, k: nat) returns (t: State)
    requires |f.payload| < 0x1_0000 && k <= |f.payload| && Within(s, f, k)
    requires Intact(f, |s.buf|) && |s.buf| >= MIN_BUFFER
    ensures Within(t, f, |f.payload|) && |t.buf| == |s.buf|
    ensures Decodes(s, f.payload[k..], t, Nothing(IdUnknown, |f.payload| - k))
    decreases |f.payload| - k
  {
    if k == |f.payload| {
      t := s;
    } else {
      PayloadByte(s, f, k);
      var s1 := Parse(s, f.payload[k]).state;
      t := PayloadDecodes(s1, f, k + 1);
      assert f.payload[k..][1..] == f.payload[k + 1..];
      assert Nothing(IdUnknown, |f.payload| - k) == [IdUnknown] + Nothing(IdUnknown, |f.payload| - (k + 1));
    }
  }

  lemma ChecksumDecodes(s: State, f: Frame)
    requires |f.payload| < 0x1_0000 && Within(s, f, |f.payload|) && Intact(f, |s.buf|) && |s.buf| >= MIN_BUFFER
    ensures exists buf: seq<byte> ::
              (|buf| == |s.buf| &&
               Decodes(s, [f.ck.a, f.ck.b], Reset(buf), [IdUnknown, if Right(f) then IdOfFrame(f) else IdUnknown]))
  {
    var n := |f.payload|;
    assert f.payload[..n] == f.payload;
    var s1 := Parse(s, f.ck.a).state;
    var s2 := s1.(buf := s1.buf[n + 1 := f.ck.b]);
    assert StoredCk(s2) == f.ck;
    var p := Parse(s1, f.ck.b);
    assert p == Parsed(Reset(s2.buf), if Right(f) then IdOfFrame(f) else IdUnknown);
    OneByte(s, f.ck.a);
    NextByte(s, [f.ck.a], s1, [IdUnknown], f.ck.b);
    assert [f.ck.a] + [f.ck.b] == [f.ck.a, f.ck.b];
    assert [IdUnknown] + [p.got] == [IdUnknown, p.got];
  }

  /** Only the last byte of a frame reports, and only if the checksum is right. */
  function FrameReports(f: Frame): seq<Id>
    requires |f.payload| < 0x1_0000
  {
    Nothing(IdUnknown, |f.payload| + 7) + [if Right(f) then IdOfFrame(f) else IdUnknown]
  }

  /** A frame, right or wrong, is consumed whole and leaves the decoder reset. Whatever its payload holds,
      sync bytes included, changes nothing about that. */
  lemma FrameDecodes(f: Frame, buf: seq<byte>) returns (buf': seq<byte>)
    requires Intact(f, |buf|) && |buf| >= MIN_BUFFER
    ensures |buf'| == |buf| && Decodes(Reset(buf), Bytes(f), Reset(buf'), FrameReports(f))
  {
    hide Decodes, AddAll;
    var n := |f.payload|;
    HeaderDecodes(f, buf);
    assert Header(f) + f.payload[..0] == Header(f);
    var t := PayloadDecodes(Headed(f, buf), f, 0);
    assert f.payload[0..] == f.payload;
    ChecksumDecodes(t, f);
    var last := [IdUnknown, if Right(f) then IdOfFrame(f) else IdUnknown];
    buf' :| |buf'| == |t.buf| && Decodes(t, [f.ck.a, f.ck.b], Reset(buf'), last);
    DecodesConcat(Headed(f, buf), f.payload, t, Nothing(IdUnknown, n), [f.ck.a, f.ck.b], Reset(buf'), last);
    DecodesConcat(Reset(buf), [SYNC1, SYNC2] + Header(f), Headed(f, buf), Nothing(IdUnknown, 6),
                  f.payload + [f.ck.a, f.ck.b], Reset(buf'), Nothing(IdUnknown, n) + last);
    assert Bytes(f) == [SYNC1, SYNC2] + Header(f) + (f.payload + [f.ck.a, f.ck.b]);
    assert FrameReports(f) == Nothing(IdUnknown, 6) + (Nothing(IdUnknown, n) + last);
  }

  // ----- noise and whole streams

  lemma {:induction false} NoiseDecodes(bytes: seq<byte>, buf: seq<byte>)
    requires Noise(bytes, SYNC1, SYNC2) && |buf| >= MIN_BUFFER
    ensures Decodes(Reset(buf), bytes, Reset(buf), Nothing(IdUnknown, |bytes|))
    decreases |bytes|
  {
    if bytes != [] {
      if bytes[0] != SYNC1 {
        OneByte(Reset(buf), bytes[0]);
        NoiseDecodes(bytes[1..], buf);
        DecodesConcat(Reset(buf), [bytes[0]], Reset(buf), [IdUnknown],
                      bytes[1..], Reset(buf), Nothing(IdUnknown, |bytes| - 1));
        assert bytes == [bytes[0]] + bytes[1..];
        assert Nothing(IdUnknown, |bytes|) == [IdUnknown] + Nothing(IdUnknown, |bytes| - 1);
      } else {
        TwoBytes(Reset(buf), bytes[0], bytes[1]);
        NoiseDecodes(bytes[2..], buf);
        DecodesConcat(Reset(buf), [bytes[0], bytes[1]], Reset(buf), Nothing(IdUnknown, 2),
                      bytes[2..], Reset(buf), Nothing(IdUnknown, |bytes| - 2));
        assert bytes == [bytes[0], bytes[1]] + bytes[2..];
        assert Nothing(IdUnknown, |bytes|) == Nothing(IdUnknown, 2) + Nothing(IdUnknown, |bytes| - 2);
      }
    }
  }

  /** The decoder never gets past looking for the two sync bytes and ends up looking for the first. */
  predicate Hunts(s: State, bytes: seq<byte>)
    requires Ready(s)
    decreases |bytes|
  {
    if bytes == [] then s.phase == Uninit
    else (s.phase == Uninit || s.phase == GotSync1) && Hunts(Parse(s, bytes[0]).state, bytes[1..])
  }

  /** Noise is exactly what does not draw the decoder into a frame. */
  lemma {:induction false} NoiseIff(bytes: seq<byte>, buf: seq<byte>)
    requires |buf| >= MIN_BUFFER
    ensures Noise(bytes, SYNC1, SYNC2) <==> Hunts(Reset(buf), bytes)
    decreases |bytes|
  {
    if bytes != [] {
      var s1 := Parse(Reset(buf), bytes[0]).state;
      if bytes[0] != SYNC1 {
        NoiseIff(bytes[1..], buf);
      } else if |bytes| >= 2 {
        assert bytes[1..][0] == bytes[1] && bytes[1..][1..] == bytes[2..];
        var s2 := Parse(s1, bytes[1]).state;
        if bytes[1] != SYNC2 {
          NoiseIff(bytes[2..], buf);
        } else {
          assert s2.phase == GotSync2 && !Hunts(s2, bytes[2..]);
        }
      } else {
        assert bytes[1..] == [];
      }
    }
  }

  predicate StreamOk(stream: seq<Segment<Frame>>, buffer: nat) {
    forall i :: 0 <= i < |stream| ==> Noise(stream[i].noise, SYNC1, SYNC2) && Intact(stream[i].frame, buffer)
  }

  function StreamBytes(stream: seq<Segment<Frame>>, buffer: nat): seq<byte>
    requires StreamOk(stream, buffer)
  {
    if stream == [] then []
    else stream[0].noise + Bytes(stream[0].frame) + StreamBytes(stream[1..], buffer)
  }

  function StreamReports(stream: seq<Segment<Frame>>, buffer: nat): seq<Id>
    requires StreamOk(stream, buffer)
  {
    if stream == [] then []
    else Nothing(IdUnknown, |stream[0].noise|) + FrameReports(stream[0].frame) + StreamReports(stream[1..], buffer)
  }

  /** From a reset decoder, any stream of frames and noise reports exactly the frames whose checksum is
      right, each at its last byte, and leaves the decoder reset. */
  lemma {:induction false} StreamDecodes(stream: seq<Segment<Frame>>, buf: seq<byte>) returns (buf': seq<byte>)
    requires StreamOk(stream, |buf|) && |buf| >= MIN_BUFFER
    ensures |buf'| == |buf|
    ensures Decodes(Reset(buf), StreamBytes(stream, |buf|), Reset(buf'), StreamReports(stream, |buf|))
    decreases |stream|
  {
    if stream == [] {
      buf' := buf;
    } else {
      var noise, f := stream[0].noise, stream[0].frame;
      NoiseDecodes(noise, buf);
      var buf1 := FrameDecodes(f, buf);
      buf' := StreamDecodes(stream[1..], buf1);
      DecodesConcat(Reset(buf), noise, Reset(buf), Nothing(IdUnknown, |noise|), Bytes(f), Reset(buf1), FrameReports(f));
      DecodesConcat(Reset(buf), noise + Bytes(f), Reset(buf1), Nothing(IdUnknown, |noise|) + FrameReports(f),
                    StreamBytes(stream[1..], |buf|), Reset(buf'), StreamReports(stream[1..], |buf|));
    }
  }

  /** In particular over any stream whose noise is free of the first sync byte. */
  lemma SyncFreeStreamDecodes(stream: seq<Segment<Frame>>, buf: seq<byte>) returns (buf': seq<byte>)
    requires |buf| >= MIN_BUFFER
    requires forall i :: 0 <= i < |stream| ==> SyncFree(stream[i].noise, SYNC1) && Intact(stream[i].frame, |buf|)
    ensures StreamOk(stream, |buf|) && |buf'| == |buf|
    ensures Decodes(Reset(buf), StreamBytes(stream, |buf|), Reset(buf'), StreamReports(stream, |buf|))
  {
    forall i | 0 <= i < |stream| ensures Noise(stream[i].noise, SYNC1, SYNC2) {
      SyncFreeIsNoise(stream[i].noise, SYNC1, SYNC2);
    }
    buf' := StreamDecodes(stream, buf);
  }

  lemma StrayIsNoise()
    ensures Noise([SYNC1, SYNC1, SYNC2], SYNC1, SYNC2)
  {
    assert [SYNC1, SYNC1, SYNC2][2..] == [SYNC2] && [SYNC2][1..] == [];
  }

  /** A stray first sync byte right before a frame makes what is before it noise even with the frame's
      two sync bytes taken in, so the frame's start is lost. */
  lemma StraySyncLosesFrameStart(noise: seq<byte>, buf: seq<byte>)
    requires Noise(noise, SYNC1, SYNC2) && |buf| >= MIN_BUFFER
    ensures Decodes(Reset(buf), noise + [SYNC1] + [SYNC1, SYNC2], Reset(buf), Nothing(IdUnknown, |noise| + 3))
  {
    hide Decodes;
    NoiseDecodes(noise, buf);
    StrayIsNoise();
    NoiseDecodes([SYNC1, SYNC1, SYNC2], buf);
    DecodesConcat(Reset(buf), noise, Reset(buf), Nothing(IdUnknown, |noise|),
                  [SYNC1, SYNC1, SYNC2], Reset(buf), Nothing(IdUnknown, 3));
    assert noise + [SYNC1] + [SYNC1, SYNC2] == noise + [SYNC1, SYNC1, SYNC2];
    assert Nothing(IdUnknown, |noise|) + Nothing(IdUnknown, 3) == Nothing(IdUnknown, |noise| + 3);
  }

  // ----- corrupted frames

  /** A right frame with one payload byte altered, or two at an odd distance, is consumed whole and never
      reported, and the decoder is ready for the next one. */
  lemma CorruptedRejected(f: Frame, payload: seq<byte>, buf: seq<byte>) returns (buf': seq<byte>)
    requires Intact(f, |buf|) && |buf| >= MIN_BUFFER && Right(f) && Corrupted(f.payload, payload)
    ensures |payload| == |f.payload| && |buf'| == |buf|
    ensures var g := f.(payload := payload);
            !Right(g) && Decodes(Reset(buf), Bytes(g), Reset(buf'), Nothing(IdUnknown, |Bytes(g)|))
  {
    var g := f.(payload := payload);
    CorruptedBehind(Header(f), f.payload, payload);
    CorruptionNoticed(Covered(f), Covered(g));
    buf' := FrameDecodes(g, buf);
    assert FrameReports(g) == Nothing(IdUnknown, |Bytes(g)|);
  }

  // ----- the sender

  /** The frame with its checksum set right. */
  function Signed(f: Frame): (g: Frame)
    requires |f.payload| < 0x1_0000
    ensures |g.payload| < 0x1_0000 && Right(g)
  {
    f.(ck := AddAll(ZERO, Covered(f)))
  }

  lemma AddNext(ck: Ck, s: seq<byte>, i: nat)
    requires i < |s|
    ensures AddAll(ck, s[i..]) == AddAll(Add(ck, s[i]), s[i + 1..])
  {
    assert s[i..][1..] == s[i + 1..];
  }

  /** Sends the message followed by its checksum, which leaves out the two sync bytes. */
  method WriteConfigMessage(message: seq<byte>) returns (sent: seq<byte>)
    ensures var ck := if |message| < 2 then ZERO else AddAll(ZERO, message[2..]);
            sent == message + [ck.a, ck.b]
  {
    var ckA: byte, ckB: byte := 0, 0;
    var i := 2;
    while i < |message|
      invariant 2 <= i && (|message| >= 2 ==> i <= |message|)
      invariant |message| >= 2 ==> AddAll(ZERO, message[2..]) == AddAll(Ck(ckA, ckB), message[i..])
      invariant |message| < 2 ==> ckA == 0 && ckB == 0
    {
      AddNext(Ck(ckA, ckB), message, i);
      ckA := (ckA + message[i]) % 256;
      ckB := (ckB + ckA) % 256;
      i := i + 1;
    }
    sent := message + [ckA] + [ckB];
    assert sent == message + [ckA, ckB];
  }

  /** A message written by the sender is a right frame, so a decoder that knows it reports it. */
  method SendAndDecode(f: Frame, ghost buf: seq<byte>) returns (sent: seq<byte>)
    requires Intact(f, |buf|) && |buf| >= MIN_BUFFER
    ensures sent == Bytes(Signed(f))
    ensures exists buf': seq<byte> ::
              (|buf'| == |buf| &&
               Decodes(Reset(buf), sent, Reset(buf'), Nothing(IdUnknown, |f.payload| + 7) + [IdOfFrame(f)]))
  {
    var message: seq<byte> := [SYNC1, SYNC2] + Covered(f);
    assert message[2..] == Covered(f);
    sent := WriteConfigMessage(message);
    ghost var buf' := FrameDecodes(Signed(f), buf);
  }

  /** What the packet checksum covers: all but the two sync bytes and the two checksum bytes. */
  function CoveredPart(message: seq<byte>, length: nat): seq<byte>
    requires length <= |message|
  {
    if length < 4 then [] else message[2..length - 2]
  }

  /** On a message with room for its checksum behind it that is what the sender covers. */
  lemma RoutinesCoverTheSame(message: seq<byte>, a: byte, b: byte)
    requires |message| >= 2
    ensures CoveredPart(message + [a, b], |message| + 2) == message[2..]
  {
  }

  /** The other checksum routine: over a whole packet, into its last two bytes. */
  method CalculateChecksum(message: array<byte>, length: nat)
    requires 2 <= length <= message.Length && length < 256
    modifies message
    ensures message[..length - 2] == old(message[..length - 2]) && message[length..] == old(message[length..])
    ensures Ck(message[length - 2], message[length - 1]) == AddAll(ZERO, old(CoveredPart(message[..], length)))
  {
    var ckA: byte, ckB: byte := 0, 0;
    ghost var covered := CoveredPart(message[..], length);
    var i := 2;
    while i < length - 2
      modifies {}
      invariant 2 <= i && (length >= 4 ==> i <= length - 2)
      invariant length < 4 ==> ckA == 0 && ckB == 0
      invariant length >= 4 ==> AddAll(ZERO, covered) == AddAll(Ck(ckA, ckB), covered[i - 2..])
    {
      AddNext(Ck(ckA, ckB), covered, i - 2);
      ckA := (ckA + message[i]) % 256;
      ckB := (ckB + ckA) % 256;
      i := i + 1;
    }
    assert length >= 4 ==> covered[i - 2..] == [];
    message[length - 2] := ckA;
    message[length - 1] := ckB;
  }

  // ----- the decoder as it runs

  class Decoder {
    var phase: Phase
    var ckA: byte
    var ckB: byte
    var rxCount: nat
    var payloadSize: nat
    var messageClass: Class
    var messageId: Id
    const rxBuffer: array<byte>

    ghost function Now(): State
      reads this, rxBuffer
    {
      State(phase, Ck(ckA, ckB), rxCount, payloadSize, messageClass, messageId, rxBuffer[..])
    }

    constructor (size: nat)
      requires size >= MIN_BUFFER
      ensures rxBuffer.Length == size && Now() == Reset(rxBuffer[..]) && fresh(rxBuffer)
    {
      phase, ckA, ckB, rxCount, payloadSize := Uninit, 0, 0, 0, 0;
      messageClass, messageId := ClassUnknown, IdUnknown;
      rxBuffer := new byte[size](_ => 0);
    }

    method DecodeInit()
      modifies this
      ensures Now() == Reset(rxBuffer[..])
    {
      phase, ckA, ckB, rxCount, payloadSize := Uninit, 0, 0, 0, 0;
      messageClass, messageId := ClassUnknown, IdUnknown;
    }

    method Checksum(b: byte)
      modifies this`ckA, this`ckB
      ensures Ck(ckA, ckB) == Add(old(Ck(ckA, ckB)), b)
    {
      ckA := (ckA + b) % 256;
      ckB := (ckB + ckA) % 256;
    }

    /** The packet is complete: report it if the checksum is right, and reset. */
    method Finish() returns (got: Id)
      requires rxBuffer.Length >= MIN_BUFFER && 0 < rxCount < rxBuffer.Length
      modifies this
      ensures Parsed(Now(), got) == ParseLast(old(Now()))
    {
      got := IdUnknown;
      if messageId == IdUnknown {
        DecodeInit();
        rxCount := rxCount + 1;
      } else {
        var at := rxCount - 1;
        if messageId != NavSvinfo && messageId != RxmSvsi {
          at := FixedLength(messageId);
        }
        if ckA == rxBuffer[at] && ckB == rxBuffer[at + 1] {
          got := messageId;
        }
        DecodeInit();
      }
    }

    method ParseByte(b: byte) returns (got: Id)
      requires Ready(Now())
      modifies this, rxBuffer
      ensures Parsed(Now(), got) == Parse(old(Now()), b)
    {
      got := IdUnknown;
      match phase
      case Uninit =>
        if b == SYNC1 {
          phase := GotSync1;
        }
      case GotSync1 =>
        if b == SYNC2 {
          phase := GotSync2;
        } else {
          DecodeInit();
        }
      case GotSync2 =>
        Checksum(b);
        if b == 0x01 {
          phase, messageClass := GotClass, Nav;
        } else if b == 0x02 {
          phase, messageClass := GotClass, Rxm;
        } else {
          DecodeInit();
        }
      case GotClass =>
        Checksum(b);
        var id := IdOf(messageClass, b);
        if id != IdUnknown {
          phase, messageId := GotMessageId, id;
        } else {
          DecodeInit();
        }
      case GotMessageId =>
        Checksum(b);
        payloadSize := b;
        phase := GotLength1;
      case GotLength1 =>
        Checksum(b);
        payloadSize := (payloadSize + b * 256) % 0x1_0000;
        phase := GotLength2;
      case GotLength2 =>
        if rxCount < payloadSize {
          Checksum(b);
        }
        rxBuffer[rxCount] := b;
        if rxCount >= payloadSize + 1 {
          got := Finish();
        } else {
          rxCount := rxCount + 1;
        }
    }
  }
}
