/** The messages the decoders know, in the protocols' own numbers: class and id bytes, the lengths the packet
    structures add up to, and the two sums a frame ends in. */
module GpsMessages {
  import opened Fletcher
  import opened Framing
  import Ubx
  import Mtk

  // ----- u-blox

  /** Widths in bytes of a packet structure's fields, in order, without the checksum. */
  function FieldWidths(id: Ubx.Id): seq<nat> {
    match id
    case NavPosllh => [4, 4, 4, 4, 4, 4, 4]
    case NavSol => [4, 4, 2, 1, 1, 4, 4, 4, 4, 4, 4, 4, 4, 2, 1, 1, 4]
    case NavTimeutc => [4, 4, 4, 2, 1, 1, 1, 1, 1, 1]
    case NavDop => [4, 2, 2, 2, 2, 2, 2, 2]
    case NavVelned => [4, 4, 4, 4, 4, 4, 4, 4, 4]
    case _ => []
  }

  /** Where field `k` of the packed structure begins, or behind the last one where the checksum is. */
  function Offset(id: Ubx.Id, k: nat): nat
    requires k <= |FieldWidths(id)|
    decreases k
  {
    if k == 0 then 0 else Offset(id, k - 1) + FieldWidths(id)[k - 1]
  }

  /** Class byte `c` and id byte `i` with a payload of `n` bytes are message `id`. The last two are as long as
      they say. */
  predicate Listed(c: byte, i: byte, n: nat, id: Ubx.Id) {
    (c == 0x01 && i == 0x02 && n == 28 && id == Ubx.NavPosllh) ||
    (c == 0x01 && i == 0x06 && n == 52 && id == Ubx.NavSol) ||
    (c == 0x01 && i == 0x21 && n == 20 && id == Ubx.NavTimeutc) ||
    (c == 0x01 && i == 0x04 && n == 18 && id == Ubx.NavDop) ||
    (c == 0x01 && i == 0x12 && n == 36 && id == Ubx.NavVelned) ||
    (c == 0x01 && i == 0x30 && id == Ubx.NavSvinfo) ||
    (c == 0x02 && i == 0x20 && id == Ubx.RxmSvsi)
  }

  /** The lengths are those of the packet structures. */
  lemma ListedLengths(c: byte, i: byte, n: nat, id: Ubx.Id)
    requires Listed(c, i, n, id) && id != Ubx.NavSvinfo && id != Ubx.RxmSvsi
    ensures n == Offset(id, |FieldWidths(id)|)
  {
    match id
    case NavPosllh => NavPosllhLength();
    case NavSol => NavSolLength();
    case NavTimeutc => NavTimeutcLength();
    case NavDop => NavDopLength();
    case NavVelned => NavVelnedLength();
    case _ =>
  }

  lemma NavPosllhLength()
    ensures Offset(Ubx.NavPosllh, 7) == 28
  {
    assert Offset(Ubx.NavPosllh, 4) == 16;
  }

  lemma NavSolLength()
    ensures Offset(Ubx.NavSol, 17) == 52
  {
    assert Offset(Ubx.NavSol, 4) == 11;
    assert Offset(Ubx.NavSol, 8) == 24;
    assert Offset(Ubx.NavSol, 12) == 40;
    assert Offset(Ubx.NavSol, 16) == 48;
  }

  lemma NavTimeutcLength()
    ensures Offset(Ubx.NavTimeutc, 10) == 20
  {
    assert Offset(Ubx.NavTimeutc, 4) == 14;
    assert Offset(Ubx.NavTimeutc, 8) == 18;
  }

  lemma NavDopLength()
    ensures Offset(Ubx.NavDop, 8) == 18
  {
    assert Offset(Ubx.NavDop, 4) == 10;
  }

  lemma NavVelnedLength()
    ensures Offset(Ubx.NavVelned, 9) == 36
  {
    assert Offset(Ubx.NavVelned, 4) == 16;
    assert Offset(Ubx.NavVelned, 8) == 32;
  }

  /** The bytes between the sync bytes and the checksum: class, id, length with its low byte first, payload. */
  function UbxCovered(c: byte, i: byte, payload: seq<byte>): seq<byte>
    requires |payload| < 65536
  {
    [c, i, |payload| % 256, |payload| / 256] + payload
  }

  /** A listed message is reported at its last byte exactly if the two bytes behind its payload are the plain
      and the weighted sum of what lies behind the sync bytes. */
  lemma ListedReportedIff(c: byte, i: byte, payload: seq<byte>, a: byte, b: byte, id: Ubx.Id, buf: seq<byte>)
    returns (buf': seq<byte>)
    requires |payload| < 65536 && Listed(c, i, |payload|, id) && |buf| >= 54 && |payload| + 2 <= |buf|
    ensures var covered := UbxCovered(c, i, payload);
            var right := a == Sum(covered) % 256 && b == Weighted(covered) % 256;
            |buf'| == |buf| &&
            Ubx.Decodes(Ubx.Reset(buf), [0xb5, 0x62] + covered + [a, b], Ubx.Reset(buf'),
                        Nothing(Ubx.IdUnknown, |payload| + 7) + [if right then id else Ubx.IdUnknown])
  {
    var f := Ubx.Frame(c, i, payload, Ck(a, b));
    assert Ubx.Covered(f) == UbxCovered(c, i, payload);
    ClosedForm(UbxCovered(c, i, payload));
    hide Ubx.Decodes, AddAll, Sum, Weighted;
    buf' := Ubx.FrameDecodes(f, buf);
  }

  /** Other classes and ids are not messages: the decoder is reset at the byte that says so. */
  lemma UnlistedResets(c: byte, i: byte, buf: seq<byte>)
    requires |buf| >= 54
    ensures c != 0x01 && c != 0x02 ==>
              Ubx.Decodes(Ubx.Reset(buf), [0xb5, 0x62] + [c], Ubx.Reset(buf), Nothing(Ubx.IdUnknown, 3))
    ensures (c == 0x01 && i !in {0x02, 0x04, 0x06, 0x12, 0x21, 0x30}) || (c == 0x02 && i != 0x20) ==>
              Ubx.Decodes(Ubx.Reset(buf), [0xb5, 0x62] + [c, i], Ubx.Reset(buf), Nothing(Ubx.IdUnknown, 4))
  {
    var s0 := Ubx.Reset(buf);
    var s2 := s0.(phase := Ubx.GotSync2);
    Ubx.TwoBytes(s0, 0xb5, 0x62);
    assert Nothing(Ubx.IdUnknown, 2) + [Ubx.IdUnknown] == Nothing(Ubx.IdUnknown, 3);
    if c != 0x01 && c != 0x02 {
      Ubx.NextByte(s0, [0xb5, 0x62], s2, Nothing(Ubx.IdUnknown, 2), c);
    } else if Ubx.Parse(Ubx.Parse(s2, c).state, i).state == Ubx.Reset(buf) {
      Ubx.TwoBytes(s2, c, i);
      assert Nothing(Ubx.IdUnknown, 2) + Nothing(Ubx.IdUnknown, 2) == Nothing(Ubx.IdUnknown, 4);
      Ubx.DecodesConcat(s0, [0xb5, 0x62], s2, Nothing(Ubx.IdUnknown, 2), [c, i], s0, Nothing(Ubx.IdUnknown, 2));
    }
  }

  // ----- MediaTek

  /** 33 payload bytes behind the two sync bytes are reported exactly if the next two are their plain and their
      weighted sum. */
  lemma MtkReportedIff(payload: seq<byte>, a: byte, b: byte, buf: seq<byte>)
    requires |payload| == 33 && |buf| >= 35
    ensures Mtk.Reports(Mtk.Reset(buf), [0xd0, 0xdd] + (payload + [a, b])) ==
            Nothing(false, 36) + [a == Sum(payload) % 256 && b == Weighted(payload) % 256]
  {
    Mtk.FrameRuns(Mtk.Frame(payload, Ck(a, b)), buf);
    ClosedForm(payload);
  }
}
