/** The AR.Drone motor output: mixing attitude commands into four motor values, and packing those into
    the five bytes of a motor command. */
module Ardrone {

  // ----- the packet

  function Nine(m: bv16): bv40 {
    (m & 0x1ff) as bv40
  }

  /** The command word: 001, four nine-bit motor values, 0. */
  function Command(m1: bv16, m2: bv16, m3: bv16, m4: bv16): bv40 {
    0x20_0000_0000 | (Nine(m1) << 28) | (Nine(m2) << 19) | (Nine(m3) << 10) | (Nine(m4) << 1)
  }

  /** Five bytes, the most significant first. */
  function BigEndian(b0: bv8, b1: bv8, b2: bv8, b3: bv8, b4: bv8): bv40 {
    ((b0 as bv40) << 32) | ((b1 as bv40) << 24) | ((b2 as bv40) << 16) | ((b3 as bv40) << 8) | (b4 as bv40)
  }

  function Low(v: bv16): bv8 {
    (v & 0xff) as bv8
  }

  function High(v: bv16): bv8 {
    (v >> 8) as bv8
  }

  /** Motor `k` read back from a command word. */
  function Motor(word: bv40, k: nat): bv16
    requires 1 <= k <= 4
  {
    if k == 1 then ((word >> 28) & 0x1ff) as bv16
    else if k == 2 then ((word >> 19) & 0x1ff) as bv16
    else if k == 3 then ((word >> 10) & 0x1ff) as bv16
    else ((word >> 1) & 0x1ff) as bv16
  }

  function NineOf(m: bv16): bv16 {
    m & 0x1ff
  }

  /** Motor `m`, counted from 0, read back from a packet. */
  function MotorIn(packet: seq<bv8>, m: nat): bv16
    requires |packet| == 5 && m < 4
  {
    Motor(BigEndian(packet[0], packet[1], packet[2], packet[3], packet[4]), m + 1)
  }

  lemma PackedIsCommand(m1: bv16, m2: bv16, m3: bv16, m4: bv16)
    ensures BigEndian(0x20 | High((m1 & 0x1ff) << 4),
                      Low((m1 & 0x1ff) << 4) | High((m2 & 0x1ff) << 3),
                      Low((m2 & 0x1ff) << 3) | High((m3 & 0x1ff) << 2),
                      Low((m3 & 0x1ff) << 2) | High((m4 & 0x1ff) << 1),
                      Low((m4 & 0x1ff) << 1)) == Command(m1, m2, m3, m4)
  {
  }

  /** Reading a packet back gives each motor value modulo 512. */
  lemma PacketRoundTrip(m1: bv16, m2: bv16, m3: bv16, m4: bv16)
    ensures Motor(Command(m1, m2, m3, m4), 1) == NineOf(m1)
    ensures Motor(Command(m1, m2, m3, m4), 2) == NineOf(m2)
    ensures Motor(Command(m1, m2, m3, m4), 3) == NineOf(m3)
    ensures Motor(Command(m1, m2, m3, m4), 4) == NineOf(m4)
    ensures Command(m1, m2, m3, m4) >> 37 == 1 && Command(m1, m2, m3, m4) & 1 == 0
  {
  }

  method GetMotorPacket(buf: array<bv8>, m1: bv16, m2: bv16, m3: bv16, m4: bv16)
    requires buf.Length >= 5
    modifies buf
    ensures BigEndian(buf[0], buf[1], buf[2], buf[3], buf[4]) == Command(m1, m2, m3, m4)
    ensures forall i :: 5 <= i < buf.Length ==> buf[i] == old(buf[i])
  {
    buf[0] := 0x20;
    buf[1] := 0;
    buf[2] := 0;
    buf[3] := 0;
    buf[4] := 0;
    var curr := (m1 & 0x1ff) << 4;
    buf[0] := buf[0] | High(curr);
    buf[1] := buf[1] | Low(curr);
    curr := (m2 & 0x1ff) << 3;
    buf[1] := buf[1] | High(curr);
    buf[2] := buf[2] | Low(curr);
    curr := (m3 & 0x1ff) << 2;
    buf[2] := buf[2] | High(curr);
    buf[3] := buf[3] | Low(curr);
    curr := (m4 & 0x1ff) << 1;
    buf[3] := buf[3] | High(curr);
    buf[4] := buf[4] | Low(curr);
    PackedIsCommand(m1, m2, m3, m4);
  }

  // ----- the mixer, over the reals

  const MIN_THRUST: real := 0.02
  const MAX_THRUST: real := 1.0
  const MIN_GAS: real := 10.0
  const MAX_GAS: real := 500.0
  const BAND_FACTOR: real := 0.75
  const FULL_CONTROL: real := 0.25

  /** The thrust mixed with: never below the minimum. */
  function BaseThrust(thrust: real): real {
    if thrust <= MIN_THRUST then MIN_THRUST else thrust
  }

  /** How far a motor may deviate from the base thrust. */
  function Band(thrust: real): real {
    if thrust <= MIN_THRUST then 0.0
    else if thrust < FULL_CONTROL then BAND_FACTOR * (thrust - MIN_THRUST)
    else if thrust < MAX_THRUST - BAND_FACTOR * FULL_CONTROL then BAND_FACTOR * FULL_CONTROL
    else BAND_FACTOR * (MAX_THRUST - thrust)
  }

  /** A motor's share of the commands: roll, pitch and yaw with its own signs. */
  function Mixed(base: real, roll: real, pitch: real, yaw: real, motor: nat): real
    requires motor < 4
  {
    if motor == 0 then base + (roll / 2.0 + pitch / 2.0 - yaw)
    else if motor == 1 then base + (-roll / 2.0 + pitch / 2.0 + yaw)
    else if motor == 2 then base + (-roll / 2.0 - pitch / 2.0 - yaw)
    else base + (roll / 2.0 - pitch / 2.0 + yaw)
  }

  predicate InBand(base: real, band: real, x: real) {
    base - band < x < base + band
  }

  predicate AllInBand(base: real, band: real, roll: real, pitch: real, yaw: real) {
    forall m :: 0 <= m < 4 ==> InBand(base, band, Mixed(base, roll, pitch, yaw, m))
  }

  /** Yaw counts only half when full yaw would leave the band. */
  function YawUsed(base: real, band: real, roll: real, pitch: real, yaw: real): real {
    if AllInBand(base, band, roll, pitch, yaw) then yaw else yaw * 0.5
  }

  /** The two clamps in the order they are applied; with a negative band the second one wins. */
  function Clamp(base: real, band: real, x: real): real {
    var y := if x < base - band then base - band else x;
    if y > base + band then base + band else y
  }

  /** Truncation to a motor value. */
  function Scaled(x: real): int {
    (x * (MAX_GAS - MIN_GAS) + MIN_GAS).Floor
  }

  function Failsafe(v: int): int {
    var w := if v > 0 then v else 10;
    if w <= 512 then w else 512
  }

  function Pwm(roll: real, pitch: real, yaw: real, thrust: real, motor: nat): int
    requires motor < 4
  {
    var base, band := BaseThrust(thrust), Band(thrust);
    Scaled(Clamp(base, band, Mixed(base, roll, pitch, YawUsed(base, band, roll, pitch, yaw), motor)))
  }

  /** What a motor value becomes when the packet keeps nine bits of it. */
  function OnTheWire(v: int): int {
    Failsafe(v) % 512
  }

  lemma BandBounds(thrust: real)
    requires thrust <= 1.0
    ensures var base, band := BaseThrust(thrust), Band(thrust);
            0.0 <= band && 0.02 <= base - band && base + band <= 1.0
  {
  }

  /** For every attitude and every thrust up to full, each motor value lies between 19 and 500, so
      neither failsafe does anything and the packet carries the value unchanged. */
  lemma MixerStaysInRange(roll: real, pitch: real, yaw: real, thrust: real, motor: nat)
    requires thrust <= 1.0 && motor < 4
    ensures 19 <= Pwm(roll, pitch, yaw, thrust, motor) <= 500
    ensures OnTheWire(Pwm(roll, pitch, yaw, thrust, motor)) == Pwm(roll, pitch, yaw, thrust, motor)
  {
    BandBounds(thrust);
  }

  /** A motor value as the packet takes it. */
  function Bits(v: int): bv16
    requires 0 <= v <= 512
  {
    v as bv16
  }

  lemma BitsBelow(v: int)
    requires 0 <= v < 512
    ensures Bits(v) < 512
  {
  }

  lemma NineKept(b: bv16)
    requires b < 512
    ensures NineOf(b) == b
  {
  }

  /** The nine bits a packet keeps of a motor value are its value on the wire. */
  lemma WireIsNineBits(v: int)
    ensures NineOf(Bits(Failsafe(v))) == Bits(OnTheWire(v))
  {
    var w := Failsafe(v);
    if w < 512 {
      BitsBelow(w);
      NineKept(Bits(w));
    }
  }

  /** Above full thrust the band is negative and every motor gets the same value, whatever the attitude. */
  lemma AboveFullThrust(roll: real, pitch: real, yaw: real, thrust: real, motor: nat)
    requires thrust > 1.0 && motor < 4
    ensures Pwm(roll, pitch, yaw, thrust, motor) == Scaled(0.25 * thrust + 0.75)
  {
  }

  /** The packet loses a motor value exactly from thrust 269/245 on, where the second failsafe's 512 turns
      into 0 on the wire. */
  lemma LosslessIff(roll: real, pitch: real, yaw: real, thrust: real, motor: nat)
    requires motor < 4
    ensures OnTheWire(Pwm(roll, pitch, yaw, thrust, motor)) == Pwm(roll, pitch, yaw, thrust, motor) <==>
            thrust < 269.0 / 245.0
    ensures thrust >= 269.0 / 245.0 ==> OnTheWire(Pwm(roll, pitch, yaw, thrust, motor)) == 0
  {
    if thrust <= 1.0 {
      MixerStaysInRange(roll, pitch, yaw, thrust, motor);
    } else {
      AboveFullThrust(roll, pitch, yaw, thrust, motor);
    }
  }

  lemma AllInBandIff(base: real, band: real, roll: real, pitch: real, yaw: real)
    ensures AllInBand(base, band, roll, pitch, yaw) <==>
            InBand(base, band, Mixed(base, roll, pitch, yaw, 0)) &&
            InBand(base, band, Mixed(base, roll, pitch, yaw, 1)) &&
            InBand(base, band, Mixed(base, roll, pitch, yaw, 2)) &&
            InBand(base, band, Mixed(base, roll, pitch, yaw, 3))
  {
  }

  /** With yaw `y` the four shares pull their ways: front against back by twice the pitch, the pair of motors 0
      and 3 against the other by twice the roll, and the odd ones against the even ones by four times `y`;
      together they keep the thrust. These four sums determine the shares. */
  predicate Shares(c0: real, c1: real, c2: real, c3: real, thrust: real, roll: real, pitch: real, y: real) {
    c0 + c1 - c2 - c3 == 2.0 * pitch &&
    c0 + c3 - c1 - c2 == 2.0 * roll &&
    c1 + c3 - c0 - c2 == 4.0 * y &&
    c0 + c1 + c2 + c3 == 4.0 * thrust
  }

  /** With full yaw every motor stays less than `band` away from the thrust. */
  predicate FullYawFits(band: real, roll: real, pitch: real, yaw: real) {
    -band < roll / 2.0 + pitch / 2.0 - yaw < band &&
    -band < pitch / 2.0 - roll / 2.0 + yaw < band &&
    -band < -roll / 2.0 - pitch / 2.0 - yaw < band &&
    -band < roll / 2.0 - pitch / 2.0 + yaw < band
  }

  /** Mixes the commands, with yaw halved if one motor would leave the band. */
  method Mix(motorCalc: array<real>, motorThrust: real, outputBand: real, roll: real, pitch: real, yaw: real)
    requires motorCalc.Length == 4
    modifies motorCalc
    ensures forall m :: 0 <= m < 4 ==>
      motorCalc[m] == Mixed(motorThrust, roll, pitch, YawUsed(motorThrust, outputBand, roll, pitch, yaw), m)
    ensures Shares(motorCalc[0], motorCalc[1], motorCalc[2], motorCalc[3], motorThrust, roll, pitch,
                   if FullYawFits(outputBand, roll, pitch, yaw) then yaw else yaw / 2.0)
  {
    motorCalc[0] := motorThrust + (roll / 2.0 + pitch / 2.0 - yaw);
    motorCalc[1] := motorThrust + (-roll / 2.0 + pitch / 2.0 + yaw);
    motorCalc[2] := motorThrust + (-roll / 2.0 - pitch / 2.0 - yaw);
    motorCalc[3] := motorThrust + (roll / 2.0 - pitch / 2.0 + yaw);
    AllInBandIff(motorThrust, outputBand, roll, pitch, yaw);
    if !(motorCalc[0] < motorThrust + outputBand && motorCalc[0] > motorThrust - outputBand &&
         motorCalc[1] < motorThrust + outputBand && motorCalc[1] > motorThrust - outputBand &&
         motorCalc[2] < motorThrust + outputBand && motorCalc[2] > motorThrust - outputBand &&
         motorCalc[3] < motorThrust + outputBand && motorCalc[3] > motorThrust - outputBand) {
      var yawFactor := 0.5;
      motorCalc[0] := motorThrust + (roll / 2.0 + pitch / 2.0 - yaw * yawFactor);
      motorCalc[1] := motorThrust + (-roll / 2.0 + pitch / 2.0 + yaw * yawFactor);
      motorCalc[2] := motorThrust + (-roll / 2.0 - pitch / 2.0 - yaw * yawFactor);
      motorCalc[3] := motorThrust + (roll / 2.0 - pitch / 2.0 + yaw * yawFactor);
    }
  }

  /** Clamps every motor to the band, in place. */
  method Limit(motorCalc: array<real>, motorThrust: real, outputBand: real)
    requires motorCalc.Length == 4
    modifies motorCalc
    ensures forall m :: 0 <= m < 4 ==> motorCalc[m] == Clamp(motorThrust, outputBand, old(motorCalc[m]))
  {
    var i := 0;
    while i < 4
      invariant 0 <= i <= 4
      invariant forall m :: 0 <= m < i ==> motorCalc[m] == Clamp(motorThrust, outputBand, old(motorCalc[m]))
      invariant forall m :: i <= m < 4 ==> motorCalc[m] == old(motorCalc[m])
    {
      if motorCalc[i] < motorThrust - outputBand {
        motorCalc[i] := motorThrust - outputBand;
      }
      if motorCalc[i] > motorThrust + outputBand {
        motorCalc[i] := motorThrust + outputBand;
      }
      i := i + 1;
    }
  }

  /** One motor value, scaled and put through the two failsafes. */
  method ScaleOne(x: real) returns (v: int)
    ensures v == Failsafe(Scaled(x))
  {
    v := (x * (MAX_GAS - MIN_GAS) + MIN_GAS).Floor;
    v := if v > 0 then v else 10;
    v := if v <= 512 then v else 512;
  }

  /** The thrust mixed with and the output band around it. */
  method ThrustAndBand(thrust: real) returns (motorThrust: real, outputBand: real)
    ensures motorThrust == BaseThrust(thrust) && outputBand == Band(thrust)
  {
    motorThrust, outputBand := thrust, 0.0;
    if motorThrust <= MIN_THRUST {
      motorThrust := MIN_THRUST;
    } else if motorThrust < FULL_CONTROL {
      outputBand := BAND_FACTOR * (motorThrust - MIN_THRUST);
    } else if motorThrust < MAX_THRUST - BAND_FACTOR * FULL_CONTROL {
      outputBand := BAND_FACTOR * FULL_CONTROL;
    } else {
      outputBand := BAND_FACTOR * (MAX_THRUST - motorThrust);
    }
  }

  /** Packs four motor values; reading the packet back gives the nine bits of each. */
  method WriteMotorCommands(m1: bv16, m2: bv16, m3: bv16, m4: bv16) returns (buf: array<bv8>)
    ensures fresh(buf) && buf.Length == 5
    ensures BigEndian(buf[0], buf[1], buf[2], buf[3], buf[4]) == Command(m1, m2, m3, m4)
    ensures MotorIn(buf[..], 0) == NineOf(m1) && MotorIn(buf[..], 1) == NineOf(m2)
    ensures MotorIn(buf[..], 2) == NineOf(m3) && MotorIn(buf[..], 3) == NineOf(m4)
  {
    buf := new bv8[5];
    GetMotorPacket(buf, m1, m2, m3, m4);
    PacketRoundTrip(m1, m2, m3, m4);
  }

  /** The four values the mixer computes, failsafes included. */
  method MotorValues(roll: real, pitch: real, yaw: real, thrust: real) returns (pwm: array<int>)
    ensures fresh(pwm) && pwm.Length == 4
    ensures forall m :: 0 <= m < 4 ==> pwm[m] == Failsafe(Pwm(roll, pitch, yaw, thrust, m))
  {
    hide Shares, FullYawFits, Mixed, YawUsed, Band, BaseThrust, Clamp, Scaled, Failsafe;
    var motorThrust, outputBand := ThrustAndBand(thrust);
    var motorCalc := new real[4];
    Mix(motorCalc, motorThrust, outputBand, roll, pitch, yaw);
    Limit(motorCalc, motorThrust, outputBand);
    pwm := new int[4];
    pwm[0] := ScaleOne(motorCalc[0]);
    pwm[1] := ScaleOne(motorCalc[1]);
    pwm[2] := ScaleOne(motorCalc[2]);
    pwm[3] := ScaleOne(motorCalc[3]);
  }

  /** The packet sent for an attitude command reads back as the model's motor values; up to full thrust
      those are the very values the mixer computed, 19 to 500. */
  method MixingAndOutput(roll: real, pitch: real, yaw: real, thrust: real) returns (buf: array<bv8>)
    ensures buf.Length == 5
    ensures BigEndian(buf[0], buf[1], buf[2], buf[3], buf[4]) ==
            Command(Bits(Failsafe(Pwm(roll, pitch, yaw, thrust, 0))), Bits(Failsafe(Pwm(roll, pitch, yaw, thrust, 1))),
                    Bits(Failsafe(Pwm(roll, pitch, yaw, thrust, 2))), Bits(Failsafe(Pwm(roll, pitch, yaw, thrust, 3))))
    ensures forall m :: 0 <= m < 4 ==> MotorIn(buf[..], m) == Bits(OnTheWire(Pwm(roll, pitch, yaw, thrust, m)))
    ensures thrust <= 1.0 ==> forall m :: 0 <= m < 4 ==>
              19 <= Pwm(roll, pitch, yaw, thrust, m) <= 500 &&
              MotorIn(buf[..], m) == Bits(Pwm(roll, pitch, yaw, thrust, m))
  {
    hide Pwm, Bits, MotorIn, NineOf, BigEndian, Command;
    var pwm := MotorValues(roll, pitch, yaw, thrust);
    buf := WriteMotorCommands(Bits(pwm[0]), Bits(pwm[1]), Bits(pwm[2]), Bits(pwm[3]));
    forall m | 0 <= m < 4
      ensures MotorIn(buf[..], m) == Bits(OnTheWire(Pwm(roll, pitch, yaw, thrust, m)))
    {
      WireIsNineBits(Pwm(roll, pitch, yaw, thrust, m));
    }
    if thrust <= 1.0 {
      forall m | 0 <= m < 4
        ensures 19 <= Pwm(roll, pitch, yaw, thrust, m) <= 500
        ensures OnTheWire(Pwm(roll, pitch, yaw, thrust, m)) == Pwm(roll, pitch, yaw, thrust, m)
      {
        MixerStaysInRange(roll, pitch, yaw, thrust, m);
      }
    }
  }

  // ----- how the motors answer

  lemma FullYawUsedIff(base: real, band: real, roll: real, pitch: real, yaw: real)
    ensures YawUsed(base, band, roll, pitch, yaw) == if FullYawFits(band, roll, pitch, yaw) then yaw else yaw / 2.0
  {
    AllInBandIff(base, band, roll, pitch, yaw);
  }

  lemma ScaledMonotone(x: real, y: real)
    requires x <= y
    ensures Scaled(x) <= Scaled(y)
  {
  }

  lemma ClampedMonotone(base: real, band: real, x: real, y: real)
    requires 0.0 <= band && x <= y
    ensures Clamp(base, band, x) <= Clamp(base, band, y)
  {
  }

  /** The motor value a share comes to. */
  lemma PwmOfShare(roll: real, pitch: real, yaw: real, thrust: real, motor: nat)
    requires motor < 4
    ensures var base, band := BaseThrust(thrust), Band(thrust);
            var y := if FullYawFits(band, roll, pitch, yaw) then yaw else yaw / 2.0;
            Pwm(roll, pitch, yaw, thrust, motor) == Scaled(Clamp(base, band, Mixed(base, roll, pitch, y, motor)))
  {
    FullYawUsedIff(BaseThrust(thrust), Band(thrust), roll, pitch, yaw);
  }

  lemma MixedShifts(base: real, roll: real, pitch: real, y: real, motor: nat)
    requires motor < 4
    ensures Mixed(base, roll, pitch, y, motor) == base + Mixed(0.0, roll, pitch, y, motor)
  {
  }

  /** Two commands at one thrust compare motor by motor as their shares do. */
  lemma PwmCompare(r1: real, p1: real, w1: real, r2: real, p2: real, w2: real, thrust: real, motor: nat)
    requires motor < 4 && thrust <= 1.0
    ensures var y1 := if FullYawFits(Band(thrust), r1, p1, w1) then w1 else w1 / 2.0;
            var y2 := if FullYawFits(Band(thrust), r2, p2, w2) then w2 else w2 / 2.0;
            Mixed(0.0, r1, p1, y1, motor) <= Mixed(0.0, r2, p2, y2, motor) ==>
              Pwm(r1, p1, w1, thrust, motor) <= Pwm(r2, p2, w2, thrust, motor)
  {
    hide Pwm, Scaled, Clamp, Mixed, Band, BaseThrust, FullYawFits;
    var base, band := BaseThrust(thrust), Band(thrust);
    var y1 := if FullYawFits(band, r1, p1, w1) then w1 else w1 / 2.0;
    var y2 := if FullYawFits(band, r2, p2, w2) then w2 else w2 / 2.0;
    BandBounds(thrust);
    PwmOfShare(r1, p1, w1, thrust, motor);
    PwmOfShare(r2, p2, w2, thrust, motor);
    MixedShifts(base, r1, p1, y1, motor);
    MixedShifts(base, r2, p2, y2, motor);
    var x, y := Mixed(base, r1, p1, y1, motor), Mixed(base, r2, p2, y2, motor);
    if x <= y {
      ClampedMonotone(base, band, x, y);
      ScaledMonotone(Clamp(base, band, x), Clamp(base, band, y));
    }
  }

  /** As long as yaw keeps its weight, more pitch never lowers the front motors 0 and 1 nor raises 2 and 3. */
  lemma MorePitch(roll: real, p1: real, p2: real, yaw: real, thrust: real)
    requires p1 <= p2 && thrust <= 1.0
    requires FullYawFits(Band(thrust), roll, p1, yaw) <==> FullYawFits(Band(thrust), roll, p2, yaw)
    ensures Pwm(roll, p1, yaw, thrust, 0) <= Pwm(roll, p2, yaw, thrust, 0)
    ensures Pwm(roll, p1, yaw, thrust, 1) <= Pwm(roll, p2, yaw, thrust, 1)
    ensures Pwm(roll, p1, yaw, thrust, 2) >= Pwm(roll, p2, yaw, thrust, 2)
    ensures Pwm(roll, p1, yaw, thrust, 3) >= Pwm(roll, p2, yaw, thrust, 3)
  {
    hide Pwm, FullYawFits, Band;
    PwmCompare(roll, p1, yaw, roll, p2, yaw, thrust, 0);
    PwmCompare(roll, p1, yaw, roll, p2, yaw, thrust, 1);
    PwmCompare(roll, p2, yaw, roll, p1, yaw, thrust, 2);
    PwmCompare(roll, p2, yaw, roll, p1, yaw, thrust, 3);
  }

  /** As long as yaw keeps its weight, more roll never lowers motors 0 and 3 nor raises 1 and 2. */
  lemma MoreRoll(r1: real, r2: real, pitch: real, yaw: real, thrust: real)
    requires r1 <= r2 && thrust <= 1.0
    requires FullYawFits(Band(thrust), r1, pitch, yaw) <==> FullYawFits(Band(thrust), r2, pitch, yaw)
    ensures Pwm(r1, pitch, yaw, thrust, 0) <= Pwm(r2, pitch, yaw, thrust, 0)
    ensures Pwm(r1, pitch, yaw, thrust, 3) <= Pwm(r2, pitch, yaw, thrust, 3)
    ensures Pwm(r1, pitch, yaw, thrust, 1) >= Pwm(r2, pitch, yaw, thrust, 1)
    ensures Pwm(r1, pitch, yaw, thrust, 2) >= Pwm(r2, pitch, yaw, thrust, 2)
  {
    hide Pwm, FullYawFits, Band;
    PwmCompare(r1, pitch, yaw, r2, pitch, yaw, thrust, 0);
    PwmCompare(r1, pitch, yaw, r2, pitch, yaw, thrust, 3);
    PwmCompare(r2, pitch, yaw, r1, pitch, yaw, thrust, 1);
    PwmCompare(r2, pitch, yaw, r1, pitch, yaw, thrust, 2);
  }

  /** As long as yaw keeps its weight, more yaw never lowers motors 1 and 3 nor raises 0 and 2. */
  lemma MoreYaw(roll: real, pitch: real, w1: real, w2: real, thrust: real)
    requires w1 <= w2 && thrust <= 1.0
    requires FullYawFits(Band(thrust), roll, pitch, w1) <==> FullYawFits(Band(thrust), roll, pitch, w2)
    ensures Pwm(roll, pitch, w1, thrust, 1) <= Pwm(roll, pitch, w2, thrust, 1)
    ensures Pwm(roll, pitch, w1, thrust, 3) <= Pwm(roll, pitch, w2, thrust, 3)
    ensures Pwm(roll, pitch, w1, thrust, 0) >= Pwm(roll, pitch, w2, thrust, 0)
    ensures Pwm(roll, pitch, w1, thrust, 2) >= Pwm(roll, pitch, w2, thrust, 2)
  {
    hide Pwm, FullYawFits, Band;
    PwmCompare(roll, pitch, w1, roll, pitch, w2, thrust, 1);
    PwmCompare(roll, pitch, w1, roll, pitch, w2, thrust, 3);
    PwmCompare(roll, pitch, w2, roll, pitch, w1, thrust, 0);
    PwmCompare(roll, pitch, w2, roll, pitch, w1, thrust, 2);
  }

  /** Where yaw loses half its weight a little more pitch lowers a front motor. */
  lemma PitchCanLowerFront()
    ensures !FullYawFits(Band(0.5), 0.0, 0.08, 0.15) && FullYawFits(Band(0.5), 0.0, 0.07, 0.15)
    ensures Pwm(0.0, 0.07, 0.15, 0.5, 1) == 345 && Pwm(0.0, 0.08, 0.15, 0.5, 1) == 311
  {
    PwmOfShare(0.0, 0.07, 0.15, 0.5, 1);
    PwmOfShare(0.0, 0.08, 0.15, 0.5, 1);
  }

  /** Level flight: every motor gets 10 plus 490 times the thrust. */
  lemma LevelFlight(thrust: real, motor: nat)
    requires 0.02 <= thrust <= 1.0 && motor < 4
    ensures Pwm(0.0, 0.0, 0.0, thrust, motor) == (490.0 * thrust + 10.0).Floor
  {
    PwmOfShare(0.0, 0.0, 0.0, thrust, motor);
  }

  /** How far the motors may part at a thrust: not at all up to 0.02, by three quarters of the way from there
      up to 0.25, by 0.1875 up to 0.8125, and by three quarters of the way to full thrust from there on. Full
      pitch takes the front motors to the upper end and the others to the lower one. */
  lemma FullPitch(thrust: real, motor: nat)
    requires thrust <= 1.0 && motor < 4
    ensures var base := if thrust <= 0.02 then 0.02 else thrust;
            var reach := if thrust <= 0.02 then 0.0
                         else if thrust < 0.25 then 0.75 * (thrust - 0.02)
                         else if thrust < 0.8125 then 0.1875
                         else 0.75 * (1.0 - thrust);
            Pwm(0.0, 10.0, 0.0, thrust, motor) ==
            (490.0 * (if motor < 2 then base + reach else base - reach) + 10.0).Floor
  {
    PwmOfShare(0.0, 10.0, 0.0, thrust, motor);
  }

  /** A little pitch at half thrust, to the number. */
  lemma SomePitch()
    ensures Pwm(0.0, 0.1, 0.0, 0.5, 0) == 279 && Pwm(0.0, 0.1, 0.0, 0.5, 1) == 279
    ensures Pwm(0.0, 0.1, 0.0, 0.5, 2) == 230 && Pwm(0.0, 0.1, 0.0, 0.5, 3) == 230
  {
    PwmOfShare(0.0, 0.1, 0.0, 0.5, 0);
    PwmOfShare(0.0, 0.1, 0.0, 0.5, 1);
    PwmOfShare(0.0, 0.1, 0.0, 0.5, 2);
    PwmOfShare(0.0, 0.1, 0.0, 0.5, 3);
  }

  /** The failsafes keep every value from 1 to 512, and turn others into 10 or 512. */
  lemma FailsafeRange(v: int)
    ensures 1 <= Failsafe(v) <= 512 && (Failsafe(v) == v <==> 1 <= v <= 512)
    ensures v <= 0 ==> Failsafe(v) == 10
    ensures v > 512 ==> Failsafe(v) == 512
  {
  }

  /** Some commands to the bit. */
  lemma CommandsToTheBit()
    ensures Command(1, 2, 3, 4) == 0x20_1010_0c08
    ensures Command(0x1ff, 0, 0, 0) == 0x3f_f000_0000
    ensures Command(0, 0, 0, 0xffff) == 0x20_0000_03fe
  {
  }
}
