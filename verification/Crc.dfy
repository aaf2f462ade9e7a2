/** The uploader's CRC: a 256-entry table, proved to be the reflected polynomial 0xEDB88320 taken eight
    bits at a time (section 8 of RFC 1952, with initial value 0 and no final complement). */
module Checksums32 {

  // The table, eight entries to a row as the program lays it out.
  const CRCTAB: seq<seq<bv32>> := [
    [0x00000000, 0x77073096, 0xee0e612c, 0x990951ba, 0x076dc419, 0x706af48f, 0xe963a535, 0x9e6495a3],
    [0x0edb8832, 0x79dcb8a4, 0xe0d5e91e, 0x97d2d988, 0x09b64c2b, 0x7eb17cbd, 0xe7b82d07, 0x90bf1d91],
    [0x1db71064, 0x6ab020f2, 0xf3b97148, 0x84be41de, 0x1adad47d, 0x6ddde4eb, 0xf4d4b551, 0x83d385c7],
    [0x136c9856, 0x646ba8c0, 0xfd62f97a, 0x8a65c9ec, 0x14015c4f, 0x63066cd9, 0xfa0f3d63, 0x8d080df5],
    [0x3b6e20c8, 0x4c69105e, 0xd56041e4, 0xa2677172, 0x3c03e4d1, 0x4b04d447, 0xd20d85fd, 0xa50ab56b],
    [0x35b5a8fa, 0x42b2986c, 0xdbbbc9d6, 0xacbcf940, 0x32d86ce3, 0x45df5c75, 0xdcd60dcf, 0xabd13d59],
    [0x26d930ac, 0x51de003a, 0xc8d75180, 0xbfd06116, 0x21b4f4b5, 0x56b3c423, 0xcfba9599, 0xb8bda50f],
    [0x2802b89e, 0x5f058808, 0xc60cd9b2, 0xb10be924, 0x2f6f7c87, 0x58684c11, 0xc1611dab, 0xb6662d3d],
    [0x76dc4190, 0x01db7106, 0x98d220bc, 0xefd5102a, 0x71b18589, 0x06b6b51f, 0x9fbfe4a5, 0xe8b8d433],
    [0x7807c9a2, 0x0f00f934, 0x9609a88e, 0xe10e9818, 0x7f6a0dbb, 0x086d3d2d, 0x91646c97, 0xe6635c01],
    [0x6b6b51f4, 0x1c6c6162, 0x856530d8, 0xf262004e, 0x6c0695ed, 0x1b01a57b, 0x8208f4c1, 0xf50fc457],
    [0x65b0d9c6, 0x12b7e950, 0x8bbeb8ea, 0xfcb9887c, 0x62dd1ddf, 0x15da2d49, 0x8cd37cf3, 0xfbd44c65],
    [0x4db26158, 0x3ab551ce, 0xa3bc0074, 0xd4bb30e2, 0x4adfa541, 0x3dd895d7, 0xa4d1c46d, 0xd3d6f4fb],
    [0x4369e96a, 0x346ed9fc, 0xad678846, 0xda60b8d0, 0x44042d73, 0x33031de5, 0xaa0a4c5f, 0xdd0d7cc9],
    [0x5005713c, 0x270241aa, 0xbe0b1010, 0xc90c2086, 0x5768b525, 0x206f85b3, 0xb966d409, 0xce61e49f],
    [0x5edef90e, 0x29d9c998, 0xb0d09822, 0xc7d7a8b4, 0x59b33d17, 0x2eb40d81, 0xb7bd5c3b, 0xc0ba6cad],
    [0xedb88320, 0x9abfb3b6, 0x03b6e20c, 0x74b1d29a, 0xead54739, 0x9dd277af, 0x04db2615, 0x73dc1683],
    [0xe3630b12, 0x94643b84, 0x0d6d6a3e, 0x7a6a5aa8, 0xe40ecf0b, 0x9309ff9d, 0x0a00ae27, 0x7d079eb1],
    [0xf00f9344, 0x8708a3d2, 0x1e01f268, 0x6906c2fe, 0xf762575d, 0x806567cb, 0x196c3671, 0x6e6b06e7],
    [0xfed41b76, 0x89d32be0, 0x10da7a5a, 0x67dd4acc, 0xf9b9df6f, 0x8ebeeff9, 0x17b7be43, 0x60b08ed5],
    [0xd6d6a3e8, 0xa1d1937e, 0x38d8c2c4, 0x4fdff252, 0xd1bb67f1, 0xa6bc5767, 0x3fb506dd, 0x48b2364b],
    [0xd80d2bda, 0xaf0a1b4c, 0x36034af6, 0x41047a60, 0xdf60efc3, 0xa867df55, 0x316e8eef, 0x4669be79],
    [0xcb61b38c, 0xbc66831a, 0x256fd2a0, 0x5268e236, 0xcc0c7795, 0xbb0b4703, 0x220216b9, 0x5505262f],
    [0xc5ba3bbe, 0xb2bd0b28, 0x2bb45a92, 0x5cb36a04, 0xc2d7ffa7, 0xb5d0cf31, 0x2cd99e8b, 0x5bdeae1d],
    [0x9b64c2b0, 0xec63f226, 0x756aa39c, 0x026d930a, 0x9c0906a9, 0xeb0e363f, 0x72076785, 0x05005713],
    [0x95bf4a82, 0xe2b87a14, 0x7bb12bae, 0x0cb61b38, 0x92d28e9b, 0xe5d5be0d, 0x7cdcefb7, 0x0bdbdf21],
    [0x86d3d2d4, 0xf1d4e242, 0x68ddb3f8, 0x1fda836e, 0x81be16cd, 0xf6b9265b, 0x6fb077e1, 0x18b74777],
    [0x88085ae6, 0xff0f6a70, 0x66063bca, 0x11010b5c, 0x8f659eff, 0xf862ae69, 0x616bffd3, 0x166ccf45],
    [0xa00ae278, 0xd70dd2ee, 0x4e048354, 0x3903b3c2, 0xa7672661, 0xd06016f7, 0x4969474d, 0x3e6e77db],
    [0xaed16a4a, 0xd9d65adc, 0x40df0b66, 0x37d83bf0, 0xa9bcae53, 0xdebb9ec5, 0x47b2cf7f, 0x30b5ffe9],
    [0xbdbdf21c, 0xcabac28a, 0x53b39330, 0x24b4a3a6, 0xbad03605, 0xcdd70693, 0x54de5729, 0x23d967bf],
    [0xb3667a2e, 0xc4614ab8, 0x5d681b02, 0x2a6f2b94, 0xb40bbe37, 0xc30c8ea1, 0x5a05df1b, 0x2d02ef8d]]

  lemma TableShape()
    ensures |CRCTAB| == 32 && forall r :: 0 <= r < 32 ==> |CRCTAB[r]| == 8
  {
  }

  lemma PlaceBounds(i: bv8)
    ensures (i >> 3) as int < 32 && (i & 7) as int < 8
  {
  }

  function Table(i: bv8): bv32 {
    TableShape();
    PlaceBounds(i);
    CRCTAB[(i >> 3) as int][(i & 7) as int]
  }

  /** One byte of the table-driven CRC. */
  function TableStep(state: bv32, byte: bv8): bv32 {
    Table(((state ^ (byte as bv32)) & 0xff) as bv8) ^ (state >> 8)
  }

  // ----- the bitwise CRC

  const BYTE: nat := 8

  /** Addition of polynomials over the two-element field. */
  function Plus(a: bv32, b: bv32): bv32 {
    a ^ b
  }

  function Half(x: bv32): bv32 {
    x >> 1
  }

  /** The polynomial if the lowest bit is set, else nothing. */
  function Overflow(x: bv32): bv32 {
    0xEDB88320 & (0 - (x & 1))
  }

  /** One bit: divide by x, and if a bit fell out subtract the polynomial. */
  function BitStep(x: bv32): bv32 {
    Half(x) ^ Overflow(x)
  }

  function BitSteps(x: bv32, n: nat): bv32
    decreases n
  {
    if n == 0 then x else BitSteps(BitStep(x), n - 1)
  }

  function Mix(state: bv32, byte: bv8): bv32 {
    state ^ (byte as bv32)
  }

  /** One byte of the bitwise CRC. */
  function ByteStep(state: bv32, byte: bv8): bv32 {
    BitSteps(Mix(state, byte), BYTE)
  }

  /** The CRC of `bytes` from `state`, one bit at a time. */
  function Crc(bytes: seq<bv8>, state: bv32): bv32
    decreases bytes
  {
    if bytes == [] then state else Crc(bytes[1..], ByteStep(state, bytes[0]))
  }

  // ----- the table holds eight bit steps of each index

  function EightBitSteps(x: bv32): bv32 {
    BitStep(BitStep(BitStep(BitStep(BitStep(BitStep(BitStep(BitStep(x))))))))
  }

  function Joined(x: bv32, c: bv8): bv32 {
    x | (c as bv32)
  }

  /** The row holds eight bit steps of `x` with each of 0 .. 7 filled in. */
  predicate RowIs(row: seq<bv32>, x: bv32) {
    |row| == 8 &&
    row[0] == EightBitSteps(Joined(x, 0)) && row[1] == EightBitSteps(Joined(x, 1)) &&
    row[2] == EightBitSteps(Joined(x, 2)) && row[3] == EightBitSteps(Joined(x, 3)) &&
    row[4] == EightBitSteps(Joined(x, 4)) && row[5] == EightBitSteps(Joined(x, 5)) &&
    row[6] == EightBitSteps(Joined(x, 6)) && row[7] == EightBitSteps(Joined(x, 7))
  }

  lemma Row0() ensures RowIs(CRCTAB[0], 0x00) {}
  lemma Row1() ensures RowIs(CRCTAB[1], 0x08) {}
  lemma Row2() ensures RowIs(CRCTAB[2], 0x10) {}
  lemma Row3() ensures RowIs(CRCTAB[3], 0x18) {}
  lemma Row4() ensures RowIs(CRCTAB[4], 0x20) {}
  lemma Row5() ensures RowIs(CRCTAB[5], 0x28) {}
  lemma Row6() ensures RowIs(CRCTAB[6], 0x30) {}
  lemma Row7() ensures RowIs(CRCTAB[7], 0x38) {}
  lemma Row8() ensures RowIs(CRCTAB[8], 0x40) {}
  lemma Row9() ensures RowIs(CRCTAB[9], 0x48) {}
  lemma Row10() ensures RowIs(CRCTAB[10], 0x50) {}
  lemma Row11() ensures RowIs(CRCTAB[11], 0x58) {}
  lemma Row12() ensures RowIs(CRCTAB[12], 0x60) {}
  lemma Row13() ensures RowIs(CRCTAB[13], 0x68) {}
  lemma Row14() ensures RowIs(CRCTAB[14], 0x70) {}
  lemma Row15() ensures RowIs(CRCTAB[15], 0x78) {}
  lemma Row16() ensures RowIs(CRCTAB[16], 0x80) {}
  lemma Row17() ensures RowIs(CRCTAB[17], 0x88) {}
  lemma Row18() ensures RowIs(CRCTAB[18], 0x90) {}
  lemma Row19() ensures RowIs(CRCTAB[19], 0x98) {}
  lemma Row20() ensures RowIs(CRCTAB[20], 0xa0) {}
  lemma Row21() ensures RowIs(CRCTAB[21], 0xa8) {}
  lemma Row22() ensures RowIs(CRCTAB[22], 0xb0) {}
  lemma Row23() ensures RowIs(CRCTAB[23], 0xb8) {}
  lemma Row24() ensures RowIs(CRCTAB[24], 0xc0) {}
  lemma Row25() ensures RowIs(CRCTAB[25], 0xc8) {}
  lemma Row26() ensures RowIs(CRCTAB[26], 0xd0) {}
  lemma Row27() ensures RowIs(CRCTAB[27], 0xd8) {}
  lemma Row28() ensures RowIs(CRCTAB[28], 0xe0) {}
  lemma Row29() ensures RowIs(CRCTAB[29], 0xe8) {}
  lemma Row30() ensures RowIs(CRCTAB[30], 0xf0) {}
  lemma Row31() ensures RowIs(CRCTAB[31], 0xf8) {}

  lemma RowBelow16(r: bv8)
    requires r < 16
    ensures r as int < 32 && RowIs(CRCTAB[r as int], (r as bv32) << 3)
  {
    hide RowIs;
    if r == 0 { Row0(); }
    else if r == 1 { Row1(); }
    else if r == 2 { Row2(); }
    else if r == 3 { Row3(); }
    else if r == 4 { Row4(); }
    else if r == 5 { Row5(); }
    else if r == 6 { Row6(); }
    else if r == 7 { Row7(); }
    else if r == 8 { Row8(); }
    else if r == 9 { Row9(); }
    else if r == 10 { Row10(); }
    else if r == 11 { Row11(); }
    else if r == 12 { Row12(); }
    else if r == 13 { Row13(); }
    else if r == 14 { Row14(); }
    else { Row15(); }
  }

  lemma RowFrom16(r: bv8)
    requires 16 <= r < 32
    ensures r as int < 32 && RowIs(CRCTAB[r as int], (r as bv32) << 3)
  {
    hide RowIs;
    if r == 16 { Row16(); }
    else if r == 17 { Row17(); }
    else if r == 18 { Row18(); }
    else if r == 19 { Row19(); }
    else if r == 20 { Row20(); }
    else if r == 21 { Row21(); }
    else if r == 22 { Row22(); }
    else if r == 23 { Row23(); }
    else if r == 24 { Row24(); }
    else if r == 25 { Row25(); }
    else if r == 26 { Row26(); }
    else if r == 27 { Row27(); }
    else if r == 28 { Row28(); }
    else if r == 29 { Row29(); }
    else if r == 30 { Row30(); }
    else { Row31(); }
  }

  lemma EntryAt(row: seq<bv32>, x: bv32, c: bv8)
    requires RowIs(row, x) && c < 8
    ensures c as int < 8 && row[c as int] == EightBitSteps(Joined(x, c))
  {
    hide EightBitSteps, Joined;
    if c == 0 {} else if c == 1 {} else if c == 2 {} else if c == 3 {}
    else if c == 4 {} else if c == 5 {} else if c == 6 {} else {}
  }

  lemma Place(i: bv8)
    ensures i >> 3 < 32 && i & 7 < 8 && Joined(((i >> 3) as bv32) << 3, i & 7) == i as bv32
  {
  }

  lemma EightAreEight(x: bv32)
    ensures BitSteps(x, BYTE) == EightBitSteps(x)
  {
  }

  /** Every table entry is eight bit steps of its index. */
  lemma TableIsEightSteps(i: bv8)
    ensures Table(i) == BitSteps(i as bv32, BYTE)
  {
    hide RowIs, EightBitSteps, BitSteps, Joined;
    Place(i);
    if i >> 3 < 16 {
      RowBelow16(i >> 3);
    } else {
      RowFrom16(i >> 3);
    }
    EntryAt(CRCTAB[(i >> 3) as int], ((i >> 3) as bv32) << 3, i & 7);
    EightAreEight(i as bv32);
  }

  // ----- the byte step is the table step

  lemma {:induction false} BitStepLast(x: bv32, n: nat)
    ensures BitSteps(x, n + 1) == BitStep(BitSteps(x, n))
    decreases n
  {
    hide BitStep;
    if n > 0 {
      BitStepLast(BitStep(x), n - 1);
    }
  }

  /** `y` moved `n` places up. */
  function Up(y: bv32, n: nat): bv32
    decreases n
  {
    if n == 0 then y else Up(y << 1, n - 1)
  }

  /** Moving `y` up `n` places loses no bit. */
  predicate Room(y: bv32, n: nat)
    decreases n
  {
    n == 0 || (y & 0x7fff_ffff == y && Room(y << 1, n - 1))
  }

  lemma BitStepParts(x: bv32)
    ensures BitStep(x) == Plus(Half(x), Overflow(x))
  {
    hide Half, Overflow;
  }

  lemma OverflowStays(x: bv32, y: bv32)
    ensures Overflow(Plus(x, y << 1)) == Overflow(x)
  {
    assert (x ^ (y << 1)) & 1 == x & 1;
  }

  lemma HalfMoves(x: bv32, y: bv32)
    ensures Half(Plus(x, (y & 0x7fff_ffff) << 1)) == Plus(Half(x), y & 0x7fff_ffff)
  {
  }

  lemma PlusCommutes(a: bv32, b: bv32)
    ensures Plus(a, b) == Plus(b, a)
  {
  }

  lemma PlusAssociates(a: bv32, b: bv32, c: bv32)
    ensures Plus(Plus(a, b), c) == Plus(a, Plus(b, c))
  {
  }

  /** One bit step moves what stands one place up one place down. */
  lemma MoveDown(x: bv32, y: bv32)
    requires y & 0x7fff_ffff == y
    ensures BitStep(Plus(x, y << 1)) == Plus(BitStep(x), y)
  {
    hide BitStep, Plus, Half, Overflow;
    BitStepParts(x);
    BitStepParts(Plus(x, y << 1));
    OverflowStays(x, y);
    HalfMoves(x, y);
    PlusAssociates(Half(x), y, Overflow(x));
    PlusCommutes(y, Overflow(x));
    PlusAssociates(Half(x), Overflow(x), y);
  }

  /** And `n` bit steps move what stands `n` places up `n` places down. */
  lemma {:induction false} Drop(x: bv32, y: bv32, n: nat)
    requires Room(y, n)
    ensures BitSteps(Plus(x, Up(y, n)), n) == Plus(BitSteps(x, n), y)
    decreases n
  {
    hide BitStep, Plus;
    if n > 0 {
      Drop(x, y << 1, n - 1);
      BitStepLast(x, n - 1);
      BitStepLast(Plus(x, Up(y, n)), n - 1);
      MoveDown(BitSteps(x, n - 1), y);
    }
  }

  lemma RoomForByte(d: bv32)
    requires Shifted(d)
    ensures Room(d, 8) && Up(d, 8) == (d & 0xffffff) << 8
  {
  }

  /** A word put together from its low byte and the rest. */
  function Word(lo: bv8, hi: bv32): bv32 {
    (lo as bv32) ^ ((hi & 0xffffff) << 8)
  }

  /** The rest of a word, as a shift leaves it. */
  predicate Shifted(hi: bv32) {
    hi & 0xffffff == hi
  }

  lemma EightStepsSplit(x: bv32, lo: bv32, hi: bv32)
    requires x == lo ^ ((hi & 0xffffff) << 8) && hi & 0xffffff == hi
    ensures BitSteps(x, 8) == Plus(BitSteps(lo, 8), hi)
  {
    RoomForByte(hi);
    Drop(lo, hi, 8);
  }

  /** Eight bit steps look the low byte up and shift the rest down. */
  lemma EightSteps(x: bv32, lo: bv8, hi: bv32)
    requires x == Word(lo, hi) && Shifted(hi)
    ensures BitSteps(x, 8) == Plus(Table(lo), hi)
  {
    EightStepsSplit(x, lo as bv32, hi);
    TableIsEightSteps(lo);
  }

  lemma SplitState(state: bv32, byte: bv8)
    ensures Word(((state ^ (byte as bv32)) & 0xff) as bv8, state >> 8) == state ^ (byte as bv32)
    ensures Shifted(state >> 8)
  {
  }

  lemma TableStepParts(state: bv32, byte: bv8)
    ensures TableStep(state, byte) == Plus(Table(((state ^ (byte as bv32)) & 0xff) as bv8), state >> 8)
  {
  }

  /** The table-driven step is eight bit steps, for every state and byte. */
  lemma TableStepIsByteStep(state: bv32, byte: bv8)
    ensures TableStep(state, byte) == ByteStep(state, byte)
  {
    SplitState(state, byte);
    TableStepParts(state, byte);
    EightSteps(state ^ (byte as bv32), ((state ^ (byte as bv32)) & 0xff) as bv8, state >> 8);
  }

  lemma {:induction false} CrcConcat(a: seq<bv8>, b: seq<bv8>, state: bv32)
    ensures Crc(a + b, state) == Crc(b, Crc(a, state))
    decreases a
  {
    if a == [] {
      assert a + b == b;
    } else {
      assert (a + b)[0] == a[0] && (a + b)[1..] == a[1..] + b;
      CrcConcat(a[1..], b, ByteStep(state, a[0]));
    }
  }

  // ----- no step loses information

  /** Undoes a bit step: the polynomial's top bit tells whether it was subtracted. */
  function BitUnstep(y: bv32): bv32 {
    ((y ^ (0xEDB88320 & (0 - (y >> 31)))) << 1) ^ (y >> 31)
  }

  lemma BitStepUndone(x: bv32)
    ensures BitUnstep(BitStep(x)) == x
  {
  }

  lemma {:induction false} BitStepsInjective(x: bv32, y: bv32, n: nat)
    requires BitSteps(x, n) == BitSteps(y, n)
    ensures x == y
    decreases n
  {
    if n > 0 {
      BitStepsInjective(BitStep(x), BitStep(y), n - 1);
      BitStepUndone(x);
      BitStepUndone(y);
    }
  }

  lemma XorCancels(x: bv32, y: bv32, z: bv32)
    requires x ^ z == y ^ z
    ensures x == y
  {
  }

  lemma MixInjective(s: bv32, t: bv32, byte: bv8)
    requires Mix(s, byte) == Mix(t, byte)
    ensures s == t
  {
  }

  lemma ByteStepInjective(s: bv32, t: bv32, byte: bv8)
    requires ByteStep(s, byte) == ByteStep(t, byte)
    ensures s == t
  {
    BitStepsInjective(Mix(s, byte), Mix(t, byte), BYTE);
    MixInjective(s, t, byte);
  }

  lemma {:induction false} CrcInjective(bytes: seq<bv8>, s: bv32, t: bv32)
    requires Crc(bytes, s) == Crc(bytes, t)
    ensures s == t
    decreases bytes
  {
    if bytes != [] {
      CrcInjective(bytes[1..], ByteStep(s, bytes[0]), ByteStep(t, bytes[0]));
      ByteStepInjective(s, t, bytes[0]);
    }
  }

  // ----- four bytes are absorbed as one word

  /** Up to four bytes as a little-endian word. */
  function Pack(bytes: seq<bv8>): bv32
    decreases bytes
  {
    if bytes == [] then 0 else Word(bytes[0], Pack(bytes[1..]))
  }

  lemma WordParts(lo: bv8, hi: bv32)
    ensures (Word(lo, hi) & 0xff) == lo as bv32
    ensures Shifted(hi) ==> Word(lo, hi) >> 8 == hi
  {
  }

  lemma EmptyWord(lo: bv8)
    ensures Word(lo, 0) == lo as bv32 && Word(lo, 0) & 0xff == Word(lo, 0)
  {
  }

  lemma TwoByteWord(lo: bv8, hi: bv32)
    requires hi & 0xff == hi
    ensures Shifted(hi) && Word(lo, hi) & 0xffff == Word(lo, hi)
  {
  }

  lemma ThreeByteWord(lo: bv8, hi: bv32)
    requires hi & 0xffff == hi
    ensures Shifted(hi) && Shifted(Word(lo, hi))
  {
  }

  /** Three bytes leave the top byte of a word free. */
  lemma PackShifted(bytes: seq<bv8>)
    requires |bytes| <= 3
    ensures Shifted(Pack(bytes))
    ensures |bytes| <= 2 ==> Pack(bytes) & 0xffff == Pack(bytes)
    ensures |bytes| <= 1 ==> Pack(bytes) & 0xff == Pack(bytes)
  {
    if |bytes| == 0 {
    } else if |bytes| == 1 {
      EmptyWord(bytes[0]);
      TwoByteWord(bytes[0], 0);
      ThreeByteWord(bytes[0], 0);
    } else if |bytes| == 2 {
      PackShifted(bytes[1..]);
      TwoByteWord(bytes[0], Pack(bytes[1..]));
      ThreeByteWord(bytes[0], Pack(bytes[1..]));
    } else {
      PackShifted(bytes[1..]);
      ThreeByteWord(bytes[0], Pack(bytes[1..]));
    }
  }

  lemma AbsorbWord(state: bv32, lo: bv8, hi: bv32)
    requires Shifted(hi)
    ensures Plus(ByteStep(state, lo), hi) == BitSteps(Plus(state, Word(lo, hi)), 8)
  {
    EightStepsSplit(Plus(state, Word(lo, hi)), state ^ (lo as bv32), hi);
  }

  lemma {:induction false} BitStepsAdd(x: bv32, m: nat, n: nat)
    ensures BitSteps(x, m + n) == BitSteps(BitSteps(x, m), n)
    decreases m
  {
    if m > 0 {
      BitStepsAdd(BitStep(x), m - 1, n);
    }
  }

  lemma PlusZero(state: bv32)
    ensures Plus(state, 0) == state
  {
  }

  /** The CRC of at most four bytes is one division of the word they make. */
  lemma {:induction false} CrcOfWord(bytes: seq<bv8>, state: bv32)
    requires |bytes| <= 4
    ensures Crc(bytes, state) == BitSteps(Plus(state, Pack(bytes)), 8 * |bytes|)
    decreases bytes
  {
    if bytes == [] {
      PlusZero(state);
    } else {
      var lo, hi := bytes[0], Pack(bytes[1..]);
      CrcOfWord(bytes[1..], ByteStep(state, lo));
      PackShifted(bytes[1..]);
      AbsorbWord(state, lo, hi);
      BitStepsAdd(Plus(state, Word(lo, hi)), BYTE, 8 * |bytes[1..]|);
    }
  }

  lemma WordInjective(a: bv8, x: bv32, b: bv8, y: bv32)
    requires Shifted(x) && Shifted(y) && Word(a, x) == Word(b, y)
    ensures a == b && x == y
  {
    WordParts(a, x);
    WordParts(b, y);
  }

  lemma {:induction false} PackInjective(u: seq<bv8>, v: seq<bv8>)
    requires |u| == |v| <= 4 && Pack(u) == Pack(v)
    ensures u == v
    decreases u
  {
    if u != [] {
      PackShifted(u[1..]);
      PackShifted(v[1..]);
      WordInjective(u[0], Pack(u[1..]), v[0], Pack(v[1..]));
      PackInjective(u[1..], v[1..]);
      assert u == [u[0]] + u[1..] && v == [v[0]] + v[1..];
    }
  }

  lemma PlusInjective(s: bv32, x: bv32, y: bv32)
    requires Plus(s, x) == Plus(s, y)
    ensures x == y
  {
    XorCancels(x, y, s);
  }

  lemma ShortBlocksDiffer(u: seq<bv8>, v: seq<bv8>, state: bv32)
    requires |u| == |v| <= 4 && u != v
    ensures Crc(u, state) != Crc(v, state)
  {
    if Crc(u, state) == Crc(v, state) {
      CrcOfWord(u, state);
      CrcOfWord(v, state);
      BitStepsInjective(Plus(state, Pack(u)), Plus(state, Pack(v)), 8 * |u|);
      PlusInjective(state, Pack(u), Pack(v));
      PackInjective(u, v);
    }
  }

  lemma BlockInContextDiffers(p: seq<bv8>, u: seq<bv8>, v: seq<bv8>, q: seq<bv8>, state: bv32)
    requires |u| == |v| <= 4 && u != v
    ensures Crc(p + (u + q), state) != Crc(p + (v + q), state)
  {
    var s := Crc(p, state);
    CrcConcat(p, u + q, state);
    CrcConcat(p, v + q, state);
    CrcConcat(u, q, s);
    CrcConcat(v, q, s);
    ShortBlocksDiffer(u, v, s);
    if Crc(q, Crc(u, s)) == Crc(q, Crc(v, s)) {
      CrcInjective(q, Crc(u, s), Crc(v, s));
    }
  }

  /** Any corruption confined to four consecutive bytes changes the CRC, whatever surrounds it. */
  lemma BurstChangesCrc(a: seq<bv8>, b: seq<bv8>, at: nat, state: bv32)
    requires |a| == |b| && a != b
    requires forall j :: 0 <= j < |a| && a[j] != b[j] ==> at <= j < at + 4
    ensures Crc(a, state) != Crc(b, state)
  {
    var i := if at <= |a| then at else |a|;
    var k := if at + 4 <= |a| then at + 4 else |a|;
    assert a[..i] == b[..i] && a[k..] == b[k..];
    assert a == a[..i] + (a[i..k] + a[k..]) && b == a[..i] + (b[i..k] + a[k..]);
    BlockInContextDiffers(a[..i], a[i..k], b[i..k], a[k..], state);
  }
}
