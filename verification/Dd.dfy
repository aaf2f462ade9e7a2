/** `dd`: nested loops over reads and writes that may be short or fail, proved to copy exactly the chosen
    sectors of the zero-padded input. */
module Dd {

  type byte = x: int | 0 <= x < 256

  // ----- what the output should be

  /** How many sectors of `bs` bytes it takes to hold `n` bytes. */
  function Sectors(n: nat, bs: nat): nat {
    if bs == 0 then 0 else (n + bs - 1) / bs
  }

  function Zeros(n: nat): (s: seq<byte>)
    ensures |s| == n
  {
    seq(n, _ => 0)
  }

  /** The input filled up with zeros to whole sectors; sectors of no bytes hold nothing. */
  function Padded(data: seq<byte>, bs: nat): (p: seq<byte>)
    ensures |p| == Sectors(|data|, bs) * bs
    ensures bs > 0 ==> data <= p
  {
    if bs == 0 then []
    else
      SectorsBounds(|data|, bs);
      data + Zeros(Sectors(|data|, bs) * bs - |data|)
  }

  lemma SectorsBounds(n: nat, bs: nat)
    requires bs > 0
    ensures n <= Sectors(n, bs) * bs < n + bs
  {
    var m := n + bs - 1;
    assert m == (m / bs) * bs + m % bs;
  }

  function Min(a: int, b: int): int {
    if a < b then a else b
  }

  /** Sector `skip` up to but not including sector `skip + count`, or as far as the input goes. */
  function Expected(data: seq<byte>, bs: nat, skip: nat, count: nat): seq<byte> {
    var s := Sectors(|data|, bs);
    var lo, hi := Min(skip, s), Min(skip + count, s);
    Ordered(lo, hi, s, bs);
    Padded(data, bs)[lo * bs..hi * bs]
  }

  lemma Ordered(a: nat, b: nat, c: nat, bs: nat)
    requires a <= b <= c
    ensures a * bs <= b * bs <= c * bs
  {
  }

  lemma PaddedByte(data: seq<byte>, bs: nat, j: nat)
    requires j < |Padded(data, bs)|
    ensures Padded(data, bs)[j] == if j < |data| then data[j] else 0
  {
  }

  lemma SliceByte(p: seq<byte>, a: nat, b: nat, i: nat)
    requires a <= b <= |p| && i < b - a
    ensures p[a..b][i] == p[a + i]
  {
  }

  /** Byte by byte: the input from sector `skip` on, and zeros behind its end. */
  lemma ExpectedByte(data: seq<byte>, bs: nat, skip: nat, count: nat, i: nat)
    requires skip < Sectors(|data|, bs) && i < |Expected(data, bs, skip, count)|
    ensures Expected(data, bs, skip, count)[i] == if skip * bs + i < |data| then data[skip * bs + i] else 0
  {
    var s := Sectors(|data|, bs);
    var hi := Min(skip + count, s);
    Ordered(skip, hi, s, bs);
    SliceByte(Padded(data, bs), skip * bs, hi * bs, i);
    PaddedByte(data, bs, skip * bs + i);
  }

  /** How much: every chosen sector the input reaches, whole. */
  lemma ExpectedLength(data: seq<byte>, bs: nat, skip: nat, count: nat)
    ensures var s := Sectors(|data|, bs);
            var n := if s <= skip then 0 else if s <= skip + count then s - skip else count;
            |Expected(data, bs, skip, count)| == n * bs
  {
    var s := Sectors(|data|, bs);
    var lo, hi := Min(skip, s), Min(skip + count, s);
    Ordered(lo, hi, s, bs);
    Distribute(lo, hi, bs);
  }

  lemma Distribute(a: int, b: int, bs: int)
    ensures b * bs - a * bs == (b - a) * bs
  {
  }

  /** Copying all sectors keeps the whole input. */
  lemma WholeCopyKeepsInput(data: seq<byte>, bs: nat, count: nat)
    requires bs > 0 && count >= Sectors(|data|, bs)
    ensures data <= Expected(data, bs, 0, count) && |Expected(data, bs, 0, count)| < |data| + bs
  {
    SectorsBounds(|data|, bs);
  }

  /** A device that held `dev` after `s` was written over its start, as far as it reaches. */
  function Overlay(dev: seq<byte>, s: seq<byte>): (r: seq<byte>)
    ensures |r| == |dev|
  {
    if |s| <= |dev| then s + dev[|s|..] else s[..|dev|]
  }

  // ----- the copying loop's view of it

  /** What has been written when `sector` sectors have been read. */
  function Written(data: seq<byte>, bs: nat, skip: nat, sector: nat): seq<byte>
    requires sector <= Sectors(|data|, bs)
  {
    if sector <= skip then []
    else
      Ordered(skip, sector, Sectors(|data|, bs), bs);
      Padded(data, bs)[skip * bs..sector * bs]
  }

  function SectorOf(data: seq<byte>, bs: nat, sector: nat): (s: seq<byte>)
    requires sector < Sectors(|data|, bs)
    ensures |s| == bs
  {
    Ordered(sector, sector + 1, Sectors(|data|, bs), bs);
    Padded(data, bs)[sector * bs..(sector + 1) * bs]
  }

  lemma WrittenNext(data: seq<byte>, bs: nat, skip: nat, sector: nat)
    requires skip <= sector < Sectors(|data|, bs)
    ensures Written(data, bs, skip, sector + 1) == Written(data, bs, skip, sector) + SectorOf(data, bs, sector)
    ensures |Written(data, bs, skip, sector)| == (sector - skip) * bs
  {
    Ordered(skip, sector, Sectors(|data|, bs), bs);
    Ordered(sector, sector + 1, Sectors(|data|, bs), bs);
    Distribute(skip, sector, bs);
    SliceSplit(Padded(data, bs), skip * bs, sector * bs, (sector + 1) * bs);
  }

  lemma SliceSplit(p: seq<byte>, a: nat, b: nat, c: nat)
    requires a <= b <= c <= |p|
    ensures p[a..c] == p[a..b] + p[b..c]
  {
  }

  lemma PaddedSlice(data: seq<byte>, k: nat, at: nat, bs: nat, n: nat)
    requires at < |data| && at + bs <= |data| + k && n == Min(bs, |data| - at)
    ensures (data + Zeros(k))[at..at + bs] == data[at..at + n] + Zeros(bs - n)
  {
  }

  /** A sector is what the input still has of it, and zeros. */
  lemma SectorIs(data: seq<byte>, bs: nat, sector: nat, n: nat)
    requires bs > 0 && sector * bs < |data| && n == Min(bs, |data| - sector * bs)
    ensures sector < Sectors(|data|, bs)
    ensures SectorOf(data, bs, sector) == data[sector * bs..sector * bs + n] + Zeros(bs - n)
  {
    var s := Sectors(|data|, bs);
    SectorsBounds(|data|, bs);
    if s <= sector {
      Ordered(s, sector, sector, bs);
    }
    assert (sector + 1) * bs == sector * bs + bs;
    Ordered(sector, sector + 1, s, bs);
    PaddedSlice(data, s * bs - |data|, sector * bs, bs, n);
  }

  /** The input ends exactly where its last sector does, or before. */
  lemma EndReached(data: seq<byte>, bs: nat, sector: nat)
    requires sector <= Sectors(|data|, bs) && bs > 0
    ensures sector * bs >= |data| <==> sector == Sectors(|data|, bs)
  {
    SectorsBounds(|data|, bs);
    if sector < Sectors(|data|, bs) {
      Ordered(sector + 1, Sectors(|data|, bs), Sectors(|data|, bs), bs);
      assert (sector + 1) * bs == sector * bs + bs;
    }
  }

  lemma SlicePrefix(p: seq<byte>, a: nat, b: nat, c: nat)
    requires a <= b <= c <= |p|
    ensures p[a..b] <= p[a..c]
  {
  }

  lemma WrittenIsPrefix(data: seq<byte>, bs: nat, skip: nat, count: nat, sector: nat)
    requires sector <= Sectors(|data|, bs) && sector <= skip + count
    ensures Written(data, bs, skip, sector) <= Expected(data, bs, skip, count)
    ensures sector == skip + count || sector == Sectors(|data|, bs) ==>
              Written(data, bs, skip, sector) == Expected(data, bs, skip, count)
  {
    var s := Sectors(|data|, bs);
    var hi := Min(skip + count, s);
    if sector > skip {
      Ordered(sector, hi, s, bs);
      Ordered(skip, sector, hi, bs);
      SlicePrefix(Padded(data, bs), skip * bs, sector * bs, hi * bs);
    }
  }

  lemma OverlayFull(dev: seq<byte>, s: seq<byte>, t: seq<byte>)
    requires s <= t && |s| >= |dev|
    ensures Overlay(dev, s) == Overlay(dev, t)
  {
  }

  /** Writing `n` bytes of a sector behind what a device already took; what fits is all that matters. */
  lemma BlockStep(dev: seq<byte>, s: seq<byte>, more: seq<byte>, n: nat, old_: seq<byte>, new_: seq<byte>)
    requires |s| < |dev| && n <= Min(|more|, |dev| - |s|) && old_ == Overlay(dev, s)
    requires new_ == old_[..|s|] + more[..n] + old_[|s| + n..]
    ensures new_ == Overlay(dev, s + more[..n])
    ensures n == Min(|more|, |dev| - |s|) ==> new_ == Overlay(dev, s + more)
  {
  }

  /** Behind the end of the device nothing changes; before it, what fits is written, or when it fails less. */
  lemma BlockWritten(dev: seq<byte>, s: seq<byte>, more: seq<byte>, n: nat, old_: seq<byte>, new_: seq<byte>, ok: bool)
    requires n <= |more| && old_ == Overlay(dev, s)
    requires |s| >= |dev| ==> new_ == old_
    requires |s| < |dev| ==>
               n <= |dev| - |s| && (ok ==> n == Min(|more|, |dev| - |s|)) &&
               new_ == old_[..|s|] + more[..n] + old_[|s| + n..]
    ensures new_ == Overlay(dev, if ok || |s| >= |dev| then s + more else s + more[..n])
  {
    if |s| >= |dev| {
      OverlayFull(dev, s, s + more);
    } else {
      BlockStep(dev, s, more, n, old_, new_);
    }
  }

  // ----- the command

  class Copy {
    /** What the input holds, and how far a character input has been read. */
    const data: seq<byte>
    var pos: nat
    /** What the output holds: for a character output what was written, for a block device all of it. */
    var out: seq<byte>
    const inBlock: bool
    const outBlock: bool
    /** Neither device ever fails. */
    const reliable: bool
    /** What a block output held at the start. */
    ghost const before: seq<byte>

    const skip: nat
    const sectsize: nat
    const count: nat
    const buffer: array<byte>
    var nsectors: nat
    var sector: nat
    var nbytes: nat
    var eof: bool
    /** Whether any device call has failed so far. */
    ghost var faulted: bool

    constructor (data: seq<byte>, inBlock: bool, device: seq<byte>, outBlock: bool, reliable: bool,
                 bs: nat, skip: nat, count: nat)
      ensures this.data == data && this.inBlock == inBlock && this.outBlock == outBlock && this.reliable == reliable
      ensures sectsize == bs && this.skip == skip && this.count == count
      ensures before == (if outBlock then device else []) == out
      ensures Valid() && fresh(buffer) && pos == 0 && sector == 0 && nsectors == count && !eof && !faulted
    {
      this.data, this.inBlock, this.outBlock, this.reliable := data, inBlock, outBlock, reliable;
      sectsize, this.skip, this.count := bs, skip, count;
      buffer := new byte[bs];
      pos, sector, nsectors, nbytes, eof := 0, 0, count, 0, false;
      faulted := false;
      out := if outBlock then device else [];
      before := if outBlock then device else [];
    }

    ghost predicate Valid()
      reads this
    {
      buffer.Length == sectsize && pos <= |data| && (reliable ==> !faulted)
    }

    /** Sector numbers and block offsets stay within 32 bits. */
    ghost predicate Fits() {
      Sectors(|data|, sectsize) < 0x1_0000_0000 &&
      (inBlock || outBlock ==> Sectors(|data|, sectsize) * sectsize < 0x1_0000_0000)
    }

    /** The output once `s` has been written to it. */
    ghost function Holding(s: seq<byte>): seq<byte> {
      if outBlock then Overlay(before, s) else s
    }

    // ----- the devices: any call may fail, and may do less than asked

    /** Reads at most `req` bytes into the buffer at `dst`; nothing only at the end of the input. */
    method Read(dst: nat, req: nat) returns (n: int)
      requires Valid() && dst + req <= sectsize
      modifies this`pos, this`faulted, buffer
      ensures Valid() && buffer[..dst] == old(buffer[..dst])
      ensures faulted == (old(faulted) || n < 0)
      ensures n < 0 ==> pos == old(pos)
      ensures n >= 0 ==> n <= req && pos == old(pos) + n && buffer[dst..dst + n] == data[old(pos)..pos]
      ensures n == 0 ==> req == 0 || pos == |data|
    {
      var fails: bool :| reliable ==> !fails;
      if fails {
        faulted := true;
        return -1;
      }
      var most := Min(req, |data| - pos);
      n :| Min(1, most) <= n <= most;
      forall i | 0 <= i < n {
        buffer[dst + i] := data[pos + i];
      }
      pos := pos + n;
    }

    /** Appends at least one and at most all of `bytes` to a character output. */
    method Write(bytes: seq<byte>) returns (n: int)
      requires Valid() && |bytes| > 0
      modifies this`out, this`faulted
      ensures Valid()
      ensures faulted == (old(faulted) || n < 0)
      ensures n < 0 ==> out == old(out)
      ensures n >= 0 ==> 0 < n <= |bytes| && out == old(out) + bytes[..n]
    {
      var fails: bool :| reliable ==> !fails;
      if fails {
        faulted := true;
        return -1;
      }
      n :| 1 <= n <= |bytes|;
      out := out + bytes[..n];
    }

    /** Reads a block input at `offset`, as far as the device reaches. */
    method BlockRead(offset: nat) returns (n: int)
      requires Valid()
      modifies this`faulted, buffer
      ensures Valid()
      ensures faulted == (old(faulted) || n < 0)
      ensures n < 0 || n == if offset < |data| then Min(sectsize, |data| - offset) else 0
      ensures n > 0 ==> buffer[..n] == data[offset..offset + n]
    {
      var fails: bool :| reliable ==> !fails;
      if fails {
        faulted := true;
        return -1;
      }
      n := if offset < |data| then Min(sectsize, |data| - offset) else 0;
      forall i | 0 <= i < n {
        buffer[i] := data[offset + i];
      }
    }

    /** Writes to a block output at `offset`, as far as the device reaches: past its end not at all, and
        when the device fails only some of it. */
    method BlockWrite(offset: nat, bytes: seq<byte>) returns (ok: bool, pastEnd: bool, ghost n: nat)
      requires Valid()
      modifies this`out, this`faulted
      ensures Valid() && faulted == (old(faulted) || !ok)
      ensures |out| == |old(out)| && n <= |bytes|
      ensures pastEnd ==> ok
      ensures pastEnd <==> offset >= |out|
      ensures pastEnd ==> out == old(out)
      ensures !pastEnd ==> n <= |out| - offset && out == old(out)[..offset] + bytes[..n] + old(out)[offset + n..]
      ensures ok && !pastEnd ==> n == Min(|bytes|, |out| - offset)
    {
      n := 0;
      if offset >= |out| {
        return true, true, 0;
      }
      var most := Min(|bytes|, |out| - offset);
      var fits;
      ok :| reliable ==> ok;
      if ok {
        fits := most;
      } else {
        fits :| 0 <= fits <= most;
        faulted := true;
      }
      out := out[..offset] + bytes[..fits] + out[offset + fits..];
      n := fits;
      pastEnd := false;
    }

    // ----- reading one sector

    method ReadChar() returns (ok: bool)
      requires Valid() && !faulted
      modifies this`pos, this`nbytes, this`eof, this`faulted, buffer
      ensures Valid() && ok == !faulted
      ensures ok ==> nbytes == Min(sectsize, |data| - old(pos)) && pos == old(pos) + nbytes &&
                     buffer[..nbytes] == data[old(pos)..pos] && eof == (old(eof) || nbytes == 0)
      ensures !ok ==> eof == old(eof)
    {
      nbytes := 0;
      var more := true;
      while more
        invariant Valid() && !faulted && eof == old(eof) && nbytes <= sectsize
        invariant pos == old(pos) + nbytes && buffer[..nbytes] == data[old(pos)..pos]
        invariant !more ==> nbytes == sectsize || pos == |data|
        decreases |data| - pos, more
      {
        var n := Read(nbytes, sectsize - nbytes);
        if n < 0 {
          return false;
        }
        ghost var filled := nbytes;
        nbytes := nbytes + n;
        assert buffer[..nbytes] == buffer[..filled] + buffer[filled..nbytes];
        more := nbytes < sectsize && n > 0;
      }
      eof := eof || nbytes == 0;
      ok := true;
    }

    method ReadBlock() returns (ok: bool)
      requires Valid() && !eof && !faulted
      modifies this`nbytes, this`eof, this`faulted, buffer
      ensures Valid() && ok == !faulted
      ensures var offset := sector * sectsize % 0x1_0000_0000;
              ok ==> nbytes == (if offset < |data| then Min(sectsize, |data| - offset) else 0) && eof == (nbytes == 0)
      ensures var offset := sector * sectsize % 0x1_0000_0000;
              ok && nbytes > 0 ==> buffer[..nbytes] == data[offset..offset + nbytes]
      ensures !ok ==> eof == old(eof)
    {
      var n := BlockRead(sector * sectsize % 0x1_0000_0000);
      if n < 0 {
        return false;
      }
      nbytes := n;
      eof := n == 0;
      ok := true;
    }

    // ----- writing one sector

    method WriteChar() returns (ok: bool, ghost n: nat)
      requires Valid() && sectsize > 0 && !faulted
      modifies this`out, this`faulted
      ensures Valid() && ok == !faulted
      ensures n <= sectsize && out == old(out) + buffer[..n]
      ensures ok ==> n == sectsize
    {
      var written := 0;
      var more := true;
      n := 0;
      while more
        invariant Valid() && !faulted && n == written <= sectsize && out == old(out) + buffer[..written]
        invariant more <==> written < sectsize
        decreases sectsize - written
      {
        var k := Write(buffer[written..]);
        if k < 0 {
          return false, n;
        }
        assert buffer[..written] + buffer[written..][..k] == buffer[..written + k];
        written := written + k;
        n := written;
        more := written < sectsize;
      }
      ok := true;
    }

    method WriteBlock() returns (ok: bool, ghost n: nat)
      requires Valid() && sector >= skip && !faulted
      modifies this`out, this`eof, this`faulted
      ensures Valid() && ok == !faulted
      ensures |out| == |old(out)| && n <= sectsize
      ensures var offset := (sector - skip) * sectsize % 0x1_0000_0000;
              if offset >= |out| then ok && eof && out == old(out)
              else n <= |out| - offset && eof == old(eof) && (ok ==> n == Min(sectsize, |out| - offset)) &&
                   out == old(out)[..offset] + buffer[..n] + old(out)[offset + n..]
    {
      var pastEnd;
      assert buffer[..] == buffer[..sectsize];
      ok, pastEnd, n := BlockWrite((sector - skip) * sectsize % 0x1_0000_0000, buffer[..]);
      assert buffer[..][..n] == buffer[..n];
      if pastEnd {
        eof := true;
      }
    }

    // ----- the transfer

    /** A character input stands at the start of the current sector, or at its end. */
    ghost predicate InStep()
      reads this
    {
      sector <= Sectors(|data|, sectsize) && (!inBlock ==> pos == Min(sector * sectsize, |data|))
    }

    /** Reads the sector that starts at `at`, or finds that there is none. */
    method ReadSector(ghost at: nat) returns (ok: bool)
      requires Valid() && !eof && !faulted && at == sector * sectsize
      requires inBlock ==> at < 0x1_0000_0000
      requires !inBlock ==> pos == Min(at, |data|)
      modifies this`pos, this`nbytes, this`eof, this`faulted, buffer
      ensures Valid() && ok == !faulted
      ensures !ok ==> !eof
      ensures ok ==> (eof <==> at >= |data| || sectsize == 0)
      ensures ok && !eof ==> nbytes == Min(sectsize, |data| - at) && buffer[..nbytes] == data[at..at + nbytes]
      ensures ok && !eof && !inBlock ==> pos == Min(at + sectsize, |data|)
    {
      if inBlock {
        ok := ReadBlock();
      } else {
        ok := ReadChar();
      }
    }

    /** Fills the buffer up with zeros. */
    method PadBuffer()
      requires Valid() && nbytes <= sectsize
      modifies buffer
      ensures buffer[..] == old(buffer[..nbytes]) + Zeros(sectsize - nbytes)
    {
      var i := nbytes;
      while i < sectsize
        invariant nbytes <= i <= sectsize
        invariant buffer[..i] == old(buffer[..nbytes]) + Zeros(i - nbytes)
      {
        buffer[i] := 0;
        i := i + 1;
      }
      assert buffer[..] == buffer[..sectsize];
    }

    /** Writes the buffer, which holds `bytes`, behind what a block device already took, `done`. */
    method WriteBlockBehind(ghost done: seq<byte>, ghost bytes: seq<byte>) returns (ok: bool, ghost reached: seq<byte>)
      requires Valid() && outBlock && !eof && !faulted && skip <= sector
      requires |done| == (sector - skip) * sectsize < 0x1_0000_0000 && buffer[..] == bytes
      requires out == Overlay(before, done)
      modifies this`out, this`eof, this`faulted
      ensures Valid() && ok == !faulted
      ensures out == Overlay(before, reached) && reached <= done + bytes
      ensures ok ==> reached == done + bytes
      ensures ok && eof ==> |reached| >= |before|
      ensures !ok ==> !eof
    {
      ghost var was, n := out, 0;
      assert buffer[..] == buffer[..sectsize];
      ok, n := WriteBlock();
      reached := if ok || |done| >= |before| then done + bytes else done + bytes[..n];
      BlockWritten(before, done, bytes, n, was, out, ok);
    }

    /** Writes the buffer, which holds `bytes`, behind what the output already took, `done`. `reached` is
        what it took in the end: all of it, or when writing failed only a part. A block device that is
        full ends the transfer. */
    method WriteSector(ghost done: seq<byte>, ghost bytes: seq<byte>) returns (ok: bool, ghost reached: seq<byte>)
      requires Valid() && !eof && !faulted && skip <= sector && sectsize > 0
      requires buffer[..] == bytes && out == Holding(done)
      requires outBlock ==> |done| == (sector - skip) * sectsize < 0x1_0000_0000
      modifies this`out, this`eof, this`faulted
      ensures Valid() && ok == !faulted
      ensures out == Holding(reached) && reached <= done + bytes
      ensures ok ==> reached == done + bytes
      ensures ok && eof ==> outBlock && |reached| >= |before|
      ensures !ok ==> !eof
    {
      if outBlock {
        ok, reached := WriteBlockBehind(done, bytes);
      } else {
        assert buffer[..] == buffer[..sectsize];
        ghost var n;
        ok, n := WriteChar();
        reached := done + bytes[..n];
      }
    }

    /** Where the loop stands: in step with the input, and the output holding what it should so far. */
    ghost predicate Going(reached: seq<byte>)
      reads this
    {
      InStep() && Steady(reached)
    }

    /** The output holds what the sectors read so far amount to, and the rest is still to be counted. */
    ghost predicate Steady(reached: seq<byte>)
      reads this
    {
      sector <= Sectors(|data|, sectsize) && sector <= skip + count &&
      reached == Written(data, sectsize, skip, sector) &&
      out == Holding(reached) && nsectors + (if sector > skip then sector - skip else 0) == count
    }

    /** The output is complete. */
    ghost predicate Complete()
      reads this
    {
      out == Holding(Expected(data, sectsize, skip, count))
    }

    /** The loop body behind a successful read: pad, write unless still skipping, and count. `bytes` is
        the sector read, padded, and `all` the whole output to be. */
    method CopySector(ghost done: seq<byte>, ghost bytes: seq<byte>, ghost all: seq<byte>)
      returns (ok: bool, ghost reached: seq<byte>)
      requires Valid() && !eof && !faulted && sectsize > 0 && nsectors > 0 && sector + 1 < 0x1_0000_0000
      requires nbytes <= sectsize && buffer[..nbytes] + Zeros(sectsize - nbytes) == bytes
      requires out == Holding(done) && if sector >= skip then done + bytes <= all else done <= all
      requires outBlock && sector >= skip ==> |done| == (sector - skip) * sectsize < 0x1_0000_0000
      modifies this`out, this`eof, this`faulted, this`sector, this`nsectors, buffer
      ensures Valid() && ok == !faulted
      ensures out == Holding(reached) && reached <= all
      ensures !ok ==> sector == old(sector)
      ensures ok ==> sector == old(sector) + 1 && reached == (if old(sector) >= skip then done + bytes else done)
      ensures ok ==> nsectors == if old(sector) >= skip then old(nsectors) - 1 else old(nsectors)
      ensures ok && eof ==> out == Holding(all)
    {
      PadBuffer();
      ok, reached := true, done;
      if sector >= skip {
        ok, reached := WriteSector(done, bytes);
        if !ok {
          return;
        }
        if eof {
          OverlayFull(before, reached, all);
        }
        nsectors := nsectors - 1;
      }
      sector := (sector + 1) % 0x1_0000_0000;
    }

    /** What the current sector adds to the output, as plain facts about sequences and offsets. */
    lemma SectorFacts(at: nat, all: seq<byte>)
      requires Fits() && sector < Sectors(|data|, sectsize) && sectsize > 0 && sector < skip + count
      requires at == sector * sectsize && all == Expected(data, sectsize, skip, count)
      ensures at < |data| && (sector + 1) * sectsize == at + sectsize
      ensures var n := Min(sectsize, |data| - at);
              SectorOf(data, sectsize, sector) == data[at..at + n] + Zeros(sectsize - n)
      ensures Written(data, sectsize, skip, sector) <= all
      ensures sector >= skip ==>
                Written(data, sectsize, skip, sector) + SectorOf(data, sectsize, sector) ==
                Written(data, sectsize, skip, sector + 1) <= all
      ensures sector < skip ==> Written(data, sectsize, skip, sector + 1) == Written(data, sectsize, skip, sector)
      ensures sector >= skip && outBlock ==>
                |Written(data, sectsize, skip, sector)| == (sector - skip) * sectsize < 0x1_0000_0000
    {
      EndReached(data, sectsize, sector);
      SectorIs(data, sectsize, sector, Min(sectsize, |data| - at));
      WrittenIsPrefix(data, sectsize, skip, count, sector);
      if sector >= skip {
        WrittenNext(data, sectsize, skip, sector);
        WrittenIsPrefix(data, sectsize, skip, count, sector + 1);
        Ordered(sector - skip, sector, Sectors(|data|, sectsize), sectsize);
      }
    }

    /** Where a round starts: the current sector's offset, whether the input reaches it, and what is out. */
    lemma RoundFacts(at: nat)
      requires sector <= Sectors(|data|, sectsize) && sector <= skip + count && at == sector * sectsize
      ensures at <= Sectors(|data|, sectsize) * sectsize
      ensures at >= |data| || sectsize == 0 <==> sector == Sectors(|data|, sectsize)
      ensures Written(data, sectsize, skip, sector) <= Expected(data, sectsize, skip, count)
      ensures sector == Sectors(|data|, sectsize) ==>
                Written(data, sectsize, skip, sector) == Expected(data, sectsize, skip, count)
    {
      if sectsize > 0 {
        EndReached(data, sectsize, sector);
      }
      Ordered(sector, Sectors(|data|, sectsize), Sectors(|data|, sectsize), sectsize);
      WrittenIsPrefix(data, sectsize, skip, count, sector);
    }

    /** The part of a round behind a successful read of the sector that starts at `at`. */
    method CopyRead(ghost done: seq<byte>, ghost at: nat) returns (ok: bool, ghost reached: seq<byte>)
      requires Valid() && Fits() && !eof && !faulted && nsectors > 0 && sectsize > 0
      requires sector < Sectors(|data|, sectsize) && at == sector * sectsize && Steady(done)
      requires nbytes == Min(sectsize, |data| - at) && buffer[..nbytes] == data[at..at + nbytes]
      requires !inBlock ==> pos == Min(at + sectsize, |data|)
      modifies this`out, this`eof, this`faulted, this`sector, this`nsectors, buffer
      ensures Valid() && ok == !faulted
      ensures out == Holding(reached) && reached <= Expected(data, sectsize, skip, count)
      ensures !ok ==> sector == old(sector)
      ensures ok ==> sector == old(sector) + 1 && if eof then Complete() else Going(reached)
    {
      ghost var all := Expected(data, sectsize, skip, count);
      SectorFacts(at, all);
      ok, reached := CopySector(done, SectorOf(data, sectsize, sector), all);
    }

    /** Reading the sector at `at` ends the round when it fails or there is none; what is out stays. */
    method ReadRound(ghost done: seq<byte>, ghost at: nat) returns (ok: bool)
      requires Valid() && Fits() && !eof && !faulted && Going(done) && at == sector * sectsize
      modifies this`pos, this`nbytes, this`eof, this`faulted, buffer
      ensures Valid() && ok == !faulted
      ensures done <= Expected(data, sectsize, skip, count)
      ensures !ok ==> !eof
      ensures ok && eof ==> Complete()
      ensures ok && !eof ==>
                Steady(done) && sector < Sectors(|data|, sectsize) && sectsize > 0 &&
                nbytes == Min(sectsize, |data| - at) &&
                buffer[..nbytes] == data[at..at + nbytes] && (!inBlock ==> pos == Min(at + sectsize, |data|))
    {
      RoundFacts(at);
      ok := ReadSector(at);
    }

    /** One round of the loop. */
    method OneSector(ghost done: seq<byte>) returns (ok: bool, ghost reached: seq<byte>)
      requires Valid() && Fits() && !eof && !faulted && nsectors > 0 && Going(done)
      modifies this`pos, this`nbytes, this`out, this`eof, this`faulted, this`sector, this`nsectors, buffer
      ensures Valid() && ok == !faulted
      ensures old(sector) <= sector <= Sectors(|data|, sectsize)
      ensures !ok ==> out == Holding(reached) && reached <= Expected(data, sectsize, skip, count)
      ensures ok ==> if eof then Complete() else Going(reached) && sector == old(sector) + 1
    {
      ghost var at := sector * sectsize;
      reached := done;
      ok := ReadRound(done, at);
      if ok && !eof {
        ok, reached := CopyRead(done, at);
      }
    }

    /** The main loop. It fails exactly when a device does. Without a fault the output holds exactly the
        chosen sectors of the padded input, and with one a prefix of them. */
    method Transfer() returns (ok: bool, ghost reached: seq<byte>)
      requires Valid() && Fits() && skip <= count && !faulted
      requires pos == 0 && sector == 0 && nsectors == count && !eof && out == Holding([])
      modifies this, buffer
      ensures Valid() && ok == !faulted
      ensures reliable ==> ok
      ensures ok ==> out == Holding(Expected(data, sectsize, skip, count))
      ensures out == Holding(reached) && reached <= Expected(data, sectsize, skip, count)
    {
      reached := [];
      while !eof && nsectors > 0
        invariant Valid() && Fits() && !faulted && sector <= Sectors(|data|, sectsize)
        invariant if eof then Complete() else Going(reached)
        decreases !eof, Sectors(|data|, sectsize) - sector
      {
        ok, reached := OneSector(reached);
        if !ok {
          return;
        }
      }
      if !eof {
        WrittenIsPrefix(data, sectsize, skip, count, sector);
      }
      reached := Expected(data, sectsize, skip, count);
      ok := true;
    }

    /** The command. Skipping more than is to be copied is refused before anything is touched; any other
        copy fails exactly when a device does. */
    method Run() returns (ok: bool, ghost reached: seq<byte>)
      requires Valid() && Fits() && !faulted
      requires pos == 0 && sector == 0 && nsectors == count && !eof && out == Holding([])
      modifies this, buffer
      ensures Valid() && ok == (skip <= count && !faulted)
      ensures skip <= count && reliable ==> ok
      ensures ok ==> out == Holding(Expected(data, sectsize, skip, count))
      ensures out == Holding(reached) && reached <= Expected(data, sectsize, skip, count)
      ensures skip > count ==> out == old(out) && pos == old(pos) && !faulted
    {
      if skip > nsectors {
        return false, [];
      }
      ok, reached := Transfer();
    }
  }
}
