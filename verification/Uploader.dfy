/** The firmware uploader: padding, chunking, programming and the CRC check against the flash. */
module Uploader {
  import opened Checksums32

  const PROG_MULTI_MAX: nat := 60
  const READ_MULTI_MAX: nat := 60

  /** `n` erased bytes. */
  function Erased(n: nat): (s: seq<bv8>)
    ensures |s| == n && forall i :: 0 <= i < n ==> s[i] == 0xff
  {
    seq(n, _ => 0xff)
  }

  /** The image filled up with erased bytes to whole words. */
  function PadToWord(image: seq<bv8>): (s: seq<bv8>)
    ensures image <= s && |s| % 4 == 0 && |s| < |image| + 4
    ensures forall i :: |image| <= i < |s| ==> s[i] == 0xff
  {
    image + Erased((4 - |image| % 4) % 4)
  }

  /** Words of padding the CRC loop feeds for a flash of `padlen` bytes. */
  function PadWords(length: nat, padlen: int): nat {
    if padlen - 1 <= length then 0 else (padlen - 1 - length + 3) / 4
  }

  /** The loop feeds exactly the rest of the flash when the rest is whole words, and only then. */
  lemma PadWordsExactIff(length: nat, padlen: int)
    ensures 4 * PadWords(length, padlen) == padlen - length <==> length <= padlen && (padlen - length) % 4 == 0
  {
  }

  /** It feeds a word for each place `length`, `length + 4`, ... before the last cell, whatever the rest. */
  lemma PadWordsCounts(length: nat, padlen: int, k: nat)
    ensures k < PadWords(length, padlen) <==> length + 4 * k < padlen - 1
  {
  }

  // ----- chunks

  function SplitLen<T>(s: seq<T>, length: nat): seq<seq<T>>
    requires length > 0
    decreases s
  {
    if |s| == 0 then []
    else
      var k := if |s| < length then |s| else length;
      [s[..k]] + SplitLen(s[k..], length)
  }

  function Joined<T>(groups: seq<seq<T>>): seq<T> {
    if groups == [] then [] else groups[0] + Joined(groups[1..])
  }

  /** The chunks make up the sequence. */
  lemma {:induction false} SplitLenIsPartition<T>(s: seq<T>, length: nat)
    requires length > 0
    ensures Joined(SplitLen(s, length)) == s
    decreases s
  {
    if |s| > 0 {
      var k := if |s| < length then |s| else length;
      var rest := SplitLen(s[k..], length);
      SplitLenIsPartition(s[k..], length);
      assert SplitLen(s, length)[0] == s[..k] && SplitLen(s, length)[1..] == rest;
      assert s == s[..k] + s[k..];
    }
  }

  /** Chunk `i` has the size it must have: only the last may be short, and whole words stay whole. */
  ghost predicate ChunkOk<T>(groups: seq<seq<T>>, i: nat, length: nat, words: bool)
    requires i < |groups|
  {
    0 < |groups[i]| <= length && (i < |groups| - 1 ==> |groups[i]| == length) && (words ==> |groups[i]| % 4 == 0)
  }

  lemma SplitLenUnfolds<T>(s: seq<T>, length: nat)
    requires length > 0
    ensures if |s| == 0 then |SplitLen(s, length)| == 0
            else var k := if |s| < length then |s| else length;
                 SplitLen(s, length) == [s[..k]] + SplitLen(s[k..], length)
  {
  }

  lemma FirstChunkOk<T>(s: seq<T>, length: nat, words: bool)
    requires length > 0 && |s| > 0
    requires words ==> |s| % 4 == 0 && length % 4 == 0
    ensures |SplitLen(s, length)| > 0 && ChunkOk(SplitLen(s, length), 0, length, words)
  {
  }

  lemma LaterChunkOk<T>(head: seq<T>, rest: seq<seq<T>>, i: nat, length: nat, words: bool)
    requires i < |rest| && ChunkOk(rest, i, length, words)
    ensures ChunkOk([head] + rest, i + 1, length, words)
  {
  }

  /** No chunk is empty or too long, only the last may be short, and whole words stay whole. */
  lemma {:induction false} SplitLenSizes<T>(s: seq<T>, length: nat, words: bool, i: nat)
    requires length > 0 && i < |SplitLen(s, length)|
    requires words ==> |s| % 4 == 0 && length % 4 == 0
    ensures ChunkOk(SplitLen(s, length), i, length, words)
    decreases s
  {
    hide ChunkOk, SplitLen;
    SplitLenUnfolds(s, length);
    if i == 0 {
      FirstChunkOk(s, length, words);
    } else {
      var k := if |s| < length then |s| else length;
      SplitLenSizes(s[k..], length, words, i - 1);
      LaterChunkOk(s[..k], SplitLen(s[k..], length), i - 1, length, words);
    }
  }

  // ----- the firmware file

  class Firmware {
    var image: seq<bv8>

    /** Takes the decoded image and pads it. */
    constructor (decoded: seq<bv8>)
      ensures image == PadToWord(decoded)
    {
      image := decoded;
      new;
      while |image| % 4 != 0
        invariant |decoded| <= |image| <= |PadToWord(decoded)|
        invariant image == PadToWord(decoded)[..|image|]
        decreases |PadToWord(decoded)| - |image|
      {
        image := image + [0xff];
      }
    }

    /** The CRC of the image followed by as much erased flash as the loop covers. */
    method PaddedCrc(padlen: int) returns (state: bv32)
      ensures state == Crc(image + Erased(4 * PadWords(|image|, padlen)), 0)
    {
      hide Crc;
      state := Crc32(image, 0);
      var i, words := |image|, 0;
      assert image + Erased(0) == image;
      while i < padlen - 1
        invariant i == |image| + 4 * words && 0 <= words <= PadWords(|image|, padlen)
        invariant state == Crc(image + Erased(4 * words), 0)
      {
        CrcConcat(image + Erased(4 * words), Erased(4), 0);
        assert image + Erased(4 * words) + Erased(4) == image + Erased(4 * (words + 1));
        state := Crc32(Erased(4), state);
        i, words := i + 4, words + 1;
      }
    }
  }

  /** The table-driven loop computes the bitwise CRC. */
  method Crc32(bytes: seq<bv8>, start: bv32) returns (state: bv32)
    ensures state == Crc(bytes, start)
  {
    state := start;
    var i := 0;
    while i < |bytes|
      invariant 0 <= i <= |bytes|
      invariant Crc(bytes, start) == Crc(bytes[i..], state)
    {
      TableStepIsByteStep(state, bytes[i]);
      assert bytes[i..][1..] == bytes[i + 1..];
      state := TableStep(state, bytes[i]);
      i := i + 1;
    }
  }

  // ----- the board

  /** `cells` with `data` written over them from `at` on. */
  function Replaced(cells: seq<bv8>, at: nat, data: seq<bv8>): (r: seq<bv8>)
    requires at + |data| <= |cells|
    ensures |r| == |cells|
  {
    cells[..at] + data + cells[at + |data|..]
  }

  /** The flash as the uploader relies on it: erased to 0xff, written and read back in the order chunks go.
      What was written may not last. */
  class Flash {
    const cells: array<bv8>
    /** Its contents stay as they were written. */
    const stable: bool
    /** Where the next chunk goes to or comes from. */
    var next: nat

    constructor (size: nat, stable: bool)
      ensures fresh(cells) && cells.Length == size && this.stable == stable
    {
      cells := new bv8[size](_ => 0);
      this.stable := stable;
      next := 0;
    }

    method Erase()
      modifies this, cells
      ensures next == 0 && cells[..] == Erased(cells.Length)
    {
      forall i | 0 <= i < cells.Length {
        cells[i] := 0xff;
      }
      next := 0;
    }

    /** Reading back starts over. */
    method ChipVerify()
      modifies this
      ensures next == 0
    {
      next := 0;
    }

    method ReadMulti(n: nat) returns (data: seq<bv8>)
      requires next + n <= cells.Length
      modifies this
      ensures next == old(next) + n && data == cells[old(next)..next]
    {
      data := cells[next..next + n];
      next := next + n;
    }

    method ProgMulti(data: seq<bv8>)
      requires 0 < |data| <= PROG_MULTI_MAX && |data| % 4 == 0 && next + |data| <= cells.Length
      modifies this, cells
      ensures next == old(next) + |data|
      ensures cells[..] == Replaced(old(cells[..]), old(next), data)
    {
      var i := 0;
      while i < |data|
        invariant 0 <= i <= |data| && next == old(next)
        invariant forall k :: 0 <= k < i ==> cells[next + k] == data[k]
        invariant forall k :: 0 <= k < cells.Length && !(next <= k < next + i) ==> cells[k] == old(cells[k])
      {
        cells[next + i] := data[i];
        i := i + 1;
      }
      next := next + |data|;
    }

    /** Cells go wrong. */
    method Decay()
      modifies cells
      ensures stable ==> cells[..] == old(cells[..])
    {
      if !stable {
        var i := 0;
        while i < cells.Length {
          var b: bv8 := *;
          cells[i] := b;
          i := i + 1;
        }
      }
    }

    method GetCrc() returns (crc: bv32)
      ensures crc == Crc(cells[..], 0)
    {
      crc := Crc32(cells[..], 0);
    }
  }

  /** A chunk written behind what is there uses up erased bytes. */
  lemma WriteUsesErased(before: seq<bv8>, written: seq<bv8>, data: seq<bv8>, size: nat)
    requires |written| + |data| <= size && before == written + Erased(size - |written|)
    ensures Replaced(before, |written|, data) == written + data + Erased(size - |written| - |data|)
  {
  }

  /** The next chunk moves from what is still to come behind what is done. */
  lemma NextChunk<T>(groups: seq<seq<T>>, g: nat, done: seq<T>, whole: seq<T>)
    requires g < |groups| && done + Joined(groups[g..]) == whole
    ensures done + groups[g] + Joined(groups[g + 1..]) == whole && |done| + |groups[g]| <= |whole|
    ensures done + (groups[g] + Joined(groups[g + 1..])) == whole
  {
    assert groups[g..][1..] == groups[g + 1..];
  }

  lemma ChunkSendable(image: seq<bv8>, g: nat)
    requires |image| % 4 == 0 && g < |SplitLen(image, PROG_MULTI_MAX)|
    ensures var chunk := SplitLen(image, PROG_MULTI_MAX)[g]; 0 < |chunk| <= PROG_MULTI_MAX && |chunk| % 4 == 0
  {
    hide SplitLen;
    SplitLenSizes(image, PROG_MULTI_MAX, true, g);
  }

  lemma AllChunks(image: seq<bv8>, length: nat)
    requires length > 0
    ensures [] + Joined(SplitLen(image, length)[0..]) == image
  {
    SplitLenIsPartition(image, length);
    assert SplitLen(image, length)[0..] == SplitLen(image, length);
  }

  lemma NoChunkLeft(groups: seq<seq<bv8>>, done: seq<bv8>)
    ensures done + Joined(groups[|groups|..]) == done
  {
  }

  /** Send one chunk behind what was written. */
  method SendChunk(chunk: seq<bv8>, flash: Flash, ghost written: seq<bv8>)
    requires 0 < |chunk| <= PROG_MULTI_MAX && |chunk| % 4 == 0
    requires flash.next == |written| && |written| + |chunk| <= flash.cells.Length
    requires flash.cells[..] == written + Erased(flash.cells.Length - |written|)
    modifies flash, flash.cells
    ensures flash.next == |written + chunk|
    ensures flash.cells[..] == written + chunk + Erased(flash.cells.Length - |written + chunk|)
  {
    WriteUsesErased(flash.cells[..], written, chunk, flash.cells.Length);
    hide Replaced, Erased;
    flash.ProgMulti(chunk);
  }

  /** `written` is in the flash and the chunks `left` make up the rest of the image. */
  ghost predicate Sent(cells: seq<bv8>, next: nat, written: seq<bv8>, left: seq<seq<bv8>>, image: seq<bv8>) {
    written + Joined(left) == image && next == |written| <= |cells| && cells == written + Erased(|cells| - |written|)
  }

  lemma NothingSent(image: seq<bv8>, size: nat)
    ensures Sent(Erased(size), 0, [], SplitLen(image, PROG_MULTI_MAX)[0..], image)
  {
    AllChunks(image, PROG_MULTI_MAX);
  }

  lemma AllSent(cells: seq<bv8>, next: nat, written: seq<bv8>, groups: seq<seq<bv8>>, image: seq<bv8>)
    requires Sent(cells, next, written, groups[|groups|..], image)
    ensures |image| <= |cells| && cells == image + Erased(|cells| - |image|)
  {
    NoChunkLeft(groups, written);
  }

  method SendNext(groups: seq<seq<bv8>>, g: nat, flash: Flash, ghost image: seq<bv8>, ghost written: seq<bv8>)
    requires groups == SplitLen(image, PROG_MULTI_MAX) && g < |groups|
    requires |image| % 4 == 0 && |image| <= flash.cells.Length
    requires Sent(flash.cells[..], flash.next, written, groups[g..], image)
    modifies flash, flash.cells
    ensures Sent(flash.cells[..], flash.next, written + groups[g], groups[g + 1..], image)
  {
    hide Joined, SplitLen, Erased;
    NextChunk(groups, g, written, image);
    ChunkSendable(image, g);
    SendChunk(groups[g], flash, written);
  }

  /** Send the image in PROG_MULTI chunks, each of whole words and not longer than the protocol allows. */
  method Program(image: seq<bv8>, flash: Flash)
    requires |image| % 4 == 0 && |image| <= flash.cells.Length
    requires flash.next == 0 && flash.cells[..] == Erased(flash.cells.Length)
    modifies flash, flash.cells
    ensures flash.cells[..] == image + Erased(flash.cells.Length - |image|)
  {
    hide Sent, SplitLen, Erased;
    var groups := SplitLen(image, PROG_MULTI_MAX);
    var g := 0;
    ghost var written: seq<bv8> := [];
    NothingSent(image, flash.cells.Length);
    while g < |groups|
      invariant 0 <= g <= |groups|
      invariant Sent(flash.cells[..], flash.next, written, groups[g..], image)
    {
      SendNext(groups, g, flash, image, written);
      written := written + groups[g];
      g := g + 1;
    }
    AllSent(flash.cells[..], flash.next, written, groups, image);
  }

  /** A chunk read back wrong shows that the flash does not hold the image. */
  lemma WrongChunk(cells: seq<bv8>, image: seq<bv8>, at: nat, chunk: seq<bv8>, more: seq<bv8>)
    requires at <= |image| <= |cells| && image == cells[..at] + (chunk + more)
    ensures cells[at..at + |chunk|] != chunk ==> cells[..|image|] != image
    ensures cells[at..at + |chunk|] == chunk ==> image == cells[..at + |chunk|] + more
  {
    assert image[at..at + |chunk|] == chunk;
    assert cells[..|image|][at..at + |chunk|] == cells[at..at + |chunk|];
    if cells[at..at + |chunk|] == chunk {
      assert cells[..at + |chunk|] == cells[..at] + chunk;
    }
  }

  /** Read the flash back in chunks and compare. */
  method VerifyV2(image: seq<bv8>, flash: Flash) returns (ok: bool)
    requires |image| <= flash.cells.Length
    modifies flash
    ensures ok <==> flash.cells[..|image|] == image
  {
    hide Joined, SplitLen;
    flash.ChipVerify();
    var groups := SplitLen(image, READ_MULTI_MAX);
    AllChunks(image, READ_MULTI_MAX);
    ghost var cells := flash.cells[..];
    var g := 0;
    while g < |groups|
      invariant 0 <= g <= |groups| && flash.next <= |image| && flash.cells[..] == cells
      invariant cells[..flash.next] + Joined(groups[g..]) == image
    {
      ghost var at := flash.next;
      NextChunk(groups, g, cells[..at], image);
      WrongChunk(cells, image, at, groups[g], Joined(groups[g + 1..]));
      var programmed := flash.ReadMulti(|groups[g]|);
      assert programmed == cells[at..at + |groups[g]|];
      if programmed != groups[g] {
        return false;
      }
      g := g + 1;
    }
    NoChunkLeft(groups, cells[..flash.next]);
    ok := true;
  }

  /** Compare the CRC the board reports with the one expected of it. */
  method VerifyV3(fw: Firmware, report: bv32, maxSize: nat) returns (ok: bool)
    ensures ok == (report == Crc(fw.image + Erased(4 * PadWords(|fw.image|, maxSize)), 0))
  {
    var expected := fw.PaddedCrc(maxSize);
    ok := report == expected;
  }

  lemma PaddingFillsFlash(length: nat, maxSize: nat)
    requires length % 4 == 0 && maxSize % 4 == 0 && length <= maxSize
    ensures 4 * PadWords(length, maxSize) == maxSize - length
  {
    PadWordsExactIff(length, maxSize);
  }

  datatype Outcome = WrongBoard | TooLarge | VerificationFailed | Uploaded

  /** The flash as an upload should leave it. */
  function Intended(image: seq<bv8>, size: nat): (s: seq<bv8>)
    requires |image| <= size
    ensures |s| == size
  {
    image + Erased(size - |image|)
  }

  /** The contents pass the check of the bootloader revision: reading back, or the CRC of all the flash. */
  predicate Passes(revision: int, image: seq<bv8>, contents: seq<bv8>)
    requires |image| <= |contents|
  {
    if revision == 2 then contents[..|image|] == image
    else Crc(contents, 0) == Crc(Intended(image, |contents|), 0)
  }

  /** Two contents differ, and only inside four consecutive bytes. */
  ghost predicate BurstAt(a: seq<bv8>, b: seq<bv8>, at: nat) {
    |a| == |b| && a != b && forall j :: 0 <= j < |a| && a[j] != b[j] ==> at <= j < at + 4
  }

  /** What was intended passes, and by its CRC nothing does that differs inside four consecutive bytes. */
  lemma IntendedPasses(revision: int, image: seq<bv8>, size: nat, contents: seq<bv8>, at: nat)
    requires |image| <= size == |contents|
    ensures Passes(revision, image, Intended(image, size))
    ensures revision != 2 && BurstAt(contents, Intended(image, size), at) ==> !Passes(revision, image, contents)
  {
    if BurstAt(contents, Intended(image, size), at) {
      BurstChangesCrc(contents, Intended(image, size), at, 0);
    }
  }

  /** Check what is in the flash, the way the bootloader revision asks for. */
  method Verify(fw: Firmware, revision: int, flash: Flash) returns (ok: bool)
    requires |fw.image| % 4 == 0 && flash.cells.Length % 4 == 0 && |fw.image| <= flash.cells.Length
    modifies flash
    ensures ok == Passes(revision, fw.image, flash.cells[..]) && fw.image == old(fw.image)
    ensures revision == 2 ==> (ok <==> flash.cells[..|fw.image|] == fw.image)
    ensures revision != 2 ==>
              (ok <==> Crc(flash.cells[..], 0) == Crc(fw.image + Erased(flash.cells.Length - |fw.image|), 0))
  {
    PaddingFillsFlash(|fw.image|, flash.cells.Length);
    if revision == 2 {
      ok := VerifyV2(fw.image, flash);
    } else {
      var report := flash.GetCrc();
      ok := VerifyV3(fw, report, flash.cells.Length);
    }
  }

  /** An upload is refused for another board or a flash too small, and then nothing is touched. Otherwise it
      succeeds exactly if what is in the flash in the end passes the check of the bootloader revision; a
      flash that keeps what was written does, and holds the padded image and nothing else. */
  method Upload(decoded: seq<bv8>, boardId: int, boardType: int, revision: int, flash: Flash) returns (r: Outcome)
    requires flash.cells.Length % 4 == 0
    modifies flash, flash.cells
    ensures boardType != boardId ==> r == WrongBoard
    ensures boardType == boardId && flash.cells.Length < |decoded| ==> r == TooLarge
    ensures r == WrongBoard || r == TooLarge ==> flash.cells[..] == old(flash.cells[..])
    ensures boardType == boardId && |decoded| <= flash.cells.Length ==>
              |PadToWord(decoded)| <= flash.cells.Length &&
              r == if Passes(revision, PadToWord(decoded), flash.cells[..]) then Uploaded else VerificationFailed
    ensures boardType == boardId && |decoded| <= flash.cells.Length ==>
              var image := PadToWord(decoded);
              if revision == 2 then r == Uploaded <==> flash.cells[..|image|] == image
              else r == Uploaded <==>
                     Crc(flash.cells[..], 0) == Crc(image + Erased(flash.cells.Length - |image|), 0)
    ensures boardType == boardId && |decoded| <= flash.cells.Length && flash.stable ==>
              r == Uploaded && flash.cells[..] == Intended(PadToWord(decoded), flash.cells.Length)
    ensures boardType == boardId && |decoded| <= flash.cells.Length && revision != 2 ==>
              forall at :: BurstAt(flash.cells[..], Intended(PadToWord(decoded), flash.cells.Length), at) ==>
                r != Uploaded
  {
    if boardType != boardId {
      return WrongBoard;
    }
    if flash.cells.Length < |decoded| {
      return TooLarge;
    }
    hide Passes, Crc, PadWords;
    var fw := new Firmware(decoded);
    flash.Erase();
    Program(fw.image, flash);
    ghost var size := flash.cells.Length;
    IntendedPasses(revision, fw.image, size, flash.cells[..], 0);
    flash.Decay();
    var ok := Verify(fw, revision, flash);
    forall at | revision != 2 && BurstAt(flash.cells[..], Intended(fw.image, size), at) ensures !ok {
      IntendedPasses(revision, fw.image, size, flash.cells[..], at);
    }
    r := if ok then Uploaded else VerificationFailed;
  }

  /** Verification refuses every flash that differs from the intended one inside four consecutive bytes. */
  lemma VerifyRejectsBurst(image: seq<bv8>, maxSize: nat, contents: seq<bv8>, intended: seq<bv8>, at: nat)
    requires |image| % 4 == 0 && maxSize % 4 == 0 && |image| <= maxSize
    requires intended == image + Erased(maxSize - |image|)
    requires |contents| == maxSize && contents != intended
    requires forall j :: 0 <= j < maxSize && contents[j] != intended[j] ==> at <= j < at + 4
    ensures Crc(contents, 0) != Crc(image + Erased(4 * PadWords(|image|, maxSize)), 0)
  {
    PaddingFillsFlash(|image|, maxSize);
    BurstChangesCrc(contents, intended, at, 0);
  }
}
