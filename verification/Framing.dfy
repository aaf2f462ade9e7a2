/** What the two frame decoders' streams have in common: the bytes between frames. */
module Framing {
  import opened Fletcher

  /** Bytes between frames: a first sync byte takes one more byte with it, which must not be the second. */
  predicate Noise(bytes: seq<byte>, sync1: byte, sync2: byte)
    decreases |bytes|
  {
    bytes == [] ||
    if bytes[0] != sync1 then Noise(bytes[1..], sync1, sync2)
    else |bytes| >= 2 && bytes[1] != sync2 && Noise(bytes[2..], sync1, sync2)
  }

  predicate SyncFree(bytes: seq<byte>, sync1: byte) {
    forall i :: 0 <= i < |bytes| ==> bytes[i] != sync1
  }

  lemma {:induction false} SyncFreeIsNoise(bytes: seq<byte>, sync1: byte, sync2: byte)
    requires SyncFree(bytes, sync1)
    ensures Noise(bytes, sync1, sync2)
    decreases |bytes|
  {
    if bytes != [] {
      SyncFreeIsNoise(bytes[1..], sync1, sync2);
    }
  }

  /** Some noise and then a frame. */
  datatype Segment<F> = Segment(noise: seq<byte>, frame: F)

  /** Nothing to report, `n` times. */
  function Nothing<T>(none: T, n: nat): (rs: seq<T>)
    ensures |rs| == n
  {
    seq(n, _ => none)
  }
}
