/** Bytes and the big-endian 16-bit fields of the wire format. */
module Bytes {
  type Byte = b: int | 0 <= b < 0x100

  /** A 16-bit pattern; signed fields are read through SignedShort. */
  type Short = s: int | 0 <= s < 0x1_0000

  function ShortBytes(s: Short): (r: seq<Byte>)
    ensures |r| == 2
  {
    [s / 0x100, s % 0x100]
  }

  function ReadShort(hi: Byte, lo: Byte): Short {
    0x100 * hi + lo
  }

  lemma ShortRoundTrip(s: Short)
    ensures ReadShort(ShortBytes(s)[0], ShortBytes(s)[1]) == s
  {
  }

  /** The value of a 16-bit pattern in two's complement. */
  function SignedShort(s: Short): int {
    if s < 0x8000 then s else s - 0x1_0000
  }

  // ----- Slices.

  lemma SliceOfSlice<T>(s: seq<T>, from: nat, to: nat, lo: nat, hi: nat)
    requires lo <= hi && from + hi <= to <= |s|
    ensures s[from..to][lo..hi] == s[from + lo..from + hi]
  {
    var inner := s[from..to];
    assert forall k :: lo <= k < hi ==> inner[k] == s[from + k];
  }

  lemma SliceOfConcat<T>(a: seq<T>, b: seq<T>, lo: nat, hi: nat)
    requires lo <= hi <= |a|
    ensures (a + b)[lo..hi] == a[lo..hi]
  {
  }

  lemma SplitConcat<T>(a: seq<T>, b: seq<T>, n: nat)
    requires n <= |a|
    ensures a == a[..n] + a[n..] && a + b == a[..n] + (a[n..] + b)
  {
  }
}
