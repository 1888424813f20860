/**
The vendored UUID printer and parser (mmocraft/util/uuid_v4.h:29-99, 251-259), instruction by instruction on
vectors of bytes, lowest byte first, on a little-endian machine.
*/
module Uuid {
  import opened Bytes

  // ----- The vector instructions. A vector is 32 bytes; the upper lane starts at byte 16.

  function Broadcast(v: bv8): (r: seq<bv8>)
    ensures |r| == 32
  {
    seq(32, i => v)
  }

  function And(a: seq<bv8>, b: seq<bv8>): (r: seq<bv8>)
    requires |a| == |b|
    ensures |r| == |a|
  {
    seq(|a|, i requires 0 <= i < |a| => a[i] & b[i])
  }

  function Or(a: seq<bv8>, b: seq<bv8>): (r: seq<bv8>)
    requires |a| == |b|
    ensures |r| == |a|
  {
    seq(|a|, i requires 0 <= i < |a| => a[i] | b[i])
  }

  /** _mm256_add_epi8 */
  function AddBytes(a: seq<bv8>, b: seq<bv8>): (r: seq<bv8>)
    requires |a| == |b| == 32
    ensures |r| == 32
  {
    seq(32, i requires 0 <= i < 32 => a[i] + b[i])
  }

  /** _mm256_sub_epi8 */
  function SubBytes(a: seq<bv8>, b: seq<bv8>): (r: seq<bv8>)
    requires |a| == |b| == 32
    ensures |r| == 32
  {
    seq(32, i requires 0 <= i < 32 => a[i] - b[i])
  }

  /** A byte of a word shifted right by four: the missing bits come from the next byte. */
  function ByteShiftedRight(byte: bv8, next: bv8): bv8 {
    (byte >> 4) | (next << 4)
  }

  /** A byte of a word shifted left by n, for the counts in use. */
  function ByteShiftedLeft(byte: bv8, previous: bv8, n: nat): bv8
    requires n == 0 || n == 2 || n == 3 || n == 4
  {
    if n == 0 then byte
    else if n == 2 then (byte << 2) | (previous >> 6)
    else if n == 3 then (byte << 3) | (previous >> 5)
    else (byte << 4) | (previous >> 4)
  }

  /** _mm256_srli_epi64 by four. */
  function ShiftRight64(a: seq<bv8>): (r: seq<bv8>)
    requires |a| == 32
    ensures |r| == 32
  {
    seq(32, i requires 0 <= i < 32 => ByteShiftedRight(a[i], if i % 8 == 7 then 0 else a[i + 1]))
  }

  /** _mm256_slli_epi64 */
  function ShiftLeft64(a: seq<bv8>, n: nat): (r: seq<bv8>)
    requires |a| == 32 && (n == 2 || n == 3)
    ensures |r| == 32
  {
    seq(32, i requires 0 <= i < 32 => ByteShiftedLeft(a[i], if i % 8 == 0 then 0 else a[i - 1], n))
  }

  predicate ShiftCounts(counts: seq<nat>) {
    |counts| == 8 && forall w :: 0 <= w < 8 ==> counts[w] == 0 || counts[w] == 4
  }

  /** _mm256_sllv_epi32, with one count for each of the eight words. */
  function ShiftLeft32(a: seq<bv8>, counts: seq<nat>): (r: seq<bv8>)
    requires |a| == 32 && ShiftCounts(counts)
    ensures |r| == 32
  {
    seq(32, i requires 0 <= i < 32 => ByteShiftedLeft(a[i], if i % 4 == 0 then 0 else a[i - 1], counts[i / 4]))
  }

  /** _mm256_unpacklo_epi8 (half 0) and _mm256_unpackhi_epi8 (half 8), lane by lane. */
  function Unpack(a: seq<bv8>, b: seq<bv8>, half: nat): (r: seq<bv8>)
    requires |a| == |b| == 32 && (half == 0 || half == 8)
    ensures |r| == 32
  {
    seq(32, i requires 0 <= i < 32 =>
      var at := 16 * (i / 16) + half + i % 16 / 2; if i % 2 == 0 then a[at] else b[at])
  }

  /** _mm256_blendv_epi8 */
  function Blend(a: seq<bv8>, b: seq<bv8>, mask: seq<bv8>): (r: seq<bv8>)
    requires |a| == |b| == |mask| == 32
    ensures |r| == 32
  {
    seq(32, i requires 0 <= i < 32 => if mask[i] & 0x80 != 0 then b[i] else a[i])
  }

  /** _mm256_shuffle_epi8: within a lane; a control byte from 0x80 on clears. */
  function Shuffle(a: seq<bv8>, control: seq<nat>): (r: seq<bv8>)
    requires |a| == |control| == 32
    ensures |r| == 32
  {
    seq(32, i requires 0 <= i < 32 => if control[i] >= 0x80 then 0 else a[16 * (i / 16) + control[i] % 16])
  }

  function Carry(a: bv8, b: bv8, c: bv8): bv8 {
    if a + b < a || a + b + c < c then 1 else 0
  }

  /** The bytes of the 32-bit sum of two words. */
  function AddWords(a: seq<bv8>, b: seq<bv8>): (r: seq<bv8>)
    requires |a| == |b| == 4
    ensures |r| == 4
  {
    var c1 := Carry(a[0], b[0], 0);
    var c2 := Carry(a[1], b[1], c1);
    var c3 := Carry(a[2], b[2], c2);
    [a[0] + b[0], a[1] + b[1] + c1, a[2] + b[2] + c2, a[3] + b[3] + c3]
  }

  /** _mm256_hadd_epi32 with a zero second operand. */
  function HorizontalAdd(a: seq<bv8>): (r: seq<bv8>)
    requires |a| == 32
    ensures |r| == 32
  {
    AddWords(a[0..4], a[4..8]) + AddWords(a[8..12], a[12..16]) + seq(8, i => 0) +
    AddWords(a[16..20], a[20..24]) + AddWords(a[24..28], a[28..32]) + seq(8, i => 0)
  }

  // ----- m128itos.

  const DASH: bv8 := 0x2d

  const DASH_SHUFFLE: seq<nat> := [
    0x00, 0x01, 0x02, 0x03, 0x04, 0x05, 0x06, 0x07, 0x80, 0x08, 0x09, 0x0a, 0x0b, 0x80, 0x0c, 0x0d,
    0x80, 0x80, 0x80, 0x00, 0x01, 0x02, 0x03, 0x80, 0x04, 0x05, 0x06, 0x07, 0x08, 0x09, 0x0a, 0x0b]

  const DASHES: seq<bv8> := [
    0, 0, 0, 0, 0, 0, 0, 0, 0x2d, 0, 0, 0, 0, 0x2d, 0, 0,
    0, 0, 0x2d, 0, 0, 0, 0, 0x2d, 0, 0, 0, 0, 0, 0, 0, 0]

  /** The cast to 256 bits leaves the upper lane undefined. */
  function Digits(x: seq<bv8>, undefined: seq<bv8>): (r: seq<bv8>)
    requires |x| == |undefined| == 16
    ensures |r| == 32
  {
    HexDigits(And(Interleaved(x + undefined), Broadcast(0x0F)))
  }

  function HexDigits(d: seq<bv8>): (r: seq<bv8>)
    requires |d| == 32
    ensures |r| == 32
  {
    var alpha := ShiftLeft64(And(AddBytes(d, Broadcast(0x06)), Broadcast(0x10)), 3);
    AddBytes(d, Blend(ShiftLeft64(Broadcast(0x06), 3), Broadcast(0x57), alpha))
  }

  /** The three stores; the later two overwrite and extend the first. */
  method Print(x: seq<bv8>, undefined: seq<bv8>, mem: array<bv8>)
    requires |x| == |undefined| == 16 && mem.Length >= 36
    modifies mem
    ensures mem[..36] == Text(x)
    ensures forall p :: 36 <= p < mem.Length ==> mem[p] == old(mem[p])
  {
    var res := Digits(x, undefined);
    Store(Or(Shuffle(res, DASH_SHUFFLE), DASHES), res, mem);
    ghost var text := Text(x);
    forall p | 0 <= p < 36 ensures mem[p] == text[p] {
      StoredIsText(x, undefined, p);
    }
  }

  /** What the three stores leave at a position. */
  function Stored(dashed: seq<bv8>, res: seq<bv8>, p: nat): bv8
    requires |dashed| == |res| == 32 && p < 36
  {
    if p == 16 then res[14] else if p == 17 then res[15] else if p >= 32 then res[p - 4] else dashed[p]
  }

  method Store(dashed: seq<bv8>, res: seq<bv8>, mem: array<bv8>)
    requires |dashed| == |res| == 32 && mem.Length >= 36
    modifies mem
    ensures forall p :: 0 <= p < 36 ==> mem[p] == Stored(dashed, res, p)
    ensures forall p :: 36 <= p < mem.Length ==> mem[p] == old(mem[p])
  {
    forall p | 0 <= p < 32 {
      mem[p] := dashed[p];
    }
    mem[16], mem[17] := res[14], res[15];
    mem[32], mem[33], mem[34], mem[35] := res[28], res[29], res[30], res[31];
  }

  // ----- stom128i.

  const PACK_SHUFFLE: seq<nat> := [
    0x00, 0x01, 0x02, 0x03, 0x04, 0x05, 0x06, 0x07, 0x09, 0x0a, 0x0b, 0x0c, 0x0e, 0x0f, 0x80, 0x80,
    0x03, 0x04, 0x05, 0x06, 0x08, 0x09, 0x0a, 0x0b, 0x0c, 0x0d, 0x0e, 0x0f, 0x80, 0x80, 0x80, 0x80]

  const UNWEAVE: seq<nat> := [
    0x00, 0x02, 0x04, 0x06, 0x01, 0x03, 0x05, 0x07, 0x08, 0x0a, 0x0c, 0x0e, 0x09, 0x0b, 0x0d, 0x0f,
    0x00, 0x02, 0x04, 0x06, 0x01, 0x03, 0x05, 0x07, 0x08, 0x0a, 0x0c, 0x0e, 0x09, 0x0b, 0x0d, 0x0f]

  const SHIFTS: seq<nat> := [4, 0, 4, 0, 4, 0, 4, 0]

  /** The 32 digits of a text: the loaded bytes without dashes, then the two inserted pieces. */
  function Packed(mem: seq<bv8>): (r: seq<bv8>)
    requires |mem| >= 36
    ensures |r| == 32
  {
    var x := Shuffle(mem[..32], PACK_SHUFFLE);
    x[..14] + mem[16..18] + x[16..28] + mem[32..36]
  }

  /** The value of each digit: one offset for letters, another for the rest. */
  function Values(x: seq<bv8>): (r: seq<bv8>)
    requires |x| == 32
    ensures |r| == 32
  {
    var a := SubBytes(x, Broadcast(0x2F));
    var alpha := ShiftLeft64(And(a, Broadcast(0x20)), 2);
    SubBytes(a, Blend(Broadcast(0x01), Broadcast(0x28), alpha))
  }

  /** The bytes of digit values, by way of 32-bit sums; then words 0 and 2 of the four 64-bit words. */
  function Joined(v: seq<bv8>, control: seq<nat>, counts: seq<nat>): (r: seq<bv8>)
    requires |v| == |control| == 32 && ShiftCounts(counts)
    ensures |r| == 16
  {
    var a := HorizontalAdd(ShiftLeft32(Shuffle(v, control), counts));
    a[0..8] + a[16..24]
  }

  function Parse(mem: seq<bv8>): (r: seq<bv8>)
    requires |mem| >= 36
    ensures |r| == 16
  {
    Joined(Values(Packed(mem)), UNWEAVE, SHIFTS)
  }

  // ----- What the text is.

  function HexDigit(d: bv8): bv8 {
    if d < 10 then 0x30 + d else 0x61 + (d - 10)
  }

  function Nibble(x: seq<bv8>, k: nat): bv8
    requires k < 2 * |x|
  {
    if k % 2 == 0 then x[k / 2] >> 4 else x[k / 2] & 0x0F
  }

  function Hex(x: seq<bv8>): (r: seq<bv8>)
    ensures |r| == 2 * |x|
  {
    seq(2 * |x|, k requires 0 <= k < 2 * |x| => HexDigit(Nibble(x, k)))
  }

  /** 8-4-4-4-12 lowercase digits, the high digit of each byte first. */
  function Text(x: seq<bv8>): (r: seq<bv8>)
    requires |x| == 16
    ensures |r| == 36
  {
    Hex(x[0..4]) + [DASH] + Hex(x[4..6]) + [DASH] + Hex(x[6..8]) + [DASH] + Hex(x[8..10]) + [DASH] + Hex(x[10..16])
  }

  predicate IsDash(p: nat) {
    p == 8 || p == 13 || p == 18 || p == 23
  }

  /** The digit at a text position, and the text position of a digit. */
  function DigitAt(p: nat): nat
    requires p < 36 && !IsDash(p)
  {
    if p < 8 then p else if p < 13 then p - 1 else if p < 18 then p - 2 else if p < 23 then p - 3 else p - 4
  }

  function PositionOf(k: nat): nat {
    if k < 8 then k else if k < 12 then k + 1 else if k < 16 then k + 2 else if k < 20 then k + 3 else k + 4
  }

  lemma JoinedAt(a: seq<bv8>, b: seq<bv8>, c: seq<bv8>, d: seq<bv8>, e: seq<bv8>, p: nat)
    requires |a| == 8 && |b| == |c| == |d| == 4 && |e| == 12 && p < 36
    ensures (a + [DASH] + b + [DASH] + c + [DASH] + d + [DASH] + e)[p] ==
            if IsDash(p) then DASH else if p < 8 then a[p] else if p < 13 then b[p - 9] else if p < 18 then c[p - 14]
            else if p < 23 then d[p - 19] else e[p - 24]
  {
  }

  lemma HexAt(x: seq<bv8>, lo: nat, hi: nat, j: nat)
    requires lo <= hi <= |x| && j < 2 * (hi - lo)
    ensures Hex(x[lo..hi])[j] == HexDigit(Nibble(x, 2 * lo + j))
  {
    assert x[lo..hi][j / 2] == x[lo + j / 2];
  }

  lemma TextAt(x: seq<bv8>, p: nat)
    requires |x| == 16 && p < 36
    ensures Text(x)[p] == if IsDash(p) then DASH else HexDigit(Nibble(x, DigitAt(p)))
  {
    JoinedAt(Hex(x[0..4]), Hex(x[4..6]), Hex(x[6..8]), Hex(x[8..10]), Hex(x[10..16]), p);
    if !IsDash(p) {
      if p < 8 {
        HexAt(x, 0, 4, p);
      } else if p < 13 {
        HexAt(x, 4, 6, p - 9);
      } else if p < 18 {
        HexAt(x, 6, 8, p - 14);
      } else if p < 23 {
        HexAt(x, 8, 10, p - 19);
      } else {
        HexAt(x, 10, 16, p - 24);
      }
    }
  }

  // ----- The printer prints it.

  lemma NibbleBits(u: bv8, v: bv8)
    ensures (u >> 4) & 0x0F == u >> 4
    ensures ((u >> 4) | (v << 4)) & 0x0F == u >> 4
  {
  }

  lemma UnpackAt(a: seq<bv8>, b: seq<bv8>, half: nat, k: nat)
    requires |a| == |b| == 32 && (half == 0 || half == 8) && k < 16
    ensures Unpack(a, b, half)[k] == if k % 2 == 0 then a[half + k / 2] else b[half + k / 2]
  {
  }

  lemma ShiftedAt(a: seq<bv8>, i: nat)
    requires |a| == 32 && i < 32
    ensures ShiftRight64(a)[i] & 0x0F == a[i] >> 4
  {
    NibbleBits(a[i], if i % 8 == 7 then 0 else a[i + 1]);
  }

  /** The shifted bytes and the bytes, one after the other. */
  function Interleaved(a: seq<bv8>): (r: seq<bv8>)
    requires |a| == 32
    ensures |r| == 32
  {
    var shifted := ShiftRight64(a);
    Unpack(shifted, a, 0)[..16] + Unpack(shifted, a, 8)[..16]
  }

  lemma HalvesAt(low: seq<bv8>, high: seq<bv8>, k: nat)
    requires |low| == |high| == 32 && k < 32
    ensures (low[..16] + high[..16])[k] == if k < 16 then low[k] else high[k - 16]
  {
  }

  lemma InterleavedIs(a: seq<bv8>, k: nat)
    requires |a| == 32 && k < 32
    ensures Interleaved(a)[k] == if k % 2 == 0 then ShiftRight64(a)[k / 2] else a[k / 2]
  {
    var shifted := ShiftRight64(a);
    HalvesAt(Unpack(shifted, a, 0), Unpack(shifted, a, 8), k);
    if k < 16 {
      UnpackAt(shifted, a, 0, k);
    } else {
      UnpackAt(shifted, a, 8, k - 16);
    }
  }

  /** So the two digits of a byte stand side by side, the high one first. */
  lemma InterleavedAt(a: seq<bv8>, k: nat)
    requires |a| == 32 && k < 32
    ensures Interleaved(a)[k] & 0x0F == Nibble(a, k)
  {
    InterleavedIs(a, k);
    ShiftedAt(a, k / 2);
  }

  lemma DigitBits(d: bv8, t: bv8)
    requires d < 16 && t & 0x0F == 0 && t < 0x20
    ensures var s := (d + 0x06) & 0x10;
      && s & 0x0F == 0 && s < 0x20
      && ((s << 3) & 0x80 != 0 <==> d >= 10)
      && (((s << 3) | (t >> 5)) & 0x80 != 0 <==> d >= 10)
    ensures d + (if d >= 10 then 0x57 else (0x06 << 3)) == HexDigit(d)
    ensures (0x06 << 3) | (0x06 >> 5) == (0x06 as bv8) << 3
  {
  }

  lemma HexDigitsAt(d: seq<bv8>, k: nat)
    requires |d| == 32 && k < 32 && forall i :: 0 <= i < 32 ==> d[i] < 16
    ensures HexDigits(d)[k] == HexDigit(d[k])
  {
    var t := And(AddBytes(d, Broadcast(0x06)), Broadcast(0x10));
    DigitBits(d[k], 0);
    if k % 8 != 0 {
      DigitBits(d[k - 1], 0);
      DigitBits(d[k], t[k - 1]);
    }
  }

  lemma DigitsAreHex(x: seq<bv8>, undefined: seq<bv8>, k: nat)
    requires |x| == |undefined| == 16 && k < 32
    ensures Digits(x, undefined)[k] == HexDigit(Nibble(x, k))
  {
    var a := x + undefined;
    var d := And(Interleaved(a), Broadcast(0x0F));
    assert forall i :: 0 <= i < 32 ==> d[i] == Interleaved(a)[i] & 0x0F;
    HexDigitsAt(d, k);
    InterleavedAt(a, k);
    assert a[k / 2] == x[k / 2];
  }

  lemma DashShuffleAt(p: nat)
    requires p < 32
    ensures DASH_SHUFFLE[p] == if IsDash(p) || p == 16 || p == 17 then 0x80 else DigitAt(p) - 16 * (p / 16)
  {
  }

  lemma DashesAt(p: nat)
    requires p < 32
    ensures DASHES[p] == if IsDash(p) then DASH else 0
  {
  }

  lemma DashedAt(res: seq<bv8>, control: seq<nat>, dashes: seq<bv8>, p: nat)
    requires |res| == |control| == |dashes| == 32 && p < 32 && p != 16 && p != 17
    requires control[p] == if IsDash(p) then 0x80 else DigitAt(p) - 16 * (p / 16)
    requires dashes[p] == if IsDash(p) then DASH else 0
    ensures Or(Shuffle(res, control), dashes)[p] == if IsDash(p) then DASH else res[DigitAt(p)]
  {
  }

  lemma StoredAt(res: seq<bv8>, p: nat)
    requires |res| == 32 && p < 36
    ensures Stored(Or(Shuffle(res, DASH_SHUFFLE), DASHES), res, p) == if IsDash(p) then DASH else res[DigitAt(p)]
  {
    if p < 32 && p != 16 && p != 17 {
      DashShuffleAt(p);
      DashesAt(p);
      DashedAt(res, DASH_SHUFFLE, DASHES, p);
    }
  }

  lemma StoredIsText(x: seq<bv8>, undefined: seq<bv8>, p: nat)
    requires |x| == |undefined| == 16 && p < 36
    ensures var res := Digits(x, undefined); Stored(Or(Shuffle(res, DASH_SHUFFLE), DASHES), res, p) == Text(x)[p]
  {
    StoredAt(Digits(x, undefined), p);
    TextAt(x, p);
    if !IsDash(p) {
      DigitsAreHex(x, undefined, DigitAt(p));
    }
  }

  // ----- The parser reads it back.

  lemma PackShuffleAt(k: nat)
    requires k < 32
    ensures PACK_SHUFFLE[k] == if k == 14 || k == 15 || k >= 28 then 0x80 else PositionOf(k) - 16 * (k / 16)
  {
  }

  lemma PiecesAt(x: seq<bv8>, low: seq<bv8>, high: seq<bv8>, k: nat)
    requires |x| == 32 && |low| == 2 && |high| == 4 && k < 32
    ensures (x[..14] + low + x[16..28] + high)[k] ==
            if k == 14 then low[0] else if k == 15 then low[1] else if k >= 28 then high[k - 28] else x[k]
  {
  }

  /** Digit k comes from its place in the text. */
  lemma PackedAt(mem: seq<bv8>, k: nat)
    requires |mem| >= 36 && k < 32
    ensures Packed(mem)[k] == mem[PositionOf(k)]
  {
    var x, low, high := Shuffle(mem[..32], PACK_SHUFFLE), mem[16..18], mem[32..36];
    PiecesAt(x, low, high, k);
    PackShuffleAt(k);
    if k != 14 && k != 15 && k < 28 {
      assert x[k] == mem[..32][PositionOf(k)];
    }
  }

  /** What the parser makes of one character. */
  function CharValue(c: bv8): bv8 {
    var a := c - 0x2F;
    if a & 0x20 != 0 then a - 0x28 else a - 0x01
  }

  lemma LetterBit(a: bv8, t: bv8)
    requires t == t & 0x20
    ensures ((a & 0x20) << 2) & 0x80 != 0 <==> a & 0x20 != 0
    ensures (((a & 0x20) << 2) | (t >> 6)) & 0x80 != 0 <==> a & 0x20 != 0
  {
  }

  lemma ValuesAt(x: seq<bv8>, k: nat)
    requires |x| == 32 && k < 32
    ensures Values(x)[k] == CharValue(x[k])
  {
    var a := SubBytes(x, Broadcast(0x2F));
    var t := And(a, Broadcast(0x20));
    var previous := if k % 8 == 0 then 0 else t[k - 1];
    assert previous == previous & 0x20;
    LetterBit(a[k], previous);
  }

  /** Within a lane: the even digits of a half, then its odd ones. */
  predicate UnweavesAt(control: seq<nat>, t: nat)
    requires |control| == 32 && t < 4
  {
    && control[t] == control[16 + t] == 2 * t
    && control[4 + t] == control[20 + t] == 2 * t + 1
    && control[8 + t] == control[24 + t] == 8 + 2 * t
    && control[12 + t] == control[28 + t] == 9 + 2 * t
  }

  ghost predicate Unweaves(control: seq<nat>) {
    |control| == 32 && forall t: nat :: t < 4 ==> UnweavesAt(control, t)
  }

  /** Only the high digits of group g are moved. */
  predicate ShiftsAt(counts: seq<nat>, g: nat)
    requires |counts| == 8 && g < 4
  {
    counts[2 * g] == 4 && counts[2 * g + 1] == 0
  }

  ghost predicate ShiftsHighDigits(counts: seq<nat>) {
    ShiftCounts(counts) && forall g: nat :: g < 4 ==> ShiftsAt(counts, g)
  }

  lemma UnweaveFitsAt(lane: nat, t: nat)
    requires (lane == 0 || lane == 16) && t < 4
    ensures UNWEAVE[lane + t] == 2 * t && UNWEAVE[lane + 4 + t] == 2 * t + 1
    ensures UNWEAVE[lane + 8 + t] == 8 + 2 * t && UNWEAVE[lane + 12 + t] == 9 + 2 * t
  {
  }

  lemma UnweaveFits()
    ensures Unweaves(UNWEAVE)
  {
    forall t: nat | t < 4 ensures UnweavesAt(UNWEAVE, t) {
      UnweaveFitsAt(0, t);
      UnweaveFitsAt(16, t);
    }
  }

  lemma ShiftsFit()
    ensures ShiftsHighDigits(SHIFTS)
  {
    assert ShiftsAt(SHIFTS, 0) && ShiftsAt(SHIFTS, 1) && ShiftsAt(SHIFTS, 2) && ShiftsAt(SHIFTS, 3);
  }

  lemma ShuffleAt(a: seq<bv8>, control: seq<nat>, lane: nat, j: nat)
    requires |a| == |control| == 32 && (lane == 0 || lane == 16) && j < 16 && control[lane + j] < 16
    ensures Shuffle(a, control)[lane + j] == a[lane + control[lane + j]]
  {
  }

  lemma PairAt(v: seq<bv8>, control: seq<nat>, lane: nat, half: nat, t: nat)
    requires |v| == |control| == 32 && (lane == 0 || lane == 16) && (half == 0 || half == 8) && t < 4
    requires control[lane + half + t] == half + 2 * t && control[lane + half + 4 + t] == half + 2 * t + 1
    ensures var u := Shuffle(v, control);
      u[lane + half + t] == v[lane + half + 2 * t] && u[lane + half + 4 + t] == v[lane + half + 2 * t + 1]
  {
    ShuffleAt(v, control, lane, half + t);
    ShuffleAt(v, control, lane, half + 4 + t);
  }

  /** Even words hold the high digits of four bytes, odd words the low ones. */
  lemma UnwovenAt(v: seq<bv8>, control: seq<nat>, g: nat, t: nat)
    requires |v| == 32 && Unweaves(control) && g < 4 && t < 4
    ensures var u := Shuffle(v, control);
      u[8 * g + t] == v[8 * g + 2 * t] && u[8 * g + 4 + t] == v[8 * g + 2 * t + 1]
  {
    assert UnweavesAt(control, t);
    if g == 0 {
      PairAt(v, control, 0, 0, t);
    } else if g == 1 {
      PairAt(v, control, 0, 8, t);
    } else if g == 2 {
      PairAt(v, control, 16, 0, t);
    } else {
      PairAt(v, control, 16, 8, t);
    }
  }

  lemma ShiftDigit(d: bv8, previous: bv8)
    requires d < 16 && previous < 16
    ensures ByteShiftedLeft(d, previous, 4) == d << 4
    ensures ByteShiftedLeft(d, previous, 0) == d
  {
  }

  lemma JoinDigits(high: bv8, low: bv8)
    requires high < 16 && low < 16
    ensures Carry(high << 4, low, 0) == 0 && (high << 4) + low + 0 == (high << 4) + low
    ensures ((high << 4) + low) >> 4 == high && ((high << 4) + low) & 0x0F == low
  {
  }

  ghost predicate AllDigits(v: seq<bv8>) {
    |v| == 32 && forall k :: 0 <= k < 32 ==> v[k] < 16
  }

  lemma WordShiftedAt(u: seq<bv8>, counts: seq<nat>, w: nat, t: nat)
    requires |u| == 32 && ShiftCounts(counts) && w < 8 && t < 4
    ensures ShiftLeft32(u, counts)[4 * w + t] ==
            ByteShiftedLeft(u[4 * w + t], if t == 0 then 0 else u[4 * w + t - 1], counts[w])
  {
    var i := 4 * w + t;
    assert i / 4 == w && i % 4 == t;
  }

  lemma HighWordAt(u: seq<bv8>, counts: seq<nat>, w: nat, t: nat)
    requires AllDigits(u) && ShiftCounts(counts) && w < 8 && counts[w] == 4 && t < 4
    ensures ShiftLeft32(u, counts)[4 * w + t] == u[4 * w + t] << 4
  {
    WordShiftedAt(u, counts, w, t);
    ShiftDigit(u[4 * w + t], if t == 0 then 0 else u[4 * w + t - 1]);
  }

  lemma LowWordAt(u: seq<bv8>, counts: seq<nat>, w: nat, t: nat)
    requires AllDigits(u) && ShiftCounts(counts) && w < 8 && counts[w] == 0 && t < 4
    ensures ShiftLeft32(u, counts)[4 * w + t] == u[4 * w + t]
  {
    WordShiftedAt(u, counts, w, t);
  }

  /** Behind the variable shift, the high digits stand in the high halves of their bytes. */
  lemma ShiftedWordsAt(u: seq<bv8>, counts: seq<nat>, g: nat, t: nat)
    requires AllDigits(u) && ShiftsHighDigits(counts) && g < 4 && t < 4
    ensures var s := ShiftLeft32(u, counts);
      s[8 * g + t] == u[8 * g + t] << 4 && s[8 * g + 4 + t] == u[8 * g + 4 + t]
  {
    HighDigitShifted(u, counts, g, t);
    LowDigitStays(u, counts, g, t);
  }

  lemma HighDigitShifted(u: seq<bv8>, counts: seq<nat>, g: nat, t: nat)
    requires AllDigits(u) && ShiftsHighDigits(counts) && g < 4 && t < 4
    ensures ShiftLeft32(u, counts)[8 * g + t] == u[8 * g + t] << 4
  {
    assert ShiftsAt(counts, g);
    HighWordAt(u, counts, 2 * g, t);
    assert 4 * (2 * g) + t == 8 * g + t;
  }

  lemma LowDigitStays(u: seq<bv8>, counts: seq<nat>, g: nat, t: nat)
    requires AllDigits(u) && ShiftsHighDigits(counts) && g < 4 && t < 4
    ensures ShiftLeft32(u, counts)[8 * g + 4 + t] == u[8 * g + 4 + t]
  {
    assert ShiftsAt(counts, g);
    LowWordAt(u, counts, 2 * g + 1, t);
    assert 4 * (2 * g + 1) + t == 8 * g + 4 + t;
  }

  function Sum(s: seq<bv8>, g: nat): (r: seq<bv8>)
    requires |s| == 32 && g < 4
    ensures |r| == 4
  {
    AddWords(s[8 * g..8 * g + 4], s[8 * g + 4..8 * g + 8])
  }

  lemma QuarterAt(p: seq<bv8>, q: seq<bv8>, r: seq<bv8>, w: seq<bv8>, z: seq<bv8>, g: nat, t: nat)
    requires |p| == |q| == |r| == |w| == 4 && |z| == 8 && g < 4 && t < 4
    ensures var a := p + q + z + r + w + z;
      (a[0..8] + a[16..24])[4 * g + t] == (if g == 0 then p else if g == 1 then q else if g == 2 then r else w)[t]
  {
  }

  lemma HorizontalAddAt(s: seq<bv8>, g: nat, t: nat)
    requires |s| == 32 && g < 4 && t < 4
    ensures var a := HorizontalAdd(s); (a[0..8] + a[16..24])[4 * g + t] == Sum(s, g)[t]
  {
    QuarterAt(Sum(s, 0), Sum(s, 1), Sum(s, 2), Sum(s, 3), seq(8, i => 0), g, t);
  }

  lemma AddZero(a: bv8, b: bv8)
    ensures a + b + 0 == a + b
  {
  }

  lemma FirstOfSum(a: seq<bv8>, b: seq<bv8>)
    requires |a| == |b| == 4
    ensures AddWords(a, b)[0] == a[0] + b[0]
  {
  }

  lemma SecondOfSum(a: seq<bv8>, b: seq<bv8>)
    requires |a| == |b| == 4 && Carry(a[0], b[0], 0) == 0
    ensures AddWords(a, b)[1] == a[1] + b[1]
  {
    AddZero(a[1], b[1]);
  }

  lemma ThirdOfSum(a: seq<bv8>, b: seq<bv8>)
    requires |a| == |b| == 4 && Carry(a[0], b[0], 0) == 0 && Carry(a[1], b[1], 0) == 0
    ensures AddWords(a, b)[2] == a[2] + b[2]
  {
    AddZero(a[2], b[2]);
  }

  lemma FourthOfSum(a: seq<bv8>, b: seq<bv8>)
    requires |a| == |b| == 4 && Carry(a[0], b[0], 0) == 0 && Carry(a[1], b[1], 0) == 0 && Carry(a[2], b[2], 0) == 0
    ensures AddWords(a, b)[3] == a[3] + b[3]
  {
    AddZero(a[3], b[3]);
  }

  /** No carry leaves the first three bytes of the two words of a group. */
  ghost predicate NoCarries(a: seq<bv8>, b: seq<bv8>)
    requires |a| == |b| == 4
  {
    Carry(a[0], b[0], 0) == 0 && Carry(a[1], b[1], 0) == 0 && Carry(a[2], b[2], 0) == 0
  }

  /** Without carries, the bytes of a sum are the sums of the bytes. */
  lemma SumWithoutCarries(a: seq<bv8>, b: seq<bv8>, t: nat)
    requires |a| == |b| == 4 && t < 4 && NoCarries(a, b)
    ensures AddWords(a, b)[t] == a[t] + b[t]
  {
    if t == 0 {
      FirstOfSum(a, b);
    } else if t == 1 {
      SecondOfSum(a, b);
    } else if t == 2 {
      ThirdOfSum(a, b);
    } else {
      FourthOfSum(a, b);
    }
  }

  /** The two bytes that are added up for byte i of a group. */
  lemma WordDigits(v: seq<bv8>, control: seq<nat>, counts: seq<nat>, g: nat, i: nat)
    requires AllDigits(v) && Unweaves(control) && ShiftsHighDigits(counts) && g < 4 && i < 4
    ensures var s := ShiftLeft32(Shuffle(v, control), counts);
      s[8 * g + i] == v[8 * g + 2 * i] << 4 && s[8 * g + 4 + i] == v[8 * g + 2 * i + 1]
  {
    var u := Shuffle(v, control);
    assert AllDigits(u);
    ShiftedWordsAt(u, counts, g, i);
    UnwovenAt(v, control, g, i);
  }

  lemma WordCarries(v: seq<bv8>, control: seq<nat>, counts: seq<nat>, g: nat, i: nat)
    requires AllDigits(v) && Unweaves(control) && ShiftsHighDigits(counts) && g < 4 && i < 4
    ensures var s := ShiftLeft32(Shuffle(v, control), counts);
      Carry(s[8 * g..8 * g + 4][i], s[8 * g + 4..8 * g + 8][i], 0) == 0
  {
    WordDigits(v, control, counts, g, i);
    JoinDigits(v[8 * g + 2 * i], v[8 * g + 2 * i + 1]);
  }

  lemma GroupHasNoCarries(v: seq<bv8>, control: seq<nat>, counts: seq<nat>, g: nat)
    requires AllDigits(v) && Unweaves(control) && ShiftsHighDigits(counts) && g < 4
    ensures var s := ShiftLeft32(Shuffle(v, control), counts); NoCarries(s[8 * g..8 * g + 4], s[8 * g + 4..8 * g + 8])
  {
    WordCarries(v, control, counts, g, 0);
    WordCarries(v, control, counts, g, 1);
    WordCarries(v, control, counts, g, 2);
  }

  lemma GroupSum(v: seq<bv8>, control: seq<nat>, counts: seq<nat>, g: nat, t: nat)
    requires AllDigits(v) && Unweaves(control) && ShiftsHighDigits(counts) && g < 4 && t < 4
    ensures var s := ShiftLeft32(Shuffle(v, control), counts); Sum(s, g)[t] == s[8 * g + t] + s[8 * g + 4 + t]
  {
    var s := ShiftLeft32(Shuffle(v, control), counts);
    GroupHasNoCarries(v, control, counts, g);
    SumWithoutCarries(s[8 * g..8 * g + 4], s[8 * g + 4..8 * g + 8], t);
  }

  lemma SameSum(sum: bv8, high: bv8, low: bv8, a: bv8, b: bv8)
    requires sum == a + b && a == high << 4 && b == low
    ensures sum == (high << 4) + low
  {
  }

  /** Byte i is digits 2i and 2i + 1. */
  lemma JoinedByte(v: seq<bv8>, control: seq<nat>, counts: seq<nat>, g: nat, t: nat)
    requires AllDigits(v) && Unweaves(control) && ShiftsHighDigits(counts) && g < 4 && t < 4
    ensures Joined(v, control, counts)[4 * g + t] == (v[8 * g + 2 * t] << 4) + v[8 * g + 2 * t + 1]
  {
    var s := ShiftLeft32(Shuffle(v, control), counts);
    HorizontalAddAt(s, g, t);
    GroupSum(v, control, counts, g, t);
    WordDigits(v, control, counts, g, t);
    SameSum(Sum(s, g)[t], v[8 * g + 2 * t], v[8 * g + 2 * t + 1], s[8 * g + t], s[8 * g + 4 + t]);
  }

  // ----- Round trips.

  predicate IsHexChar(c: bv8) {
    0x30 <= c <= 0x39 || 0x61 <= c <= 0x66
  }

  /** A lowercase 8-4-4-4-12 text. */
  ghost predicate IsUuidText(s: seq<bv8>) {
    |s| == 36 && forall p: nat :: p < 36 ==> if IsDash(p) then s[p] == DASH else IsHexChar(s[p])
  }

  lemma CharOfDigit(d: bv8)
    requires d < 16
    ensures IsHexChar(HexDigit(d)) && CharValue(HexDigit(d)) == d
  {
  }

  lemma DigitOfChar(c: bv8)
    requires IsHexChar(c)
    ensures CharValue(c) < 16 && HexDigit(CharValue(c)) == c
  {
  }

  lemma NibblesOfByte(b: bv8)
    ensures b >> 4 < 16 && b & 0x0F < 16 && ((b >> 4) << 4) + (b & 0x0F) == b
  {
  }

  lemma NibbleBound(x: seq<bv8>, k: nat)
    requires k < 2 * |x|
    ensures Nibble(x, k) < 16
  {
    NibblesOfByte(x[k / 2]);
  }

  lemma ValueAt(mem: seq<bv8>, k: nat)
    requires IsUuidText(mem) && k < 32
    ensures Values(Packed(mem))[k] == CharValue(mem[PositionOf(k)]) < 16
  {
    ValuesAt(Packed(mem), k);
    PackedAt(mem, k);
    DigitOfChar(mem[PositionOf(k)]);
  }

  lemma ValuesAreDigits(mem: seq<bv8>)
    requires IsUuidText(mem)
    ensures AllDigits(Values(Packed(mem)))
  {
    forall k | 0 <= k < 32 ensures Values(Packed(mem))[k] < 16 {
      ValueAt(mem, k);
    }
  }

  lemma SameByte(y: seq<bv8>, v: seq<bv8>, i: nat, g: nat, t: nat)
    requires |y| == 16 && |v| == 32 && i < 16 && i == 4 * g + t
        && y[4 * g + t] == (v[8 * g + 2 * t] << 4) + v[8 * g + 2 * t + 1]
    ensures y[i] == (v[2 * i] << 4) + v[2 * i + 1]
  {
    assert 8 * g + 2 * t == 2 * i;
  }

  lemma JoinedByteAt(v: seq<bv8>, control: seq<nat>, counts: seq<nat>, i: nat)
    requires AllDigits(v) && Unweaves(control) && ShiftsHighDigits(counts) && i < 16
    ensures Joined(v, control, counts)[i] == (v[2 * i] << 4) + v[2 * i + 1]
  {
    JoinedByte(v, control, counts, i / 4, i % 4);
    SameByte(Joined(v, control, counts), v, i, i / 4, i % 4);
  }

  /** Byte i of y is made of the characters of digits 2i and 2i + 1. */
  ghost predicate ByteFromText(y: seq<bv8>, mem: seq<bv8>, i: nat)
    requires |y| == 16 && |mem| == 36 && i < 16
  {
    y[i] == (CharValue(mem[PositionOf(2 * i)]) << 4) + CharValue(mem[PositionOf(2 * i + 1)])
  }

  ghost predicate BytesFromText(y: seq<bv8>, mem: seq<bv8>) {
    |y| == 16 && |mem| == 36 && forall i: nat :: i < 16 ==> ByteFromText(y, mem, i)
  }

  lemma JoinedFromText(mem: seq<bv8>, control: seq<nat>, counts: seq<nat>)
    requires IsUuidText(mem) && Unweaves(control) && ShiftsHighDigits(counts)
    ensures BytesFromText(Joined(Values(Packed(mem)), control, counts), mem)
  {
    var v := Values(Packed(mem));
    ValuesAreDigits(mem);
    var y := Joined(v, control, counts);
    forall i: nat | i < 16 ensures ByteFromText(y, mem, i) {
      JoinedByteAt(v, control, counts, i);
      ValueAt(mem, 2 * i);
      ValueAt(mem, 2 * i + 1);
    }
  }

  lemma ParsedFromText(mem: seq<bv8>)
    requires IsUuidText(mem)
    ensures BytesFromText(Parse(mem), mem)
  {
    UnweaveFits();
    ShiftsFit();
    JoinedFromText(mem, UNWEAVE, SHIFTS);
  }

  lemma TextIsUuidText(x: seq<bv8>)
    requires |x| == 16
    ensures IsUuidText(Text(x))
  {
    forall p: nat | p < 36 ensures if IsDash(p) then Text(x)[p] == DASH else IsHexChar(Text(x)[p]) {
      TextAt(x, p);
      if !IsDash(p) {
        NibbleBound(x, DigitAt(p));
        CharOfDigit(Nibble(x, DigitAt(p)));
      }
    }
  }

  /** A digit of the text of x, as the parser values it. */
  lemma TextValueAt(x: seq<bv8>, k: nat)
    requires |x| == 16 && k < 32
    ensures CharValue(Text(x)[PositionOf(k)]) == Nibble(x, k)
  {
    TextAt(x, PositionOf(k));
    NibbleBound(x, k);
    CharOfDigit(Nibble(x, k));
  }

  lemma TextDeterminesByte(x: seq<bv8>, y: seq<bv8>, mem: seq<bv8>, i: nat)
    requires |x| == |y| == 16 && |mem| == 36 && i < 16 && ByteFromText(y, mem, i)
    requires CharValue(mem[PositionOf(2 * i)]) == Nibble(x, 2 * i)
    requires CharValue(mem[PositionOf(2 * i + 1)]) == Nibble(x, 2 * i + 1)
    ensures y[i] == x[i]
  {
    NibblesOfByte(x[i]);
    assert Nibble(x, 2 * i) == x[i] >> 4 && Nibble(x, 2 * i + 1) == x[i] & 0x0F;
  }

  lemma TextDetermines(x: seq<bv8>, y: seq<bv8>)
    requires |x| == 16 && BytesFromText(y, Text(x))
    ensures y == x
  {
    forall i: nat | i < 16 ensures y[i] == x[i] {
      assert ByteFromText(y, Text(x), i);
      TextValueAt(x, 2 * i);
      TextValueAt(x, 2 * i + 1);
      TextDeterminesByte(x, y, Text(x), i);
    }
  }

  /** For every 128-bit value, parsing what is printed gives it back. */
  lemma ParsePrinted(x: seq<bv8>)
    requires |x| == 16
    ensures Parse(Text(x)) == x
  {
    TextIsUuidText(x);
    ParsedFromText(Text(x));
    TextDetermines(x, Parse(Text(x)));
  }

  /** The digits of a parsed byte are those it was parsed from. */
  lemma ParsedNibble(y: seq<bv8>, mem: seq<bv8>, k: nat)
    requires IsUuidText(mem) && BytesFromText(y, mem) && k < 32
    ensures HexDigit(Nibble(y, k)) == mem[PositionOf(k)]
  {
    var i := k / 2;
    assert ByteFromText(y, mem, i);
    var high, low := mem[PositionOf(2 * i)], mem[PositionOf(2 * i + 1)];
    DigitOfChar(high);
    DigitOfChar(low);
    JoinDigits(CharValue(high), CharValue(low));
  }

  lemma TextOfParsed(y: seq<bv8>, mem: seq<bv8>)
    requires IsUuidText(mem) && BytesFromText(y, mem)
    ensures Text(y) == mem
  {
    forall p: nat | p < 36 ensures Text(y)[p] == mem[p] {
      TextAt(y, p);
      if !IsDash(p) {
        ParsedNibble(y, mem, DigitAt(p));
      }
    }
  }

  /** A text survives parsing and printing exactly when it is a lowercase 8-4-4-4-12 one. */
  lemma PrintParsedIff(s: seq<bv8>)
    requires |s| == 36
    ensures Text(Parse(s)) == s <==> IsUuidText(s)
  {
    TextIsUuidText(Parse(s));
    if IsUuidText(s) {
      ParsedFromText(s);
      TextOfParsed(Parse(s), s);
    }
  }

  // ----- getUUID.

  const AND_MASK: seq<bv8> := [0xFF, 0xFF, 0xFF, 0xFF, 0xFF, 0xFF, 0x0F, 0xFF, 0x3F, 0xFF, 0xFF, 0xFF, 0xFF, 0xFF,
      0xFF, 0xFF]
  const OR_MASK: seq<bv8> := [0, 0, 0, 0, 0, 0, 0x40, 0, 0x80, 0, 0, 0, 0, 0, 0, 0]

  /** What is made of 128 random bits. */
  function Generate(random: seq<bv8>): (r: seq<bv8>)
    requires |random| == 16
    ensures |r| == 16
  {
    Or(And(random, AND_MASK), OR_MASK)
  }

  /** Sections 4.1.1 and 4.1.3 of RFC 4122: the variant bits 10, and version 4. */
  predicate IsVersion4(x: seq<bv8>)
    requires |x| == 16
  {
    x[6] & 0xF0 == 0x40 && x[8] & 0xC0 == 0x80
  }

  lemma MaskBits(b: bv8)
    ensures (b & 0xFF) | 0 == b
    ensures var v := (b & 0x0F) | 0x40; v & 0xF0 == 0x40 && v & 0x0F == b & 0x0F && v >> 4 == 4
    ensures var w := (b & 0x3F) | 0x80; w & 0xC0 == 0x80 && w & 0x3F == b & 0x3F && 8 <= w >> 4 <= 11
    ensures b & 0xF0 == 0x40 ==> (b & 0x0F) | 0x40 == b
    ensures b & 0xC0 == 0x80 ==> (b & 0x3F) | 0x80 == b
  {
  }

  lemma MaskAt(i: nat)
    requires i < 16
    ensures AND_MASK[i] == if i == 6 then 0x0F else if i == 8 then 0x3F else 0xFF
    ensures OR_MASK[i] == if i == 6 then 0x40 else if i == 8 then 0x80 else 0
  {
  }

  lemma MaskedAt(random: seq<bv8>, a: seq<bv8>, o: seq<bv8>, i: nat)
    requires |random| == |a| == |o| == 16 && i < 16
    ensures Or(And(random, a), o)[i] == (random[i] & a[i]) | o[i]
  {
  }

  lemma GeneratedAt(random: seq<bv8>, i: nat)
    requires |random| == 16 && i < 16
    ensures Generate(random)[i] ==
            if i == 6 then (random[i] & 0x0F) | 0x40 else if i == 8 then (random[i] & 0x3F) | 0x80 else random[i]
  {
    MaskedAt(random, AND_MASK, OR_MASK, i);
    MaskAt(i);
    MaskBits(random[i]);
  }

  /** Section 4.4 of RFC 4122: the version and variant are set, every other bit stays random. */
  lemma GeneratedIsRandomVersion4(random: seq<bv8>)
    requires |random| == 16
    ensures var x := Generate(random);
      && IsVersion4(x)
      && x[6] & 0x0F == random[6] & 0x0F && x[8] & 0x3F == random[8] & 0x3F
      && (forall i :: 0 <= i < 16 && i != 6 && i != 8 ==> x[i] == random[i])
  {
    GeneratedAt(random, 6);
    GeneratedAt(random, 8);
    MaskBits(random[6]);
    MaskBits(random[8]);
    forall i | 0 <= i < 16 && i != 6 && i != 8 ensures Generate(random)[i] == random[i] {
      GeneratedAt(random, i);
    }
  }

  /** Exactly the version 4 values can be generated. */
  lemma GeneratedIffVersion4(x: seq<bv8>)
    requires |x| == 16
    ensures IsVersion4(x) <==> exists random: seq<bv8> :: |random| == 16 && Generate(random) == x
  {
    if IsVersion4(x) {
      forall i | 0 <= i < 16 ensures Generate(x)[i] == x[i] {
        GeneratedAt(x, i);
        MaskBits(x[i]);
      }
      assert Generate(x) == x;
    }
    forall random: seq<bv8> | |random| == 16 && Generate(random) == x ensures IsVersion4(x) {
      GeneratedIsRandomVersion4(random);
    }
  }

  /** In the text, the third group starts with 4 and the fourth with 8, 9, a or b. */
  lemma GeneratedText(random: seq<bv8>)
    requires |random| == 16
    ensures var text := Text(Generate(random));
      text[14] == 0x34 && (text[19] == 0x38 || text[19] == 0x39 || text[19] == 0x61 || text[19] == 0x62)
  {
    var x := Generate(random);
    TextAt(x, 14);
    TextAt(x, 19);
    GeneratedAt(random, 6);
    GeneratedAt(random, 8);
    MaskBits(random[6]);
    MaskBits(random[8]);
  }
}
