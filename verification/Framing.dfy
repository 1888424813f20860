/**
Cutting a byte stream into packets: each packet starts with its id, and the id fixes its size
(mmocraft/net/packet.cpp:18-31, 66-71). A size of zero marks an id the protocol does not know.
*/
module Framing {
  import opened Bytes

  type SizeTable = Byte -> nat

  /** The complete packets of a stream, up to the first unknown id, and what is left over. */
  datatype Framed = Framed(packets: seq<seq<Byte>>, rest: seq<Byte>)

  function Frame(size: SizeTable, s: seq<Byte>): Framed
    decreases |s|
  {
    if s == [] || size(s[0]) == 0 || size(s[0]) > |s| then Framed([], s)
    else
      var n := size(s[0]);
      Prepend(s[..n], Frame(size, s[n..]))
  }

  function Prepend(p: seq<Byte>, f: Framed): Framed {
    Framed([p] + f.packets, f.rest)
  }

  /** First one framing, then another that continues from its leftover. */
  function Then(first: Framed, second: Framed): Framed {
    Framed(first.packets + second.packets, second.rest)
  }

  function Concat(parts: seq<seq<Byte>>): seq<Byte> {
    if parts == [] then [] else parts[0] + Concat(parts[1..])
  }

  // ----- What framing means, without the algorithm.

  ghost predicate IsPacket(size: SizeTable, p: seq<Byte>) {
    p != [] && |p| == size(p[0])
  }

  /** No packet starts at the front: nothing there, an unknown id, or too few bytes. */
  ghost predicate IsStuck(size: SizeTable, s: seq<Byte>) {
    s == [] || size(s[0]) == 0 || |s| < size(s[0])
  }

  ghost predicate IsFraming(size: SizeTable, s: seq<Byte>, f: Framed) {
    && Concat(f.packets) + f.rest == s
    && (forall p :: p in f.packets ==> IsPacket(size, p))
    && IsStuck(size, f.rest)
  }

  lemma FrameStep(size: SizeTable, s: seq<Byte>)
    requires !IsStuck(size, s)
    ensures var n := size(s[0]);
      IsPacket(size, s[..n]) && Frame(size, s) == Prepend(s[..n], Frame(size, s[n..]))
  {
  }

  lemma PrependThen(p: seq<Byte>, first: Framed, second: Framed)
    ensures Then(Prepend(p, first), second) == Prepend(p, Then(first, second))
  {
    assert ([p] + first.packets) + second.packets == [p] + (first.packets + second.packets);
  }

  lemma Rejoin(s: seq<Byte>, n: nat, middle: seq<Byte>, rest: seq<Byte>)
    requires n <= |s| && middle + rest == s[n..]
    ensures (s[..n] + middle) + rest == s
  {
    assert s[..n] + (middle + rest) == (s[..n] + middle) + rest;
  }

  lemma {:induction false} FrameIsFraming(size: SizeTable, s: seq<Byte>)
    ensures IsFraming(size, s, Frame(size, s))
    decreases |s|
  {
    if !IsStuck(size, s) {
      var n := size(s[0]);
      var tail := Frame(size, s[n..]);
      FrameStep(size, s);
      FrameIsFraming(size, s[n..]);
      assert ([s[..n]] + tail.packets)[1..] == tail.packets;
      assert Concat([s[..n]] + tail.packets) == s[..n] + Concat(tail.packets);
      Rejoin(s, n, Concat(tail.packets), tail.rest);
    }
  }

  lemma {:induction false} FramingIsFrame(size: SizeTable, s: seq<Byte>, f: Framed)
    requires IsFraming(size, s, f)
    ensures f == Frame(size, s)
    decreases |f.packets|
  {
    if f.packets == [] {
      assert s == f.rest;
    } else {
      var p, others := f.packets[0], f.packets[1..];
      var s' := Concat(others) + f.rest;
      assert p in f.packets && IsPacket(size, p);
      assert s == p + s';
      assert s[0] == p[0] && s[..|p|] == p && s[|p|..] == s';
      FramingIsFrame(size, s', Framed(others, f.rest));
      FrameStep(size, s);
      assert f.packets == [p] + others;
    }
  }

  /** Frame finds a decomposition into packets and a stuck rest, and there is no other. */
  lemma FramingIsUnique(size: SizeTable, s: seq<Byte>, f: Framed)
    ensures IsFraming(size, s, f) <==> f == Frame(size, s)
  {
    FrameIsFraming(size, s);
    if IsFraming(size, s, f) {
      FramingIsFrame(size, s, f);
    }
  }

  /** Framing may stop anywhere and go on later from its leftover. */
  lemma {:induction false} FrameInTwoParts(size: SizeTable, a: seq<Byte>, b: seq<Byte>)
    ensures Frame(size, a + b) == Then(Frame(size, a), Frame(size, Frame(size, a).rest + b))
    decreases |a|
  {
    if IsStuck(size, a) {
      assert [] + Frame(size, a + b).packets == Frame(size, a + b).packets;
    } else {
      var n := size(a[0]);
      FrameInTwoParts(size, a[n..], b);
      SkipFirst(a, b, n);
      FrameStep(size, a);
      FrameStep(size, a + b);
      PrependThen(a[..n], Frame(size, a[n..]), Frame(size, Frame(size, a).rest + b));
    }
  }

  lemma SkipFirst(a: seq<Byte>, b: seq<Byte>, n: nat)
    requires n <= |a|
    ensures (a + b)[..n] == a[..n] && (a + b)[n..] == a[n..] + b
  {
  }

  /** Receiving chunk after chunk, each time framing the leftover with the new bytes. */
  function Feed(size: SizeTable, chunks: seq<seq<Byte>>): Framed {
    if chunks == [] then Framed([], [])
    else
      var sofar := Feed(size, chunks[..|chunks| - 1]);
      Then(sofar, Frame(size, sofar.rest + chunks[|chunks| - 1]))
  }

  lemma {:induction false} ConcatSnoc(parts: seq<seq<Byte>>)
    requires parts != []
    ensures Concat(parts) == Concat(parts[..|parts| - 1]) + parts[|parts| - 1]
    decreases |parts|
  {
    if |parts| == 1 {
      assert parts[1..] == [];
    } else {
      ConcatSnoc(parts[1..]);
      assert parts[1..][..|parts| - 2] == parts[..|parts| - 1][1..];
    }
  }

  /** For every segmentation of a stream, the packets and the leftover are those of the whole stream. */
  lemma {:induction false} SegmentationIndependence(size: SizeTable, chunks: seq<seq<Byte>>)
    ensures Feed(size, chunks) == Frame(size, Concat(chunks))
    decreases |chunks|
  {
    if chunks == [] {
    } else {
      var before := chunks[..|chunks| - 1];
      SegmentationIndependence(size, before);
      ConcatSnoc(chunks);
      FrameInTwoParts(size, Concat(before), chunks[|chunks| - 1]);
    }
  }

  /** A leftover without an unknown id at its front is a proper prefix of one packet. */
  lemma {:induction false} LeftoverIsPartialPacket(size: SizeTable, s: seq<Byte>, bound: nat)
    requires forall id :: size(id) <= bound
    ensures var rest := Frame(size, s).rest;
      rest == [] || size(rest[0]) == 0 || |rest| < size(rest[0]) <= bound
  {
    FramingIsUnique(size, s, Frame(size, s));
  }
}
