/**
The benchmark client's framer (mmocraft-bench/client_bot.cpp:11-14, 162-272): it keeps no bytes
between receives, only the number of bytes still missing from the packet it dispatched last.
*/
module ClientBot {
  import opened Bytes
  import opened Framing

  function BotPacketSize(id: Byte): nat {
    match id
    case 0x00 => 131  // handshake
    case 0x01 => 1    // ping
    case 0x02 => 1    // level_initialize
    case 0x03 => 1028 // level_datachunk
    case 0x04 => 7    // level_finalize
    case 0x06 => 8    // set_block_server
    case 0x07 => 74   // spawn_player
    case 0x08 => 10   // set_player_position
    case 0x09 => 7    // update_player_position
    case 0x0A => 5    // update_player_coordinate
    case 0x0B => 4    // update_player_orientation
    case 0x0C => 2    // despawn_player
    case 0x0D => 66   // chat_message
    case 0x0E => 65   // disconnect_player
    case 0x37 => 2    // set_playerid
    case 0x39 => 9    // ext_ping
    case _ => 0
  }

  /** The framer's answer to some bytes: what it dispatches, what is missing, and whether it loops forever. */
  datatype Progress = Progress(ids: seq<Byte>, remain: nat, spins: bool)

  /** The dispatch loop on bytes that start at a packet boundary. */
  function Dispatch(size: SizeTable, s: seq<Byte>): Progress
    decreases |s|
  {
    if s == [] then Progress([], 0, false)
    else if size(s[0]) == 0 then Progress([], 0, true)
    else if size(s[0]) > |s| then Progress([s[0]], size(s[0]) - |s|, false)
    else
      var tail := Dispatch(size, s[size(s[0])..]);
      tail.(ids := [s[0]] + tail.ids)
  }

  /** One receive. Once the loop spins, no receive is ever answered again. */
  function AfterReceive(size: SizeTable, p: Progress, s: seq<Byte>): Progress {
    if p.spins then p
    else if |s| < p.remain then p.(remain := p.remain - |s|)
    else
      var next := Dispatch(size, s[p.remain..]);
      next.(ids := p.ids + next.ids)
  }

  class Bot {
    var remain: nat

    constructor ()
      ensures remain == 0
    {
      remain := 0;
    }

    /**
    Returns the dispatched ids. On an unknown id the loop's default case moves nothing, so the code repeats
    it forever; the method stops there instead and says so.
    */
    method HandleReceive(data: seq<Byte>) returns (ids: seq<Byte>, spins: bool)
      modifies this
      ensures Progress(ids, remain, spins) == AfterReceive(BotPacketSize, Progress([], old(remain), false), data)
    {
      var begin := 0;
      ids, spins := [], false;
      ghost var left := data;
      ghost var answer := AfterReceive(BotPacketSize, Progress([], remain, false), data);
      var partial := if remain < |data| then remain else |data|;
      if partial != 0 {
        SkipPartial(BotPacketSize, Progress([], remain, false), left, partial);
        remain := remain - partial;
        begin := begin + partial;
        left := left[partial..];
      }
      while remain == 0 && begin < |data|
        invariant 0 <= begin <= |data| && left == data[begin..]
        invariant remain > 0 ==> begin == |data|
        invariant AfterReceive(BotPacketSize, Progress(ids, remain, false), left) == answer
      {
        var id := data[begin];
        var packetSize := BotPacketSize(id);
        if packetSize == 0 {
          UnknownSpins(BotPacketSize, ids, left);
          spins := true;
          return;
        }
        // CONSUME_PACKET_SIZE
        DispatchFirst(BotPacketSize, ids, left);
        var consumed := if packetSize < |data| - begin then packetSize else |data| - begin;
        remain := packetSize - consumed;
        left := left[consumed..];
        begin := begin + consumed;
        ids := ids + [id];
      }
      NothingLeft(BotPacketSize, ids, remain);
    }
  }

  lemma UnknownSpins(size: SizeTable, ids: seq<Byte>, s: seq<Byte>)
    requires s != [] && size(s[0]) == 0
    ensures AfterReceive(size, Progress(ids, 0, false), s) == Progress(ids, 0, true)
  {
    assert s[0..] == s && ids + [] == ids;
  }

  lemma NothingLeft(size: SizeTable, ids: seq<Byte>, remain: nat)
    ensures AfterReceive(size, Progress(ids, remain, false), []) == Progress(ids, remain, false)
  {
    assert ids + [] == ids;
  }

  /** Bytes that belong to the packet already dispatched only count down. */
  lemma SkipPartial(size: SizeTable, p: Progress, s: seq<Byte>, k: nat)
    requires !p.spins && k <= p.remain && k <= |s|
    ensures AfterReceive(size, p.(remain := p.remain - k), s[k..]) == AfterReceive(size, p, s)
  {
    if |s| >= p.remain {
      assert s[k..][p.remain - k..] == s[p.remain..];
    }
  }

  /** Dispatching the packet at the front and consuming what is there of it. */
  lemma DispatchFirst(size: SizeTable, ids: seq<Byte>, s: seq<Byte>)
    requires s != [] && size(s[0]) != 0
    ensures var n := size(s[0]);
      var m := if n < |s| then n else |s|;
      AfterReceive(size, Progress(ids + [s[0]], n - m, false), s[m..]) == AfterReceive(size, Progress(ids, 0, false), s)
  {
    var n := size(s[0]);
    assert s[0..] == s;
    if n <= |s| {
      var tail := Dispatch(size, s[n..]);
      assert s[n..][0..] == s[n..];
      assert ids + ([s[0]] + tail.ids) == (ids + [s[0]]) + tail.ids;
    }
  }

  // ----- The framer against one-shot framing.

  function Feed(size: SizeTable, chunks: seq<seq<Byte>>): Progress {
    if chunks == [] then Progress([], 0, false)
    else AfterReceive(size, Feed(size, chunks[..|chunks| - 1]), chunks[|chunks| - 1])
  }

  function Ids(packets: seq<seq<Byte>>): seq<Byte> {
    if packets == [] then [] else packets[0][..if packets[0] == [] then 0 else 1] + Ids(packets[1..])
  }

  /** What a framing of all bytes so far calls for: an incomplete last packet counts as dispatched. */
  function Expected(size: SizeTable, f: Framed): Progress {
    if f.rest == [] then Progress(Ids(f.packets), 0, false)
    else if size(f.rest[0]) == 0 then Progress(Ids(f.packets), 0, true)
    else if size(f.rest[0]) <= |f.rest| then Progress([], 0, false)
    else Progress(Ids(f.packets) + [f.rest[0]], size(f.rest[0]) - |f.rest|, false)
  }

  lemma {:induction false} IdsConcat(a: seq<seq<Byte>>, b: seq<seq<Byte>>)
    ensures Ids(a + b) == Ids(a) + Ids(b)
    decreases |a|
  {
    if a == [] {
      assert a + b == b;
    } else {
      assert (a + b)[1..] == a[1..] + b;
      IdsConcat(a[1..], b);
    }
  }

  lemma IdsPrepend(p: seq<Byte>, f: Framed)
    requires p != []
    ensures Ids(Prepend(p, f).packets) == [p[0]] + Ids(f.packets)
  {
    assert ([p] + f.packets)[1..] == f.packets;
  }

  lemma ExpectedPrepend(size: SizeTable, p: seq<Byte>, f: Framed)
    requires p != [] && IsStuck(size, f.rest)
    ensures var e := Expected(size, f); Expected(size, Prepend(p, f)) == e.(ids := [p[0]] + e.ids)
  {
    IdsPrepend(p, f);
    if f.rest != [] {
      assert [p[0]] + (Ids(f.packets) + [f.rest[0]]) == ([p[0]] + Ids(f.packets)) + [f.rest[0]];
    }
  }

  lemma {:induction false} DispatchIsFraming(size: SizeTable, s: seq<Byte>)
    ensures Dispatch(size, s) == Expected(size, Frame(size, s))
    decreases |s|
  {
    if !IsStuck(size, s) {
      var n := size(s[0]);
      FrameStep(size, s);
      DispatchIsFraming(size, s[n..]);
      FrameIsFraming(size, s[n..]);
      ExpectedPrepend(size, s[..n], Frame(size, s[n..]));
    }
  }

  /** Completing the packet a leftover began. */
  lemma CompletePartial(size: SizeTable, r: seq<Byte>, s: seq<Byte>)
    requires r != [] && |r| < size(r[0]) <= |r| + |s|
    ensures var need := size(r[0]) - |r|;
      Frame(size, r + s) == Prepend(r + s[..need], Frame(size, s[need..]))
  {
    var need := size(r[0]) - |r|;
    FrameStep(size, r + s);
    assert (r + s)[..size(r[0])] == r + s[..need] && (r + s)[size(r[0])..] == s[need..];
  }

  /** The ids before a receive, then the ids of a framing. */
  lemma ExpectedAfter(size: SizeTable, before: seq<seq<Byte>>, f: Framed)
    requires IsStuck(size, f.rest)
    ensures var e := Expected(size, f);
      Expected(size, Framed(before + f.packets, f.rest)) == e.(ids := Ids(before) + e.ids)
  {
    IdsConcat(before, f.packets);
    if f.rest != [] {
      assert Ids(before) + (Ids(f.packets) + [f.rest[0]]) == (Ids(before) + Ids(f.packets)) + [f.rest[0]];
    }
  }

  lemma IdsSnoc(packets: seq<seq<Byte>>, p: seq<Byte>)
    requires p != []
    ensures Ids(packets + [p]) == Ids(packets) + [p[0]]
  {
    assert Ids([p]) == [p[0]];
    IdsConcat(packets, [p]);
  }

  /** The bytes that complete the dispatched packet are skipped, and dispatch goes on behind them. */
  lemma ReceiveCompletes(size: SizeTable, packets: seq<seq<Byte>>, r: seq<Byte>, s: seq<Byte>)
    requires r != [] && |r| < size(r[0]) <= |r| + |s|
    ensures var need := size(r[0]) - |r|;
      AfterReceive(size, Expected(size, Framed(packets, r)), s)
      == Expected(size, Then(Framed(packets, r), Prepend(r + s[..need], Frame(size, s[need..]))))
  {
    var need := size(r[0]) - |r|;
    var p, tail := r + s[..need], Frame(size, s[need..]);
    SkipsMissing(size, Ids(packets) + [r[0]], need, s);
    FrameIsFraming(size, s[need..]);
    IdsSnoc(packets, p);
    ExpectedAfter(size, packets + [p], tail);
    assert Then(Framed(packets, r), Prepend(p, tail)) == Framed((packets + [p]) + tail.packets, tail.rest);
  }

  lemma SkipsMissing(size: SizeTable, ids: seq<Byte>, need: nat, s: seq<Byte>)
    requires need <= |s|
    ensures var e := Expected(size, Frame(size, s[need..]));
      AfterReceive(size, Progress(ids, need, false), s) == e.(ids := ids + e.ids)
  {
    DispatchIsFraming(size, s[need..]);
  }

  lemma OneMoreReceive(size: SizeTable, first: Framed, s: seq<Byte>)
    requires IsStuck(size, first.rest)
    ensures AfterReceive(size, Expected(size, first), s) == Expected(size, Then(first, Frame(size, first.rest + s)))
  {
    var r := first.rest;
    if r != [] && |r| < size(r[0]) <= |r| + |s| {
      CompletePartial(size, r, s);
      ReceiveCompletes(size, first.packets, r, s);
    } else {
      FrameIsFraming(size, r + s);
      ExpectedAfter(size, first.packets, Frame(size, r + s));
      if r == [] {
        assert r + s == s && s[0..] == s;
        DispatchIsFraming(size, s);
      } else {
        assert (r + s)[0] == r[0];
        assert Ids([]) == [] && Ids(first.packets) + [] == Ids(first.packets);
      }
    }
  }

  /**
  For every segmentation of a stream, the bot dispatches the ids of one-shot framing, what it counts as missing
  is what the last packet lacks, and it spins exactly when the framing meets an unknown id.
  */
  lemma {:induction false} BotAgreesWithFraming(size: SizeTable, chunks: seq<seq<Byte>>)
    ensures Feed(size, chunks) == Expected(size, Frame(size, Concat(chunks)))
    decreases |chunks|
  {
    if chunks == [] {
    } else {
      var before, s := chunks[..|chunks| - 1], chunks[|chunks| - 1];
      BotAgreesWithFraming(size, before);
      FrameIsFraming(size, Concat(before));
      ConcatSnoc(chunks);
      FrameInTwoParts(size, Concat(before), s);
      OneMoreReceive(size, Frame(size, Concat(before)), s);
    }
  }
}
