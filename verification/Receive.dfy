/**
The receiving half of a connection: the receive buffer (mmocraft/io/io_event.h:61-117,
mmocraft/io/io_event.cpp:167-182), the packet loop (mmocraft/net/connection.cpp:96-124) and the
completion of a receive (mmocraft/io/io_event.cpp:33-44, 89-113).
*/
module Receive {
  import opened Bytes
  import opened Framing

  const TCP_RECV_BUFFER_SIZE: nat := 4096

  // PacketStructure::max_size_of_packet_struct() is sizeof(PacketHandshake), the size of the struct
  // on x64 and not the 131 bytes of the packet (mmocraft/net/packet.h:266-269).
  const MAX_SIZE_OF_PACKET_STRUCT: nat := 56

  const LARGEST_PACKET: nat := 131

  function ServerPacketSize(id: Byte): nat {
    match id
    case 0x00 => 131 // handshake
    case 0x01 => 1   // ping
    case 0x05 => 9   // set_block_client
    case 0x08 => 10  // set_player_position
    case 0x0D => 66  // chat_message
    case 0x10 => 67  // ext_info
    case 0x11 => 69  // ext_entry
    case 0x2B => 4   // two_way_ping
    case 0x39 => 9   // ext_ping
    case _ => 0
  }

  /** The ids with an entry in the server's handler table (mmocraft/net/game_server.cpp:15-27). */
  predicate HasHandler(id: Byte) {
    id == 0x00 || id == 0x01 || id == 0x05 || id == 0x08 || id == 0x0D ||
    id == 0x10 || id == 0x11 || id == 0x2B || id == 0x39
  }

  datatype ErrorCode = Success | InsufficientPacketData | InvalidPacketId | UnimplementedPacketId

  predicate IsPacketHandleSuccess(e: ErrorCode) {
    e.Success? || e.InsufficientPacketData?
  }

  /** The size table and the handler table agree, so a framed packet is never answered with an error. */
  lemma EveryFramedIdHasHandler(id: Byte)
    ensures ServerPacketSize(id) != 0 <==> HasHandler(id)
    ensures ServerPacketSize(id) <= LARGEST_PACKET
  {
  }

  class RecvBuffer {
    const data: array<Byte>
    var size: nat

    ghost predicate Valid()
      reads this
    {
      size <= data.Length
    }

    ghost function Contents(): seq<Byte>
      requires Valid()
      reads this, data
    {
      data[..size]
    }

    constructor (capacity: nat)
      ensures Valid() && fresh(data) && data.Length == capacity && Contents() == []
    {
      data := new Byte[capacity];
      size := 0;
    }

    lemma SliceOfContents(at: nat, n: nat)
      requires Valid() && at + n <= size
      ensures data[at..at + n] == Contents()[at..at + n]
    {
      var slice, contents := data[at..at + n], Contents();
      assert forall k :: 0 <= k < n ==> slice[k] == data[at + k] == contents[at + k];
    }

    /** The kernel writes at end(), and push(nullptr, n) then counts the bytes in. */
    method Land(bytes: seq<Byte>)
      requires Valid() && |bytes| <= data.Length - size
      modifies this, data
      ensures Valid() && Contents() == old(Contents()) + bytes
    {
      forall i | 0 <= i < |bytes| {
        data[size + i] := bytes[i];
      }
      size := size + |bytes|;
    }

    static lemma MovedForward(before: seq<Byte>, after: seq<Byte>, n: nat, size: nat)
      requires |after| == |before| && n + size <= |before| && forall k :: 0 <= k < size ==> after[k] == before[k + n]
      ensures after[..size] == before[..n + size][n..]
    {
    }

    /** Drops n bytes and moves the remaining ones to the front. */
    method Pop(n: nat)
      requires Valid() && n <= size
      modifies this, data
      ensures Valid() && Contents() == old(Contents())[n..]
    {
      size := size - n;
      if size != 0 {
        var i := 0;
        while i < size
          invariant 0 <= i <= size
          invariant size == old(size) - n
          invariant forall k :: 0 <= k < i ==> data[k] == old(data[k + n])
          invariant forall k :: i <= k < data.Length ==> data[k] == old(data[k])
        {
          data[i] := data[i + n];
          i := i + 1;
        }
        MovedForward(old(data[..]), data[..], n, size);
      }
    }
  }

  ghost predicate UnknownAtFront(s: seq<Byte>) {
    s != [] && ServerPacketSize(s[0]) == 0
  }

  /** Between receives an error stands only for an unknown id at the front of the buffer. */
  ghost predicate Settled(e: ErrorCode, contents: seq<Byte>) {
    e.Success? || (e.InvalidPacketId? && UnknownAtFront(contents))
  }

  /** The error the packet loop leaves, given what it leaves of the bytes. */
  ghost function ErrorAfter(rest: seq<Byte>, before: ErrorCode): ErrorCode {
    if rest == [] then before else if UnknownAtFront(rest) then InvalidPacketId else InsufficientPacketData
  }

  /** Nothing gets past an unknown id, so a standing error is confirmed by every later receive. */
  lemma ErrorsSettle(before: ErrorCode, contents: seq<Byte>, bytes: seq<Byte>)
    requires Settled(before, contents)
    ensures Settled(before, contents + bytes)
    ensures var rest := Frame(ServerPacketSize, contents + bytes).rest;
      && (ErrorAfter(rest, before).InvalidPacketId? <==> UnknownAtFront(rest))
      && !ErrorAfter(rest, before).UnimplementedPacketId?
  {
    var s := contents + bytes;
    if before.InvalidPacketId? {
      assert s[0] == contents[0];
      assert Frame(ServerPacketSize, s) == Framed([], s);
    }
  }

  /** The transferred bytes, or a signal. */
  datatype Completion = Transferred(bytes: seq<Byte>) | RetryPacketProcess | EventFailed {
    predicate Eof() {
      Transferred? && bytes == []
    }

    function Added(): seq<Byte> {
      if Transferred? then bytes else []
    }
  }

  class Connection {
    const buffer: RecvBuffer
    var lastError: ErrorCode
    var isProcessing: bool
    // The packets handed to the packet handler so far.
    var handled: seq<seq<Byte>>

    ghost predicate Valid()
      reads this, buffer, buffer.data
    {
      && buffer.Valid() && buffer.data.Length == TCP_RECV_BUFFER_SIZE
      && Settled(lastError, buffer.Contents())
    }

    constructor ()
      ensures Valid() && fresh(buffer) && fresh(buffer.data)
      ensures buffer.Contents() == [] && handled == [] && lastError.Success? && !isProcessing
    {
      buffer := new RecvBuffer(TCP_RECV_BUFFER_SIZE);
      lastError := Success;
      isProcessing := false;
      handled := [];
    }

    /** IoRecvEvent::post_rio_event; accepted is the kernel's answer. */
    method PostReceive(accepted: bool) returns (posted: bool)
      requires Valid()
      modifies this`isProcessing
      ensures Valid()
      ensures posted <==>
        && accepted && !old(isProcessing) && |buffer.Contents()| + 56 <= 4096
      ensures isProcessing == (old(isProcessing) || posted)
    {
      if isProcessing || buffer.data.Length - buffer.size < MAX_SIZE_OF_PACKET_STRUCT {
        return false;
      }
      isProcessing := true;
      if !accepted {
        isProcessing := false;
        return false;
      }
      posted := true;
    }

    /** Hands over packet after packet and returns the number of bytes consumed. */
    method ProcessPackets() returns (processed: nat)
      requires Valid()
      modifies this`handled, this`lastError
      ensures var f := Frame(ServerPacketSize, buffer.Contents());
        && handled == old(handled) + f.packets
        && processed <= buffer.size && buffer.Contents()[processed..] == f.rest
        && lastError == ErrorAfter(f.rest, old(lastError))
    {
      var cur := 0;
      ghost var whole := buffer.Contents();
      assert whole[0..] == whole;
      while cur < buffer.size
        invariant 0 <= cur <= buffer.size && whole == buffer.data[..buffer.size]
        invariant lastError == old(lastError)
        invariant Outcome(handled, whole, cur) == Outcome(old(handled), whole, 0)
      {
        var id := buffer.data[cur];
        var packetSize := ServerPacketSize(id);
        assert whole[cur..] != [] && whole[cur..][0] == id;
        if packetSize == 0 {
          lastError := InvalidPacketId;
          break;
        }
        if packetSize > buffer.size - cur {
          lastError := InsufficientPacketData;
          break;
        }
        var packet := buffer.data[cur..cur + packetSize];
        buffer.SliceOfContents(cur, packetSize);
        HandOver(handled, whole, cur, packet);
        var result := HandlePacket(packet);
        if !IsPacketHandleSuccess(result) {
          // The code records the handler's error and stops here; no handled id gets this far.
          assert false;
        }
        cur := cur + packetSize;
      }
      processed := cur;
    }

    /** What the loop will have handed over and left, from a position on. */
    static ghost function Outcome(log: seq<seq<Byte>>, whole: seq<Byte>, cur: nat): Framed
      requires cur <= |whole|
    {
      Then(Framed(log, []), Frame(ServerPacketSize, whole[cur..]))
    }

    /** Handing over the packet at a position does not change it. */
    static lemma HandOver(log: seq<seq<Byte>>, whole: seq<Byte>, cur: nat, packet: seq<Byte>)
      requires packet != [] && |packet| == ServerPacketSize(packet[0])
      requires cur + |packet| <= |whole| && packet == whole[cur..cur + |packet|]
      ensures Outcome(log + [packet], whole, cur + |packet|) == Outcome(log, whole, cur)
    {
      var s := whole[cur..];
      assert s[0] == packet[0] && s[..|packet|] == packet && s[|packet|..] == whole[cur + |packet|..];
      FrameStep(ServerPacketSize, s);
      var tail := Frame(ServerPacketSize, s[|packet|..]);
      assert (log + [packet]) + tail.packets == log + ([packet] + tail.packets);
    }

    /** Dispatches on the id; every handler of the game server answers with success. */
    method HandlePacket(packet: seq<Byte>) returns (result: ErrorCode)
      requires packet != []
      modifies this`handled
      ensures result.Success? <==> HasHandler(packet[0])
      ensures result.Success? || result.UnimplementedPacketId?
      ensures handled == old(handled) + if result.Success? then [packet] else []
    {
      if HasHandler(packet[0]) {
        handled := handled + [packet];
        return Success;
      }
      result := UnimplementedPacketId;
    }

    /** Timed-out connections process nothing; they will be deleted soon. */
    method HandleIoEvent(online: bool) returns (processed: nat)
      requires Valid()
      modifies this`handled, this`lastError
      ensures processed <= buffer.size
      ensures online ==>
        var f := Frame(ServerPacketSize, buffer.Contents());
        && handled == old(handled) + f.packets && buffer.Contents()[processed..] == f.rest
        && lastError == ErrorAfter(f.rest, old(lastError))
      ensures !online ==> processed == 0 && handled == old(handled) && lastError == old(lastError)
    {
      if !online {
        return 0;
      }
      processed := ProcessPackets();
    }

    /** Kicks the client on an error, which then stands; anything else is cleared. */
    method OnComplete() returns (kick: bool)
      modifies this`isProcessing, this`lastError
      ensures !isProcessing && (kick <==> !IsPacketHandleSuccess(old(lastError)))
      ensures lastError == if kick then old(lastError) else Success
    {
      isProcessing := false;
      if !IsPacketHandleSuccess(lastError) {
        return true;
      }
      lastError := Success;
      kick := false;
    }

    /**
    IoRecvEvent::on_event_complete. With no bytes transferred the peer is gone, and the connection is to be
    disconnected; a failed event is only completed. Otherwise the buffered bytes are processed, but not while
    the connection is offline. kick says whether the client is kicked.
    */
    method OnEventComplete(c: Completion, online: bool) returns (kick: bool, disconnect: bool)
      requires Valid() && |c.Added()| <= TCP_RECV_BUFFER_SIZE - |buffer.Contents()|
      modifies this, buffer, buffer.data
      ensures Valid() && (disconnect <==> c.Eof())
      ensures c.Eof() ==>
        !kick && buffer.Contents() == old(buffer.Contents()) && handled == old(handled)
        && lastError == old(lastError) && isProcessing == old(isProcessing)
      ensures !c.Eof() ==> !isProcessing
      ensures !c.Eof() && (c.EventFailed? || !online) ==>
        && handled == old(handled)
        && buffer.Contents() == old(buffer.Contents()) + c.Added()
        && (kick <==> old(lastError).InvalidPacketId?)
      ensures !c.Eof() && !c.EventFailed? && online ==>
        var f := Frame(ServerPacketSize, old(buffer.Contents()) + c.Added());
        && handled == old(handled) + f.packets
        && buffer.Contents() == f.rest
        && (kick <==> UnknownAtFront(f.rest))
    {
      kick, disconnect := false, false;
      if c.Eof() {
        disconnect := true;
        return;
      }
      ErrorsSettle(lastError, buffer.Contents(), c.Added());
      ghost var whole := buffer.Contents() + c.Added();
      if c.Transferred? {
        buffer.Land(c.bytes);
      }
      assert buffer.Contents() == whole;
      if !c.EventFailed? {
        var processed := HandleIoEvent(online);
        if processed != 0 {
          buffer.Pop(processed);
        } else {
          assert whole[0..] == whole;
        }
      }
      kick := OnComplete();
    }
  }

  /**
  For every stream and every segmentation of it, a connection hands over the packets of the whole stream,
  up to the first unknown id; without one, the leftover is at most 130 bytes and the next receive has room.
  */
  lemma ReceiverIsSegmentationIndependent(chunks: seq<seq<Byte>>)
    ensures Feed(ServerPacketSize, chunks) == Frame(ServerPacketSize, Concat(chunks))
    ensures var rest := Feed(ServerPacketSize, chunks).rest;
      rest == [] || ServerPacketSize(rest[0]) != 0 ==>
        && |rest| < 131 && |rest| + MAX_SIZE_OF_PACKET_STRUCT <= TCP_RECV_BUFFER_SIZE
        && (rest != [] ==> TCP_RECV_BUFFER_SIZE - |rest| >= ServerPacketSize(rest[0]) - |rest|)
  {
    SegmentationIndependence(ServerPacketSize, chunks);
    LeftoverIsPartialPacket(ServerPacketSize, Concat(chunks), LARGEST_PACKET);
  }

  /** The k-th receive fits the space left by the ones before it. */
  ghost predicate FitsAt(chunks: seq<seq<Byte>>, k: nat)
    requires k < |chunks|
  {
    |chunks[k]| <= TCP_RECV_BUFFER_SIZE - |Frame(ServerPacketSize, Concat(chunks[..k])).rest|
  }

  /**
  Driving a real connection through any list of receives: after each one its log and its buffer are those
  of the feed, as long as every receive fits the free space.
  */
  method ReceiveAll(chunks: seq<seq<Byte>>) returns (c: Connection, fits: bool)
    ensures c.Valid()
    ensures fits ==>
      && c.handled == Frame(ServerPacketSize, Concat(chunks)).packets
      && c.buffer.Contents() == Frame(ServerPacketSize, Concat(chunks)).rest
    ensures !fits ==> exists k :: 0 <= k < |chunks| && !FitsAt(chunks, k)
  {
    c := new Connection();
    fits := true;
    for k := 0 to |chunks|
      invariant fresh(c) && fresh(c.buffer) && fresh(c.buffer.data) && c.Valid()
      invariant Framed(c.handled, c.buffer.Contents()) == Feed(ServerPacketSize, chunks[..k])
    {
      SegmentationIndependence(ServerPacketSize, chunks[..k]);
      if |chunks[k]| > c.buffer.data.Length - c.buffer.size {
        assert !FitsAt(chunks, k);
        fits := false;
        return;
      }
      var completion := if chunks[k] == [] then RetryPacketProcess else Transferred(chunks[k]);
      var kick, disconnect := c.OnEventComplete(completion, true);
      assert chunks[..k + 1][..k] == chunks[..k];
    }
    assert chunks[..|chunks|] == chunks;
    SegmentationIndependence(ServerPacketSize, chunks);
  }
}
