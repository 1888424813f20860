/**
The wire format: the sizes in the packet tables are those of the fields the parsers read and the serializers write
(mmocraft/net/packet.cpp:140-237, 268-396, mmocraft/net/packet.h, mmocraft/net/packet_extension.h), and the bench
client cuts what the server sends into exactly the packets it was made of.
*/
module Wire {
  import opened Wrappers
  import opened Bytes
  import opened BlockHistory
  import opened Framing
  import Receive
  import ClientBot
  import LevelChunk
  import PositionSync
  import Replication

  // ----- Fields.

  datatype Field = OfByte | OfShort | OfInt | OfUInt64 | OfString

  function Width(f: Field): nat {
    match f
    case OfByte => 1
    case OfShort => 2
    case OfInt => 4
    case OfUInt64 => 8
    case OfString => 64
  }

  function TotalWidth(fields: seq<Field>): nat {
    if fields == [] then 0 else Width(fields[0]) + TotalWidth(fields[1..])
  }

  /** What the parsers read behind the id. A two-way ping is sent back as it came. */
  function ReadFields(id: Byte): Option<seq<Field>> {
    match id
    case 0x00 => Some([OfByte, OfString, OfString, OfByte])
    case 0x01 => Some([])
    case 0x05 => Some([OfShort, OfShort, OfShort, OfByte, OfByte])
    case 0x08 => Some([OfByte, OfShort, OfShort, OfShort, OfByte, OfByte])
    case 0x0D => Some([OfByte, OfString])
    case 0x10 => Some([OfString, OfShort])
    case 0x11 => Some([OfString, OfInt])
    case 0x2B => Some([OfByte, OfShort])
    case 0x39 => Some([OfUInt64])
    case _ => None
  }

  /** What the serializers write behind the id, for the packets the bench client knows. */
  function WrittenFields(id: Byte): Option<seq<Field>> {
    match id
    case 0x00 => Some([OfByte, OfString, OfString, OfByte])
    case 0x01 => Some([])
    case 0x02 => Some([])
    case 0x04 => Some([OfShort, OfShort, OfShort])
    case 0x06 => Some([OfShort, OfShort, OfShort, OfByte])
    case 0x07 => Some([OfByte, OfString, OfShort, OfShort, OfShort, OfByte, OfByte])
    case 0x08 => Some([OfByte, OfShort, OfShort, OfShort, OfByte, OfByte])
    case 0x09 => Some([OfByte, OfByte, OfByte, OfByte, OfByte, OfByte])
    case 0x0A => Some([OfByte, OfByte, OfByte, OfByte])
    case 0x0B => Some([OfByte, OfByte, OfByte])
    case 0x0C => Some([OfByte])
    case 0x0D => Some([OfByte, OfString])
    case 0x0E => Some([OfString])
    case 0x37 => Some([OfByte])
    case 0x39 => Some([OfUInt64])
    case _ => None
  }

  /** Each size in the server's table is that of the id and the fields its parser reads. */
  lemma ServerSizesAreTheFields(id: Byte)
    ensures Receive.ServerPacketSize(id) ==
            match ReadFields(id) case Some(fields) => 1 + TotalWidth(fields) case None => 0
  {
  }

  /** Each size the bench client uses is that of the id and the fields the server writes, or of a data chunk. */
  lemma BotSizesAreTheFields(id: Byte)
    ensures ClientBot.BotPacketSize(id) == BotWidth(id)
  {
    if id < 0x07 {
      LowBotSizes(id);
    } else if id < 0x0C {
      MiddleBotSizes(id);
    } else {
      HighBotSizes(id);
    }
  }

  function BotWidth(id: Byte): nat {
    if id == 0x03 then 1 + Width(OfShort) + 1024 + Width(OfByte)
    else match WrittenFields(id) case Some(fields) => 1 + TotalWidth(fields) case None => 0
  }

  lemma LowBotSizes(id: Byte)
    requires id < 0x07
    ensures ClientBot.BotPacketSize(id) == BotWidth(id)
  {
  }

  lemma MiddleBotSizes(id: Byte)
    requires 0x07 <= id < 0x0C
    ensures ClientBot.BotPacketSize(id) == BotWidth(id)
  {
  }

  lemma HighBotSizes(id: Byte)
    requires 0x0C <= id
    ensures ClientBot.BotPacketSize(id) == BotWidth(id)
  {
  }

  // ----- The bytes themselves, most significant first.

  lemma RecordOnTheWire(e: Edit)
    ensures RecordBytes(e) == [6, e.x / 256, e.x % 256, e.y / 256, e.y % 256, e.z / 256, e.z % 256, e.id]
  {
  }

  lemma FinalizeOnTheWire(width: Short, height: Short, length: Short)
    ensures LevelChunk.Finalize(width, height, length) ==
            [4, width / 256, width % 256, height / 256, height % 256, length / 256, length % 256]
  {
  }

  lemma ChunkOnTheWire(c: seq<Byte>, part: seq<Byte>)
    requires LevelChunk.IsChunk(c, part)
    ensures |c| == 1028 && c[0] == 3 && |part| == (c[1] as int) * 256 + c[2]
    ensures |part| <= 1024 && c[3..3 + |part|] == part && c[1027] == 0
  {
  }

  /** An absolute record carries the latest position; the others the steps, and the latest orientation if it is new. */
  lemma PositionOnTheWire(m: PositionSync.Move)
    ensures var b, x, y, z := PositionSync.Encode(PositionSync.RecordOf(m)), m.latest.x % 0x1_0000,
                              m.latest.y % 0x1_0000, m.latest.z % 0x1_0000;
      var dx, dy, dz := (m.latest.x - m.base.x) % 256, (m.latest.y - m.base.y) % 256, (m.latest.z - m.base.z) % 256;
      var r := PositionSync.RecordOf(m);
      && (r.Absolute? ==>
            b == [8, m.id, x / 256, x % 256, y / 256, y % 256, z / 256, z % 256, m.latest.yaw, m.latest.pitch])
      && (r.Relative? ==> b == [9, m.id, dx, dy, dz, m.latest.yaw, m.latest.pitch])
      && (r.Coordinate? ==> b == [10, m.id, dx, dy, dz])
      && (r.Orientation? ==> b == [11, m.id, m.latest.yaw, m.latest.pitch])
      && (r.Nothing? ==> b == [])
  {
    LowByteOfDifference(m.latest.x, m.base.x);
    LowByteOfDifference(m.latest.y, m.base.y);
    LowByteOfDifference(m.latest.z, m.base.z);
  }

  lemma LowByteOfDifference(i: PositionSync.Int16, j: PositionSync.Int16)
    ensures PositionSync.LowByte(PositionSync.Wrap16(i - j)) == (i - j) % 256
  {
  }

  // ----- The client cuts the server's streams where the server glued them.

  ghost predicate ArePackets(packets: seq<seq<Byte>>) {
    forall p :: p in packets ==> IsPacket(ClientBot.BotPacketSize, p)
  }

  lemma PacketsAreFramed(packets: seq<seq<Byte>>)
    requires ArePackets(packets)
    ensures Frame(ClientBot.BotPacketSize, Concat(packets)) == Framed(packets, [])
  {
    assert Concat(packets) + [] == Concat(packets);
    FramingIsUnique(ClientBot.BotPacketSize, Concat(packets), Framed(packets, []));
  }

  function Records(edits: seq<Edit>): (packets: seq<seq<Byte>>)
    ensures |packets| == |edits| && forall i :: 0 <= i < |edits| ==> packets[i] == RecordBytes(edits[i])
  {
    seq(|edits|, i requires 0 <= i < |edits| => RecordBytes(edits[i]))
  }

  lemma {:induction false} RecordsConcat(edits: seq<Edit>)
    ensures Concat(Records(edits)) == Replication.Encode(edits)
  {
    if edits != [] {
      var init := edits[..|edits| - 1];
      RecordsConcat(init);
      ConcatSnoc(Records(edits));
      assert Records(edits)[..|edits| - 1] == Records(init);
    }
  }

  /** A history is cut into one packet an edit, in order. */
  lemma HistoryIsFramed(edits: seq<Edit>)
    ensures Frame(ClientBot.BotPacketSize, Replication.Encode(edits)) == Framed(Records(edits), [])
  {
    RecordsConcat(edits);
    PacketsAreFramed(Records(edits));
  }

  /** The records of the players that have moved. */
  function MoveRecords(moves: seq<PositionSync.Move>): seq<seq<Byte>> {
    if moves == [] then []
    else
      var bytes := PositionSync.Encode(PositionSync.RecordOf(moves[|moves| - 1]));
      MoveRecords(moves[..|moves| - 1]) + if bytes == [] then [] else [bytes]
  }

  lemma RecordIsPacket(r: PositionSync.Record)
    ensures PositionSync.Encode(r) == [] || IsPacket(ClientBot.BotPacketSize, PositionSync.Encode(r))
  {
  }

  lemma ConcatOne(packets: seq<seq<Byte>>, p: seq<Byte>)
    requires ArePackets(packets) && (p == [] || IsPacket(ClientBot.BotPacketSize, p))
    ensures var all := packets + (if p == [] then [] else [p]);
      Concat(all) == Concat(packets) + p && ArePackets(all)
  {
    if p == [] {
      assert packets + [] == packets && Concat(packets) + p == Concat(packets);
    } else {
      ConcatAppend(packets, p);
    }
  }

  lemma {:induction false} MoveRecordsConcat(moves: seq<PositionSync.Move>)
    ensures Concat(MoveRecords(moves)) == PositionSync.EncodeAll(moves) && ArePackets(MoveRecords(moves))
  {
    if moves != [] {
      var r := PositionSync.RecordOf(moves[|moves| - 1]);
      MoveRecordsConcat(moves[..|moves| - 1]);
      RecordIsPacket(r);
      ConcatOne(MoveRecords(moves[..|moves| - 1]), PositionSync.Encode(r));
    }
  }

  /** The positions are cut into one packet for each player that has moved. */
  lemma PositionsAreFramed(moves: seq<PositionSync.Move>)
    ensures Frame(ClientBot.BotPacketSize, PositionSync.EncodeAll(moves)) == Framed(MoveRecords(moves), [])
  {
    MoveRecordsConcat(moves);
    PacketsAreFramed(MoveRecords(moves));
  }

  function ChunkPackets(b: seq<Byte>): seq<seq<Byte>>
    decreases |b|
  {
    if |b| < 1028 then [] else [b[..1028]] + ChunkPackets(b[1028..])
  }

  lemma {:induction false} ChunksConcat(b: seq<Byte>, stream: seq<Byte>)
    requires LevelChunk.IsChunked(b, stream)
    ensures Concat(ChunkPackets(b)) == b && ArePackets(ChunkPackets(b))
    decreases |stream|
  {
    if stream != [] {
      var n := LevelChunk.Min(|stream|, LevelChunk.CHUNK_SIZE);
      ChunksConcat(b[1028..], stream[n..]);
      assert ChunkPackets(b)[1..] == ChunkPackets(b[1028..]);
    }
  }

  lemma {:induction false} ConcatAppend(a: seq<seq<Byte>>, p: seq<Byte>)
    ensures Concat(a + [p]) == Concat(a) + p
  {
    ConcatSnoc(a + [p]);
    assert (a + [p])[..|a|] == a;
  }

  /** A level is cut into its chunks and the finalize packet, whatever the padding holds. */
  lemma LevelIsFramed(b: seq<Byte>, stream: seq<Byte>, width: Short, height: Short, length: Short)
    requires LevelChunk.IsChunked(b, stream)
    ensures var finalize := LevelChunk.Finalize(width, height, length);
      && Frame(ClientBot.BotPacketSize, b + finalize) == Framed(ChunkPackets(b) + [finalize], [])
      && |ChunkPackets(b)| == (|stream| + 1023) / 1024
  {
    var finalize := LevelChunk.Finalize(width, height, length);
    ChunksConcat(b, stream);
    ConcatAppend(ChunkPackets(b), finalize);
    PacketsAreFramed(ChunkPackets(b) + [finalize]);
    ChunkPacketCount(b, stream);
  }

  lemma {:induction false} ChunkPacketCount(b: seq<Byte>, stream: seq<Byte>)
    requires LevelChunk.IsChunked(b, stream)
    ensures |ChunkPackets(b)| == (|stream| + 1023) / 1024
    decreases |stream|
  {
    if stream != [] {
      var n := LevelChunk.Min(|stream|, LevelChunk.CHUNK_SIZE);
      ChunkPacketCount(b[1028..], stream[n..]);
    }
  }
}
