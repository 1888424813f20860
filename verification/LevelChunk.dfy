/**
Serializing the compressed level into data chunks and a finalize record
(mmocraft/net/packet.cpp:206-237, 398-405), against the decoder a client runs. deflate is a fixed byte
stream no longer than deflateBound; each call writes as much of the rest as fits.
*/
module LevelChunk {
  import opened Wrappers
  import opened Bytes

  const LEVEL_DATACHUNK: Byte := 3
  const LEVEL_FINALIZE: Byte := 4
  const CHUNK_SIZE: nat := 1024
  const PACKET_SIZE: nat := 1028
  const FINALIZE_SIZE: nat := 7

  // ----- The client's decoder.

  datatype Level = Level(stream: seq<Byte>, width: Short, height: Short, length: Short)

  /** Data chunks, of which only the first length bytes count, up to a finalize record that ends the data. */
  function Decode(b: seq<Byte>): Option<Level>
    decreases |b|
  {
    if |b| >= PACKET_SIZE && b[0] == LEVEL_DATACHUNK then
      var length := ReadShort(b[1], b[2]);
      if length > CHUNK_SIZE then None
      else match Decode(b[PACKET_SIZE..])
        case None => None
        case Some(rest) => Some(rest.(stream := b[3..3 + length] + rest.stream))
    else if |b| == FINALIZE_SIZE && b[0] == LEVEL_FINALIZE then
      Some(Level([], ReadShort(b[1], b[2]), ReadShort(b[3], b[4]), ReadShort(b[5], b[6])))
    else None
  }

  // ----- What the chunks of a stream look like.

  function Min(a: nat, b: nat): nat {
    if a < b then a else b
  }

  function ChunkCount(n: nat): nat {
    (n + CHUNK_SIZE - 1) / CHUNK_SIZE
  }

  /** One chunk packet carrying a part of the stream; the bytes behind the part are not constrained. */
  ghost predicate IsChunk(c: seq<Byte>, part: seq<Byte>) {
    && |c| == PACKET_SIZE && 0 < |part| <= CHUNK_SIZE
    && c[0] == LEVEL_DATACHUNK && ReadShort(c[1], c[2]) == |part| && c[3..3 + |part|] == part && c[PACKET_SIZE - 1] == 0
  }

  /** Full chunks, and a last one with the rest. */
  ghost predicate IsChunked(b: seq<Byte>, stream: seq<Byte>)
    decreases |stream|
  {
    if stream == [] then b == []
    else
      var n := Min(|stream|, CHUNK_SIZE);
      |b| >= PACKET_SIZE && IsChunk(b[..PACKET_SIZE], stream[..n]) && IsChunked(b[PACKET_SIZE..], stream[n..])
  }

  lemma {:induction false} ChunkedSize(b: seq<Byte>, stream: seq<Byte>)
    requires IsChunked(b, stream)
    ensures |b| == ChunkCount(|stream|) * PACKET_SIZE
    decreases |stream|
  {
    if stream == [] {
    } else {
      var n := Min(|stream|, CHUNK_SIZE);
      ChunkedSize(b[PACKET_SIZE..], stream[n..]);
    }
  }

  lemma {:induction false} ChunkedSnoc(n: nat, b: seq<Byte>, stream: seq<Byte>, c: seq<Byte>, part: seq<Byte>)
    requires IsChunked(b, stream) && |stream| == n * CHUNK_SIZE && IsChunk(c, part)
    ensures IsChunked(b + c, stream + part)
    decreases |stream|
  {
    if stream == [] {
      assert b + c == c && stream + part == part;
      assert c[..PACKET_SIZE] == c && part[..|part|] == part;
      assert IsChunked(c[PACKET_SIZE..], part[|part|..]);
    } else {
      ChunkedSnoc(n - 1, b[PACKET_SIZE..], stream[CHUNK_SIZE..], c, part);
      assert (b + c)[..PACKET_SIZE] == b[..PACKET_SIZE] && (b + c)[PACKET_SIZE..] == b[PACKET_SIZE..] + c;
      assert (stream + part)[..CHUNK_SIZE] == stream[..CHUNK_SIZE]
          && (stream + part)[CHUNK_SIZE..] == stream[CHUNK_SIZE..] + part;
    }
  }

  function Finalize(width: Short, height: Short, length: Short): seq<Byte> {
    [LEVEL_FINALIZE] + ShortBytes(width) + ShortBytes(height) + ShortBytes(length)
  }

  /** A chunk packet in front adds its part to what is decoded. */
  lemma DecodeChunk(c: seq<Byte>, part: seq<Byte>, rest: seq<Byte>)
    requires IsChunk(c, part) && Decode(rest).Some?
    ensures Decode(c + rest) == Some(Decode(rest).value.(stream := part + Decode(rest).value.stream))
  {
    assert (c + rest)[PACKET_SIZE..] == rest;
    SliceOfConcat(c, rest, 3, 3 + |part|);
    assert (c + rest)[0] == c[0] && (c + rest)[1] == c[1] && (c + rest)[2] == c[2];
  }

  lemma {:induction false} ChunksInFront(b: seq<Byte>, stream: seq<Byte>, f: seq<Byte>)
    requires IsChunked(b, stream) && Decode(f).Some? && Decode(f).value.stream == []
    ensures Decode(b + f) == Some(Decode(f).value.(stream := stream))
    decreases |stream|
  {
    if stream == [] {
      assert b + f == f;
    } else {
      var n := Min(|stream|, CHUNK_SIZE);
      ChunksInFront(b[PACKET_SIZE..], stream[n..], f);
      DecodeChunk(b[..PACKET_SIZE], stream[..n], b[PACKET_SIZE..] + f);
      SplitConcat(b, f, PACKET_SIZE);
      SplitConcat(stream, [], n);
    }
  }

  /** The decoder gives back the stream from any chunks of it, whatever their padding holds. */
  lemma ChunksDecode(b: seq<Byte>, stream: seq<Byte>, width: Short, height: Short, length: Short)
    requires IsChunked(b, stream)
    ensures Decode(b + Finalize(width, height, length)) == Some(Level(stream, width, height, length))
  {
    ChunksInFront(b, stream, Finalize(width, height, length));
  }

  // ----- The code.

  /** n bytes of the stream stand in the buffer. */
  ghost predicate Landed(data: array<Byte>, at: nat, stream: seq<Byte>, done: nat, n: nat)
    reads data
  {
    n > 0 ==> at + n <= data.Length && done + n <= |stream| && data[at..at + n] == stream[done..done + n]
  }

  /** deflate_n: returns the space left over. */
  method DeflateN(stream: seq<Byte>, done: nat, dest: array<Byte>, at: nat, avail: nat, ghost keep: nat)
      returns (remain: nat)
    requires done <= |stream| && keep <= at && keep <= dest.Length
    requires at + Min(avail, |stream| - done) <= dest.Length || done == |stream|
    modifies dest
    ensures remain == avail - Min(avail, |stream| - done)
    ensures Landed(dest, at, stream, done, avail - remain)
    ensures dest[..keep] == old(dest[..keep])
  {
    var n := Min(avail, |stream| - done);
    if n > 0 {
      forall k | 0 <= k < n {
        dest[at + k] := stream[done + k];
      }
    }
    remain := avail - n;
  }

  method WriteShort(dest: array<Byte>, at: nat, value: Short)
    requires at + 2 <= dest.Length
    modifies dest
    ensures dest[at] == ShortBytes(value)[0] && dest[at + 1] == ShortBytes(value)[1]
    ensures forall k :: 0 <= k < dest.Length && !(at <= k < at + 2) ==> dest[k] == old(dest[k])
  {
    dest[at] := value / 0x100;
    dest[at + 1] := value % 0x100;
  }

  /** The header and the percentage around chunk data that deflate already wrote. */
  method WriteChunkFrame(data: array<Byte>, pos: nat, length: Short, ghost part: seq<Byte>)
    requires pos + PACKET_SIZE <= data.Length && 0 < length == |part| <= CHUNK_SIZE
    requires data[pos + 3..pos + 3 + length] == part
    modifies data
    ensures data[..pos] == old(data[..pos])
    ensures IsChunk(data[pos..pos + PACKET_SIZE], part)
  {
    data[pos] := LEVEL_DATACHUNK;
    WriteShort(data, pos + 1, length);
    data[pos + PACKET_SIZE - 1] := 0;
    ShortRoundTrip(length);
    ghost var c := data[pos..pos + PACKET_SIZE];
    assert data[pos + 3..pos + 3 + length] == part;
    SliceOfSlice(data[..], pos, pos + PACKET_SIZE, 3, 3 + length);
  }

  /** Frames the chunk behind pos; the chunks up to there then carry one part more of the stream. */
  method EmitChunk(data: array<Byte>, pos: nat, length: Short, ghost stream: seq<Byte>, ghost done: nat,
                   ghost n: nat, ghost chunks: seq<Byte>, ghost sent: seq<Byte>)
    returns (ghost chunks': seq<Byte>, ghost sent': seq<Byte>)
    requires pos + PACKET_SIZE <= data.Length && 0 < length <= CHUNK_SIZE && done + length <= |stream|
    requires done == n * CHUNK_SIZE && chunks == data[..pos] && sent == stream[..done] && IsChunked(chunks, sent)
    requires Landed(data, pos + 3, stream, done, length)
    modifies data
    ensures chunks' == data[..pos + PACKET_SIZE] && sent' == stream[..done + length] && IsChunked(chunks', sent')
  {
    ghost var part := stream[done..done + length];
    WriteChunkFrame(data, pos, length, part);
    ghost var chunk := data[pos..pos + PACKET_SIZE];
    ChunkedSnoc(n, chunks, sent, chunk, part);
    chunks', sent' := chunks + chunk, sent + part;
    assert data[..pos] == chunks;
    assert data[..pos + PACKET_SIZE] == data[..pos] + chunk;
    assert stream[..done + length] == stream[..done] + part;
  }

  method WriteFinalize(data: array<Byte>, pos: nat, width: Short, height: Short, length: Short)
    requires pos + FINALIZE_SIZE <= data.Length
    modifies data
    ensures data[..pos] == old(data[..pos])
    ensures data[pos..pos + FINALIZE_SIZE] == Finalize(width, height, length)
  {
    data[pos] := LEVEL_FINALIZE;
    WriteShort(data, pos + 1, width);
    WriteShort(data, pos + 3, height);
    WriteShort(data, pos + 5, length);
    ghost var record, f := data[pos..pos + FINALIZE_SIZE], Finalize(width, height, length);
    assert record[0] == data[pos] == f[0];
    assert record[1] == data[pos + 1] == f[1] && record[2] == data[pos + 2] == f[2];
    assert record[3] == data[pos + 3] == f[3] && record[4] == data[pos + 4] == f[4];
    assert record[5] == data[pos + 5] == f[5] && record[6] == data[pos + 6] == f[6];
  }

  /** n chunks are out, and done bytes of the stream: all of them, or n chunks full. */
  ghost predicate Progress(n: nat, pos: nat, done: nat, size: nat, maxChunkCount: nat) {
    && pos == n * PACKET_SIZE && n <= maxChunkCount
    && done <= size <= maxChunkCount * CHUNK_SIZE && (done < size ==> done == n * CHUNK_SIZE)
  }

  /** While bytes remain there is room for one more chunk and the finalize record. */
  lemma AnotherChunkFits(n: nat, pos: nat, done: nat, size: nat, maxChunkCount: nat)
    requires Progress(n, pos, done, size, maxChunkCount) && done < size
    ensures pos + PACKET_SIZE <= maxChunkCount * PACKET_SIZE
    ensures Progress(n + 1, pos + PACKET_SIZE, done + Min(CHUNK_SIZE, size - done), size, maxChunkCount)
  {
  }

  /** deflate has written its next part behind the chunks so far, and reported the space it left. */
  ghost predicate Deflated(data: array<Byte>, pos: nat, stream: seq<Byte>, done: nat, remain: nat)
    reads data
  {
    && done <= |stream| && remain == CHUNK_SIZE - Min(CHUNK_SIZE, |stream| - done)
    && Landed(data, pos + 3, stream, done, CHUNK_SIZE - remain)
  }

  ghost predicate Emitted(data: array<Byte>, pos: nat, stream: seq<Byte>, done: nat, chunks: seq<Byte>, sent: seq<Byte>)
    reads data
  {
    pos <= data.Length && done <= |stream| && chunks == data[..pos] && sent == stream[..done] && IsChunked(chunks, sent)
  }

  lemma NothingLeft(data: array<Byte>, pos: nat, stream: seq<Byte>, done: nat, chunks: seq<Byte>, sent: seq<Byte>)
    requires Deflated(data, pos, stream, done, CHUNK_SIZE) && Emitted(data, pos, stream, done, chunks, sent)
    ensures IsChunked(data[..pos], stream)
  {
    assert done == |stream| && stream[..done] == stream;
  }

  /** What the lengths say about one turn of the loop. */
  lemma NextChunkFits(n: nat, pos: nat, done: nat, length: nat, size: nat, maxChunkCount: nat)
    requires Progress(n, pos, done, size, maxChunkCount) && done < size && length == Min(CHUNK_SIZE, size - done)
    ensures 0 < length <= CHUNK_SIZE && done + length <= size && done == n * CHUNK_SIZE
    ensures pos + PACKET_SIZE <= maxChunkCount * PACKET_SIZE
    ensures Progress(n + 1, pos + PACKET_SIZE, done + length, size, maxChunkCount)
    ensures done + length < size ==> pos + 2 * PACKET_SIZE <= maxChunkCount * PACKET_SIZE
  {
    AnotherChunkFits(n, pos, done, size, maxChunkCount);
    if done + length < size {
      AnotherChunkFits(n + 1, pos + PACKET_SIZE, done + length, size, maxChunkCount);
    }
  }

  /** One turn of the deflate loop. */
  method NextChunk(data: array<Byte>, stream: seq<Byte>, ghost maxChunkCount: nat, pos: nat, done: nat, remain: nat,
                   ghost n: nat, ghost chunks: seq<Byte>, ghost sent: seq<Byte>)
    returns (remain': nat, ghost chunks': seq<Byte>, ghost sent': seq<Byte>)
    requires remain != CHUNK_SIZE
    requires data.Length == maxChunkCount * PACKET_SIZE + FINALIZE_SIZE
    requires Progress(n, pos, done, |stream|, maxChunkCount) && Deflated(data, pos, stream, done, remain)
    requires Emitted(data, pos, stream, done, chunks, sent)
    modifies data
    ensures remain <= CHUNK_SIZE && done + (CHUNK_SIZE - remain) <= |stream|
    ensures Progress(n + 1, pos + PACKET_SIZE, done + (CHUNK_SIZE - remain), |stream|, maxChunkCount)
    ensures pos + PACKET_SIZE + FINALIZE_SIZE <= data.Length
    ensures Deflated(data, pos + PACKET_SIZE, stream, done + (CHUNK_SIZE - remain), remain')
    ensures Emitted(data, pos + PACKET_SIZE, stream, done + (CHUNK_SIZE - remain), chunks', sent')
  {
    var length := CHUNK_SIZE - remain;
    NextChunkFits(n, pos, done, length, |stream|, maxChunkCount);
    chunks', sent' := EmitChunk(data, pos, length, stream, done, n, chunks, sent);
    remain' := DeflateN(stream, done + length, data, pos + PACKET_SIZE + 3, CHUNK_SIZE, pos + PACKET_SIZE);
  }

  lemma NothingYet(data: array<Byte>, stream: seq<Byte>, maxChunkCount: nat)
    requires |stream| <= maxChunkCount * CHUNK_SIZE
    ensures Progress(0, 0, 0, |stream|, maxChunkCount) && Emitted(data, 0, stream, 0, [], [])
  {
  }

  /** The deflate loop. It ends, stays inside the buffer and leaves room for the finalize record. */
  method WriteChunks(data: array<Byte>, stream: seq<Byte>, ghost maxChunkCount: nat) returns (pos: nat)
    requires |stream| <= maxChunkCount * CHUNK_SIZE && data.Length == maxChunkCount * PACKET_SIZE + FINALIZE_SIZE
    modifies data
    ensures pos + FINALIZE_SIZE <= data.Length && IsChunked(data[..pos], stream)
  {
    pos := 0;
    var done := 0;
    ghost var n := 0;
    ghost var chunks: seq<Byte>, sent: seq<Byte> := [], [];
    var remain := DeflateN(stream, done, data, pos + 3, CHUNK_SIZE, pos);
    NothingYet(data, stream, maxChunkCount);
    while remain != CHUNK_SIZE
      invariant Progress(n, pos, done, |stream|, maxChunkCount) && pos + FINALIZE_SIZE <= data.Length
      invariant Deflated(data, pos, stream, done, remain)
      invariant Emitted(data, pos, stream, done, chunks, sent)
      decreases |stream| - done
    {
      var length := CHUNK_SIZE - remain;
      remain, chunks, sent := NextChunk(data, stream, maxChunkCount, pos, done, remain, n, chunks, sent);
      pos := pos + PACKET_SIZE;
      done := done + length;
      n := n + 1;
    }
    NothingLeft(data, pos, stream, done, chunks, sent);
    // The code now clears the padding, but the loop only ends with remain == CHUNK_SIZE, for which it clears nothing.
  }

  /**
  For every stream within the bound there is one chunk per 1024 bytes begun, all inside the allocated buffer,
  and the client decodes the stream and the dimensions from the result. The buffer is not initialized, and the
  padding of the last chunk stays so.
  */
  method Serialize(stream: seq<Byte>, deflateBound: nat, width: Short, height: Short, length: Short)
    returns (data: array<Byte>, size: nat)
    requires |stream| <= deflateBound && deflateBound > 0
    ensures fresh(data) && size == ChunkCount(|stream|) * PACKET_SIZE + FINALIZE_SIZE
    ensures size <= data.Length == ((deflateBound - 1) / CHUNK_SIZE + 1) * PACKET_SIZE + FINALIZE_SIZE
    ensures Decode(data[..size]) == Some(Level(stream, width, height, length))
  {
    var maxChunkCount := (deflateBound - 1) / CHUNK_SIZE + 1;
    data := new Byte[maxChunkCount * PACKET_SIZE + FINALIZE_SIZE];
    var pos := WriteChunks(data, stream, maxChunkCount);
    ghost var chunks := data[..pos];
    WriteFinalize(data, pos, width, height, length);
    size := pos + FINALIZE_SIZE;
    assert data[..size] == chunks + data[pos..size];
    ChunkedSize(chunks, stream);
    ChunksDecode(chunks, stream, width, height, length);
  }
}
