/**
Block edits on their way to the sync task: the packed record (mmocraft/game/history_buffer.h,
mmocraft/game/history_buffer.cpp), the double buffer used one call at a time
(mmocraft/util/double_buffering.h), and the sync task that swaps queues and buffers
(mmocraft/game/world_task.h:59-107, mmocraft/io/task.h:30-41).
*/
module BlockHistory {
  import opened Bytes

  const SET_BLOCK_SERVER: Byte := 6
  const UNIT: nat := 8
  const BLOCK_HISTORY_CAPACITY: nat := 8192

  // ----- Records.

  datatype Edit = Edit(x: Short, y: Short, z: Short, id: Byte)

  function ByteSwap(s: Short): (r: Short)
    ensures r % 0x100 == s / 0x100 && r / 0x100 == s % 0x100
  {
    (s % 0x100) * 0x100 + s / 0x100
  }

  /** How the machine stores and loads a 16-bit field. */
  function StoreLittleEndian(s: Short): seq<Byte> {
    [s % 0x100, s / 0x100]
  }

  function LoadLittleEndian(first: Byte, second: Byte): (r: Short)
    ensures r % 0x100 == first && r / 0x100 == second
  {
    first + 0x100 * second
  }

  /** The bytes of a packed BlockHistoryRecord. */
  function RecordBytes(e: Edit): (r: seq<Byte>)
    ensures |r| == UNIT
  {
    [SET_BLOCK_SERVER] + StoreLittleEndian(ByteSwap(e.x)) + StoreLittleEndian(ByteSwap(e.y))
        + StoreLittleEndian(ByteSwap(e.z)) + [e.id]
  }

  function RecordCount(data: seq<Byte>): nat {
    |data| / UNIT
  }

  function RecordAt(data: seq<Byte>, i: nat): (r: seq<Byte>)
    requires i < RecordCount(data)
    ensures |r| == UNIT
  {
    data[i * UNIT..i * UNIT + UNIT]
  }

  /** get_record, with the byte swap of coordinate_to_block_map_index: what the server reads. */
  function ServerRecord(data: seq<Byte>, i: nat): Edit
    requires i < RecordCount(data)
  {
    ServerRead(RecordAt(data, i))
  }

  function ServerRead(r: seq<Byte>): Edit
    requires |r| == UNIT
  {
    Edit(ByteSwap(LoadLittleEndian(r[1], r[2])), ByteSwap(LoadLittleEndian(r[3], r[4])),
        ByteSwap(LoadLittleEndian(r[5], r[6])), r[7])
  }

  /** What the server reads, record by record. */
  function ServerRecords(data: seq<Byte>): (r: seq<Edit>)
    ensures |r| == RecordCount(data)
    ensures forall i :: 0 <= i < |r| ==> r[i] == ServerRecord(data, i)
  {
    seq(RecordCount(data), i requires 0 <= i < RecordCount(data) => ServerRecord(data, i))
  }

  /** The same bytes as a client reads them off the wire: a set-block packet with big-endian coordinates. */
  function ClientRecord(data: seq<Byte>, i: nat): Edit
    requires i < RecordCount(data)
  {
    var r := RecordAt(data, i);
    Edit(ReadShort(r[1], r[2]), ReadShort(r[3], r[4]), ReadShort(r[5], r[6]), r[7])
  }

  function ClientRecords(data: seq<Byte>): (r: seq<Edit>)
    ensures |r| == RecordCount(data)
    ensures forall i :: 0 <= i < |r| ==> r[i] == ClientRecord(data, i)
  {
    seq(RecordCount(data), i requires 0 <= i < RecordCount(data) => ClientRecord(data, i))
  }

  /** For any bytes at all, server and client read the same edits. */
  lemma ServerAndClientReadAlike(data: seq<Byte>)
    ensures ServerRecords(data) == ClientRecords(data)
  {
    forall i | 0 <= i < RecordCount(data) ensures ServerRecord(data, i) == ClientRecord(data, i) {
    }
  }

  ghost predicate WholeRecords(data: seq<Byte>) {
    |data| % UNIT == 0
  }

  lemma RecordRoundTrip(e: Edit)
    ensures ServerRead(RecordBytes(e)) == e
  {
    assert ByteSwap(ByteSwap(e.x)) == e.x && ByteSwap(ByteSwap(e.y)) == e.y && ByteSwap(ByteSwap(e.z)) == e.z;
  }

  /** Appending a record adds exactly that edit at the end. */
  lemma AppendedRecord(data: seq<Byte>, e: Edit)
    requires WholeRecords(data)
    ensures var data' := data + RecordBytes(e);
      && WholeRecords(data') && RecordCount(data') == RecordCount(data) + 1
      && ServerRecord(data', RecordCount(data)) == e
      && (forall i :: 0 <= i < RecordCount(data) ==> ServerRecord(data', i) == ServerRecord(data, i))
      && ServerRecords(data') == ServerRecords(data) + [e]
  {
    var data', n := data + RecordBytes(e), RecordCount(data);
    RecordRoundTrip(e);
    assert RecordAt(data', n) == RecordBytes(e);
    forall i | 0 <= i < n ensures ServerRecord(data', i) == ServerRecord(data, i) {
      assert RecordAt(data', i) == RecordAt(data, i);
    }
  }

  // ----- The sync task: its state and its transitions.

  type PlayerId = nat

  /** snapshot is the output buffer; waiting the swapped-out queue of players who want the level. */
  datatype Task = Task(processing: bool, live: seq<Byte>, snapshot: seq<Byte>, queue: seq<PlayerId>,
      waiting: seq<PlayerId>)

  const NEW_TASK: Task := Task(false, [], [], [], [])

  predicate AcceptsEdit(t: Task) {
    |t.live| + UNIT <= BLOCK_HISTORY_CAPACITY
  }

  function EditPushed(t: Task, e: Edit): Task {
    if AcceptsEdit(t) then t.(live := t.live + RecordBytes(e)) else t
  }

  function PlayerPushed(t: Task, p: PlayerId): Task {
    t.(queue := t.queue + [p])
  }

  /** ready(), apart from the cooldown. */
  predicate Ready(t: Task) {
    !t.processing && (|t.live| > 0 || t.queue != [])
  }

  /** before_scheduling: both pairs are swapped, not copied. */
  function Scheduled(t: Task): Task {
    Task(true, t.snapshot, t.live, t.waiting, t.queue)
  }

  /** The end of on_event_complete. */
  function Completed(t: Task): Task {
    t.(processing := false, snapshot := [], waiting := [])
  }

  /** While unused, the sync task has an empty output side; so the swap hands out empty containers. */
  ghost predicate TaskValid(t: Task) {
    && (!t.processing ==> t.snapshot == [] && t.waiting == [])
    && WholeRecords(t.live) && WholeRecords(t.snapshot)
    && |t.live| <= BLOCK_HISTORY_CAPACITY && |t.snapshot| <= BLOCK_HISTORY_CAPACITY
  }

  // ----- The code.

  class Buffer {
    const buf: array<Byte>
    var size: nat

    ghost predicate Valid()
      reads this
    {
      size <= buf.Length
    }

    ghost function Contents(): seq<Byte>
      requires Valid()
      reads this, buf
    {
      buf[..size]
    }

    constructor (capacity: nat)
      ensures Valid() && fresh(buf) && buf.Length == capacity && Contents() == []
    {
      buf := new Byte[capacity];
      size := 0;
    }

    method Push(bytes: seq<Byte>) returns (ok: bool)
      requires Valid()
      modifies this, buf
      ensures Valid() && (ok <==> old(size) + |bytes| <= buf.Length)
      ensures Contents() == if ok then old(Contents()) + bytes else old(Contents())
    {
      var beforeSize := size;
      size := size + |bytes|;
      if beforeSize + |bytes| > buf.Length {
        size := size - |bytes|;
        return false;
      }
      forall i | 0 <= i < |bytes| {
        buf[beforeSize + i] := bytes[i];
      }
      ok := true;
    }

    method Clear()
      modifies this`size
      ensures Valid() && size == 0
    {
      size := 0;
    }
  }

  class BlockSyncTask {
    const first: Buffer
    const second: Buffer
    const intervalMs: nat
    var cooldownAt: nat
    var inputIndex: int
    var processing: bool
    var levelWaitPlayers: seq<PlayerId>
    var levelWaitPlayerQueue: seq<PlayerId>

    ghost predicate Valid()
      reads this, first, second
    {
      && first.Valid() && second.Valid() && first.buf != second.buf && first != second
      && first.buf.Length == second.buf.Length == BLOCK_HISTORY_CAPACITY
      && (inputIndex == 0 || inputIndex == 1)
    }

    function Input(): Buffer
      reads this
    {
      if inputIndex == 0 then first else second
    }

    function Output(): Buffer
      reads this
    {
      if inputIndex == 0 then second else first
    }

    ghost function View(): Task
      requires Valid()
      reads this, first, second, first.buf, second.buf
    {
      Task(processing, Input().Contents(), Output().Contents(), levelWaitPlayerQueue, levelWaitPlayers)
    }

    constructor (interval: nat)
      ensures Valid() && View() == NEW_TASK && TaskValid(View()) && intervalMs == interval && cooldownAt == 0
      ensures fresh(first) && fresh(second) && fresh(first.buf) && fresh(second.buf)
    {
      first := new Buffer(BLOCK_HISTORY_CAPACITY);
      second := new Buffer(BLOCK_HISTORY_CAPACITY);
      inputIndex := 0;
      processing := false;
      intervalMs, cooldownAt := interval, 0;
      levelWaitPlayers, levelWaitPlayerQueue := [], [];
    }

    method PushEdit(e: Edit) returns (ok: bool)
      requires Valid()
      modifies first, second, first.buf, second.buf
      ensures Valid() && View() == EditPushed(old(View()), e) && (ok <==> AcceptsEdit(old(View())))
    {
      ok := Input().Push(RecordBytes(e));
    }

    method PushPlayer(p: PlayerId)
      requires Valid()
      modifies this`levelWaitPlayerQueue
      ensures Valid() && View() == PlayerPushed(old(View()), p)
    {
      levelWaitPlayerQueue := levelWaitPlayerQueue + [p];
    }

    /** now is the monotonic tick. */
    method IsReady(now: nat) returns (ready: bool)
      requires Valid()
      ensures ready <==> cooldownAt < now && Ready(View())
      ensures ready <==> !processing && cooldownAt < now
                         && (|Input().Contents()| > 0 || |levelWaitPlayerQueue| > 0)
    {
      ready := !processing && cooldownAt < now && (Input().size > 0 || levelWaitPlayerQueue != []);
    }

    method BeforeScheduling(now: nat)
      requires Valid()
      modifies this
      ensures Valid() && View() == Scheduled(old(View())) && cooldownAt == now + intervalMs
    {
      levelWaitPlayerQueue, levelWaitPlayers := levelWaitPlayers, levelWaitPlayerQueue;
      inputIndex := 1 - inputIndex;
      processing := true;
      cooldownAt := intervalMs + now;
    }

    /** What follows the handler's return. */
    method FinishEventComplete()
      requires Valid()
      modifies this`levelWaitPlayers, this`processing, first, second
      ensures Valid() && View() == Completed(old(View()))
    {
      levelWaitPlayers := [];
      Output().Clear();
      processing := false;
    }
  }
}
