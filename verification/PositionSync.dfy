/**
Delta-encoded player positions: the packed position and its difference (mmocraft/game/player.h:105-184,
271-289), the serializer that picks a record per player (mmocraft/net/packet.cpp:268-321), and the position task
that multicasts it and commits the transferred positions (mmocraft/game/world.cpp:190-208).
*/
module PositionSync {
  import opened Wrappers
  import opened Bytes

  const SET_PLAYER_POSITION: Byte := 0x08
  const UPDATE_PLAYER_POSITION: Byte := 0x09
  const UPDATE_PLAYER_COORDINATE: Byte := 0x0A
  const UPDATE_PLAYER_ORIENTATION: Byte := 0x0B
  const PACKET_SIZE: nat := 10

  type Int16 = i: int | -0x8000 <= i < 0x8000

  datatype Position = Position(x: Int16, y: Int16, z: Int16, yaw: Byte, pitch: Byte)

  /** Truncation of an int to 16 bits. */
  function Wrap16(i: int): Int16 {
    (i + 0x8000) % 0x1_0000 - 0x8000
  }

  function Pattern16(i: Int16): Short {
    i % 0x1_0000
  }

  /** The low byte of a 16-bit value. */
  function LowByte(i: Int16): Byte {
    i % 0x100
  }

  function SignedByte(b: Byte): int {
    if b < 0x80 then b else b - 0x100
  }

  function Abs(i: int): nat {
    if i < 0 then -i else i
  }

  /** The union's 64-bit view: x in the lowest bits, pitch in the highest. */
  function Raw(p: Position): nat {
    Pattern16(p.x) + 0x1_0000 * Pattern16(p.y) + 0x1_0000_0000 * Pattern16(p.z)
    + 0x1_0000_0000_0000 * p.yaw + 0x100_0000_0000_0000 * p.pitch
  }

  /** raw & 0x0000FFFFFFFFFFFF. */
  function RawCoordinate(p: Position): nat {
    Raw(p) % 0x1_0000_0000_0000
  }

  /** raw & 0xFFFF000000000000. */
  function RawOrientation(p: Position): nat {
    Raw(p) - Raw(p) % 0x1_0000_0000_0000
  }

  lemma MasksSplitPosition(p: Position)
    ensures RawCoordinate(p) == 0 <==> p.x == 0 && p.y == 0 && p.z == 0
    ensures RawOrientation(p) == 0 <==> p.yaw == 0 && p.pitch == 0
  {
    var low := Pattern16(p.x) + 0x1_0000 * Pattern16(p.y) + 0x1_0000_0000 * Pattern16(p.z);
    LowPart(low, p.yaw + 0x100 * p.pitch);
    assert Raw(p) == low + 0x1_0000_0000_0000 * (p.yaw + 0x100 * p.pitch);
  }

  lemma LowPart(low: nat, high: nat)
    requires low < 0x1_0000_0000_0000
    ensures (low + 0x1_0000_0000_0000 * high) % 0x1_0000_0000_0000 == low
  {
  }

  function Difference(a: Position, b: Position): Position {
    Position(Wrap16(a.x - b.x), Wrap16(a.y - b.y), Wrap16(a.z - b.z), (a.yaw - b.yaw) % 0x100,
        (a.pitch - b.pitch) % 0x100)
  }

  lemma ComponentsOfDifference(a: Position, b: Position)
    ensures var d := Difference(a, b);
      && (d.x == 0 <==> a.x == b.x) && (d.y == 0 <==> a.y == b.y) && (d.z == 0 <==> a.z == b.z)
      && (d.yaw == 0 <==> a.yaw == b.yaw) && (d.pitch == 0 <==> a.pitch == b.pitch)
  {
  }

  lemma DifferenceIsZeroIffEqual(a: Position, b: Position)
    ensures var d := Difference(a, b);
      && (RawCoordinate(d) == 0 <==> a.x == b.x && a.y == b.y && a.z == b.z)
      && (RawOrientation(d) == 0 <==> a.yaw == b.yaw && a.pitch == b.pitch)
  {
    ComponentsOfDifference(a, b);
    MasksSplitPosition(Difference(a, b));
  }

  // ----- Records.

  /** What the serializer reads of one player. */
  datatype Move = Move(id: Byte, latest: Position, base: Position)

  /** A record on the wire; Nothing is not written at all. */
  datatype Record =
    | Absolute(id: Byte, x: Short, y: Short, z: Short, yaw: Byte, pitch: Byte)
    | Relative(id: Byte, dx: Byte, dy: Byte, dz: Byte, yaw: Byte, pitch: Byte)
    | Coordinate(id: Byte, dx: Byte, dy: Byte, dz: Byte)
    | Orientation(id: Byte, yaw: Byte, pitch: Byte)
    | Nothing

  /** The test for an absolute record. It looks at y twice and never at z. */
  predicate IsAbsolute(diff: Position) {
    Abs(diff.x) > 32 || Abs(diff.y) > 32 || Abs(diff.y) > 32
  }

  predicate SameCoordinate(m: Move) {
    m.latest.x == m.base.x && m.latest.y == m.base.y && m.latest.z == m.base.z
  }

  predicate SameOrientation(m: Move) {
    m.latest.yaw == m.base.yaw && m.latest.pitch == m.base.pitch
  }

  /** The record a move calls for. The code tests the masked bits of the difference instead of comparing. */
  function RecordOf(m: Move): Record {
    var diff := Difference(m.latest, m.base);
    if IsAbsolute(diff) then
      Absolute(m.id, Pattern16(m.latest.x), Pattern16(m.latest.y), Pattern16(m.latest.z), m.latest.yaw, m.latest.pitch)
    else if !SameCoordinate(m) && !SameOrientation(m) then
      Relative(m.id, LowByte(diff.x), LowByte(diff.y), LowByte(diff.z), m.latest.yaw, m.latest.pitch)
    else if !SameCoordinate(m) then
      Coordinate(m.id, LowByte(diff.x), LowByte(diff.y), LowByte(diff.z))
    else if !SameOrientation(m) then
      Orientation(m.id, m.latest.yaw, m.latest.pitch)
    else Nothing
  }

  function Encode(r: Record): seq<Byte> {
    match r
    case Absolute(id, x, y, z, yaw, pitch) =>
      [SET_PLAYER_POSITION, id, x / 0x100, x % 0x100, y / 0x100, y % 0x100, z / 0x100, z % 0x100, yaw, pitch]
    case Relative(id, dx, dy, dz, yaw, pitch) => [UPDATE_PLAYER_POSITION, id, dx, dy, dz, yaw, pitch]
    case Coordinate(id, dx, dy, dz) => [UPDATE_PLAYER_COORDINATE, id, dx, dy, dz]
    case Orientation(id, yaw, pitch) => [UPDATE_PLAYER_ORIENTATION, id, yaw, pitch]
    case Nothing => []
  }

  function EncodeAll(moves: seq<Move>): seq<Byte> {
    if moves == [] then [] else EncodeAll(moves[..|moves| - 1]) + Encode(RecordOf(moves[|moves| - 1]))
  }

  // ----- The receiving client.

  type World = map<Byte, Position>

  function Shifted(p: Position, dx: Byte, dy: Byte, dz: Byte): Position {
    p.(x := Wrap16(p.x + SignedByte(dx)), y := Wrap16(p.y + SignedByte(dy)), z := Wrap16(p.z + SignedByte(dz)))
  }

  /** A record applied to the position it is about. */
  function Effect(p: Position, r: Record): Position {
    match r
    case Absolute(_, x, y, z, yaw, pitch) => Position(SignedShort(x), SignedShort(y), SignedShort(z), yaw, pitch)
    case Relative(_, dx, dy, dz, yaw, pitch) => Shifted(p, dx, dy, dz).(yaw := yaw, pitch := pitch)
    case Coordinate(_, dx, dy, dz) => Shifted(p, dx, dy, dz)
    case Orientation(_, yaw, pitch) => p.(yaw := yaw, pitch := pitch)
    case Nothing => p
  }

  /** Players the client does not know are skipped. */
  function Update(world: World, r: Record): World {
    if r.Nothing? || r.id !in world then world else world[r.id := Effect(world[r.id], r)]
  }

  /** The record at the front of the bytes. */
  function DecodeFirst(b: seq<Byte>): Option<Record> {
    if |b| >= 10 && b[0] == SET_PLAYER_POSITION then
      Some(Absolute(b[1], ReadShort(b[2], b[3]), ReadShort(b[4], b[5]), ReadShort(b[6], b[7]), b[8], b[9]))
    else if |b| >= 7 && b[0] == UPDATE_PLAYER_POSITION then Some(Relative(b[1], b[2], b[3], b[4], b[5], b[6]))
    else if |b| >= 5 && b[0] == UPDATE_PLAYER_COORDINATE then Some(Coordinate(b[1], b[2], b[3], b[4]))
    else if |b| >= 4 && b[0] == UPDATE_PLAYER_ORIENTATION then Some(Orientation(b[1], b[2], b[3]))
    else None
  }

  /** Reads record after record. */
  function Receive(world: World, b: seq<Byte>): Option<World>
    decreases |b|
  {
    if b == [] then Some(world)
    else match DecodeFirst(b)
      case None => None
      case Some(r) => Receive(Update(world, r), b[|Encode(r)|..])
  }

  // ----- One record, exactly.

  /** The z step survives the truncation to a signed byte. */
  predicate StepFits(m: Move) {
    var diff := Difference(m.latest, m.base);
    IsAbsolute(diff) || -0x80 <= diff.z < 0x80
  }

  lemma RecordOfSamePosition(m: Move)
    ensures RecordOf(m) == Nothing <==> m.latest == m.base
    ensures RecordOf(m) != Nothing ==> RecordOf(m).id == m.id
  {
    assert Difference(m.latest, m.latest) == Position(0, 0, 0, 0, 0);
  }

  /**
  Adding back the low byte of a 16-bit difference gives the target exactly when the difference fits a signed byte.
  */
  lemma StepRoundTrip(to: Int16, from: Int16)
    ensures Wrap16(from + SignedByte(LowByte(Wrap16(to - from)))) == to <==> -0x80 <= Wrap16(to - from) < 0x80
  {
  }

  /** An absolute record brings any receiver to the latest position, wherever it was. */
  lemma AbsoluteRecordResynchronizes(m: Move, p: Position)
    requires IsAbsolute(Difference(m.latest, m.base))
    ensures Effect(p, RecordOf(m)) == m.latest
  {
  }

  /** The coordinates of a relative record, applied to the base. */
  lemma ShiftTracksIffStepFits(m: Move)
    requires !IsAbsolute(Difference(m.latest, m.base))
    ensures var diff := Difference(m.latest, m.base);
      var p := Shifted(m.base, LowByte(diff.x), LowByte(diff.y), LowByte(diff.z));
      && p.x == m.latest.x && p.y == m.latest.y && p.yaw == m.base.yaw && p.pitch == m.base.pitch
      && (p.z == m.latest.z <==> StepFits(m))
  {
    StepRoundTrip(m.latest.x, m.base.x);
    StepRoundTrip(m.latest.y, m.base.y);
    StepRoundTrip(m.latest.z, m.base.z);
  }

  /** A receiver that holds the base position holds the latest one afterwards exactly when the z step fits. */
  lemma RecordTracksIffStepFits(m: Move)
    ensures Effect(m.base, RecordOf(m)) == m.latest <==> StepFits(m)
  {
    if IsAbsolute(Difference(m.latest, m.base)) {
      AbsoluteRecordResynchronizes(m, m.base);
    } else {
      ShiftTracksIffStepFits(m);
    }
  }

  /**
  What a receiver must show for a record to bring it to the latest position: anything, if the record is absolute;
  else the base in x and y, in z what the truncated step leads from, and the orientation unless it is sent.
  */
  predicate Tracks(m: Move, shown: Position) {
    var diff := Difference(m.latest, m.base);
    IsAbsolute(diff)
    || (&& shown.x == m.base.x && shown.y == m.base.y
        && shown.z == Wrap16(m.latest.z - SignedByte(LowByte(diff.z)))
        && (SameOrientation(m) ==> shown.yaw == m.latest.yaw && shown.pitch == m.latest.pitch))
  }

  lemma ShiftReaches(from: Int16, to: Int16, step: int)
    requires -0x80 <= step < 0x80
    ensures Wrap16(from + step) == to <==> from == Wrap16(to - step)
  {
  }

  lemma SmallStepBack(to: Int16, from: Int16)
    requires -0x80 <= Wrap16(to - from) < 0x80
    ensures SignedByte(LowByte(Wrap16(to - from))) == Wrap16(to - from) && Wrap16(to - Wrap16(to - from)) == from
  {
  }

  lemma ShiftedReaches(m: Move, shown: Position)
    requires !IsAbsolute(Difference(m.latest, m.base))
    ensures var diff := Difference(m.latest, m.base);
      var p := Shifted(shown, LowByte(diff.x), LowByte(diff.y), LowByte(diff.z));
      && (p.x == m.latest.x <==> shown.x == m.base.x) && (p.y == m.latest.y <==> shown.y == m.base.y)
      && (p.z == m.latest.z <==> shown.z == Wrap16(m.latest.z - SignedByte(LowByte(diff.z))))
      && p.yaw == shown.yaw && p.pitch == shown.pitch
  {
    var diff := Difference(m.latest, m.base);
    SmallStepBack(m.latest.x, m.base.x);
    SmallStepBack(m.latest.y, m.base.y);
    ShiftReaches(shown.x, m.latest.x, SignedByte(LowByte(diff.x)));
    ShiftReaches(shown.y, m.latest.y, SignedByte(LowByte(diff.y)));
    ShiftReaches(shown.z, m.latest.z, SignedByte(LowByte(diff.z)));
  }

  /** Exactly the receivers that show what Tracks says are brought to the latest position. */
  lemma RecordTracksIff(m: Move, shown: Position)
    ensures Effect(shown, RecordOf(m)) == m.latest <==> Tracks(m, shown)
  {
    if IsAbsolute(Difference(m.latest, m.base)) {
      AbsoluteRecordResynchronizes(m, shown);
    } else if SameCoordinate(m) {
    } else {
      ShiftedReaches(m, shown);
    }
  }

  /** A coordinate further than 32 from the base, x or y, is what makes a record absolute. */
  lemma RecordIsAbsoluteIff(m: Move)
    requires -0x8000 <= m.latest.x - m.base.x < 0x8000 && -0x8000 <= m.latest.y - m.base.y < 0x8000
    ensures RecordOf(m).Absolute? <==>
            || m.latest.x > m.base.x + 32 || m.latest.x < m.base.x - 32
            || m.latest.y > m.base.y + 32 || m.latest.y < m.base.y - 32
  {
  }

  /** A relative record is the shortest of its player that brings a receiver at the base to the latest position. */
  lemma RecordIsShortest(m: Move, r: Record)
    requires !RecordOf(m).Absolute? && Effect(m.base, r) == m.latest
    ensures |Encode(RecordOf(m))| <= |Encode(r)|
  {
  }

  /** The unchecked z: a step of 256 along z leaves a receiver where it was. */
  lemma LargeZStepIsLost()
    ensures var m := Move(0, Position(0, 0, 256, 1, 0), Position(0, 0, 0, 0, 0));
      !StepFits(m) && Effect(m.base, RecordOf(m)) == Position(0, 0, 0, 1, 0)
  {
    var m := Move(0, Position(0, 0, 256, 1, 0), Position(0, 0, 0, 0, 0));
    assert Difference(m.latest, m.base) == Position(0, 0, 256, 1, 0);
    assert RecordOf(m) == Relative(0, 0, 0, 0, 1, 0);
  }

  // ----- All players of one serialization.

  /** What the records make of a client's world. */
  function Applied(world: World, moves: seq<Move>): World {
    if moves == [] then world else Update(Applied(world, moves[..|moves| - 1]), RecordOf(moves[|moves| - 1]))
  }

  lemma ReceiveStep(world: World, s: seq<Byte>) returns (r: Record, rest: seq<Byte>)
    requires s != [] && Receive(world, s).Some?
    ensures |rest| < |s| && |Encode(r)| + |rest| == |s| && rest == s[|Encode(r)|..]
    ensures DecodeFirst(s) == Some(r) && Receive(world, s) == Receive(Update(world, r), rest)
  {
    r := DecodeFirst(s).value;
    rest := s[|Encode(r)|..];
  }

  lemma ReceiveBehind(world: World, a: seq<Byte>, b: seq<Byte>, r: Record)
    requires a != [] && DecodeFirst(a) == Some(r) && |Encode(r)| <= |a|
    ensures Receive(world, a + b) == Receive(Update(world, r), a[|Encode(r)|..] + b)
  {
    assert (a + b)[|Encode(r)|..] == a[|Encode(r)|..] + b;
  }

  lemma ReceiveNone(world: World, b: seq<Byte>)
    ensures Receive(world, [] + b) == Receive(world, b) && Receive(world, []) == Some(world)
  {
    assert [] + b == b;
  }

  lemma {:induction false} ReceiveConcat(world: World, a: seq<Byte>, b: seq<Byte>)
    requires Receive(world, a).Some?
    ensures Receive(world, a + b) == Receive(Receive(world, a).value, b)
    decreases |a|
  {
    if a == [] {
      ReceiveNone(world, b);
    } else {
      var r, rest := ReceiveStep(world, a);
      ReceiveBehind(world, a, b, r);
      ReceiveConcat(Update(world, r), rest, b);
    }
  }

  lemma ReceiveOne(world: World, r: Record)
    ensures Receive(world, Encode(r)) == Some(Update(world, r))
  {
    if r != Nothing {
      assert Encode(r) + [] == Encode(r);
    }
  }

  /** The client cuts the serialized bytes into exactly the records written. */
  lemma {:induction false} SerializedBytesDecode(world: World, moves: seq<Move>)
    ensures Receive(world, EncodeAll(moves)) == Some(Applied(world, moves))
    decreases |moves|
  {
    if moves == [] {
    } else {
      var before, r := moves[..|moves| - 1], RecordOf(moves[|moves| - 1]);
      SerializedBytesDecode(world, before);
      ReceiveConcat(world, EncodeAll(before), Encode(r));
      ReceiveOne(Applied(world, before), r);
    }
  }

  ghost predicate DistinctIds(moves: seq<Move>) {
    forall i, j :: 0 <= i < j < |moves| ==> moves[i].id != moves[j].id
  }

  lemma {:induction false} AppliedElsewhere(world: World, moves: seq<Move>, id: Byte)
    requires forall k :: 0 <= k < |moves| ==> moves[k].id != id
    ensures id in Applied(world, moves) <==> id in world
    ensures id in world ==> Applied(world, moves)[id] == world[id]
    decreases |moves|
  {
    if moves == [] {
    } else {
      RecordOfSamePosition(moves[|moves| - 1]);
      AppliedElsewhere(world, moves[..|moves| - 1], id);
    }
  }

  /** Each player's entry is changed by that player's record only. */
  lemma {:induction false} AppliedAt(world: World, moves: seq<Move>, k: nat)
    requires DistinctIds(moves) && k < |moves| && moves[k].id in world
    ensures moves[k].id in Applied(world, moves)
    ensures Applied(world, moves)[moves[k].id] == Effect(world[moves[k].id], RecordOf(moves[k]))
    decreases |moves|
  {
    var last := |moves| - 1;
    RecordOfSamePosition(moves[last]);
    if k < last {
      AppliedAt(world, moves[..last], k);
    } else {
      AppliedElsewhere(world, moves[..last], moves[k].id);
    }
  }

  // ----- Runs of the position task for a fixed set of players.

  /** Player k has the game id ids[k], the committed position base[k], and the client clients[k]. */
  datatype Sync = Sync(ids: seq<Byte>, base: seq<Position>, clients: seq<World>)

  ghost predicate SyncValid(s: Sync) {
    && |s.base| == |s.ids| && |s.clients| == |s.ids|
    && (forall i, j :: 0 <= i < j < |s.ids| ==> s.ids[i] != s.ids[j])
    && (forall r, k :: 0 <= r < |s.ids| && 0 <= k < |s.ids| ==> s.ids[k] in s.clients[r])
  }

  function Moves(s: Sync, latest: seq<Position>): (moves: seq<Move>)
    requires |latest| == |s.ids| == |s.base|
    ensures |moves| == |s.ids|
  {
    seq(|s.ids|, i requires 0 <= i < |s.ids| => Move(s.ids[i], latest[i], s.base[i]))
  }

  function Committed(s: Sync, latest: seq<Position>, accepted: set<nat>): (base: seq<Position>)
    requires |latest| == |s.ids| == |s.base|
    ensures |base| == |s.ids|
  {
    seq(|s.ids|, i requires 0 <= i < |s.ids| => if i in accepted then latest[i] else s.base[i])
  }

  function Received(s: Sync, data: seq<Byte>, accepted: set<nat>): (clients: seq<World>)
    requires |s.clients| == |s.ids|
    ensures |clients| == |s.ids|
  {
    seq(|s.ids|, r requires 0 <= r < |s.ids| =>
      if r in accepted && Receive(s.clients[r], data).Some? then Receive(s.clients[r], data).value else s.clients[r])
  }

  /**
  sync_player_position: nothing is posted when there is nothing to send; an accepted post reaches that player's
  client and commits that player's position.
  */
  function Tick(s: Sync, latest: seq<Position>, accepted: set<nat>): Sync
    requires |latest| == |s.ids| == |s.base| == |s.clients|
  {
    var data := EncodeAll(Moves(s, latest));
    if data == [] then s else Sync(s.ids, Committed(s, latest, accepted), Received(s, data, accepted))
  }

  /** Client r shows player k at the committed position. */
  ghost predicate InSync(s: Sync, r: nat, k: nat)
    requires SyncValid(s) && r < |s.ids| && k < |s.ids|
  {
    s.clients[r][s.ids[k]] == s.base[k]
  }

  lemma {:induction false} NoBytesMeansNoMoves(moves: seq<Move>, k: nat)
    requires EncodeAll(moves) == [] && k < |moves|
    ensures RecordOf(moves[k]) == Nothing && moves[k].latest == moves[k].base
    decreases |moves|
  {
    RecordOfSamePosition(moves[k]);
    if k < |moves| - 1 {
      NoBytesMeansNoMoves(moves[..|moves| - 1], k);
    }
  }

  lemma TickAt(s: Sync, latest: seq<Position>, accepted: set<nat>, r: nat, k: nat)
    requires SyncValid(s) && |latest| == |s.ids| && r < |s.ids| && k < |s.ids|
    ensures var s', m := Tick(s, latest, accepted), Moves(s, latest)[k];
      && s'.ids == s.ids && |s'.base| == |s.ids| && |s'.clients| == |s.ids|
      && m == Move(s.ids[k], latest[k], s.base[k])
      && s'.base[k] == (if k in accepted then latest[k] else s.base[k])
      && s.ids[k] in s'.clients[r]
      && s'.clients[r][s.ids[k]] ==
         (if r in accepted then Effect(s.clients[r][s.ids[k]], RecordOf(m)) else s.clients[r][s.ids[k]])
  {
    var moves := Moves(s, latest);
    if EncodeAll(moves) == [] {
      NoBytesMeansNoMoves(moves, k);
    } else {
      SerializedBytesDecode(s.clients[r], moves);
      AppliedAt(s.clients[r], moves, k);
    }
  }

  lemma TickKeepsValid(s: Sync, latest: seq<Position>, accepted: set<nat>)
    requires SyncValid(s) && |latest| == |s.ids|
    ensures SyncValid(Tick(s, latest, accepted)) && Tick(s, latest, accepted).ids == s.ids
  {
    forall r, k | 0 <= r < |s.ids| && 0 <= k < |s.ids| ensures s.ids[k] in Tick(s, latest, accepted).clients[r] {
      TickAt(s, latest, accepted, r, k);
    }
  }

  /**
  A client in step with a player's committed position is in step again after the position task exactly when both posts
  were accepted, both were refused, or the player had not moved; provided the z step fits.
  */
  lemma PairStaysInSyncIff(s: Sync, latest: seq<Position>, accepted: set<nat>, r: nat, k: nat)
    requires SyncValid(s) && |latest| == |s.ids| && r < |s.ids| && k < |s.ids|
    requires InSync(s, r, k) && StepFits(Moves(s, latest)[k])
    ensures SyncValid(Tick(s, latest, accepted)) && Tick(s, latest, accepted).ids == s.ids
    ensures InSync(Tick(s, latest, accepted), r, k) <==> ((r in accepted <==> k in accepted) || latest[k] == s.base[k])
  {
    TickKeepsValid(s, latest, accepted);
    TickAt(s, latest, accepted, r, k);
    RecordTracksIffStepFits(Moves(s, latest)[k]);
    RecordOfSamePosition(Moves(s, latest)[k]);
  }

  /**
  With both posts accepted, the client shows the latest position exactly when what it showed before tracks the record.
  */
  lemma AcceptedTickBringsInStepIff(s: Sync, latest: seq<Position>, accepted: set<nat>, r: nat, k: nat)
    requires SyncValid(s) && |latest| == |s.ids| && r < |s.ids| && k < |s.ids| && r in accepted && k in accepted
    ensures var s' := Tick(s, latest, accepted);
      && SyncValid(s') && s'.ids == s.ids && s'.base[k] == latest[k]
      && (InSync(s', r, k) <==> Tracks(Moves(s, latest)[k], s.clients[r][s.ids[k]]))
  {
    TickKeepsValid(s, latest, accepted);
    TickAt(s, latest, accepted, r, k);
    RecordTracksIff(Moves(s, latest)[k], s.clients[r][s.ids[k]]);
  }

  /** With both posts accepted, the client shows the player's latest position exactly when the z step fits. */
  lemma AcceptedTickTracksIff(s: Sync, latest: seq<Position>, accepted: set<nat>, r: nat, k: nat)
    requires SyncValid(s) && |latest| == |s.ids| && r < |s.ids| && k < |s.ids|
    requires InSync(s, r, k) && r in accepted && k in accepted
    ensures var s' := Tick(s, latest, accepted);
      && SyncValid(s') && s'.ids == s.ids && s'.base[k] == latest[k]
      && (s'.clients[r][s.ids[k]] == latest[k] <==> StepFits(Moves(s, latest)[k]))
  {
    TickKeepsValid(s, latest, accepted);
    TickAt(s, latest, accepted, r, k);
    RecordTracksIffStepFits(Moves(s, latest)[k]);
  }

  /** Every z step from one list of positions to the next fits. */
  ghost predicate StepsFit(before: seq<Position>, after: seq<Position>) {
    |after| == |before| && forall k :: 0 <= k < |before| ==> StepFits(Move(0, after[k], before[k]))
  }

  function Latest(start: seq<Position>, history: seq<seq<Position>>): seq<Position> {
    if history == [] then start else history[|history| - 1]
  }

  ghost predicate HistoryFits(start: seq<Position>, history: seq<seq<Position>>) {
    history == [] ||
    (var before := history[..|history| - 1];
     HistoryFits(start, before) && StepsFit(Latest(start, before), history[|history| - 1]))
  }

  function Everyone(n: nat): (all: set<nat>)
    ensures forall k: nat :: k in all <==> k < n
  {
    if n == 0 then {} else Everyone(n - 1) + {n - 1}
  }

  /** The position task run once per entry of the history, with every post accepted. */
  function Ticks(s: Sync, history: seq<seq<Position>>): (s': Sync)
    requires |s.ids| == |s.base| == |s.clients|
    ensures |s'.base| == |s'.clients| == |s'.ids| == |s.ids|
  {
    if history == [] then s
    else
      var before := Ticks(s, history[..|history| - 1]);
      if |history[|history| - 1]| == |s.ids| then Tick(before, history[|history| - 1], Everyone(|s.ids|)) else before
  }

  /**
  Over any history of positions with every multicast accepted and every z step in range, each client that starts
  from the committed positions shows everyone's latest position after each tick.
  */
  lemma {:induction false} ClientsTrackExactly(s: Sync, history: seq<seq<Position>>)
    requires SyncValid(s) && HistoryFits(s.base, history)
    requires forall r, k :: 0 <= r < |s.ids| && 0 <= k < |s.ids| ==> InSync(s, r, k)
    ensures var s' := Ticks(s, history);
      && SyncValid(s') && s'.ids == s.ids && s'.base == Latest(s.base, history)
      && forall r, k :: 0 <= r < |s.ids| && 0 <= k < |s.ids| ==> InSync(s', r, k)
    decreases |history|
  {
    if history == [] {
    } else {
      var earlier, latest := history[..|history| - 1], history[|history| - 1];
      ClientsTrackExactly(s, earlier);
      EveryoneTracks(Ticks(s, earlier), latest);
      assert Ticks(s, history).base == latest;
    }
  }

  lemma EveryoneTracks(s: Sync, latest: seq<Position>)
    requires SyncValid(s) && StepsFit(s.base, latest)
    requires forall r, k :: 0 <= r < |s.ids| && 0 <= k < |s.ids| ==> InSync(s, r, k)
    ensures var s' := Tick(s, latest, Everyone(|s.ids|));
      && SyncValid(s') && s'.ids == s.ids
      && (forall k :: 0 <= k < |s.ids| ==> s'.base[k] == latest[k])
      && (forall r, k :: 0 <= r < |s.ids| && 0 <= k < |s.ids| ==> InSync(s', r, k))
  {
    var all := Everyone(|s.ids|);
    TickKeepsValid(s, latest, all);
    forall k | 0 <= k < |s.ids| ensures Tick(s, latest, all).base[k] == latest[k] {
      PairTracks(s, latest, k, k);
    }
    forall r, k | 0 <= r < |s.ids| && 0 <= k < |s.ids| ensures InSync(Tick(s, latest, all), r, k) {
      PairTracks(s, latest, r, k);
    }
  }

  lemma PairTracks(s: Sync, latest: seq<Position>, r: nat, k: nat)
    requires SyncValid(s) && StepsFit(s.base, latest) && r < |s.ids| && k < |s.ids| && InSync(s, r, k)
    ensures var s' := Tick(s, latest, Everyone(|s.ids|));
      SyncValid(s') && s'.ids == s.ids && InSync(s', r, k) && s'.base[k] == latest[k]
  {
    assert StepFits(Move(0, latest[k], s.base[k]));
    AcceptedTickTracksIff(s, latest, Everyone(|s.ids|), r, k);
  }

  // ----- A player who joins.

  const ORIGIN: Position := Position(0, 0, 0, 0, 0)

  function ClientOf(ids: seq<Byte>, at: seq<Position>): (world: World)
    requires |at| == |ids|
    ensures forall i :: 0 <= i < |ids| ==> ids[i] in world
  {
    if ids == [] then map[] else ClientOf(ids[..|ids| - 1], at[..|ids| - 1])[ids[|ids| - 1] := at[|ids| - 1]]
  }

  lemma {:induction false} ClientShows(ids: seq<Byte>, at: seq<Position>, k: nat)
    requires |at| == |ids| && k < |ids| && forall i, j :: 0 <= i < j < |ids| ==> ids[i] != ids[j]
    ensures ClientOf(ids, at)[ids[k]] == at[k]
    decreases |ids|
  {
    if k < |ids| - 1 {
      ClientShows(ids[..|ids| - 1], at[..|ids| - 1], k);
    }
  }

  /**
  spawn_player, for one joiner and with every post accepted: all are sent where the joiner is, and the joiner where
  everyone is: at the latest position, or at the spawn position when none was reported. Nothing was transferred
  for the joiner yet.
  */
  function Join(s: Sync, id: Byte, at: seq<Position>): (s': Sync)
    requires |s.base| == |s.clients| == |s.ids| && |at| == |s.ids| + 1
    ensures |s'.base| == |s'.clients| == |s'.ids| == |s.ids| + 1
  {
    var n := |s.ids|;
    Sync(s.ids + [id], s.base + [ORIGIN],
         seq(n, i requires 0 <= i < n => s.clients[i][id := at[n]]) + [ClientOf(s.ids + [id], at)])
  }

  lemma JoinedAt(s: Sync, id: Byte, at: seq<Position>, r: nat, k: nat)
    requires SyncValid(s) && id !in s.ids && |at| == |s.ids| + 1 && r <= |s.ids| && k <= |s.ids|
    ensures var s', n := Join(s, id, at), |s.ids|;
      && SyncValid(s') && s'.base[k] == (if k < n then s.base[k] else ORIGIN)
      && s'.clients[r][s'.ids[k]] == (if r == n || k == n then at[k] else s.clients[r][s.ids[k]])
  {
    var s', n := Join(s, id, at), |s.ids|;
    forall i, j | 0 <= i < j < n + 1 ensures s'.ids[i] != s'.ids[j] {
      assert j == n ==> s.ids[i] in s.ids;
    }
    if r == n {
      ClientShows(s'.ids, at, k);
    } else if k < n {
      assert s.ids[k] in s.ids;
    }
  }

  /**
  After a join and a tick with every post accepted, who shows whom right: the old clients the old players as before
  the join, the joiner's client a player exactly when its record tracks from where the spawn packet put it, and all
  the joiner exactly when the record tracks from there.
  */
  lemma JoinerTracksIff(s: Sync, id: Byte, at: seq<Position>, latest: seq<Position>, r: nat, k: nat)
    requires SyncValid(s) && id !in s.ids && |at| == |latest| == |s.ids| + 1 && r <= |s.ids| && k <= |s.ids|
    ensures var s', n := Tick(Join(s, id, at), latest, Everyone(|s.ids| + 1)), |s.ids|;
      && SyncValid(s') && |s'.ids| == n + 1
      && var shown := if r == n || k == n then at[k] else s.clients[r][s.ids[k]];
      && (InSync(s', r, k) <==> Tracks(Move(s'.ids[k], latest[k], if k < n then s.base[k] else ORIGIN), shown))
  {
    JoinedAt(s, id, at, r, k);
    AcceptedTickBringsInStepIff(Join(s, id, at), latest, Everyone(|s.ids| + 1), r, k);
  }

  lemma OneStepBehind(m: Move, shown: Position)
    requires m.base == Position(0, 100, 0, 0, 0) && m.latest == Position(2, 100, 0, 0, 0)
        && shown == Position(1, 100, 0, 0, 0)
    ensures Tracks(m, m.base) && !Tracks(m, shown)
  {
    assert Difference(m.latest, m.base) == Position(2, 0, 0, 0, 0);
  }

  /**
  A joiner is sent a player that moved since the last transfer, and is out of step with it from the next relative
  record.
  */
  lemma JoinerCanStartOutOfStep(s: Sync, at: seq<Position>, latest: seq<Position>)
    requires s == Sync([0], [Position(0, 100, 0, 0, 0)], [map[0 := Position(0, 100, 0, 0, 0)]])
    requires at == [Position(1, 100, 0, 0, 0), Position(1, 100, 0, 0, 0)]
    requires latest == [Position(2, 100, 0, 0, 0), Position(1, 100, 0, 0, 0)]
    ensures SyncValid(s) && InSync(s, 0, 0)
    ensures var s' := Tick(Join(s, 1, at), latest, Everyone(|s.ids| + 1));
      SyncValid(s') && |s'.ids| == 2 && InSync(s', 0, 0) && !InSync(s', 1, 0)
  {
    OneStepBehind(Move(0, latest[0], s.base[0]), at[0]);
    JoinerTracksIff(s, 1, at, latest, 0, 0);
    JoinerTracksIff(s, 1, at, latest, 1, 0);
  }

  /**
  One refused post is enough: the moved player's own post is refused, and another client runs ahead of the commit.
  */
  lemma RefusedPostDrifts() returns (s: Sync, latest: seq<Position>)
    ensures
      && SyncValid(s) && |latest| == |s.ids| == 2
      && InSync(s, 1, 0) && StepFits(Moves(s, latest)[0])
      && SyncValid(Tick(s, latest, {1})) && Tick(s, latest, {1}).ids == s.ids
      && !InSync(Tick(s, latest, {1}), 1, 0)
  {
    var origin, moved := Position(0, 0, 0, 0, 0), Position(1, 0, 0, 0, 0);
    var world := map[0 := origin, 1 := origin];
    s, latest := Sync([0, 1], [origin, origin], [world, world]), [moved, origin];
    PairStaysInSyncIff(s, latest, {1}, 1, 0);
  }

  // ----- Runs of joins and ticks, with posts accepted and refused.

  /** In Report, the position task runs on these positions, and these players' posts are accepted. */
  datatype Event = Report(latest: seq<Position>, accepted: set<nat>) | Enter(id: Byte, at: seq<Position>)

  function After(s: Sync, event: Event): Option<Sync>
    requires |s.base| == |s.clients| == |s.ids|
  {
    match event
    case Report(latest, accepted) => if |latest| == |s.ids| then Some(Tick(s, latest, accepted)) else None
    case Enter(id, at) => if id !in s.ids && |at| == |s.ids| + 1 then Some(Join(s, id, at)) else None
  }

  /** From an empty world. */
  function Run(events: seq<Event>): (s: Option<Sync>)
    ensures s.Some? ==> |s.value.base| == |s.value.clients| == |s.value.ids|
  {
    if events == [] then Some(Sync([], [], []))
    else match Run(events[..|events| - 1])
      case None => None
      case Some(s) => After(s, events[|events| - 1])
  }

  /** What client r shows of player k, and the position the next record of k is relative to. */
  datatype Pair = Pair(shown: Position, base: Position)

  function Reported(p: Pair, latest: Position, toClient: bool, toPlayer: bool): Pair {
    Pair(if toClient then Effect(p.shown, RecordOf(Move(0, latest, p.base))) else p.shown,
        if toPlayer then latest else p.base)
  }

  /** The same run, as far as one client and one player go: no other player's positions, posts or records. */
  function PairRun(events: seq<Event>, r: nat, k: nat): Pair {
    if events == [] then Pair(ORIGIN, ORIGIN)
    else
      var before := events[..|events| - 1];
      match events[|events| - 1]
      case Report(latest, accepted) =>
        if k < |latest| then Reported(PairRun(before, r, k), latest[k], r in accepted, k in accepted)
        else PairRun(before, r, k)
      case Enter(_, at) =>
        if k < |at| && (r == |at| - 1 || k == |at| - 1)
        then Pair(at[k], if k < |at| - 1 then PairRun(before, k, k).base else ORIGIN)
        else PairRun(before, r, k)
  }

  lemma EffectIgnoresId(p: Position, id: Byte, latest: Position, base: Position)
    ensures Effect(p, RecordOf(Move(id, latest, base))) == Effect(p, RecordOf(Move(0, latest, base)))
  {
  }

  ghost predicate PairIs(s: Sync, r: nat, k: nat, p: Pair)
    requires SyncValid(s) && r < |s.ids| && k < |s.ids|
  {
    p == Pair(s.clients[r][s.ids[k]], s.base[k])
  }

  lemma JoinKeepsValid(s: Sync, id: Byte, at: seq<Position>)
    requires SyncValid(s) && id !in s.ids && |at| == |s.ids| + 1
    ensures SyncValid(Join(s, id, at))
  {
    JoinedAt(s, id, at, 0, 0);
  }

  lemma {:induction false} RunIsValid(events: seq<Event>)
    requires Run(events).Some?
    ensures SyncValid(Run(events).value)
    decreases |events|
  {
    if events != [] {
      RunIsValid(events[..|events| - 1]);
      var s := Run(events[..|events| - 1]).value;
      match events[|events| - 1]
      case Report(latest, accepted) => TickKeepsValid(s, latest, accepted);
      case Enter(id, at) => JoinKeepsValid(s, id, at);
    }
  }

  /**
  In every run of joins and ticks, with any posts refused, what a client shows of a player and what that player's next
  record is relative to depend on the events of that client and player alone: the serializer, the bytes all players
  share, and every client's decoder come down to a run of independent pairs.
  */
  lemma {:induction false} PairsAreIndependent(events: seq<Event>, r: nat, k: nat)
    requires Run(events).Some? && r < |Run(events).value.ids| && k < |Run(events).value.ids|
    ensures SyncValid(Run(events).value) && PairIs(Run(events).value, r, k, PairRun(events, r, k))
    decreases |events|
  {
    RunIsValid(events);
    if events != [] {
      var before := events[..|events| - 1];
      var s := Run(before).value;
      RunIsValid(before);
      match events[|events| - 1]
      case Report(latest, accepted) =>
        PairsAreIndependent(before, r, k);
        TickAt(s, latest, accepted, r, k);
        EffectIgnoresId(s.clients[r][s.ids[k]], s.ids[k], latest[k], s.base[k]);
      case Enter(id, at) =>
        JoinedAt(s, id, at, r, k);
        if k < |s.ids| {
          PairsAreIndependent(before, k, k);
          if r < |s.ids| {
            PairsAreIndependent(before, r, k);
          }
        }
    }
  }

  /**
  After any such run, a tick that both accept leaves the client showing the player right exactly when the record tracks
  from what it showed.
  */
  lemma ShownRightAfterRunIff(events: seq<Event>, latest: seq<Position>, accepted: set<nat>, r: nat, k: nat)
    requires Run(events + [Report(latest, accepted)]).Some?
    requires r < |latest| && k < |latest| && r in accepted && k in accepted
    ensures var s := Run(events + [Report(latest, accepted)]).value;
      && SyncValid(s) && |s.ids| == |latest|
      && var p := PairRun(events, r, k);
      && s.base[k] == latest[k]
      && (s.clients[r][s.ids[k]] == latest[k] <==> Tracks(Move(0, latest[k], p.base), p.shown))
  {
    var all := events + [Report(latest, accepted)];
    assert all[..|events|] == events;
    PairsAreIndependent(all, r, k);
    RecordTracksIff(Move(0, latest[k], PairRun(events, r, k).base), PairRun(events, r, k).shown);
  }

  ghost predicate InStep(p: Pair) {
    p.shown == p.base
  }

  /** A tick does not take the pair apart: its z step fits, and both posts are answered alike or k has not moved. */
  ghost predicate KeepsAt(events: seq<Event>, event: Event, r: nat, k: nat) {
    match event
    case Report(latest, accepted) =>
      var base := PairRun(events, r, k).base;
      k < |latest| ==>
        StepFits(Move(0, latest[k], base)) && ((r in accepted <==> k in accepted) || latest[k] == base)
    case Enter(_, at) => r < |at| - 1 && k < |at| - 1
  }

  ghost predicate KeepsStep(events: seq<Event>, more: seq<Event>, r: nat, k: nat) {
    more == [] ||
    (KeepsStep(events, more[..|more| - 1], r, k) && KeepsAt(events + more[..|more| - 1], more[|more| - 1], r, k))
  }

  lemma ReportKeepsStep(p: Pair, latest: Position, toClient: bool, toPlayer: bool)
    requires InStep(p) && StepFits(Move(0, latest, p.base)) && (toClient == toPlayer || latest == p.base)
    ensures InStep(Reported(p, latest, toClient, toPlayer))
  {
    RecordTracksIffStepFits(Move(0, latest, p.base));
    RecordOfSamePosition(Move(0, latest, p.base));
  }

  lemma EventKeepsStep(events: seq<Event>, event: Event, r: nat, k: nat)
    requires InStep(PairRun(events, r, k)) && KeepsAt(events, event, r, k)
    ensures InStep(PairRun(events + [event], r, k))
  {
    assert (events + [event])[..|events|] == events;
    match event
    case Report(latest, accepted) =>
      if k < |latest| {
        ReportKeepsStep(PairRun(events, r, k), latest[k], r in accepted, k in accepted);
      }
    case Enter(_, _) =>
  }

  lemma {:induction false} StaysInStep(events: seq<Event>, more: seq<Event>, r: nat, k: nat)
    requires InStep(PairRun(events, r, k)) && KeepsStep(events, more, r, k)
    ensures InStep(PairRun(events + more, r, k))
    decreases |more|
  {
    if more == [] {
      assert events + more == events;
    } else {
      var before, event := more[..|more| - 1], more[|more| - 1];
      StaysInStep(events, before, r, k);
      EventKeepsStep(events + before, event, r, k);
      assert events + more == events + before + [event];
    }
  }

  /**
  Whatever happened before, an absolute record that both accept brings a client in step with a player, and it shows the
  player's committed position from there on, through joins and ticks that do not take the two apart.
  */
  lemma AbsoluteRecordHealsForGood(events: seq<Event>, latest: seq<Position>, accepted: set<nat>, more: seq<Event>,
      r: nat, k: nat)
    requires Run(events + [Report(latest, accepted)] + more).Some? && r < |latest| && k < |latest|
    requires r in accepted && k in accepted && IsAbsolute(Difference(latest[k], PairRun(events, r, k).base))
    requires KeepsStep(events + [Report(latest, accepted)], more, r, k)
    requires var n := |Run(events + [Report(latest, accepted)] + more).value.ids|; r < n && k < n
    ensures var s := Run(events + [Report(latest, accepted)] + more).value;
      SyncValid(s) && InSync(s, r, k)
  {
    var healed := events + [Report(latest, accepted)];
    assert healed[..|events|] == events;
    var p := PairRun(events, r, k);
    AbsoluteRecordResynchronizes(Move(0, latest[k], p.base), p.shown);
    StaysInStep(healed, more, r, k);
    PairsAreIndependent(healed + more, r, k);
  }

  // ----- The code.

  class Player {
    const gameId: Byte
    var latest: Position
    var lastTransferred: Position
    var lastTransferredTmp: Position

    constructor (id: Byte, position: Position)
      ensures gameId == id && latest == position && lastTransferred == lastTransferredTmp == Position(0, 0, 0, 0, 0)
    {
      gameId := id;
      latest := position;
      lastTransferred, lastTransferredTmp := Position(0, 0, 0, 0, 0), Position(0, 0, 0, 0, 0);
    }

    ghost function AsMove(): Move
      reads this`latest, this`lastTransferred
    {
      Move(gameId, latest, lastTransferred)
    }

    /** Invoked for a player whose multicast post was accepted. */
    method CommitLastTransferred()
      modifies this`lastTransferred
      ensures lastTransferred == lastTransferredTmp
    {
      lastTransferred := lastTransferredTmp;
    }
  }

  ghost function AsMoves(players: seq<Player>): (moves: seq<Move>)
    reads players
    ensures |moves| == |players|
  {
    seq(|players|, i requires 0 <= i < |players| reads players => players[i].AsMove())
  }

  method Put(data: array<Byte>, pos: nat, bytes: seq<Byte>) returns (pos': nat)
    requires pos + |bytes| <= data.Length
    modifies data
    ensures pos' == pos + |bytes| && data[..pos'] == old(data[..pos]) + bytes
  {
    forall i | 0 <= i < |bytes| {
      data[pos + i] := bytes[i];
    }
    pos' := pos + |bytes|;
  }

  /** One player's turn of the loop. */
  method SerializePlayer(player: Player, data: array<Byte>, pos: nat) returns (pos': nat)
    requires pos + PACKET_SIZE <= data.Length
    modifies player`lastTransferredTmp, data
    ensures player.lastTransferredTmp == player.latest
    ensures pos <= pos' <= pos + PACKET_SIZE
    ensures player.AsMove() == old(player.AsMove())
    ensures data[..pos'] == old(data[..pos]) + Encode(RecordOf(old(player.AsMove())))
  {
    var latest := player.latest;
    var diff := Difference(latest, player.lastTransferred);
    player.lastTransferredTmp := latest;
    DifferenceIsZeroIffEqual(latest, player.lastTransferred);
    var x, y, z := Pattern16(latest.x), Pattern16(latest.y), Pattern16(latest.z);
    pos' := pos;
    if Abs(diff.x) > 32 || Abs(diff.y) > 32 || Abs(diff.y) > 32 {
      pos' := Put(data, pos', [SET_PLAYER_POSITION, player.gameId,
        x / 0x100, x % 0x100, y / 0x100, y % 0x100, z / 0x100, z % 0x100, latest.yaw, latest.pitch]);
    } else if RawCoordinate(diff) != 0 && RawOrientation(diff) != 0 {
      pos' := Put(data, pos', [UPDATE_PLAYER_POSITION, player.gameId,
        LowByte(diff.x), LowByte(diff.y), LowByte(diff.z), latest.yaw, latest.pitch]);
    } else if RawCoordinate(diff) != 0 {
      pos' := Put(data, pos', [UPDATE_PLAYER_COORDINATE, player.gameId, LowByte(diff.x), LowByte(diff.y),
          LowByte(diff.z)]);
    } else if RawOrientation(diff) != 0 {
      pos' := Put(data, pos', [UPDATE_PLAYER_ORIENTATION, player.gameId, latest.yaw, latest.pitch]);
    }
  }

  lemma EncodeAllNext(moves: seq<Move>, n: nat)
    requires n < |moves|
    ensures EncodeAll(moves[..n + 1]) == EncodeAll(moves[..n]) + Encode(RecordOf(moves[n]))
  {
    assert moves[..n + 1][..n] == moves[..n];
  }

  /** The first n players' latest positions wait for the commit. */
  ghost predicate Remembered(players: seq<Player>, n: nat)
    requires n <= |players|
    reads players
  {
    forall k :: 0 <= k < n ==> players[k].lastTransferredTmp == players[k].latest
  }

  /** One turn of the loop, among all players; the same player may occur again. */
  method SerializeNext(players: seq<Player>, n: nat, data: array<Byte>, pos: nat, ghost moves: seq<Move>)
      returns (pos': nat)
    requires n < |players| == |moves| && players[n].AsMove() == moves[n] && Remembered(players, n)
    requires pos + PACKET_SIZE <= data.Length && data[..pos] == EncodeAll(moves[..n])
    modifies players`lastTransferredTmp, data
    ensures pos <= pos' <= pos + PACKET_SIZE && data[..pos'] == EncodeAll(moves[..n + 1])
    ensures Remembered(players, n + 1)
  {
    EncodeAllNext(moves, n);
    pos' := SerializePlayer(players[n], data, pos);
  }

  /** One record per moved player, inside ten bytes a player; everyone's position is remembered for the commit. */
  method Serialize(players: seq<Player>) returns (data: array<Byte>, size: nat)
    modifies players`lastTransferredTmp
    ensures fresh(data) && size <= data.Length == PACKET_SIZE * |players|
    ensures data[..size] == EncodeAll(old(AsMoves(players)))
    ensures Remembered(players, |players|)
  {
    data := new Byte[PACKET_SIZE * |players|];
    size := 0;
    ghost var moves := AsMoves(players);
    for n := 0 to |players|
      invariant size <= PACKET_SIZE * n
      invariant data[..size] == EncodeAll(moves[..n])
      invariant Remembered(players, n)
    {
      assert players[n].AsMove() == moves[n];
      size := SerializeNext(players, n, data, size, moves);
    }
    assert moves[..|players|] == moves;
  }
}
