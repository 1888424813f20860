/**
The world's block replication as a step system (mmocraft/game/world.cpp:64-91, 148-188, 222-290,
mmocraft/game/world_task.h:57-108, mmocraft/net/game_server.cpp:112-129, 171-184): edits, logins, stray transitions
and departures interleave freely with the sync task that snapshots the history, commits it, multicasts it, and only
then sends the level to waiting players.
A post is one step, accepted or refused; an accepted post reaches its client in order.
*/
module Replication {
  import opened Wrappers
  import opened Bytes
  import opened BlockHistory
  import opened World

  // ----- State.

  /** Initialized: state() >= level_initialized. Gone: disconnecting or later. */
  datatype Phase = Connected | Waiting | Initialized | Gone

  /** lost: some history post to this player was refused. */
  datatype Player = Player(phase: Phase, inbox: seq<Message>, lost: bool)

  /** Where the worker inside sync_block is. */
  datatype Control =
    | Idle
    | Started
    | Committed
    | Multicasting(to: seq<PlayerId>)
    | BeforeLevel
    | Levelling(level: seq<Byte>, to: seq<PlayerId>)
    | Finished

  /** handled collects the snapshots of completed runs of the sync task; it is read by no step. */
  datatype State = State(blocks: seq<Byte>, task: Task, players: map<PlayerId, Player>, pc: Control, handled: seq<Byte>)

  function Init(blocks: seq<Byte>): State {
    State(blocks, NEW_TASK, map[], Idle, [])
  }

  /**
  In PushEdit, setting is the packet's mode, and sent says whether a revert packet is accepted for sending. Stray is
  a transition nobody waits for, which the last extension entry can cause: it takes a player waiting for the level
  to level_initialized.
  */
  datatype Label =
    | Connect(p: PlayerId)
    | PushEdit(p: PlayerId, x: Short, y: Short, z: Short, setting: bool, block: Byte, sent: bool)
    | Join(p: PlayerId)
    | Leave(p: PlayerId)
    | Stray(p: PlayerId)
    | Schedule
    | CommitHistory
    | SkipHistory
    | SelectPlayers(order: seq<PlayerId>)
    | PostHistory(ok: bool)
    | EndMulticast
    | SerializeLevel
    | SkipLevel
    | PostLevel(ok: bool)
    | EndLevel
    | Complete

  // ----- Steps.

  const AIR: Byte := 0

  /** The edit a set-block packet asks for. */
  function Asked(l: Label): Edit
    requires l.PushEdit?
  {
    Edit(l.x, l.y, l.z, if l.setting then l.block else AIR)
  }

  /** The block change its author is sent back when it is refused. It never looks at the block the server has. */
  function TakenBack(l: Label): Edit
    requires l.PushEdit?
  {
    Edit(l.x, l.y, l.z, if l.setting then AIR else l.block)
  }

  function WithPlayer(s: State, p: PlayerId, player: Player): State {
    s.(players := s.players[p := player])
  }

  function Reverted(player: Player, e: Edit): Player {
    player.(inbox := player.inbox + [Revert(e)])
  }

  function HistoryPosted(player: Player, data: seq<Byte>, ok: bool): Player {
    if ok then player.(inbox := player.inbox + [Blocks(data)]) else player.(lost := true)
  }

  /** A player who left meanwhile moves on to disconnected, not back into the world. */
  function LevelPosted(player: Player, level: seq<Byte>, ok: bool): Player {
    var phase := if player.phase.Waiting? then Initialized else player.phase;
    if ok then player.(inbox := player.inbox + [Level(level)], phase := phase) else player
  }

  ghost predicate Distinct(order: seq<PlayerId>) {
    forall i, j :: 0 <= i < j < |order| ==> order[i] != order[j]
  }

  /** select_players: everyone at level_initialized or beyond, once each. */
  ghost predicate SelectsInitialized(s: State, order: seq<PlayerId>) {
    Distinct(order) && forall p :: p in order <==> p in s.players && s.players[p].phase.Initialized?
  }

  ghost function Step(m: Meta, s: State, l: Label): Option<State> {
    match l
    case Connect(p) => if p in s.players then None else Some(WithPlayer(s, p, Player(Connected, [], false)))
    case PushEdit(p, _, _, _, _, _, sent) =>
      if p !in s.players then None
      else if AcceptsEdit(s.task) then Some(s.(task := EditPushed(s.task, Asked(l))))
      else if sent then Some(WithPlayer(s, p, Reverted(s.players[p], TakenBack(l))))
      else Some(s)
    case Join(p) =>
      if p !in s.players || !s.players[p].phase.Connected? then None
      else Some(WithPlayer(s, p, s.players[p].(phase := Waiting)).(task := PlayerPushed(s.task, p)))
    case Leave(p) =>
      if p !in s.players then None else Some(WithPlayer(s, p, s.players[p].(phase := Gone)))
    case Stray(p) =>
      if p !in s.players || !s.players[p].phase.Waiting? then None
      else Some(WithPlayer(s, p, s.players[p].(phase := Initialized)))
    case Schedule =>
      if s.pc.Idle? && Ready(s.task) then Some(s.(task := Scheduled(s.task), pc := Started)) else None
    case CommitHistory =>
      if s.pc.Started? && RecordCount(s.task.snapshot) > 0
      then Some(s.(blocks := CommitAll(m, s.blocks, s.task.snapshot), pc := Committed)) else None
    case SkipHistory =>
      if s.pc.Started? && RecordCount(s.task.snapshot) == 0 then Some(s.(pc := BeforeLevel)) else None
    case SelectPlayers(order) =>
      if s.pc.Committed? && SelectsInitialized(s, order) then Some(s.(pc := Multicasting(order))) else None
    case PostHistory(ok) =>
      if s.pc.Multicasting? && s.pc.to != [] && s.pc.to[0] in s.players
      then
        var p := s.pc.to[0];
        Some(WithPlayer(s, p, HistoryPosted(s.players[p], s.task.snapshot, ok)).(pc := Multicasting(s.pc.to[1..])))
      else None
    case EndMulticast => if s.pc == Multicasting([]) then Some(s.(pc := BeforeLevel)) else None
    case SerializeLevel =>
      if s.pc.BeforeLevel? && s.task.waiting != [] && |s.blocks| >= Volume(m)
      then Some(s.(pc := Levelling(s.blocks[..Volume(m)], s.task.waiting))) else None
    case SkipLevel => if s.pc.BeforeLevel? && s.task.waiting == [] then Some(s.(pc := Finished)) else None
    case PostLevel(ok) =>
      if s.pc.Levelling? && s.pc.to != [] && s.pc.to[0] in s.players
      then
        var p := s.pc.to[0];
        Some(WithPlayer(s, p, LevelPosted(s.players[p], s.pc.level, ok)).(pc := Levelling(s.pc.level, s.pc.to[1..])))
      else None
    case EndLevel => if s.pc.Levelling? && s.pc.to == [] then Some(s.(pc := Finished)) else None
    case Complete =>
      if s.pc.Finished?
      then Some(s.(task := Completed(s.task), pc := Idle, handled := s.handled + s.task.snapshot)) else None
  }

  ghost function Exec(m: Meta, s: State, run: seq<Label>): Option<State> {
    if run == [] then Some(s)
    else
      var before := Exec(m, s, run[..|run| - 1]);
      if before.None? then None else Step(m, before.value, run[|run| - 1])
  }

  /** The accepted edits of a run, oldest first. */
  ghost function Accepted(m: Meta, s: State, run: seq<Label>): seq<Edit>
    requires Exec(m, s, run).Some?
  {
    if run == [] then []
    else
      var init := run[..|run| - 1];
      Accepted(m, s, init) + AcceptedBy(Exec(m, s, init).value, run[|run| - 1])
  }

  function AcceptedBy(s: State, l: Label): seq<Edit> {
    if l.PushEdit? && AcceptsEdit(s.task) then [Asked(l)] else []
  }

  ghost predicate HarmlessRun(m: Meta, run: seq<Label>) {
    forall l :: l in run && l.PushEdit? ==> Harmless(m, Asked(l))
  }

  // ----- Every edit is snapshotted exactly once.

  function Encode(edits: seq<Edit>): (r: seq<Byte>) {
    if edits == [] then [] else Encode(edits[..|edits| - 1]) + RecordBytes(edits[|edits| - 1])
  }

  /** The encoding is read back, record by record. */
  lemma {:induction false} EncodeDecodes(edits: seq<Edit>)
    ensures WholeRecords(Encode(edits)) && RecordCount(Encode(edits)) == |edits|
    ensures forall i :: 0 <= i < |edits| ==> ServerRecord(Encode(edits), i) == edits[i]
  {
    if edits != [] {
      var init := edits[..|edits| - 1];
      EncodeDecodes(init);
      AppendedRecord(Encode(init), edits[|edits| - 1]);
    }
  }

  ghost predicate TaskInv(s: State) {
    TaskValid(s.task) && (s.pc.Idle? <==> !s.task.processing) && WholeRecords(s.handled)
  }

  function History(s: State): seq<Byte> {
    s.handled + s.task.snapshot + s.task.live
  }

  lemma EncodeOne(e: Edit)
    ensures Encode([e]) == RecordBytes(e)
  {
    assert [e][..0] == [];
    assert Encode([e]) == Encode([]) + RecordBytes(e);
  }

  lemma PushKeepsTaskValid(t: Task, e: Edit)
    requires TaskValid(t)
    ensures TaskValid(EditPushed(t, e)) && EditPushed(t, e).processing == t.processing
  {
    if AcceptsEdit(t) {
      AppendedRecord(t.live, e);
    }
  }

  lemma Appended(handled: seq<Byte>, snapshot: seq<Byte>, live: seq<Byte>, more: seq<Byte>)
    ensures handled + snapshot + (live + more) == handled + snapshot + live + more
  {
  }

  lemma PushKeepsHistory(m: Meta, s: State, l: Label)
    requires TaskInv(s) && l.PushEdit? && Step(m, s, l).Some?
    ensures var s' := Step(m, s, l).value;
      TaskInv(s') && History(s') == History(s) + Encode(AcceptedBy(s, l))
  {
    PushKeepsTaskValid(s.task, Asked(l));
    EncodeOne(Asked(l));
    if AcceptsEdit(s.task) {
      Appended(s.handled, s.task.snapshot, s.task.live, RecordBytes(Asked(l)));
    } else {
      assert History(s) + [] == History(s);
    }
  }

  lemma StepKeepsHistory(m: Meta, s: State, l: Label)
    requires TaskInv(s) && Step(m, s, l).Some?
    ensures var s' := Step(m, s, l).value;
      TaskInv(s') && History(s') == History(s) + Encode(AcceptedBy(s, l))
  {
    var s' := Step(m, s, l).value;
    match l
    case PushEdit(_, _, _, _, _, _, _) => PushKeepsHistory(m, s, l);
    case Schedule =>
      assert s.task.snapshot == [];
      assert History(s') == History(s);
    case Complete =>
      assert History(s') == History(s);
    case _ =>
      assert History(s') == History(s);
  }

  lemma EncodeAppend(edits: seq<Edit>, more: seq<Edit>)
    requires |more| <= 1
    ensures Encode(edits + more) == Encode(edits) + Encode(more)
  {
    if more == [] {
      assert edits + more == edits;
    } else {
      assert (edits + more)[..|edits|] == edits;
      assert Encode(more) == Encode([]) + RecordBytes(more[0]);
    }
  }

  /** Handled snapshots, the current one and the live buffer are the accepted edits, in order. */
  lemma {:induction false} EditsSnapshottedExactlyOnce(m: Meta, blocks: seq<Byte>, run: seq<Label>)
    requires Exec(m, Init(blocks), run).Some?
    ensures var s := Exec(m, Init(blocks), run).value;
      TaskInv(s) && s.handled + s.task.snapshot + s.task.live == Encode(Accepted(m, Init(blocks), run))
  {
    if run != [] {
      var init, l := run[..|run| - 1], run[|run| - 1];
      EditsSnapshottedExactlyOnce(m, blocks, init);
      StepKeepsHistory(m, Exec(m, Init(blocks), init).value, l);
      EncodeAppend(Accepted(m, Init(blocks), init), AcceptedBy(Exec(m, Init(blocks), init).value, l));
    }
  }

  // ----- The file holds what was handled.

  lemma {:induction false} CommitInTwo(m: Meta, blocks: seq<Byte>, edits: seq<Edit>, more: seq<Edit>)
    ensures Commit(m, blocks, edits + more) == Commit(m, Commit(m, blocks, edits), more)
    decreases |more|
  {
    if more == [] {
      assert edits + more == edits;
    } else {
      var init := more[..|more| - 1];
      CommitInTwo(m, blocks, edits, init);
      assert (edits + more)[..|edits + more| - 1] == edits + init;
    }
  }

  lemma RecordCountConcat(data: seq<Byte>, more: seq<Byte>)
    requires WholeRecords(data)
    ensures RecordCount(data + more) == RecordCount(data) + RecordCount(more)
  {
    assert |data| == RecordCount(data) * UNIT;
  }

  lemma RecordOfConcat(data: seq<Byte>, more: seq<Byte>, i: nat)
    requires WholeRecords(data) && i < RecordCount(data + more)
    ensures i < RecordCount(data) ==> RecordAt(data + more, i) == RecordAt(data, i)
    ensures i >= RecordCount(data) ==>
      i - RecordCount(data) < RecordCount(more) && RecordAt(data + more, i) == RecordAt(more, i - RecordCount(data))
  {
    RecordCountConcat(data, more);
    var at := RecordCount(data) * UNIT;
    assert |data| == at && |data + more| == at + |more|;
    if i >= RecordCount(data) {
      var k := i - RecordCount(data);
      assert (data + more)[at + k * UNIT..at + k * UNIT + UNIT] == more[k * UNIT..k * UNIT + UNIT];
    }
  }

  lemma RecordsConcat(data: seq<Byte>, more: seq<Byte>)
    requires WholeRecords(data)
    ensures ServerRecords(data + more) == ServerRecords(data) + ServerRecords(more)
  {
    RecordCountConcat(data, more);
    forall i: nat | i < RecordCount(data + more)
      ensures ServerRecords(data + more)[i] == (ServerRecords(data) + ServerRecords(more))[i]
    {
      RecordOfConcat(data, more, i);
    }
  }

  lemma CommitConcat(m: Meta, blocks: seq<Byte>, data: seq<Byte>, more: seq<Byte>)
    requires WholeRecords(data)
    ensures CommitAll(m, blocks, data + more) == CommitAll(m, CommitAll(m, blocks, data), more)
  {
    RecordsConcat(data, more);
    CommitInTwo(m, blocks, ServerRecords(data), ServerRecords(more));
  }

  /** The current snapshot is in the file from the commit on. */
  predicate HasCommitted(pc: Control) {
    !pc.Idle? && !pc.Started?
  }

  function Written(s: State): seq<Byte> {
    if HasCommitted(s.pc) then s.handled + s.task.snapshot else s.handled
  }

  lemma OtherStepsWriteNothing(m: Meta, s: State, l: Label)
    requires TaskInv(s) && Step(m, s, l).Some? && !l.CommitHistory?
    ensures var s' := Step(m, s, l).value; s'.blocks == s.blocks && Written(s') == Written(s)
  {
    assert l.SkipHistory? ==> s.task.snapshot == [];
  }

  lemma CommitWrites(m: Meta, s: State)
    requires Step(m, s, CommitHistory).Some?
    ensures var s' := Step(m, s, CommitHistory).value;
      && s'.blocks == CommitAll(m, s.blocks, s.task.snapshot)
      && Written(s) == s.handled && Written(s') == s.handled + s.task.snapshot
  {
  }

  lemma {:induction false} FileHoldsWritten(m: Meta, blocks: seq<Byte>, run: seq<Label>)
    requires Exec(m, Init(blocks), run).Some?
    ensures var s := Exec(m, Init(blocks), run).value; s.blocks == CommitAll(m, blocks, Written(s))
  {
    if run != [] {
      var init := run[..|run| - 1];
      FileHoldsWritten(m, blocks, init);
      EditsSnapshottedExactlyOnce(m, blocks, init);
      var s, l := Exec(m, Init(blocks), init).value, run[|run| - 1];
      if l.CommitHistory? {
        CommitWrites(m, s);
        CommitConcat(m, blocks, s.handled, s.task.snapshot);
      } else {
        OtherStepsWriteNothing(m, s, l);
      }
    }
  }

  /**
  With the sync task unused and nothing live, the file is the initial one with every accepted edit applied, in order.
  */
  lemma DrainedFileHoldsAcceptedEdits(m: Meta, blocks: seq<Byte>, run: seq<Label>)
    requires Exec(m, Init(blocks), run).Some?
    requires var s := Exec(m, Init(blocks), run).value; s.pc.Idle? && s.task.live == []
    ensures Exec(m, Init(blocks), run).value.blocks == CommitAll(m, blocks, Encode(Accepted(m, Init(blocks), run)))
  {
    FileHoldsWritten(m, blocks, run);
    EditsSnapshottedExactlyOnce(m, blocks, run);
    var s := Exec(m, Init(blocks), run).value;
    assert s.handled + s.task.snapshot + s.task.live == s.handled;
  }

  // ----- Replica agreement.

  /** The history is committed but not yet posted to p. */
  predicate Pending(s: State, p: PlayerId) {
    s.pc.Committed? || (s.pc.Multicasting? && p in s.pc.to)
  }

  function Expected(s: State, p: PlayerId): seq<Message>
    requires p in s.players
  {
    if Pending(s, p) then s.players[p].inbox + [Blocks(s.task.snapshot)] else s.players[p].inbox
  }

  ghost predicate HasLevel(inbox: seq<Message>) {
    exists message :: message in inbox && message.Level?
  }

  /** Initialized, sent the level, and refused no history. */
  ghost predicate UpToDate(player: Player) {
    player.phase.Initialized? && HasLevel(player.inbox) && !player.lost
  }

  /** Reverts of the player's own edits left aside. */
  ghost predicate PlayerAgrees(m: Meta, s: State, p: PlayerId)
    requires p in s.players
  {
    && (HasLevel(s.players[p].inbox) ==> s.players[p].phase.Initialized? || s.players[p].phase.Gone?)
    && (UpToDate(s.players[p]) ==> Agree(m, s.blocks, Expected(s, p), false))
  }

  ghost predicate ControlInv(m: Meta, s: State) {
    && |s.blocks| == BLOCK_FILE_HEADER_SIZE + Volume(m)
    && AllHarmless(m, s.task.live) && AllHarmless(m, s.task.snapshot)
    && (s.pc.Multicasting? ==> Distinct(s.pc.to))
    && (s.pc.Levelling? ==> s.pc.level == s.blocks[..Volume(m)])
  }

  ghost predicate Inv(m: Meta, s: State) {
    TaskInv(s) && ControlInv(m, s) && forall p :: p in s.players ==> PlayerAgrees(m, s, p)
  }

  lemma PushKeepsHarmless(m: Meta, s: State, e: Edit)
    requires TaskInv(s) && AllHarmless(m, s.task.live) && Harmless(m, e)
    ensures AllHarmless(m, EditPushed(s.task, e).live)
  {
    AppendedRecord(s.task.live, e);
  }

  lemma StepKeepsControl(m: Meta, s: State, l: Label)
    requires TaskInv(s) && ControlInv(m, s) && Step(m, s, l).Some? && (l.PushEdit? ==> Harmless(m, Asked(l)))
    ensures ControlInv(m, Step(m, s, l).value)
  {
    if l.PushEdit? {
      PushKeepsHarmless(m, s, Asked(l));
    }
  }

  lemma CommitKeepsPlayer(m: Meta, s: State, p: PlayerId)
    requires MetaValid(m) && ControlInv(m, s) && s.pc.Started? && p in s.players && PlayerAgrees(m, s, p)
    requires Step(m, s, CommitHistory).Some?
    ensures PlayerAgrees(m, Step(m, s, CommitHistory).value, p)
  {
    if UpToDate(s.players[p]) {
      CommitAndDeliver(m, s.blocks, s.players[p].inbox, false, s.task.snapshot);
    }
  }

  lemma LevelKeepsPlayer(m: Meta, s: State, ok: bool, p: PlayerId)
    requires ControlInv(m, s) && p in s.players && PlayerAgrees(m, s, p) && Step(m, s, PostLevel(ok)).Some?
    requires p in Unserved(s) ==> !s.players[p].phase.Connected?
    ensures PlayerAgrees(m, Step(m, s, PostLevel(ok)).value, p)
  {
    if s.pc.to[0] == p && ok {
      DeliverLevel(m, s.blocks, s.players[p].inbox, false);
    }
  }

  lemma MulticastKeepsPlayer(m: Meta, s: State, ok: bool, p: PlayerId)
    requires ControlInv(m, s) && p in s.players && PlayerAgrees(m, s, p) && Step(m, s, PostHistory(ok)).Some?
    ensures PlayerAgrees(m, Step(m, s, PostHistory(ok)).value, p)
  {
    var to := s.pc.to;
    if to[0] == p {
      assert p !in to[1..];
    } else {
      assert p in to <==> p in to[1..];
    }
  }

  /** A revert can come between the commit and the post; the history then overtakes it. */
  lemma RevertKeepsPlayer(m: Meta, s: State, l: Label, p: PlayerId)
    requires ControlInv(m, s) && p in s.players && PlayerAgrees(m, s, p) && l.PushEdit? && Step(m, s, l).Some?
    ensures PlayerAgrees(m, Step(m, s, l).value, p)
  {
    var s' := Step(m, s, l).value;
    if s'.players[p] != s.players[p] && UpToDate(s.players[p]) {
      var inbox, e := s.players[p].inbox, TakenBack(l);
      if Pending(s, p) {
        RevertBeforeHistory(m, s.blocks, inbox, e, s.task.snapshot);
      } else {
        RevertIsIgnored(m, s.blocks, inbox, e);
      }
    }
  }

  lemma RevertBeforeHistory(m: Meta, blocks: seq<Byte>, inbox: seq<Message>, e: Edit, data: seq<Byte>)
    requires Agree(m, blocks, inbox + [Blocks(data)], false)
    ensures Agree(m, blocks, (inbox + [Revert(e)]) + [Blocks(data)], false)
  {
    forall x, y, z | Covered(m, x, y, z)
      ensures CellAt(m, (inbox + [Revert(e)]) + [Blocks(data)], false, x, y, z) == Some(blocks[Offset(m, x, y, z)])
    {
      CellAtSnoc(m, inbox, Blocks(data), false, x, y, z);
      CellAtSnoc(m, inbox, Revert(e), false, x, y, z);
      CellAtSnoc(m, inbox + [Revert(e)], Blocks(data), false, x, y, z);
    }
  }

  lemma StepKeepsPlayer(m: Meta, s: State, l: Label, p: PlayerId)
    requires MetaValid(m) && TaskInv(s) && ControlInv(m, s) && Step(m, s, l).Some? && p in Step(m, s, l).value.players
    requires p in s.players ==> PlayerAgrees(m, s, p)
    requires p in s.players && p in Unserved(s) ==> !s.players[p].phase.Connected?
    ensures PlayerAgrees(m, Step(m, s, l).value, p)
  {
    match l
    case CommitHistory => CommitKeepsPlayer(m, s, p);
    case PostHistory(ok) => MulticastKeepsPlayer(m, s, ok, p);
    case PostLevel(ok) => LevelKeepsPlayer(m, s, ok, p);
    case PushEdit(_, _, _, _, _, _, _) => RevertKeepsPlayer(m, s, l, p);
    case _ => QuietStepKeepsPlayer(m, s, l, p);
  }

  /** The steps that commit and post nothing. */
  lemma QuietStepKeepsPlayer(m: Meta, s: State, l: Label, p: PlayerId)
    requires !l.CommitHistory? && !l.PostHistory? && !l.PostLevel? && !l.PushEdit?
    requires TaskInv(s) && Step(m, s, l).Some? && p in Step(m, s, l).value.players
    requires p in s.players ==> PlayerAgrees(m, s, p)
    ensures PlayerAgrees(m, Step(m, s, l).value, p)
  {
    match l
    case Join(q) =>
    case Leave(q) =>
    case Stray(q) =>
    case SelectPlayers(order) =>
    case EndMulticast =>
    case _ =>
  }

  lemma {:induction false} InvHolds(m: Meta, blocks: seq<Byte>, run: seq<Label>)
    requires MetaValid(m) && |blocks| == BLOCK_FILE_HEADER_SIZE + Volume(m)
    requires Exec(m, Init(blocks), run).Some? && HarmlessRun(m, run)
    ensures Inv(m, Exec(m, Init(blocks), run).value)
  {
    if run != [] {
      var init, l := run[..|run| - 1], run[|run| - 1];
      InvHolds(m, blocks, init);
      var s := Exec(m, Init(blocks), init).value;
      StepKeepsHistory(m, s, l);
      StepKeepsControl(m, s, l);
      JoinersServedInOrder(m, blocks, init);
      JoinedOnce(m, blocks, init);
      forall p | p in Step(m, s, l).value.players ensures PlayerAgrees(m, Step(m, s, l).value, p) {
        StepKeepsPlayer(m, s, l, p);
      }
    }
  }

  /** The sync task is unused, and p has the level and was refused no history. */
  ghost predicate Settled(s: State, p: PlayerId) {
    s.pc.Idle? && p in s.players && UpToDate(s.players[p])
  }

  /**
  Whenever the sync task is unused, an initialized client that has the level and was refused no history shows at
  every covered cell the block in the server's file, but for reverts of its own refused edits: it shows the server's
  block exactly when it has no outstanding revert of the cell, or one to that very block.
  */
  lemma ReplicaAgreement(m: Meta, blocks: seq<Byte>, run: seq<Label>, p: PlayerId, x: nat, y: nat, z: nat)
    requires MetaValid(m) && |blocks| == BLOCK_FILE_HEADER_SIZE + Volume(m)
    requires Exec(m, Init(blocks), run).Some? && HarmlessRun(m, run) && Covered(m, x, y, z)
    requires Settled(Exec(m, Init(blocks), run).value, p)
    ensures var s := Exec(m, Init(blocks), run).value;
      && |s.blocks| == |blocks|
      && var block, inbox := s.blocks[Offset(m, x, y, z)], s.players[p].inbox;
      && var revert := OutstandingRevert(m, inbox, x, y, z);
      && CellAt(m, inbox, true, x, y, z) == (if revert.Some? then revert else Some(block))
      && (CellAt(m, inbox, true, x, y, z) == Some(block) <==> revert.None? || revert.value == block)
  {
    InvHolds(m, blocks, run);
    var s := Exec(m, Init(blocks), run).value;
    assert PlayerAgrees(m, s, p);
    ShownCell(m, s.players[p].inbox, x, y, z);
  }

  // ----- Reverts are refused edits.

  /** What p's refused edits of a run were answered with. */
  ghost function Refused(m: Meta, s: State, run: seq<Label>, p: PlayerId): seq<Edit>
    requires Exec(m, s, run).Some?
  {
    if run == [] then []
    else
      var init, l := run[..|run| - 1], run[|run| - 1];
      Refused(m, s, init, p) +
      if l.PushEdit? && l.p == p && !AcceptsEdit(Exec(m, s, init).value.task) && l.sent then [TakenBack(l)] else []
  }

  ghost predicate RevertsAmong(inbox: seq<Message>, refused: seq<Edit>) {
    forall message :: message in inbox && message.Revert? ==> message.e in refused
  }

  lemma StepKeepsReverts(m: Meta, s: State, l: Label, p: PlayerId, refused: seq<Edit>)
    requires Step(m, s, l).Some? && p in Step(m, s, l).value.players
    requires p in s.players ==> RevertsAmong(s.players[p].inbox, refused)
    ensures RevertsAmong(Step(m, s, l).value.players[p].inbox, refused +
              if l.PushEdit? && l.p == p && !AcceptsEdit(s.task) && l.sent then [TakenBack(l)] else [])
  {
  }

  lemma {:induction false} RevertsAreRefusals(m: Meta, blocks: seq<Byte>, run: seq<Label>, p: PlayerId)
    requires Exec(m, Init(blocks), run).Some? && p in Exec(m, Init(blocks), run).value.players
    ensures RevertsAmong(Exec(m, Init(blocks), run).value.players[p].inbox, Refused(m, Init(blocks), run, p))
  {
    if run != [] {
      var init := run[..|run| - 1];
      var s := Exec(m, Init(blocks), init).value;
      if p in s.players {
        RevertsAreRefusals(m, blocks, init, p);
      }
      StepKeepsReverts(m, s, run[|run| - 1], p, Refused(m, Init(blocks), init, p));
    }
  }

  lemma {:induction false} NoRevertOutstanding(m: Meta, inbox: seq<Message>, refused: seq<Edit>, x: nat, y: nat, z: nat)
    requires RevertsAmong(inbox, refused) && forall e :: e in refused ==> !Touches(e, x, y, z)
    ensures OutstandingRevert(m, inbox, x, y, z).None?
    decreases |inbox|
  {
    if inbox != [] {
      NoRevertOutstanding(m, inbox[..|inbox| - 1], refused, x, y, z);
      assert inbox[|inbox| - 1] in inbox;
    }
  }

  /** A client agrees with the server at every covered cell of which it had no edit refused. */
  lemma UnrefusedCellsAgree(m: Meta, blocks: seq<Byte>, run: seq<Label>, p: PlayerId, x: nat, y: nat, z: nat)
    requires MetaValid(m) && |blocks| == BLOCK_FILE_HEADER_SIZE + Volume(m)
    requires Exec(m, Init(blocks), run).Some? && HarmlessRun(m, run) && Covered(m, x, y, z)
    requires Settled(Exec(m, Init(blocks), run).value, p)
    requires forall e :: e in Refused(m, Init(blocks), run, p) ==> !Touches(e, x, y, z)
    ensures var s := Exec(m, Init(blocks), run).value;
      |s.blocks| == |blocks| && CellAt(m, s.players[p].inbox, true, x, y, z) == Some(s.blocks[Offset(m, x, y, z)])
  {
    ReplicaAgreement(m, blocks, run, p, x, y, z);
    RevertsAreRefusals(m, blocks, run, p);
    var inbox := Exec(m, Init(blocks), run).value.players[p].inbox;
    NoRevertOutstanding(m, inbox, Refused(m, Init(blocks), run, p), x, y, z);
  }

  // ----- A run with a refused edit.

  lemma ExecSnoc(m: Meta, blocks: seq<Byte>, run: seq<Label>, l: Label, s: State, s': State)
    requires Exec(m, Init(blocks), run) == Some(s) && Step(m, s, l) == Some(s')
    requires HarmlessRun(m, run) && (l.PushEdit? ==> Harmless(m, Asked(l)))
    ensures Exec(m, Init(blocks), run + [l]) == Some(s') && HarmlessRun(m, run + [l])
  {
    assert (run + [l])[..|run|] == run;
  }

  /** p comes in. */
  lemma JoinSteps(m: Meta, s0: State, p: PlayerId) returns (s1: State, s2: State)
    requires s0.players == map[] && s0.task == NEW_TASK
    ensures Step(m, s0, Connect(p)) == Some(s1) && Step(m, s1, Join(p)) == Some(s2)
    ensures s2 == s0.(players := map[p := Player(Waiting, [], false)], task := NEW_TASK.(queue := [p]))
  {
    s1 := s0.(players := map[p := Player(Connected, [], false)]);
    s2 := s1.(players := map[p := Player(Waiting, [], false)], task := NEW_TASK.(queue := [p]));
    assert s0.players[p := Player(Connected, [], false)] == s1.players;
    assert s1.task.queue + [p] == [p] && s1.players[p := s2.players[p]] == s2.players;
  }

  /** The sync task runs for p alone: up to the level, and from there on. */
  lemma LoneSync(m: Meta, s2: State, p: PlayerId) returns (s3: State, s4: State, s5: State)
    requires |s2.blocks| == BLOCK_FILE_HEADER_SIZE + Volume(m) && s2.pc == Idle && s2.task == NEW_TASK.(queue := [p])
    ensures Step(m, s2, Schedule) == Some(s3) && Step(m, s3, SkipHistory) == Some(s4)
        && Step(m, s4, SerializeLevel) == Some(s5)
    ensures s5 == s2.(task := Task(true, [], [], [], [p]), pc := Levelling(s2.blocks[..Volume(m)], [p]))
  {
    s3 := s2.(task := Task(true, [], [], [], [p]), pc := Started);
    s4 := s3.(pc := BeforeLevel);
    s5 := s4.(pc := Levelling(s2.blocks[..Volume(m)], [p]));
  }

  lemma LoneLevel(m: Meta, s5: State, p: PlayerId, level: seq<Byte>) returns (s6: State, s7: State, s8: State)
    requires s5.pc == Levelling(level, [p]) && s5.task == Task(true, [], [], [], [p])
    requires s5.players == map[p := Player(Waiting, [], false)]
    ensures Step(m, s5, PostLevel(true)) == Some(s6) && Step(m, s6, EndLevel) == Some(s7)
        && Step(m, s7, Complete) == Some(s8)
    ensures s8 == s5.(players := map[p := Player(Initialized, [Level(level)], false)], task := NEW_TASK, pc := Idle)
  {
    var player := Player(Initialized, [Level(level)], false);
    assert [] + [Level(level)] == [Level(level)] && s5.pc.to[1..] == [];
    s6 := s5.(players := map[p := player], pc := Levelling(level, []));
    assert s5.players[p := player] == s6.players;
    s7 := s6.(pc := Finished);
    s8 := s7.(task := NEW_TASK, pc := Idle);
    assert s7.handled + [] == s8.handled;
  }

  /** p comes in and gets the level. */
  lemma LoneLogin(m: Meta, blocks: seq<Byte>, p: PlayerId) returns (run: seq<Label>, s: State)
    requires |blocks| == BLOCK_FILE_HEADER_SIZE + Volume(m)
    ensures Exec(m, Init(blocks), run) == Some(s) && HarmlessRun(m, run)
    ensures s == Init(blocks).(players := map[p := Player(Initialized, [Level(blocks[..Volume(m)])], false)])
  {
    var s1, s2 := JoinSteps(m, Init(blocks), p);
    run := [];
    ExecSnoc(m, blocks, run, Connect(p), Init(blocks), s1);
    run := run + [Connect(p)];
    ExecSnoc(m, blocks, run, Join(p), s1, s2);
    run := run + [Join(p)];
    var s3, s4, s5 := LoneSync(m, s2, p);
    var s6, s7, s8 := LoneLevel(m, s5, p, blocks[..Volume(m)]);
    ExecSnoc(m, blocks, run, Schedule, s2, s3);
    run := run + [Schedule];
    ExecSnoc(m, blocks, run, SkipHistory, s3, s4);
    run := run + [SkipHistory];
    ExecSnoc(m, blocks, run, SerializeLevel, s4, s5);
    run := run + [SerializeLevel];
    ExecSnoc(m, blocks, run, PostLevel(true), s5, s6);
    run := run + [PostLevel(true)];
    ExecSnoc(m, blocks, run, EndLevel, s6, s7);
    run := run + [EndLevel];
    ExecSnoc(m, blocks, run, Complete, s7, s8);
    run, s := run + [Complete], s8;
  }

  /** n edits are pushed, none of them committed yet. */
  lemma {:induction false} EditsPile(m: Meta, blocks: seq<Byte>, before: seq<Label>, s0: State, l: Label, n: nat)
    returns (run: seq<Label>, s: State)
    requires Exec(m, Init(blocks), before) == Some(s0) && HarmlessRun(m, before) && s0.task.live == []
    requires l.PushEdit? && l.p in s0.players && Harmless(m, Asked(l)) && n * UNIT <= BLOCK_HISTORY_CAPACITY
    ensures Exec(m, Init(blocks), run) == Some(s) && HarmlessRun(m, run)
    ensures |s.task.live| == n * UNIT && s == s0.(task := s0.task.(live := s.task.live))
  {
    if n == 0 {
      run, s := before, s0;
    } else {
      var run1, s1 := EditsPile(m, blocks, before, s0, l, n - 1);
      s := s1.(task := s1.task.(live := s1.task.live + RecordBytes(Asked(l))));
      ExecSnoc(m, blocks, run1, l, s1, s);
      run := run1 + [l];
    }
  }

  /**
  A client that sets or breaks a block when the history is full is sent the wrong block back, and shows it though
  the server's file has another: for every world, every covered cell, and every such edit whose revert differs.
  */
  lemma RefusedEditSplits(m: Meta, blocks: seq<Byte>, l: Label) returns (run: seq<Label>)
    requires MetaValid(m) && |blocks| == BLOCK_FILE_HEADER_SIZE + Volume(m)
    requires l.PushEdit? && l.sent && Covered(m, l.x, l.y, l.z) && TakenBack(l).id != blocks[Offset(m, l.x, l.y, l.z)]
    ensures Exec(m, Init(blocks), run).Some? && HarmlessRun(m, run)
    ensures var s := Exec(m, Init(blocks), run).value;
      && Settled(s, l.p) && s.blocks == blocks
      && CellAt(m, s.players[l.p].inbox, true, l.x, l.y, l.z) == Some(TakenBack(l).id)
  {
    var run0, s0 := LoneLogin(m, blocks, l.p);
    var run1, s1 := EditsPile(m, blocks, run0, s0, l, 1024);
    var player, inbox := s1.players[l.p], s1.players[l.p].inbox;
    var s := WithPlayer(s1, l.p, Reverted(player, TakenBack(l)));
    ExecSnoc(m, blocks, run1, l, s1, s);
    run := run1 + [l];
    DeliverLevel(m, blocks, [], true);
    assert inbox == [] + [Level(blocks[..Volume(m)])];
    CellAtSnoc(m, inbox, Revert(TakenBack(l)), true, l.x, l.y, l.z);
  }

  // ----- What comes first.

  /** Each history has a level before it. */
  ghost predicate LevelFirst(inbox: seq<Message>) {
    forall i :: 0 <= i < |inbox| && inbox[i].Blocks? ==> HasLevel(inbox[..i])
  }

  lemma LevelFirstSnoc(inbox: seq<Message>, message: Message)
    ensures LevelFirst(inbox + [message]) <==> LevelFirst(inbox) && (message.Blocks? ==> HasLevel(inbox))
  {
    var inbox' := inbox + [message];
    assert inbox'[..|inbox|] == inbox && inbox'[|inbox|] == message;
    assert forall i :: 0 <= i < |inbox| ==> inbox'[i] == inbox[i] && inbox'[..i] == inbox[..i];
  }

  /** A history is posted to p, which has no level. */
  ghost predicate PostsEarly(s: State, l: Label, p: PlayerId) {
    && l.PostHistory? && l.ok && s.pc.Multicasting? && s.pc.to != [] && s.pc.to[0] == p
    && p in s.players && !HasLevel(s.players[p].inbox)
  }

  ghost predicate EarlyHistory(m: Meta, s: State, run: seq<Label>, p: PlayerId)
    requires Exec(m, s, run).Some?
  {
    run != [] &&
    var init, l := run[..|run| - 1], run[|run| - 1];
    EarlyHistory(m, s, init, p) || PostsEarly(Exec(m, s, init).value, l, p)
  }

  /** What a step adds to an inbox. */
  function Posted(s: State, s': State, p: PlayerId): seq<Message>
    requires p in s.players && p in s'.players
  {
    if |s'.players[p].inbox| > |s.players[p].inbox| then [s'.players[p].inbox[|s.players[p].inbox|]] else []
  }

  lemma StepPosts(m: Meta, s: State, l: Label, p: PlayerId)
    requires Step(m, s, l).Some? && p in s.players
    ensures var s' := Step(m, s, l).value;
      && p in s'.players && s'.players[p].inbox == s.players[p].inbox + Posted(s, s', p)
      && (forall message :: message in Posted(s, s', p) && message.Blocks? ==>
            l.PostHistory? && l.ok && s.pc.Multicasting? && s.pc.to != [] && s.pc.to[0] == p)
      && (l.PostHistory? && l.ok && s.pc.to[0] == p ==> Posted(s, s', p) == [Blocks(s.task.snapshot)])
  {
    var s' := Step(m, s, l).value;
    match l
    case PostHistory(ok) => assert s.players[p].inbox + [] == s.players[p].inbox;
    case PostLevel(ok) => assert s.players[p].inbox + [] == s.players[p].inbox;
    case PushEdit(_, _, _, _, _, _, _) => assert s.players[p].inbox + [] == s.players[p].inbox;
    case _ => assert s.players[p].inbox + [] == s.players[p].inbox;
  }

  lemma {:induction false} UnknownHasNoEarlyHistory(m: Meta, blocks: seq<Byte>, run: seq<Label>, p: PlayerId)
    requires Exec(m, Init(blocks), run).Some? && p !in Exec(m, Init(blocks), run).value.players
    ensures !EarlyHistory(m, Init(blocks), run, p)
  {
    if run != [] {
      var init := run[..|run| - 1];
      assert p !in Exec(m, Init(blocks), init).value.players;
      UnknownHasNoEarlyHistory(m, blocks, init, p);
    }
  }

  /** In every run each history a client is sent has the level before it, unless one was posted to it too early. */
  lemma {:induction false} LevelPrecedesHistoryIff(m: Meta, blocks: seq<Byte>, run: seq<Label>, p: PlayerId)
    requires Exec(m, Init(blocks), run).Some? && p in Exec(m, Init(blocks), run).value.players
    ensures LevelFirst(Exec(m, Init(blocks), run).value.players[p].inbox) <==> !EarlyHistory(m, Init(blocks), run, p)
  {
    if run != [] {
      var init, l := run[..|run| - 1], run[|run| - 1];
      var s, s' := Exec(m, Init(blocks), init).value, Exec(m, Init(blocks), run).value;
      if p in s.players {
        LevelPrecedesHistoryIff(m, blocks, init, p);
        StepPosts(m, s, l, p);
        var posted := Posted(s, s', p);
        if posted != [] {
          assert posted == [posted[0]] && posted[0] in posted;
          LevelFirstSnoc(s.players[p].inbox, posted[0]);
        } else {
          assert s'.players[p].inbox == s.players[p].inbox;
        }
      } else {
        assert s'.players[p].inbox == [];
        UnknownHasNoEarlyHistory(m, blocks, init, p);
      }
    }
  }

  /** Whoever may still be sent a history has had the level. */
  ghost predicate HadLevel(s: State, p: PlayerId)
    requires p in s.players
  {
    s.players[p].phase.Initialized? || (s.pc.Multicasting? && p in s.pc.to) ==> HasLevel(s.players[p].inbox)
  }

  ghost predicate TargetsKnown(s: State) {
    s.pc.Multicasting? ==> forall p :: p in s.pc.to ==> p in s.players
  }

  lemma StepKeepsTargets(m: Meta, s: State, l: Label)
    requires TargetsKnown(s) && Step(m, s, l).Some?
    ensures TargetsKnown(Step(m, s, l).value)
  {
  }

  lemma {:induction false} TargetsAreKnown(m: Meta, blocks: seq<Byte>, run: seq<Label>)
    requires Exec(m, Init(blocks), run).Some?
    ensures TargetsKnown(Exec(m, Init(blocks), run).value)
  {
    if run != [] {
      TargetsAreKnown(m, blocks, run[..|run| - 1]);
      StepKeepsTargets(m, Exec(m, Init(blocks), run[..|run| - 1]).value, run[|run| - 1]);
    }
  }

  lemma StepKeepsHadLevel(m: Meta, s: State, l: Label, p: PlayerId)
    requires TargetsKnown(s) && Step(m, s, l).Some? && p in Step(m, s, l).value.players && l != Stray(p)
    requires p in s.players ==> HadLevel(s, p)
    ensures HadLevel(Step(m, s, l).value, p)
  {
    var s' := Step(m, s, l).value;
    if p in s.players {
      StepPosts(m, s, l, p);
      assert forall message :: message in s.players[p].inbox ==> message in s'.players[p].inbox;
    }
    match l
    case PostHistory(ok) =>
      assert p in s.pc.to[1..] ==> p in s.pc.to;
    case SelectPlayers(order) =>
      assert p in order ==> s.players[p].phase.Initialized?;
    case PostLevel(ok) =>
      if p in s.players && p == s.pc.to[0] && ok {
        assert Level(s.pc.level) in s'.players[p].inbox;
      }
    case _ =>
  }

  /**
  The order the protocol is for: a client never moved on by a stray transition is sent the level before any
  history, in every interleaving.
  */
  lemma {:induction false} LevelPrecedesHistory(m: Meta, blocks: seq<Byte>, run: seq<Label>, p: PlayerId)
    requires Exec(m, Init(blocks), run).Some? && Stray(p) !in run && p in Exec(m, Init(blocks), run).value.players
    ensures LevelFirst(Exec(m, Init(blocks), run).value.players[p].inbox)
    ensures HadLevel(Exec(m, Init(blocks), run).value, p)
  {
    if run != [] {
      var init, l := run[..|run| - 1], run[|run| - 1];
      var s, s' := Exec(m, Init(blocks), init).value, Exec(m, Init(blocks), run).value;
      TargetsAreKnown(m, blocks, init);
      if p in s.players {
        LevelPrecedesHistory(m, blocks, init, p);
        StepPosts(m, s, l, p);
        var posted := Posted(s, s', p);
        if posted != [] {
          assert posted == [posted[0]] && posted[0] in posted;
          LevelFirstSnoc(s.players[p].inbox, posted[0]);
        } else {
          assert s'.players[p].inbox == s.players[p].inbox;
        }
      } else {
        assert s'.players[p].inbox == [];
      }
      StepKeepsHadLevel(m, s, l, p);
    }
  }

  /** The first thing sent to p is a revert, or a history. */
  predicate PostsFirst(s: State, l: Label, p: PlayerId) {
    && p in s.players && s.players[p].inbox == []
    && match l
       case PushEdit(author, _, _, _, _, _, sent) => author == p && sent && !AcceptsEdit(s.task)
       case PostHistory(ok) => ok && s.pc.Multicasting? && s.pc.to != [] && s.pc.to[0] == p
       case _ => false
  }

  ghost predicate EarlyPost(m: Meta, s: State, run: seq<Label>, p: PlayerId)
    requires Exec(m, s, run).Some?
  {
    run != [] &&
    var init, l := run[..|run| - 1], run[|run| - 1];
    EarlyPost(m, s, init, p) || PostsFirst(Exec(m, s, init).value, l, p)
  }

  predicate StartsWithLevel(inbox: seq<Message>) {
    inbox == [] || inbox[0].Level?
  }

  lemma StepKeepsFirst(m: Meta, s: State, l: Label, p: PlayerId)
    requires Step(m, s, l).Some? && p in s.players
    ensures p in Step(m, s, l).value.players
    ensures StartsWithLevel(Step(m, s, l).value.players[p].inbox) <==>
            StartsWithLevel(s.players[p].inbox) && !PostsFirst(s, l, p)
  {
  }

  lemma NewcomersInbox(m: Meta, s: State, l: Label, p: PlayerId)
    requires Step(m, s, l).Some? && p !in s.players && p in Step(m, s, l).value.players
    ensures Step(m, s, l).value.players[p].inbox == [] && !PostsFirst(s, l, p) && !PostsEarly(s, l, p)
  {
  }

  lemma {:induction false} UnknownHasNoEarlyPost(m: Meta, blocks: seq<Byte>, run: seq<Label>, p: PlayerId)
    requires Exec(m, Init(blocks), run).Some? && p !in Exec(m, Init(blocks), run).value.players
    ensures !EarlyPost(m, Init(blocks), run, p)
  {
    if run != [] {
      var init := run[..|run| - 1];
      assert p !in Exec(m, Init(blocks), init).value.players;
      UnknownHasNoEarlyPost(m, blocks, init, p);
    }
  }

  /** The first post a client accepts is a level, exactly when no revert and no history came to it before everything. */
  lemma {:induction false} FirstPostIsLevelIff(m: Meta, blocks: seq<Byte>, run: seq<Label>, p: PlayerId)
    requires Exec(m, Init(blocks), run).Some? && p in Exec(m, Init(blocks), run).value.players
    ensures StartsWithLevel(Exec(m, Init(blocks), run).value.players[p].inbox) <==>
        !EarlyPost(m, Init(blocks), run, p)
  {
    if run != [] {
      var init := run[..|run| - 1];
      var s := Exec(m, Init(blocks), init).value;
      if p in s.players {
        FirstPostIsLevelIff(m, blocks, init, p);
        StepKeepsFirst(m, s, run[|run| - 1], p);
      } else {
        UnknownHasNoEarlyPost(m, blocks, init, p);
        NewcomersInbox(m, s, run[|run| - 1], p);
      }
    }
  }

  /** A waiting player is moved on, and an edit is accepted. */
  lemma StraySteps(m: Meta, s2: State, p: PlayerId, l: Label) returns (s3: State, s4: State)
    requires s2.players == map[p := Player(Waiting, [], false)] && s2.task == NEW_TASK.(queue := [p])
    requires l.PushEdit? && l.p == p
    ensures Step(m, s2, Stray(p)) == Some(s3) && Step(m, s3, l) == Some(s4)
    ensures s4 == s2.(players := map[p := Player(Initialized, [], false)],
                      task := NEW_TASK.(queue := [p], live := RecordBytes(Asked(l))))
  {
    s3 := s2.(players := map[p := Player(Initialized, [], false)]);
    assert s2.players[p := Player(Initialized, [], false)] == s3.players;
    s4 := s3.(task := NEW_TASK.(queue := [p], live := RecordBytes(Asked(l))));
    assert [] + RecordBytes(Asked(l)) == RecordBytes(Asked(l));
  }

  /** The sync task commits a record. */
  lemma LoneCommit(m: Meta, s4: State, p: PlayerId, data: seq<Byte>) returns (s5: State, s6: State)
    requires s4.pc.Idle? && s4.task == NEW_TASK.(queue := [p], live := data) && RecordCount(data) == 1
    ensures Step(m, s4, Schedule) == Some(s5) && Step(m, s5, CommitHistory) == Some(s6)
    ensures s6.players == s4.players && s6.pc.Committed? && s6.task.snapshot == data
  {
    s5 := s4.(task := Scheduled(s4.task), pc := Started);
    s6 := s5.(blocks := CommitAll(m, s5.blocks, data), pc := Committed);
  }

  /** It posts the record to its only player. */
  lemma LoneMulticast(m: Meta, s6: State, p: PlayerId, data: seq<Byte>) returns (s7: State, s8: State)
    requires s6.pc.Committed? && s6.task.snapshot == data && s6.players == map[p := Player(Initialized, [], false)]
    ensures Step(m, s6, SelectPlayers([p])) == Some(s7) && Step(m, s7, PostHistory(true)) == Some(s8)
    ensures s8.players == map[p := Player(Initialized, [Blocks(data)], false)]
  {
    s7 := s6.(pc := Multicasting([p]));
    assert [] + [Blocks(data)] == [Blocks(data)];
    s8 := s7.(players := map[p := Player(Initialized, [Blocks(data)], false)], pc := Multicasting([p][1..]));
    assert s7.players[p := Player(Initialized, [Blocks(data)], false)] == s8.players;
  }

  /** For every world and every edit: a player moved on by a stray transition is sent the edit, and no level. */
  lemma StrayPlayerGetsHistoryFirst(m: Meta, blocks: seq<Byte>, l: Label) returns (run: seq<Label>)
    requires l.PushEdit? && Harmless(m, Asked(l))
    ensures Exec(m, Init(blocks), run).Some? && HarmlessRun(m, run)
    ensures var players := Exec(m, Init(blocks), run).value.players;
      l.p in players && players[l.p].inbox == [Blocks(RecordBytes(Asked(l)))] && !LevelFirst(players[l.p].inbox)
  {
    var p := l.p;
    OneRecord(Asked(l));
    var s1, s2 := JoinSteps(m, Init(blocks), p);
    var s3, s4 := StraySteps(m, s2, p, l);
    var s5, s6 := LoneCommit(m, s4, p, RecordBytes(Asked(l)));
    var s7, s8 := LoneMulticast(m, s6, p, RecordBytes(Asked(l)));
    ExecSnoc(m, blocks, [], Connect(p), Init(blocks), s1);
    run := [] + [Connect(p)];
    ExecSnoc(m, blocks, run, Join(p), s1, s2);
    run := run + [Join(p)];
    ExecSnoc(m, blocks, run, Stray(p), s2, s3);
    run := run + [Stray(p)];
    ExecSnoc(m, blocks, run, l, s3, s4);
    run := run + [l];
    ExecSnoc(m, blocks, run, Schedule, s4, s5);
    run := run + [Schedule];
    ExecSnoc(m, blocks, run, CommitHistory, s5, s6);
    run := run + [CommitHistory];
    ExecSnoc(m, blocks, run, SelectPlayers([p]), s6, s7);
    run := run + [SelectPlayers([p])];
    ExecSnoc(m, blocks, run, PostHistory(true), s7, s8);
    run := run + [PostHistory(true)];
    assert s8.players[p].inbox[..0] == [] && !HasLevel([]);
  }

  // ----- Every player who joins is served once.

  /** The players queued for the level in a run, and those it was posted to, oldest first. */
  ghost function Joined(m: Meta, s: State, run: seq<Label>): seq<PlayerId>
    requires Exec(m, s, run).Some?
  {
    if run == [] then []
    else Joined(m, s, run[..|run| - 1]) + if run[|run| - 1].Join? then [run[|run| - 1].p] else []
  }

  function ServedBy(s: State, l: Label): seq<PlayerId> {
    if l.PostLevel? && s.pc.Levelling? && s.pc.to != [] then [s.pc.to[0]] else []
  }

  ghost function Served(m: Meta, s: State, run: seq<Label>): seq<PlayerId>
    requires Exec(m, s, run).Some?
  {
    if run == [] then []
    else Served(m, s, run[..|run| - 1]) + ServedBy(Exec(m, s, run[..|run| - 1]).value, run[|run| - 1])
  }

  /** Swapped out and not yet posted to, then those still in the queue. */
  function Unserved(s: State): seq<PlayerId> {
    (match s.pc
     case Levelling(_, to) => to
     case Finished => []
     case _ => s.task.waiting) + s.task.queue
  }

  lemma PostServesFirst(m: Meta, s: State, ok: bool)
    requires Step(m, s, PostLevel(ok)).Some?
    ensures Unserved(s) == ServedBy(s, PostLevel(ok)) + Unserved(Step(m, s, PostLevel(ok)).value)
  {
    assert s.pc.to == [s.pc.to[0]] + s.pc.to[1..];
  }

  lemma OtherStepsServeNobody(m: Meta, s: State, l: Label)
    requires (s.pc.Idle? ==> s.task.waiting == []) && Step(m, s, l).Some? && !l.Join? && !l.PostLevel?
    ensures Unserved(Step(m, s, l).value) == Unserved(s)
  {
  }

  lemma StepKeepsUnserved(m: Meta, s: State, l: Label)
    requires (s.pc.Idle? ==> s.task.waiting == []) && Step(m, s, l).Some?
    ensures Unserved(s) + (if l.Join? then [l.p] else []) == ServedBy(s, l) + Unserved(Step(m, s, l).value)
  {
    match l
    case Join(p) =>
      assert Unserved(Step(m, s, l).value) == Unserved(s) + [p];
    case PostLevel(ok) =>
      PostServesFirst(m, s, ok);
    case _ =>
      OtherStepsServeNobody(m, s, l);
  }

  lemma Reassociate(a: seq<PlayerId>, b: seq<PlayerId>, c: seq<PlayerId>, d: seq<PlayerId>, e: seq<PlayerId>)
    requires b + c == d + e
    ensures (a + b) + c == (a + d) + e
  {
    assert (a + b) + c == a + (b + c);
    assert (a + d) + e == a + (d + e);
  }

  /**
  The players the level was posted to, then those swapped out, then the queue, are the players in the order they
  joined.
  */
  lemma {:induction false} JoinersServedInOrder(m: Meta, blocks: seq<Byte>, run: seq<Label>)
    requires Exec(m, Init(blocks), run).Some?
    ensures Joined(m, Init(blocks), run) == Served(m, Init(blocks), run) + Unserved(Exec(m, Init(blocks), run).value)
  {
    if run != [] {
      var init, l := run[..|run| - 1], run[|run| - 1];
      var s := Exec(m, Init(blocks), init).value;
      JoinersServedInOrder(m, blocks, init);
      EditsSnapshottedExactlyOnce(m, blocks, init);
      StepKeepsUnserved(m, s, l);
      Reassociate(Served(m, Init(blocks), init), Unserved(s), if l.Join? then [l.p] else [],
                  ServedBy(s, l), Unserved(Step(m, s, l).value));
    }
  }

  lemma {:induction false} JoinedOnce(m: Meta, blocks: seq<Byte>, run: seq<Label>)
    requires Exec(m, Init(blocks), run).Some?
    ensures Distinct(Joined(m, Init(blocks), run))
    ensures var s := Exec(m, Init(blocks), run).value;
      forall p :: p in Joined(m, Init(blocks), run) ==> p in s.players && !s.players[p].phase.Connected?
  {
    if run != [] {
      var init := run[..|run| - 1];
      JoinedOnce(m, blocks, init);
      StepKeepsJoined(m, Exec(m, Init(blocks), init).value, run[|run| - 1], Joined(m, Init(blocks), init));
    }
  }

  lemma StepKeepsJoined(m: Meta, s: State, l: Label, joined: seq<PlayerId>)
    requires Step(m, s, l).Some? && Distinct(joined)
    requires forall p :: p in joined ==> p in s.players && !s.players[p].phase.Connected?
    ensures var joined', s' := joined + (if l.Join? then [l.p] else []), Step(m, s, l).value;
      Distinct(joined') && forall p :: p in joined' ==> p in s'.players && !s'.players[p].phase.Connected?
  {
  }

  /** Each player who joined has been posted the level once, or is still to be, and never both. */
  lemma EachJoinerServedOnce(m: Meta, blocks: seq<Byte>, run: seq<Label>)
    requires Exec(m, Init(blocks), run).Some?
    ensures var served, unserved := Served(m, Init(blocks), run), Unserved(Exec(m, Init(blocks), run).value);
      && Distinct(served) && Distinct(unserved)
      && (forall p :: p in Joined(m, Init(blocks), run) <==> p in served || p in unserved)
      && (forall p :: p in served ==> p !in unserved)
  {
    JoinersServedInOrder(m, blocks, run);
    JoinedOnce(m, blocks, run);
    DistinctParts(Served(m, Init(blocks), run), Unserved(Exec(m, Init(blocks), run).value));
  }

  lemma DistinctParts(a: seq<PlayerId>, b: seq<PlayerId>)
    requires Distinct(a + b)
    ensures Distinct(a) && Distinct(b) && forall p :: p in a ==> p !in b
  {
    var both := a + b;
    forall i, j | 0 <= i < |a| && 0 <= j < |b| ensures a[i] != b[j] {
      assert both[i] != both[|a| + j];
    }
    forall i, j | 0 <= i < j < |a| ensures a[i] != a[j] {
      assert both[i] != both[j];
    }
    forall i, j | 0 <= i < j < |b| ensures b[i] != b[j] {
      assert both[|a| + i] != both[|a| + j];
    }
  }

  // ----- sync_block itself, with nobody else moving meanwhile.

  type Players = map<PlayerId, Player>

  function AllHistoryPosted(players: Players, data: seq<Byte>, accepting: set<PlayerId>): Players {
    map p | p in players ::
      if players[p].phase.Initialized? then HistoryPosted(players[p], data, p in accepting) else players[p]
  }

  function AllLevelPosted(players: Players, level: seq<Byte>, waiting: seq<PlayerId>, accepting: set<PlayerId>)
    : Players
  {
    map p | p in players :: if p in waiting then LevelPosted(players[p], level, p in accepting) else players[p]
  }

  ghost predicate AllAgree(m: Meta, blocks: seq<Byte>, players: Players, own: bool) {
    forall p :: p in players && UpToDate(players[p]) ==> Agree(m, blocks, players[p].inbox, own)
  }

  lemma HistoryKeepsAgreement(m: Meta, blocks: seq<Byte>, players: Players, own: bool, data: seq<Byte>,
                              accepting: set<PlayerId>)
    requires MetaValid(m) && AllAgree(m, blocks, players, own) && AllHarmless(m, data)
    ensures AllAgree(m, CommitAll(m, blocks, data), AllHistoryPosted(players, data, accepting), own)
  {
    forall p | p in players && UpToDate(players[p])
      ensures Agree(m, CommitAll(m, blocks, data), players[p].inbox + [Blocks(data)], own)
    {
      CommitAndDeliver(m, blocks, players[p].inbox, own, data);
    }
  }

  lemma LevelKeepsAgreement(m: Meta, blocks: seq<Byte>, players: Players, own: bool, waiting: seq<PlayerId>,
                            accepting: set<PlayerId>)
    requires AllAgree(m, blocks, players, own) && |blocks| == BLOCK_FILE_HEADER_SIZE + Volume(m)
    ensures AllAgree(m, blocks, AllLevelPosted(players, blocks[..Volume(m)], waiting, accepting), own)
  {
    forall p | p in players
      ensures Agree(m, blocks, players[p].inbox + [Level(blocks[..Volume(m)])], own)
    {
      DeliverLevel(m, blocks, players[p].inbox, own);
    }
  }

  class Server {
    const file: BlockFile
    var players: map<PlayerId, Player>

    ghost predicate Valid()
      reads this
    {
      MetaValid(file.meta) && file.blocks.Length == BLOCK_FILE_HEADER_SIZE + Volume(file.meta)
    }

    ghost predicate Agreement(own: bool)
      reads this, file.blocks
    {
      AllAgree(file.meta, file.blocks[..], players, own)
    }

    constructor (m: Meta)
      requires MetaValid(m)
      ensures Valid() && fresh(file.blocks) && file.meta == m && players == map[] && forall own :: Agreement(own)
    {
      file := new BlockFile(m);
      players := map[];
    }

    /** select_players, in table order. */
    method SelectInitialized() returns (selected: seq<PlayerId>)
      ensures Distinct(selected)
      ensures forall p :: p in selected <==> p in players && players[p].phase.Initialized?
    {
      selected := [];
      var rest := players.Keys;
      while rest != {}
        invariant rest <= players.Keys && Distinct(selected)
        invariant forall p :: p in selected <==> p in players && p !in rest && players[p].phase.Initialized?
        decreases rest
      {
        var p :| p in rest;
        rest := rest - {p};
        if players[p].phase.Initialized? {
          selected := selected + [p];
        }
      }
    }

    method MulticastHistory(data: seq<Byte>, accepting: set<PlayerId>)
      modifies this`players
      ensures players == AllHistoryPosted(old(players), data, accepting)
      ensures players.Keys == old(players).Keys
      ensures forall p :: p in old(players) ==>
        var was, now := old(players)[p], players[p];
        && now.phase == was.phase
        && now.inbox == was.inbox + (if was.phase.Initialized? && p in accepting then [Blocks(data)] else [])
        && now.lost == (was.lost || (was.phase.Initialized? && p !in accepting))
    {
      var selected := SelectInitialized();
      for i := 0 to |selected|
        invariant players.Keys == old(players.Keys)
        invariant forall p :: p in players && p !in selected[..i] ==> players[p] == old(players)[p]
        invariant forall p :: p in players && p in selected[..i] ==>
            players[p] == HistoryPosted(old(players)[p], data, p in accepting)
      {
        var p := selected[i];
        assert p !in selected[..i];
        assert selected[..i + 1] == selected[..i] + [p];
        players := players[p := HistoryPosted(players[p], data, p in accepting)];
      }
      assert selected[..|selected|] == selected;
    }

    /** A player appears once in the queue; one whose connection is gone is skipped. */
    method ProcessLevelWaitPlayer(waiting: seq<PlayerId>, accepting: set<PlayerId>)
      requires Valid() && Distinct(waiting)
      modifies this`players
      ensures Valid()
      ensures players == AllLevelPosted(old(players), file.blocks[..Volume(file.meta)], waiting, accepting)
      ensures players.Keys == old(players).Keys
      ensures forall p :: p in old(players) ==>
        var was, now, served := old(players)[p], players[p], p in waiting && p in accepting;
        && now.inbox == was.inbox + (if served then [Level(file.blocks[..Volume(file.meta)])] else [])
        && now.phase == (if served && was.phase.Waiting? then Initialized else was.phase)
        && now.lost == was.lost
    {
      var level := file.blocks[..file.meta.width * file.meta.height * file.meta.length];
      for i := 0 to |waiting|
        invariant players.Keys == old(players.Keys)
        invariant forall p :: p in players && p !in waiting[..i] ==> players[p] == old(players)[p]
        invariant forall p :: p in players && p in waiting[..i] ==>
            players[p] == LevelPosted(old(players)[p], level, p in accepting)
      {
        var p := waiting[i];
        assert p !in waiting[..i];
        assert waiting[..i + 1] == waiting[..i] + [p];
        if p in players {
          players := players[p := LevelPosted(players[p], level, p in accepting)];
        }
      }
      assert waiting[..|waiting|] == waiting;
    }

    /** The whole of sync_block: what it leaves in the file and sends, and that agreement survives it. */
    method SyncBlock(waiting: seq<PlayerId>, history: seq<Byte>, historyAccepting: set<PlayerId>,
        levelAccepting: set<PlayerId>)
      requires Valid() && Distinct(waiting)
      modifies this`players, file.blocks
      ensures Valid()
      ensures file.blocks[..] == CommitAll(file.meta, old(file.blocks[..]), history)
      ensures players == AllLevelPosted(
                           if RecordCount(history) == 0 then old(players)
                           else AllHistoryPosted(old(players), history, historyAccepting),
                           file.blocks[..Volume(file.meta)], waiting, levelAccepting)
      ensures forall own :: old(Agreement(own)) && AllHarmless(file.meta, history) ==> Agreement(own)
    {
      ghost var blocks, before := file.blocks[..], players;
      if RecordCount(history) > 0 {
        file.CommitBlockChanges(history);
        MulticastHistory(history, historyAccepting);
        forall own | AllAgree(file.meta, blocks, before, own) && AllHarmless(file.meta, history)
          ensures AllAgree(file.meta, file.blocks[..], players, own)
        {
          HistoryKeepsAgreement(file.meta, blocks, before, own, history, historyAccepting);
        }
      }
      ghost var between := players;
      if waiting != [] {
        ProcessLevelWaitPlayer(waiting, levelAccepting);
      }
      assert AllLevelPosted(between, file.blocks[..Volume(file.meta)], [], levelAccepting) == between;
      assert file.blocks[..][..Volume(file.meta)] == file.blocks[..Volume(file.meta)];
      forall own | AllAgree(file.meta, file.blocks[..], between, own)
        ensures AllAgree(file.meta, file.blocks[..], players, own)
      {
        LevelKeepsAgreement(file.meta, file.blocks[..], between, own, waiting, levelAccepting);
      }
    }
  }
}
