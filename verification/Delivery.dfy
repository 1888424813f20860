/**
What becomes of an edit, and that nothing waits forever: the block a set-block packet asks for is the one that ends in
the file and on the clients (mmocraft/net/game_server.cpp:112-129, mmocraft/game/world.cpp:156-188), and the sync task
can always go on until every accepted edit is in the file and every joined player has been served
(mmocraft/game/world_task.h:57-108).
*/
module Delivery {
  import opened Wrappers
  import opened Bytes
  import opened BlockHistory
  import opened World
  import opened Replication

  // ----- Edits, by the fields of their packets.

  ghost predicate Names(l: Label, x: nat, y: nat, z: nat) {
    l.PushEdit? && l.x == x && l.y == y && l.z == z
  }

  /** The n-th step is an edit that finds room: fewer than 1024 records of 8 bytes are waiting. */
  ghost predicate AcceptedAt(m: Meta, blocks: seq<Byte>, run: seq<Label>, n: nat)
    requires n < |run|
  {
    && run[n].PushEdit? && Exec(m, Init(blocks), run[..n]).Some?
    && |Exec(m, Init(blocks), run[..n]).value.task.live| <= 1023 * 8
  }

  /** The n-th step is the last accepted edit of the cell. */
  ghost predicate LastAccepted(m: Meta, blocks: seq<Byte>, run: seq<Label>, n: nat, x: nat, y: nat, z: nat) {
    && n < |run| && AcceptedAt(m, blocks, run, n) && Names(run[n], x, y, z)
    && forall i :: n < i < |run| && AcceptedAt(m, blocks, run, i) ==> !Names(run[i], x, y, z)
  }

  lemma {:induction false} AcceptedAreHarmless(m: Meta, blocks: seq<Byte>, run: seq<Label>)
    requires Exec(m, Init(blocks), run).Some? && HarmlessRun(m, run)
    ensures HarmlessEdits(m, Accepted(m, Init(blocks), run))
  {
    if run != [] {
      AcceptedAreHarmless(m, blocks, run[..|run| - 1]);
    }
  }

  lemma LastOfSnoc(edits: seq<Edit>, more: seq<Edit>, x: nat, y: nat, z: nat)
    requires |more| <= 1
    ensures LastOf(edits + more, x, y, z) ==
            if more != [] && Touches(more[0], x, y, z) then Some(more[0].id) else LastOf(edits, x, y, z)
  {
    if more == [] {
      assert edits + more == edits;
    } else {
      assert (edits + more)[..|edits|] == edits;
    }
  }

  lemma AcceptedBefore(m: Meta, blocks: seq<Byte>, run: seq<Label>, n: nat)
    requires n < |run| - 1
    ensures AcceptedAt(m, blocks, run[..|run| - 1], n) <==> AcceptedAt(m, blocks, run, n)
  {
    assert run[..|run| - 1][..n] == run[..n];
  }

  /** The last accepted edit of a cell asks for the packet's block in set mode, and for air otherwise. */
  lemma {:induction false} LastOfAccepted(m: Meta, blocks: seq<Byte>, run: seq<Label>, n: nat, x: nat, y: nat, z: nat)
    requires Exec(m, Init(blocks), run).Some? && LastAccepted(m, blocks, run, n, x, y, z)
    ensures LastOf(Accepted(m, Init(blocks), run), x, y, z) == Some(if run[n].setting then run[n].block else 0)
    decreases |run|
  {
    var init, l := run[..|run| - 1], run[|run| - 1];
    var s := Exec(m, Init(blocks), init).value;
    LastOfSnoc(Accepted(m, Init(blocks), init), AcceptedBy(s, l), x, y, z);
    if n < |run| - 1 {
      forall i | n <= i < |run| - 1 ensures AcceptedAt(m, blocks, init, i) <==> AcceptedAt(m, blocks, run, i) {
        AcceptedBefore(m, blocks, run, i);
      }
      LastOfAccepted(m, blocks, init, n, x, y, z);
      assert AcceptedAt(m, blocks, run, |run| - 1) ==> !Names(l, x, y, z);
    }
  }

  lemma {:induction false} NoneOfAccepted(m: Meta, blocks: seq<Byte>, run: seq<Label>, x: nat, y: nat, z: nat)
    requires Exec(m, Init(blocks), run).Some?
    requires forall i: nat :: i < |run| && AcceptedAt(m, blocks, run, i) ==> !Names(run[i], x, y, z)
    ensures LastOf(Accepted(m, Init(blocks), run), x, y, z).None?
    decreases |run|
  {
    if run != [] {
      var init, l := run[..|run| - 1], run[|run| - 1];
      LastOfSnoc(Accepted(m, Init(blocks), init), AcceptedBy(Exec(m, Init(blocks), init).value, l), x, y, z);
      forall i: nat | i < |init| && AcceptedAt(m, blocks, init, i) ensures !Names(init[i], x, y, z) {
        AcceptedBefore(m, blocks, run, i);
      }
      NoneOfAccepted(m, blocks, init, x, y, z);
      assert AcceptedAt(m, blocks, run, |run| - 1) ==> !Names(l, x, y, z);
    }
  }

  /** The sync task is unused and no edit waits for it. */
  ghost predicate Drained(s: State) {
    s.pc.Idle? && s.task.live == []
  }

  lemma DrainedCell(m: Meta, blocks: seq<Byte>, run: seq<Label>, x: nat, y: nat, z: nat)
    requires MetaValid(m) && |blocks| == BLOCK_FILE_HEADER_SIZE + Volume(m) && Covered(m, x, y, z)
    requires Exec(m, Init(blocks), run).Some? && HarmlessRun(m, run) && Drained(Exec(m, Init(blocks), run).value)
    ensures var s := Exec(m, Init(blocks), run).value;
      && |s.blocks| == |blocks|
      && s.blocks[Offset(m, x, y, z)] ==
           OrElse(LastOf(Accepted(m, Init(blocks), run), x, y, z), blocks[Offset(m, x, y, z)])
  {
    var edits := Accepted(m, Init(blocks), run);
    DrainedFileHoldsAcceptedEdits(m, blocks, run);
    EncodeDecodes(edits);
    assert ServerRecords(Encode(edits)) == edits;
    AcceptedAreHarmless(m, blocks, run);
    CommitAtCell(m, blocks, edits, x, y, z);
  }

  /** An up-to-date client with no outstanding revert of the cell shows this block there. */
  ghost predicate EveryoneShows(m: Meta, s: State, x: nat, y: nat, z: nat, block: Byte) {
    forall p :: p in s.players && UpToDate(s.players[p]) ==>
      OutstandingRevert(m, s.players[p].inbox, x, y, z).Some?
      || CellAt(m, s.players[p].inbox, true, x, y, z) == Some(block)
  }

  lemma EveryoneShowsTheFile(m: Meta, blocks: seq<Byte>, run: seq<Label>, x: nat, y: nat, z: nat)
    requires MetaValid(m) && |blocks| == BLOCK_FILE_HEADER_SIZE + Volume(m) && Covered(m, x, y, z)
    requires Exec(m, Init(blocks), run).Some? && HarmlessRun(m, run) && Exec(m, Init(blocks), run).value.pc.Idle?
    ensures var s := Exec(m, Init(blocks), run).value;
      |s.blocks| == |blocks| && EveryoneShows(m, s, x, y, z, s.blocks[Offset(m, x, y, z)])
  {
    InvHolds(m, blocks, run);
    var s := Exec(m, Init(blocks), run).value;
    forall p | p in s.players && UpToDate(s.players[p]) && OutstandingRevert(m, s.players[p].inbox, x, y, z).None?
      ensures CellAt(m, s.players[p].inbox, true, x, y, z) == Some(s.blocks[Offset(m, x, y, z)])
    {
      ReplicaAgreement(m, blocks, run, p, x, y, z);
    }
  }

  /**
  In every drained run, the file and every up-to-date client without an outstanding revert hold at a covered cell the
  block of the last accepted packet about it, if that was in set mode, and air if it was not.
  */
  lemma LastAcceptedEditIsShown(m: Meta, blocks: seq<Byte>, run: seq<Label>, n: nat, x: nat, y: nat, z: nat)
    requires MetaValid(m) && |blocks| == BLOCK_FILE_HEADER_SIZE + Volume(m) && Covered(m, x, y, z)
    requires Exec(m, Init(blocks), run).Some? && HarmlessRun(m, run) && Drained(Exec(m, Init(blocks), run).value)
    requires LastAccepted(m, blocks, run, n, x, y, z)
    ensures var s, block := Exec(m, Init(blocks), run).value, if run[n].setting then run[n].block else 0;
      |s.blocks| == |blocks| && s.blocks[Offset(m, x, y, z)] == block && EveryoneShows(m, s, x, y, z, block)
  {
    LastOfAccepted(m, blocks, run, n, x, y, z);
    DrainedCell(m, blocks, run, x, y, z);
    EveryoneShowsTheFile(m, blocks, run, x, y, z);
  }

  /** A cell no accepted packet names keeps its first block. */
  lemma UneditedCellIsShown(m: Meta, blocks: seq<Byte>, run: seq<Label>, x: nat, y: nat, z: nat)
    requires MetaValid(m) && |blocks| == BLOCK_FILE_HEADER_SIZE + Volume(m) && Covered(m, x, y, z)
    requires Exec(m, Init(blocks), run).Some? && HarmlessRun(m, run) && Drained(Exec(m, Init(blocks), run).value)
    requires forall i: nat :: i < |run| && AcceptedAt(m, blocks, run, i) ==> !Names(run[i], x, y, z)
    ensures var s, block := Exec(m, Init(blocks), run).value, blocks[Offset(m, x, y, z)];
      |s.blocks| == |blocks| && s.blocks[Offset(m, x, y, z)] == block && EveryoneShows(m, s, x, y, z, block)
  {
    NoneOfAccepted(m, blocks, run, x, y, z);
    DrainedCell(m, blocks, run, x, y, z);
    EveryoneShowsTheFile(m, blocks, run, x, y, z);
  }

  /**
  A refused edit changes nothing but its author's client, which then shows air in set mode, and the packet's own block
  otherwise; if the packet that says so is refused as well, it changes nothing at all.
  */
  lemma RefusedEditIsTakenBack(m: Meta, blocks: seq<Byte>, run: seq<Label>, l: Label)
    requires MetaValid(m) && |blocks| == BLOCK_FILE_HEADER_SIZE + Volume(m)
    requires Exec(m, Init(blocks), run).Some? && HarmlessRun(m, run)
    requires l.PushEdit? && l.p in Exec(m, Init(blocks), run).value.players
    requires |Exec(m, Init(blocks), run).value.task.live| > 1023 * 8
    ensures var s := Exec(m, Init(blocks), run).value;
      && Step(m, s, l).Some?
      && var s' := Step(m, s, l).value;
      && s'.blocks == s.blocks && s'.task == s.task && s'.pc == s.pc && l.p in s'.players
      && (forall p :: p != l.p ==> (p in s'.players <==> p in s.players)
                                   && (p in s.players ==> s'.players[p] == s.players[p]))
      && (!l.sent ==> s' == s)
      && (l.sent && UpToDate(s.players[l.p]) && Covered(m, l.x, l.y, l.z) ==>
            CellAt(m, s'.players[l.p].inbox, true, l.x, l.y, l.z) == Some(if l.setting then 0 else l.block))
  {
    var s := Exec(m, Init(blocks), run).value;
    if l.sent && UpToDate(s.players[l.p]) && Covered(m, l.x, l.y, l.z) {
      InvHolds(m, blocks, run);
      assert PlayerAgrees(m, s, l.p);
      var inbox := s.players[l.p].inbox;
      CellAtSnoc(m, inbox, Blocks(s.task.snapshot), false, l.x, l.y, l.z);
      ShownCell(m, inbox, l.x, l.y, l.z);
      CellAtSnoc(m, inbox, Revert(TakenBack(l)), true, l.x, l.y, l.z);
    }
  }

  // ----- The sync task can always go on.

  predicate IsSync(l: Label) {
    match l
    case Connect(_) => false
    case PushEdit(_, _, _, _, _, _, _) => false
    case Join(_) => false
    case Leave(_) => false
    case Stray(_) => false
    case _ => true
  }

  ghost predicate Runnable(m: Meta, s: State) {
    && TaskInv(s) && TargetsKnown(s) && |s.blocks| >= Volume(m)
    && forall p :: p in Unserved(s) ==> p in s.players
  }

  ghost predicate AtRest(s: State) {
    Drained(s) && s.task.snapshot == [] && s.task.queue == [] && s.task.waiting == []
  }

  /** The steps of one run of the task still ahead, and the posts of the current loop. */
  function StepsAhead(pc: Control): nat {
    match pc
    case Idle => 0
    case Finished => 1
    case Levelling(_, _) => 2
    case BeforeLevel => 3
    case Multicasting(_) => 4
    case Committed => 5
    case Started => 6
  }

  function PostsAhead(pc: Control): nat {
    if pc.Multicasting? || pc.Levelling? then |pc.to| else 0
  }

  predicate Waits(t: Task) {
    |t.live| > 0 || t.queue != []
  }

  ghost predicate IsNearer(s: State, s': State) {
    || (Waits(s.task) && !Waits(s'.task))
    || (Waits(s'.task) == Waits(s.task) && StepsAhead(s'.pc) < StepsAhead(s.pc))
    || (Waits(s'.task) == Waits(s.task) && StepsAhead(s'.pc) == StepsAhead(s.pc)
        && PostsAhead(s'.pc) < PostsAhead(s.pc))
  }

  lemma {:induction false} Enumerated(ids: set<PlayerId>) returns (order: seq<PlayerId>)
    ensures Distinct(order) && forall p :: p in order <==> p in ids
  {
    if ids == {} {
      order := [];
    } else {
      var p :| p in ids;
      var rest := Enumerated(ids - {p});
      order := rest + [p];
    }
  }

  /** What the task does next. The posts are accepted here. */
  lemma NextSync(m: Meta, s: State) returns (l: Label)
    requires Runnable(m, s) && !AtRest(s)
    ensures IsSync(l) && Step(m, s, l).Some? && IsNearer(s, Step(m, s, l).value)
  {
    match s.pc
    case Idle => l := Schedule;
    case Started => l := if RecordCount(s.task.snapshot) > 0 then CommitHistory else SkipHistory;
    case Committed =>
      var order := Enumerated(set p | p in s.players && s.players[p].phase.Initialized?);
      l := SelectPlayers(order);
    case Multicasting(to) => l := if to == [] then EndMulticast else PostHistory(true);
    case BeforeLevel => l := if s.task.waiting != [] then SerializeLevel else SkipLevel;
    case Levelling(_, to) =>
      l := if to == [] then EndLevel else PostLevel(true);
      assert to != [] ==> to[0] in Unserved(s);
    case Finished => l := Complete;
  }

  lemma SyncKeepsRunnable(m: Meta, s: State, l: Label)
    requires Runnable(m, s) && IsSync(l) && Step(m, s, l).Some?
    ensures Runnable(m, Step(m, s, l).value)
  {
    StepKeepsHistory(m, s, l);
    StepKeepsTargets(m, s, l);
    StepKeepsUnserved(m, s, l);
    SyncKeepsPlayers(m, s, l);
  }

  lemma SyncKeepsPlayers(m: Meta, s: State, l: Label)
    requires IsSync(l) && Step(m, s, l).Some?
    ensures var s' := Step(m, s, l).value;
      s'.players.Keys == s.players.Keys && |s'.blocks| == |s.blocks| && AcceptedBy(s, l) == []
  {
  }

  lemma {:induction false} ExecConcat(m: Meta, s: State, a: seq<Label>, b: seq<Label>)
    requires Exec(m, s, a).Some?
    ensures Exec(m, s, a + b) == Exec(m, Exec(m, s, a).value, b)
    decreases |b|
  {
    if b == [] {
      assert a + b == a;
    } else {
      assert (a + b)[..|a + b| - 1] == a + b[..|b| - 1];
      ExecConcat(m, s, a, b[..|b| - 1]);
    }
  }

  lemma ExecOne(m: Meta, s: State, l: Label)
    ensures Exec(m, s, [l]) == Step(m, s, l)
  {
    assert [l][..0] == [] && Exec(m, s, []) == Some(s);
  }

  /** The task goes on by itself until it is at rest. */
  lemma {:induction false} ComesToRest(m: Meta, s: State) returns (more: seq<Label>)
    requires Runnable(m, s)
    ensures forall l :: l in more ==> IsSync(l)
    ensures Exec(m, s, more).Some? && AtRest(Exec(m, s, more).value)
    decreases Waits(s.task), StepsAhead(s.pc), PostsAhead(s.pc)
  {
    if AtRest(s) {
      more := [];
    } else {
      var l := NextSync(m, s);
      SyncKeepsRunnable(m, s, l);
      var rest := ComesToRest(m, Step(m, s, l).value);
      ExecOne(m, s, l);
      ExecConcat(m, s, [l], rest);
      more := [l] + rest;
    }
  }

  lemma {:induction false} SyncAddsNothing(m: Meta, s0: State, run: seq<Label>, more: seq<Label>)
    requires Exec(m, s0, run + more).Some? && forall l :: l in more ==> IsSync(l)
    ensures Exec(m, s0, run).Some?
    ensures Accepted(m, s0, run + more) == Accepted(m, s0, run) && Joined(m, s0, run + more) == Joined(m, s0, run)
    decreases |more|
  {
    if more == [] {
      assert run + more == run;
    } else {
      var before := more[..|more| - 1];
      assert (run + more)[..|run + more| - 1] == run + before;
      assert more[|more| - 1] in more;
      SyncAddsNothing(m, s0, run, before);
      SyncKeepsPlayers(m, Exec(m, s0, run + before).value, more[|more| - 1]);
      assert Accepted(m, s0, run) + [] == Accepted(m, s0, run) && Joined(m, s0, run) + [] == Joined(m, s0, run);
    }
  }

  lemma {:induction false} BlocksKeepSize(m: Meta, blocks: seq<Byte>, run: seq<Label>)
    requires Exec(m, Init(blocks), run).Some?
    ensures |Exec(m, Init(blocks), run).value.blocks| == |blocks|
  {
    if run != [] {
      BlocksKeepSize(m, blocks, run[..|run| - 1]);
    }
  }

  /**
  From every reachable state, edits and logins ceasing, the sync task can go on until it is unused with nothing live
  and nobody waiting: every edit accepted so far is then in the file, in order, and every player who joined was served.
  */
  lemma EveryEditReachesTheFile(m: Meta, blocks: seq<Byte>, run: seq<Label>) returns (more: seq<Label>)
    requires Exec(m, Init(blocks), run).Some? && |blocks| >= Volume(m)
    ensures forall l :: l in more ==> IsSync(l)
    ensures Exec(m, Init(blocks), run + more).Some? && AtRest(Exec(m, Init(blocks), run + more).value)
    ensures Exec(m, Init(blocks), run + more).value.blocks ==
            CommitAll(m, blocks, Encode(Accepted(m, Init(blocks), run)))
    ensures Served(m, Init(blocks), run + more) == Joined(m, Init(blocks), run)
  {
    var s := Exec(m, Init(blocks), run).value;
    EditsSnapshottedExactlyOnce(m, blocks, run);
    TargetsAreKnown(m, blocks, run);
    BlocksKeepSize(m, blocks, run);
    JoinersServedInOrder(m, blocks, run);
    JoinedOnce(m, blocks, run);
    more := ComesToRest(m, s);
    ExecConcat(m, Init(blocks), run, more);
    SyncAddsNothing(m, Init(blocks), run, more);
    DrainedFileHoldsAcceptedEdits(m, blocks, run + more);
    JoinersServedInOrder(m, blocks, run + more);
  }

  // ----- What never changes again.

  lemma {:induction false} CommitKeepsTheEnd(m: Meta, blocks: seq<Byte>, edits: seq<Edit>)
    requires |blocks| >= Volume(m)
    ensures Commit(m, blocks, edits)[Volume(m)..] == blocks[Volume(m)..]
    decreases |edits|
  {
    if edits != [] {
      CommitKeepsTheEnd(m, blocks, edits[..|edits| - 1]);
    }
  }

  /** In every run, whatever the edits, the file's bytes from the volume on keep their first values. */
  lemma {:induction false} LastCellsNeverChange(m: Meta, blocks: seq<Byte>, run: seq<Label>)
    requires Exec(m, Init(blocks), run).Some? && |blocks| >= Volume(m)
    ensures |Exec(m, Init(blocks), run).value.blocks| == |blocks|
    ensures Exec(m, Init(blocks), run).value.blocks[Volume(m)..] == blocks[Volume(m)..]
  {
    FileHoldsWritten(m, blocks, run);
    CommitKeepsTheEnd(m, blocks, ServerRecords(Written(Exec(m, Init(blocks), run).value)));
  }

  lemma StepKeepsGone(m: Meta, s: State, l: Label, p: PlayerId)
    requires Step(m, s, l).Some? && p in s.players
    ensures p in Step(m, s, l).value.players
    ensures s.players[p].phase.Gone? || l == Leave(p) ==> Step(m, s, l).value.players[p].phase.Gone?
  {
  }

  lemma {:induction false} LeaverIsGone(m: Meta, blocks: seq<Byte>, run: seq<Label>, p: PlayerId)
    requires Exec(m, Init(blocks), run).Some? && Leave(p) in run
    ensures var s := Exec(m, Init(blocks), run).value; p in s.players && s.players[p].phase.Gone?
  {
    var init, l := run[..|run| - 1], run[|run| - 1];
    if Leave(p) in init {
      LeaverIsGone(m, blocks, init, p);
    }
    if p in Exec(m, Init(blocks), init).value.players {
      StepKeepsGone(m, Exec(m, Init(blocks), init).value, l, p);
    }
  }

  /** No history is multicast to a player that had left when the receivers were selected. */
  lemma LeaverIsNotSelected(m: Meta, blocks: seq<Byte>, run: seq<Label>, order: seq<PlayerId>, p: PlayerId)
    requires Exec(m, Init(blocks), run + [SelectPlayers(order)]).Some? && Leave(p) in run
    ensures p !in order
  {
    assert (run + [SelectPlayers(order)])[..|run|] == run;
    LeaverIsGone(m, blocks, run, p);
  }
}
