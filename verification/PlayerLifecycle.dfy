/**
A player's login state from its handshake on: PlayerState (mmocraft/game/player.h:34-103) under the world tick,
the login, extension, level and spawn callbacks, disconnects, and the departure task (mmocraft/game/world.cpp:88-146,
232-284, mmocraft/game/world_task.h:13-55, mmocraft/net/game_server.cpp:65-79, 171-184, 200-247,
mmocraft/net/connection.cpp:66-81), in any order.
*/
module PlayerLifecycle {
  // ----- PlayerState.

  datatype LoginState =
    | Invalid
    | Disconnecting
    | Disconnected
    | Initialized
    | Handshaking
    | ExHandshaking
    | Handshaked
    | ExHandshaked
    | ExtensionSyncing
    | ExtensionSynced
    | LevelInitializing
    | LevelInitialized
    | Spawning
    | Spawned

  /** The value of the enumerator: what the comparisons in the source compare. */
  function Rank(s: LoginState): nat {
    match s
    case Invalid => 0
    case Disconnecting => 1
    case Disconnected => 2
    case Initialized => 3
    case Handshaking => 4
    case ExHandshaking => 5
    case Handshaked => 6
    case ExHandshaked => 7
    case ExtensionSyncing => 8
    case ExtensionSynced => 9
    case LevelInitializing => 10
    case LevelInitialized => 11
    case Spawning => 12
    case Spawned => 13
  }

  datatype Transition = Transition(prev: LoginState, cur: LoginState, next: LoginState)

  function Transited(t: Transition): Transition {
    Transition(t.cur, t.next, t.next)
  }

  function Prepared(t: Transition, cur: LoginState, next: LoginState): Transition {
    Transition(t.cur, cur, next)
  }

  class PlayerState {
    var prev: LoginState
    var cur: LoginState
    var next: LoginState

    function View(): Transition
      reads this
    {
      Transition(prev, cur, next)
    }

    constructor ()
      ensures View() == Transition(Initialized, Initialized, Initialized)
    {
      prev, cur, next := Initialized, Initialized, Initialized;
    }

    method TransitState()
      modifies this
      ensures View() == Transited(old(View()))
    {
      prev := cur;
      cur := next;
    }

    method PrepareStateTransition(newCur: LoginState, newNext: LoginState)
      modifies this
      ensures View() == Prepared(old(View()), newCur, newNext)
    {
      prev := cur;
      cur := newCur;
      next := newNext;
    }
  }

  // ----- One player on one connection.

  /**
  How far the departure task's handler is with this player: entries of the player left to look at, of all there
  are; then entries left to move on.
  */
  datatype Handler = Unused | Announcing(left: nat, all: nat) | Moving(left: nat)

  /** queue counts how often the player is in the task's queue, told how often it was put on a despawn list. */
  datatype State = State(online: bool, t: Transition, queue: nat, handler: Handler, told: nat)

  /** The handshake packet made a fresh player and prepared its first transition. */
  function AfterHandshake(cpe: bool): State {
    var fresh0 := Transition(Initialized, Initialized, Initialized);
    State(true, if cpe then Prepared(fresh0, ExHandshaking, ExHandshaked)
        else Prepared(fresh0, Handshaking, Handshaked), 0, Unused, 0)
  }

  /**
  Transit stands for every callback that calls transit_state, expected or not: the login response, the last
  extension entry, an accepted level or spawn post. In Tick, sent says whether the extension packets were
  accepted. Schedule, Announce, Send, Move and Finish are the departure task, as far as this player goes.
  */
  datatype Label = Transit | Tick(sent: bool) | Disconnect | Schedule | Announce | Send | Move | Finish

  function Disconnects(s: State): State {
    if !s.online then s
    else if Rank(s.t.cur) >= Rank(Handshaking) then s.(t := Prepared(s.t, Disconnecting, Disconnected))
    else s.(online := false)
  }

  function Ticked(s: State, sent: bool): State {
    match s.t.cur
    case ExHandshaked => if sent then s.(t := Prepared(s.t, ExtensionSyncing, ExtensionSynced)) else s
    case Handshaked => s.(t := Prepared(s.t, LevelInitializing, LevelInitialized))
    case ExtensionSynced => s.(t := Prepared(s.t, LevelInitializing, LevelInitialized))
    case LevelInitialized => s.(t := Prepared(s.t, Spawning, Spawned))
    case Disconnecting => s.(queue := s.queue + 1)
    case Disconnected => Disconnects(s)
    case _ => s
  }

  /** disconnect_player's test: whether the others are told to despawn this player. */
  predicate HadSpawned(t: Transition) {
    Rank(t.prev) >= Rank(Spawned)
  }

  /** The handler looks at one entry of the player. */
  predicate Looks(s: State, l: Label) {
    l.Announce? && s.handler.Announcing? && s.handler.left > 0
  }

  function Step(s: State, l: Label): State {
    match l
    case Transit => s.(t := Transited(s.t))
    case Tick(sent) => if s.online then Ticked(s, sent) else s
    case Disconnect => Disconnects(s)
    case Schedule => if s.handler.Unused? then s.(queue := 0, handler := Announcing(s.queue, s.queue)) else s
    case Announce =>
      if Looks(s, l)
      then s.(handler := s.handler.(left := s.handler.left - 1), told := s.told + if HadSpawned(s.t) then 1 else 0)
      else s
    case Send =>
      if s.handler.Announcing? && s.handler.left == 0 then s.(handler := Moving(s.handler.all)) else s
    case Move =>
      if s.handler.Moving? && s.handler.left > 0
      then s.(t := if s.online then Transited(s.t) else s.t, handler := Moving(s.handler.left - 1)) else s
    case Finish => if s.handler == Moving(0) then s.(handler := Unused) else s
  }

  function Exec(cpe: bool, run: seq<Label>): State {
    if run == [] then AfterHandshake(cpe) else Step(Exec(cpe, run[..|run| - 1]), run[|run| - 1])
  }

  /** The states a run goes through, repetitions dropped. */
  function Trace(cpe: bool, run: seq<Label>): (r: seq<LoginState>)
    ensures r != [] && r[|r| - 1] == Exec(cpe, run).t.cur
  {
    if run == [] then [AfterHandshake(cpe).t.cur]
    else
      var before, cur := Trace(cpe, run[..|run| - 1]), Exec(cpe, run).t.cur;
      if before[|before| - 1] == cur then before else before + [cur]
  }

  // ----- The login path, as the design draws it.

  function LoginPath(cpe: bool): seq<LoginState> {
    if cpe then [ExHandshaking, ExHandshaked, ExtensionSyncing, ExtensionSynced, LevelInitializing, LevelInitialized,
        Spawning, Spawned]
    else [Handshaking, Handshaked, LevelInitializing, LevelInitialized, Spawning, Spawned]
  }

  function PathLength(cpe: bool): nat {
    if cpe then 8 else 6
  }

  function PathState(cpe: bool, i: nat): LoginState
    requires i < PathLength(cpe)
  {
    if cpe then
      match i
      case 0 => ExHandshaking
      case 1 => ExHandshaked
      case 2 => ExtensionSyncing
      case 3 => ExtensionSynced
      case 4 => LevelInitializing
      case 5 => LevelInitialized
      case 6 => Spawning
      case _ => Spawned
    else
      match i
      case 0 => Handshaking
      case 1 => Handshaked
      case 2 => LevelInitializing
      case 3 => LevelInitialized
      case 4 => Spawning
      case _ => Spawned
  }

  lemma PathStateIsOnPath(cpe: bool, i: nat)
    requires i < PathLength(cpe)
    ensures |LoginPath(cpe)| == PathLength(cpe) && PathState(cpe, i) == LoginPath(cpe)[i]
  {
  }

  /** The i-th state of a player that departs after k login states. */
  function Stop(cpe: bool, k: nat, i: nat): LoginState
    requires k <= PathLength(cpe)
  {
    if i < k then PathState(cpe, i) else if i == k then Disconnecting else Disconnected
  }

  /** The first k states of the login path, then the first j of disconnecting and disconnected. */
  function Itinerary(cpe: bool, k: nat, j: nat): (r: seq<LoginState>)
    requires 1 <= k <= PathLength(cpe) && j <= 2
    ensures |r| == k + j
  {
    seq(k + j, i requires 0 <= i < k + j => Stop(cpe, k, i))
  }

  /** next is a function of cur: the end of the pair cur belongs to. */
  function Target(s: LoginState): LoginState {
    match s
    case Handshaking => Handshaked
    case ExHandshaking => ExHandshaked
    case ExtensionSyncing => ExtensionSynced
    case LevelInitializing => LevelInitialized
    case Spawning => Spawned
    case Disconnecting => Disconnected
    case _ => s
  }

  /**
  Where a state with this trace is: k login states seen, then j departure states; prev remembers the last login state.
  */
  ghost predicate At(cpe: bool, s: State, k: nat, j: nat) {
    && 1 <= k <= PathLength(cpe) && j <= 2
    && s.t.cur == Stop(cpe, k, k + j - 1)
    && s.t.next == Target(s.t.cur)
    && (j == 0 ==> s.online)
    && (j == 1 ==> s.t.prev == Stop(cpe, k, k - 1))
    && (j == 2 ==> Rank(s.t.prev) < Rank(Handshaking))
  }

  /** One step stays, goes one further along the login path, or one further out. */
  lemma StepMoves(cpe: bool, s: State, l: Label, k: nat, j: nat)
    requires At(cpe, s, k, j)
    ensures var s' := Step(s, l);
      || At(cpe, s', k, j)
      || (j == 0 && At(cpe, s', k + 1, 0))
      || (j < 2 && At(cpe, s', k, j + 1))
  {
  }

  lemma ItineraryGrows(cpe: bool, k: nat, j: nat)
    requires 1 <= k <= PathLength(cpe) && j <= 2
    ensures j == 0 && k < PathLength(cpe) ==> Itinerary(cpe, k + 1, 0) == Itinerary(cpe, k, 0) + [Stop(cpe, k + 1, k)]
    ensures j < 2 ==> Itinerary(cpe, k, j + 1) == Itinerary(cpe, k, j) + [Stop(cpe, k, k + j)]
  {
  }

  /** What one step does to the place and to the trace. */
  lemma StepExtends(cpe: bool, s: State, l: Label, k: nat, j: nat) returns (k': nat, j': nat)
    requires At(cpe, s, k, j)
    ensures At(cpe, Step(s, l), k', j')
    ensures Itinerary(cpe, k', j') ==
            if s.t.cur == Step(s, l).t.cur then Itinerary(cpe, k, j) else Itinerary(cpe, k, j) + [Step(s, l).t.cur]
  {
    StepMoves(cpe, s, l, k, j);
    ItineraryGrows(cpe, k, j);
    if At(cpe, Step(s, l), k, j) {
      k', j' := k, j;
    } else if j == 0 && At(cpe, Step(s, l), k + 1, 0) {
      k', j' := k + 1, 0;
    } else {
      k', j' := k, j + 1;
    }
  }

  /**
  Every run follows the login path and may leave it once, for good: whatever extra transitions occur, no login
  state is skipped, repeated or revisited, and after a disconnect come only disconnecting and disconnected.
  */
  lemma {:induction false} EveryRunFollowsTheLoginPath(cpe: bool, run: seq<Label>) returns (k: nat, j: nat)
    ensures At(cpe, Exec(cpe, run), k, j)
    ensures Trace(cpe, run) == Itinerary(cpe, k, j)
  {
    if run == [] {
      k, j := 1, 0;
      assert Trace(cpe, run) == Itinerary(cpe, 1, 0);
    } else {
      k, j := EveryRunFollowsTheLoginPath(cpe, run[..|run| - 1]);
      k, j := StepExtends(cpe, Exec(cpe, run[..|run| - 1]), run[|run| - 1], k, j);
    }
  }

  // ----- The converse: every itinerary is some run's.

  lemma ExecExtends(cpe: bool, run: seq<Label>, l: Label)
    ensures Exec(cpe, run + [l]) == Step(Exec(cpe, run), l)
  {
    assert (run + [l])[..|run|] == run;
  }

  lemma TraceExtends(cpe: bool, run: seq<Label>, l: Label)
    ensures Exec(cpe, run + [l]) == Step(Exec(cpe, run), l)
    ensures Trace(cpe, run + [l]) ==
            if Exec(cpe, run).t.cur == Step(Exec(cpe, run), l).t.cur then Trace(cpe, run)
            else Trace(cpe, run) + [Step(Exec(cpe, run), l).t.cur]
  {
    assert (run + [l])[..|run|] == run;
  }

  /** What moves a player on from the k-th login state. */
  function LoginLabel(k: nat): Label {
    if k % 2 == 1 then Transit else Tick(true)
  }

  lemma NextLabelMoves(cpe: bool, s: State, k: nat)
    requires At(cpe, s, k, 0) && k < PathLength(cpe)
    ensures At(cpe, Step(s, LoginLabel(k)), k + 1, 0)
    ensures Stop(cpe, k, k - 1) != Stop(cpe, k + 1, k)
  {
  }

  ghost predicate Reaches(cpe: bool, run: seq<Label>, k: nat, j: nat) {
    At(cpe, Exec(cpe, run), k, j) && Trace(cpe, run) == Itinerary(cpe, k, j)
  }

  ghost predicate LoggedIn(cpe: bool, run: seq<Label>, k: nat) {
    Reaches(cpe, run, k, 0) && Exec(cpe, run).handler.Unused?
  }

  lemma LoginGrows(cpe: bool, before: seq<Label>, k: nat)
    requires 1 <= k < PathLength(cpe) && LoggedIn(cpe, before, k)
    ensures LoggedIn(cpe, before + [LoginLabel(k)], k + 1)
  {
    NextLabelMoves(cpe, Exec(cpe, before), k);
    LoginLabelKeepsHandler(Exec(cpe, before), k);
    TraceExtends(cpe, before, LoginLabel(k));
    ItineraryGrows(cpe, k, 0);
  }

  lemma LoginLabelKeepsHandler(s: State, k: nat)
    ensures Step(s, LoginLabel(k)).handler == s.handler
  {
  }

  lemma HandshakeIsFirst(cpe: bool)
    ensures LoggedIn(cpe, [], 1)
  {
    assert Itinerary(cpe, 1, 0)[0] == PathState(cpe, 0);
  }

  lemma {:induction false} LoginHappens(cpe: bool, k: nat) returns (run: seq<Label>)
    requires 1 <= k <= PathLength(cpe)
    ensures LoggedIn(cpe, run, k)
  {
    if k == 1 {
      run := [];
      HandshakeIsFirst(cpe);
    } else {
      var before := LoginHappens(cpe, k - 1);
      LoginGrows(cpe, before, k - 1);
      run := before + [LoginLabel(k - 1)];
    }
  }

  lemma DepartureMoves(cpe: bool, s: State, k: nat, j: nat)
    requires At(cpe, s, k, j) && j < 2
    ensures At(cpe, Step(s, if j == 0 then Disconnect else Transit), k, j + 1) && s.t.cur != Stop(cpe, k, k + j)
  {
  }

  lemma {:induction false} EveryItineraryHappens(cpe: bool, k: nat, j: nat) returns (run: seq<Label>)
    requires 1 <= k <= PathLength(cpe) && j <= 2
    ensures Reaches(cpe, run, k, j)
  {
    if j == 0 {
      run := LoginHappens(cpe, k);
    } else {
      var before := EveryItineraryHappens(cpe, k, j - 1);
      var l := if j == 1 then Disconnect else Transit;
      DepartureMoves(cpe, Exec(cpe, before), k, j - 1);
      TraceExtends(cpe, before, l);
      ItineraryGrows(cpe, k, j - 1);
      run := before + [l];
    }
  }

  // ----- What the other components rely on.

  lemma RankGrowsOnPath(cpe: bool, a: nat, b: nat)
    requires a < b < PathLength(cpe)
    ensures Rank(PathState(cpe, a)) < Rank(PathState(cpe, b))
  {
  }

  /** Before a disconnect, the state never moves back: its rank grows along the trace. */
  lemma RankGrows(cpe: bool, run: seq<Label>, a: nat, b: nat)
    requires a < b < |Trace(cpe, run)|
    ensures var trace := Trace(cpe, run);
      || Rank(trace[a]) < Rank(trace[b])
      || trace[b] == Disconnecting || trace[b] == Disconnected
  {
    var k, j := EveryRunFollowsTheLoginPath(cpe, run);
    assert Trace(cpe, run)[a] == Stop(cpe, k, a) && Trace(cpe, run)[b] == Stop(cpe, k, b);
    if b < k {
      RankGrowsOnPath(cpe, a, b);
    }
  }

  /** Only the end of the path is Spawned. */
  lemma SpawnedIsLast(cpe: bool, k: nat, j: nat)
    requires 1 <= k <= PathLength(cpe) && j <= 2
    ensures Spawned in Itinerary(cpe, k, j) <==> k == PathLength(cpe)
  {
    var last := PathLength(cpe) - 1;
    if k == PathLength(cpe) {
      assert Itinerary(cpe, k, j)[last] == Stop(cpe, k, last) == Spawned;
    } else {
      forall i | 0 <= i < k + j ensures Itinerary(cpe, k, j)[i] != Spawned {
        assert Itinerary(cpe, k, j)[i] == Stop(cpe, k, i);
      }
    }
  }

  /** A player that ever spawned went through the whole login path first. */
  lemma SpawnedCameThroughTheLevel(cpe: bool, run: seq<Label>)
    requires Spawned in Trace(cpe, run)
    ensures LoginPath(cpe) <= Trace(cpe, run)
  {
    var k, j := EveryRunFollowsTheLoginPath(cpe, run);
    SpawnedIsLast(cpe, k, j);
    PathStateIsOnPath(cpe, 0);
    forall i: nat | i < k ensures Itinerary(cpe, k, j)[i] == LoginPath(cpe)[i] {
      PathStateIsOnPath(cpe, i);
    }
  }

  lemma LastRank(cpe: bool, k: nat)
    requires 1 <= k <= PathLength(cpe)
    ensures Rank(PathState(cpe, k - 1)) >= Rank(Spawned) <==> k == PathLength(cpe)
  {
  }

  /** While a player is disconnecting, prev_state tells whether it had spawned, so whether others must be told. */
  lemma DisconnectingRemembersSpawn(cpe: bool, run: seq<Label>)
    requires Exec(cpe, run).t.cur == Disconnecting
    ensures Rank(Exec(cpe, run).t.prev) >= Rank(Spawned) <==> Spawned in Trace(cpe, run)
  {
    var k, j := EveryRunFollowsTheLoginPath(cpe, run);
    SpawnedIsLast(cpe, k, j);
    assert j == 1;
    LastRank(cpe, k);
  }

  // ----- Who is told of a departure.

  /** How often the handler looked at the player while it was disconnecting. */
  function Finds(cpe: bool, run: seq<Label>): nat {
    if run == [] then 0
    else
      var s, l := Exec(cpe, run[..|run| - 1]), run[|run| - 1];
      Finds(cpe, run[..|run| - 1]) + if Looks(s, l) && s.t.cur == Disconnecting then 1 else 0
  }

  predicate Departs(s: LoginState) {
    s == Disconnecting || s == Disconnected
  }

  /** The departure task does not know the player. */
  predicate NoEntries(s: State) {
    s.queue == 0 && (s.handler.Unused? || s.handler == Announcing(0, 0) || s.handler == Moving(0))
  }

  /** A spawned player whose first entry was looked at while it is disconnecting has been announced. */
  predicate EntriesInv(s: State) {
    && (!Departs(s.t.cur) ==> NoEntries(s) && s.told == 0)
    && (s.handler.Announcing? ==> s.handler.left <= s.handler.all)
    && (s.t.cur == Disconnecting && HadSpawned(s.t) ==>
          && (s.handler.Announcing? && s.handler.left < s.handler.all ==> s.told > 0)
          && (s.handler.Moving? && s.handler.left > 0 ==> s.told > 0))
  }

  lemma StepKeepsEntries(cpe: bool, s: State, l: Label, k: nat, j: nat)
    requires At(cpe, s, k, j) && EntriesInv(s)
    ensures EntriesInv(Step(s, l))
  {
  }

  lemma {:induction false} EntriesInvHolds(cpe: bool, run: seq<Label>)
    ensures EntriesInv(Exec(cpe, run))
  {
    if run != [] {
      var before := run[..|run| - 1];
      EntriesInvHolds(cpe, before);
      var k, j := EveryRunFollowsTheLoginPath(cpe, before);
      StepKeepsEntries(cpe, Exec(cpe, before), run[|run| - 1], k, j);
    }
  }

  lemma {:induction false} NothingFoundBefore(cpe: bool, run: seq<Label>)
    requires !Departs(Exec(cpe, run).t.cur)
    ensures Finds(cpe, run) == 0
  {
    if run != [] {
      var before := run[..|run| - 1];
      var k, j := EveryRunFollowsTheLoginPath(cpe, before);
      StepMoves(cpe, Exec(cpe, before), run[|run| - 1], k, j);
      NothingFoundBefore(cpe, before);
    }
  }

  lemma StepStaysDeparted(cpe: bool, s: State, l: Label, k: nat, j: nat)
    requires At(cpe, s, k, j) && Departs(s.t.cur)
    ensures var s' := Step(s, l);
      && Departs(s'.t.cur)
      && (s.t.cur == Disconnected ==> s'.t.cur == Disconnected && s'.told == s.told)
  {
  }

  lemma StaysDeparted(cpe: bool, run: seq<Label>, l: Label)
    requires Departs(Exec(cpe, run).t.cur)
    ensures var s, s' := Exec(cpe, run), Step(Exec(cpe, run), l);
      && Departs(s'.t.cur)
      && (s.t.cur == Disconnected ==> s'.t.cur == Disconnected && s'.told == s.told)
  {
    var k, j := EveryRunFollowsTheLoginPath(cpe, run);
    StepStaysDeparted(cpe, Exec(cpe, run), l, k, j);
  }

  /** Once a player departs, no further state is spawned. */
  lemma SpawnedStays(cpe: bool, run: seq<Label>, l: Label)
    requires Departs(Exec(cpe, run).t.cur)
    ensures Spawned in Trace(cpe, run + [l]) <==> Spawned in Trace(cpe, run)
  {
    TraceExtends(cpe, run, l);
    StaysDeparted(cpe, run, l);
  }

  /**
  In every run a player is put on a despawn list exactly as often as the handler found it disconnecting, if it had
  spawned, and else never.
  */
  lemma {:induction false} AnnouncedAsOftenAsFound(cpe: bool, run: seq<Label>)
    ensures Exec(cpe, run).told == if Spawned in Trace(cpe, run) then Finds(cpe, run) else 0
  {
    if run != [] {
      var before, l := run[..|run| - 1], run[|run| - 1];
      assert before + [l] == run;
      AnnouncedAsOftenAsFound(cpe, before);
      LookAdds(Exec(cpe, before), l);
      if Departs(Exec(cpe, before).t.cur) {
        LookCounts(cpe, before);
        SpawnedStays(cpe, before, l);
      } else {
        NothingFoundBefore(cpe, before);
        EntriesInvHolds(cpe, before);
      }
    }
  }

  lemma LookAdds(s: State, l: Label)
    ensures Step(s, l).told == s.told + if Looks(s, l) && HadSpawned(s.t) then 1 else 0
    ensures NoEntries(s) ==> !Looks(s, l)
  {
  }

  /** A look at a departing player counts exactly when it is disconnecting and had spawned. */
  lemma LookCounts(cpe: bool, run: seq<Label>)
    requires Departs(Exec(cpe, run).t.cur)
    ensures var t := Exec(cpe, run).t; HadSpawned(t) <==> t.cur == Disconnecting && Spawned in Trace(cpe, run)
  {
    if Exec(cpe, run).t.cur == Disconnecting {
      DisconnectingRemembersSpawn(cpe, run);
    } else {
      DisconnectedForgetsSpawn(cpe, run);
    }
  }

  lemma DisconnectedForgetsSpawn(cpe: bool, run: seq<Label>)
    requires Exec(cpe, run).t.cur == Disconnected
    ensures !HadSpawned(Exec(cpe, run).t)
  {
    var k, j := EveryRunFollowsTheLoginPath(cpe, run);
    assert j == 2;
  }

  /** The n-th step takes the player from disconnecting to disconnected. */
  predicate LeavesAt(cpe: bool, run: seq<Label>, n: nat) {
    n < |run| && Exec(cpe, run[..n]).t.cur == Disconnecting && Exec(cpe, run[..n + 1]).t.cur == Disconnected
  }

  /** A disconnected player stays so, and nobody is told of it any more. */
  lemma {:induction false} DisconnectedIsFinal(cpe: bool, run: seq<Label>, n: nat)
    requires n <= |run| && Exec(cpe, run[..n]).t.cur == Disconnected
    ensures Exec(cpe, run).t.cur == Disconnected && Exec(cpe, run).told == Exec(cpe, run[..n]).told
    decreases |run|
  {
    if n == |run| {
      assert run[..n] == run;
    } else {
      var before := run[..|run| - 1];
      assert before[..n] == run[..n];
      DisconnectedIsFinal(cpe, before, n);
      StaysDeparted(cpe, before, run[|run| - 1]);
    }
  }

  lemma OnlyDisconnectingLeaves(cpe: bool, run: seq<Label>, l: Label)
    requires Exec(cpe, run).t.cur != Disconnected && Step(Exec(cpe, run), l).t.cur == Disconnected
    ensures Exec(cpe, run).t.cur == Disconnecting
  {
    var k, j := EveryRunFollowsTheLoginPath(cpe, run);
    StepMoves(cpe, Exec(cpe, run), l, k, j);
  }

  /** A disconnected player left disconnecting in one step. */
  lemma {:induction false} LeavesSomewhere(cpe: bool, run: seq<Label>) returns (n: nat)
    requires Exec(cpe, run).t.cur == Disconnected
    ensures LeavesAt(cpe, run, n)
  {
    var before := run[..|run| - 1];
    assert run[..|run|] == run;
    if Exec(cpe, before).t.cur == Disconnected {
      n := LeavesSomewhere(cpe, before);
      assert before[..n] == run[..n] && before[..n + 1] == run[..n + 1];
    } else {
      n := |run| - 1;
      OnlyDisconnectingLeaves(cpe, before, run[n]);
    }
  }

  lemma LeavesAtMostOnce(cpe: bool, run: seq<Label>, i: nat, n: nat)
    requires LeavesAt(cpe, run, i) && LeavesAt(cpe, run, n)
    ensures i == n
  {
    var first, later := if i < n then i else n, if i < n then n else i;
    if first < later {
      assert run[..later][..first + 1] == run[..first + 1];
      DisconnectedIsFinal(cpe, run[..later], first + 1);
    }
  }

  lemma OnlyTransitionsLeave(s: State, l: Label)
    requires s.t.cur == Disconnecting && Step(s, l).t.cur == Disconnected
    ensures (l.Transit? || l.Move?) && Step(s, l).told == s.told
    ensures EntriesInv(s) && HadSpawned(s.t) && l.Move? ==> s.told > 0
  {
  }

  /**
  A player that had spawned and is disconnected was announced exactly when the handler moved it on, or had found
  it disconnecting before some stray callback did.
  */
  lemma DepartureAnnouncedIff(cpe: bool, run: seq<Label>, n: nat)
    requires LeavesAt(cpe, run, n) && Spawned in Trace(cpe, run[..n])
    ensures Exec(cpe, run).told > 0 <==> run[n].Move? || Finds(cpe, run[..n]) > 0
  {
    var before := run[..n];
    assert run[..n + 1][..n] == before;
    DisconnectingRemembersSpawn(cpe, before);
    EntriesInvHolds(cpe, before);
    AnnouncedAsOftenAsFound(cpe, before);
    OnlyTransitionsLeave(Exec(cpe, before), run[n]);
    DisconnectedIsFinal(cpe, run, n + 1);
  }

  /** Without stray callbacks while disconnecting, exactly the players that had spawned are announced. */
  lemma OrderlyDepartureIsAnnounced(cpe: bool, run: seq<Label>)
    requires Exec(cpe, run).t.cur == Disconnected
    requires forall n: nat :: n < |run| && Exec(cpe, run[..n]).t.cur == Disconnecting ==> !run[n].Transit?
    ensures Exec(cpe, run).told > 0 <==> Spawned in Trace(cpe, run)
  {
    var n := LeavesSomewhere(cpe, run);
    AnnouncedAsOftenAsFound(cpe, run);
    SpawnedBeforeLeaving(cpe, run, n);
    if Spawned in Trace(cpe, run) {
      DepartureAnnouncedIff(cpe, run, n);
      assert run[..n + 1][..n] == run[..n];
      OnlyTransitionsLeave(Exec(cpe, run[..n]), run[n]);
    }
  }

  lemma {:induction false} SpawnedBeforeLeaving(cpe: bool, run: seq<Label>, n: nat)
    requires n <= |run| && Departs(Exec(cpe, run[..n]).t.cur)
    ensures Departs(Exec(cpe, run).t.cur)
    ensures Spawned in Trace(cpe, run) <==> Spawned in Trace(cpe, run[..n])
    decreases |run|
  {
    if n == |run| {
      assert run[..n] == run;
    } else {
      var before, l := run[..|run| - 1], run[|run| - 1];
      assert before[..n] == run[..n] && before + [l] == run;
      SpawnedBeforeLeaving(cpe, before, n);
      SpawnedStays(cpe, before, l);
      StaysDeparted(cpe, before, l);
    }
  }

  // ----- The handler in one go, and runs through it.

  function Steps(s: State, labels: seq<Label>): State {
    if labels == [] then s else Step(Steps(s, labels[..|labels| - 1]), labels[|labels| - 1])
  }

  lemma {:induction false} ExecSteps(cpe: bool, run: seq<Label>, more: seq<Label>)
    ensures Exec(cpe, run + more) == Steps(Exec(cpe, run), more)
    decreases |more|
  {
    if more == [] {
      assert run + more == run;
    } else {
      var l := more[|more| - 1];
      ExecSteps(cpe, run, more[..|more| - 1]);
      assert run + more == run + more[..|more| - 1] + [l];
      ExecExtends(cpe, run + more[..|more| - 1], l);
    }
  }

  lemma {:induction false} StepsConcat(s: State, a: seq<Label>, b: seq<Label>)
    ensures Steps(s, a + b) == Steps(Steps(s, a), b)
    decreases |b|
  {
    if b == [] {
      assert a + b == a;
    } else {
      assert (a + b)[..|a + b| - 1] == a + b[..|b| - 1];
      StepsConcat(s, a, b[..|b| - 1]);
    }
  }

  lemma StepsSnoc(s: State, a: seq<Label>, l: Label)
    ensures Steps(s, a + [l]) == Step(Steps(s, a), l)
  {
    assert (a + [l])[..|a|] == a;
  }

  function Repeat(l: Label, n: nat): seq<Label> {
    if n == 0 then [] else Repeat(l, n - 1) + [l]
  }

  lemma StepsRepeat(s: State, l: Label, n: nat)
    requires n > 0
    ensures Steps(s, Repeat(l, n)) == Step(Steps(s, Repeat(l, n - 1)), l)
  {
    assert Repeat(l, n)[..|Repeat(l, n)| - 1] == Repeat(l, n - 1);
  }

  lemma OneLook(s: State)
    requires s.handler.Announcing? && s.handler.left > 0
    ensures Step(s, Announce) ==
            s.(handler := s.handler.(left := s.handler.left - 1), told := s.told + if HadSpawned(s.t) then 1 else 0)
  {
  }

  lemma OneMove(s: State)
    requires s.handler.Moving? && s.handler.left > 0
    ensures Step(s, Move) ==
            s.(t := if s.online then Transited(s.t) else s.t, handler := Moving(s.handler.left - 1))
  {
  }

  lemma {:induction false} LooksRepeated(s: State, n: nat)
    requires s.handler.Announcing? && n <= s.handler.left
    ensures Steps(s, Repeat(Announce, n)) ==
            s.(handler := s.handler.(left := s.handler.left - n), told := s.told + if HadSpawned(s.t) then n else 0)
  {
    if n > 0 {
      LooksRepeated(s, n - 1);
      StepsRepeat(s, Announce, n);
      OneLook(Steps(s, Repeat(Announce, n - 1)));
    }
  }

  /** next does not change, so from the second transition on nothing does. */
  function TransitedTimes(t: Transition, n: nat): Transition {
    if n == 0 then t else if n == 1 then Transited(t) else Transited(Transited(t))
  }

  lemma {:induction false} MovesRepeated(s: State, n: nat)
    requires s.handler.Moving? && n <= s.handler.left
    ensures Steps(s, Repeat(Move, n)) ==
            s.(t := if s.online then TransitedTimes(s.t, n) else s.t, handler := Moving(s.handler.left - n))
  {
    if n > 0 {
      MovesRepeated(s, n - 1);
      StepsRepeat(s, Move, n);
      OneMove(Steps(s, Repeat(Move, n - 1)));
    }
  }

  lemma {:induction false} TicksRepeated(s: State, n: nat)
    requires s.online && s.t.cur == Disconnecting
    ensures Steps(s, Repeat(Tick(false), n)) == s.(queue := s.queue + n)
  {
    if n > 0 {
      TicksRepeated(s, n - 1);
      StepsRepeat(s, Tick(false), n);
      assert Step(s.(queue := s.queue + (n - 1)), Tick(false)) == s.(queue := s.queue + n);
    }
  }

  /** What is left of a handler's run. */
  function RestOfHandler(h: Handler): seq<Label> {
    match h
    case Unused => []
    case Announcing(left, all) => Repeat(Announce, left) + [Send] + Repeat(Move, all) + [Finish]
    case Moving(left) => Repeat(Move, left) + [Finish]
  }

  lemma MovingEnds(s: State)
    requires s.handler.Moving?
    ensures Steps(s, RestOfHandler(s.handler)) ==
            s.(t := if s.online then TransitedTimes(s.t, s.handler.left) else s.t, handler := Unused)
  {
    MovesRepeated(s, s.handler.left);
    StepsSnoc(s, Repeat(Move, s.handler.left), Finish);
  }

  lemma AnnouncingEnds(s: State)
    requires s.handler.Announcing?
    ensures Steps(s, RestOfHandler(s.handler)) ==
            s.(t := if s.online then TransitedTimes(s.t, s.handler.all) else s.t, handler := Unused,
               told := s.told + if HadSpawned(s.t) then s.handler.left else 0)
  {
    var left, all := s.handler.left, s.handler.all;
    var looks := Repeat(Announce, left) + [Send];
    LooksRepeated(s, left);
    StepsSnoc(s, Repeat(Announce, left), Send);
    var sent := s.(handler := Moving(all), told := s.told + if HadSpawned(s.t) then left else 0);
    assert Steps(s, looks) == sent;
    MovingEnds(sent);
    StepsConcat(s, looks, RestOfHandler(Moving(all)));
    assert looks + RestOfHandler(Moving(all)) == RestOfHandler(s.handler);
  }

  /** What the handler makes of a player when nothing comes between. */
  function Handled(s: State): State
    requires s.handler.Announcing?
  {
    var n := s.handler.all;
    s.(t := if s.online then TransitedTimes(s.t, n) else s.t, handler := Unused,
       told := s.told + if HadSpawned(s.t) then n else 0)
  }

  lemma UninterruptedHandler(s: State)
    requires s.handler.Announcing? && s.handler.left == s.handler.all
    ensures Steps(s, RestOfHandler(s.handler)) == Handled(s)
  {
    AnnouncingEnds(s);
  }

  function MovesLeft(h: Handler): nat {
    match h
    case Unused => 0
    case Announcing(_, all) => all
    case Moving(left) => left
  }

  lemma HandlerEnds(s: State)
    ensures var s' := Steps(s, RestOfHandler(s.handler));
      && s'.handler.Unused? && s'.online == s.online && s'.queue == s.queue
      && s'.t == if s.online then TransitedTimes(s.t, MovesLeft(s.handler)) else s.t
  {
    match s.handler
    case Unused =>
    case Announcing(_, _) => AnnouncingEnds(s);
    case Moving(_) => MovingEnds(s);
  }

  predicate IsOrderly(l: Label) {
    !l.Transit? && !l.Disconnect?
  }

  lemma RepeatIsOrderly(l: Label, n: nat)
    requires IsOrderly(l)
    ensures forall x :: x in Repeat(l, n) ==> IsOrderly(x)
  {
  }

  lemma RestIsOrderly(h: Handler)
    ensures forall l :: l in RestOfHandler(h) ==> IsOrderly(l)
  {
    match h
    case Unused =>
    case Announcing(left, all) =>
      RepeatIsOrderly(Announce, left);
      RepeatIsOrderly(Move, all);
    case Moving(left) =>
      RepeatIsOrderly(Move, left);
  }

  /** A queued player is moved on by the handler, and the next tick takes it offline. */
  lemma QueuedDepartureEnds(s: State) returns (more: seq<Label>)
    requires s.handler.Unused? && s.queue > 0 && s.online && s.t.cur == Disconnecting && s.t.next == Disconnected
    ensures forall l :: l in more ==> IsOrderly(l)
    ensures !Steps(s, more).online
  {
    var scheduled := Step(s, Schedule);
    var handler := RestOfHandler(scheduled.handler);
    StepsSnoc(s, [], Schedule);
    assert [] + [Schedule] == [Schedule] && Steps(s, []) == s;
    HandlerEnds(scheduled);
    RestIsOrderly(scheduled.handler);
    StepsConcat(s, [Schedule], handler);
    StepsSnoc(s, [Schedule] + handler, Tick(false));
    more := [Schedule] + handler + [Tick(false)];
  }

  /** The handler runs to its end, and a tick queues the player or takes it offline. */
  lemma DepartureEnds(s: State) returns (more: seq<Label>)
    requires Departs(s.t.cur) && s.t.next == Disconnected
    ensures forall l :: l in more ==> IsOrderly(l)
    ensures !Steps(s, more).online
  {
    var first := RestOfHandler(s.handler) + [Tick(false)];
    HandlerEnds(s);
    RestIsOrderly(s.handler);
    StepsSnoc(s, RestOfHandler(s.handler), Tick(false));
    var s' := Steps(s, first);
    if s'.online {
      var rest := QueuedDepartureEnds(s');
      StepsConcat(s, first, rest);
      more := first + rest;
    } else {
      more := first;
    }
  }

  /** From every reachable state of a departing player, ticks and the departure task alone take it offline. */
  lemma EveryDepartureCanEnd(cpe: bool, run: seq<Label>) returns (more: seq<Label>)
    requires Departs(Exec(cpe, run).t.cur)
    ensures forall l :: l in more ==> IsOrderly(l)
    ensures !Exec(cpe, run + more).online
  {
    var k, j := EveryRunFollowsTheLoginPath(cpe, run);
    more := DepartureEnds(Exec(cpe, run));
    ExecSteps(cpe, run, more);
  }

  /** A spawned player is disconnected. */
  lemma SpawnedDisconnects(cpe: bool) returns (run: seq<Label>)
    ensures Spawned in Trace(cpe, run)
    ensures Exec(cpe, run) == State(true, Transition(Spawned, Disconnecting, Disconnected), 0, Unused, 0)
  {
    var before := LoginHappens(cpe, PathLength(cpe));
    EntriesInvHolds(cpe, before);
    SpawnedIsLast(cpe, PathLength(cpe), 0);
    SpawnedState(cpe, Exec(cpe, before));
    run := before + [Disconnect];
    TraceExtends(cpe, before, Disconnect);
  }

  lemma SpawnedState(cpe: bool, s: State)
    requires At(cpe, s, PathLength(cpe), 0)
    ensures s.online && s.t.cur == s.t.next == Spawned
    ensures Step(s, Disconnect) == s.(t := Transition(Spawned, Disconnecting, Disconnected))
  {
  }

  /** What comes after is a run of steps from there; the trace remembers that the player had spawned. */
  lemma Departed(cpe: bool, run: seq<Label>, more: seq<Label>)
    requires Departs(Exec(cpe, run).t.cur) && Spawned in Trace(cpe, run)
    ensures Exec(cpe, run + more) == Steps(Exec(cpe, run), more) && Spawned in Trace(cpe, run + more)
  {
    ExecSteps(cpe, run, more);
    assert (run + more)[..|run|] == run;
    SpawnedBeforeLeaving(cpe, run + more, |run|);
  }

  lemma HandlerAfterTicks(s: State, n: nat)
    requires s.online && s.t.cur == Disconnecting && s.queue == 0 && s.handler.Unused?
    ensures Steps(s, Repeat(Tick(false), n) + [Schedule] + RestOfHandler(Announcing(n, n))) ==
            Handled(s.(handler := Announcing(n, n)))
  {
    var scheduled := s.(handler := Announcing(n, n));
    TicksRepeated(s, n);
    StepsSnoc(s, Repeat(Tick(false), n), Schedule);
    StepsConcat(s, Repeat(Tick(false), n) + [Schedule], RestOfHandler(Announcing(n, n)));
    UninterruptedHandler(scheduled);
  }

  /**
  The departure of a spawned player is announced once for every tick between the disconnect and the schedule.
  */
  lemma AnnouncedOncePerTick(cpe: bool, n: nat) returns (run: seq<Label>)
    requires n > 0
    ensures Spawned in Trace(cpe, run) && Exec(cpe, run).t.cur == Disconnected && Exec(cpe, run).told == n
  {
    var left := SpawnedDisconnects(cpe);
    var more := Repeat(Tick(false), n) + [Schedule] + RestOfHandler(Announcing(n, n));
    HandlerAfterTicks(Exec(cpe, left), n);
    Departed(cpe, left, more);
    run := left + more;
  }

  /**
  A stray callback between the disconnect and the handler: the handler looks at a player that had spawned, and puts
  it on no list, then or later.
  */
  lemma SpawnedPlayerLeavesUnannounced(cpe: bool) returns (run: seq<Label>, n: nat, i: nat)
    ensures LeavesAt(cpe, run, n) && run[n].Transit? && Spawned in Trace(cpe, run[..n])
    ensures n < i < |run| && Looks(Exec(cpe, run[..i]), run[i])
    ensures forall more :: Exec(cpe, run + more).t.cur == Disconnected && Exec(cpe, run + more).told == 0
  {
    var left := SpawnedDisconnects(cpe);
    SpawnedStays(cpe, left, Tick(false));
    run, n, i := TransitOvertakesHandler(cpe, left);
    NeverToldAgain(cpe, run);
  }

  lemma TransitOvertakesHandler(cpe: bool, left: seq<Label>) returns (run: seq<Label>, n: nat, i: nat)
    requires Exec(cpe, left) == State(true, Transition(Spawned, Disconnecting, Disconnected), 0, Unused, 0)
    ensures LeavesAt(cpe, run, n) && run[n].Transit? && run[..n] == left + [Tick(false)]
    ensures n < i < |run| && Looks(Exec(cpe, run[..i]), run[i])
    ensures Exec(cpe, run).t.cur == Disconnected && Exec(cpe, run).told == 0
  {
    var queued := left + [Tick(false)];
    var moved := queued + [Transit];
    var scheduled := moved + [Schedule];
    ExecExtends(cpe, left, Tick(false));
    ExecExtends(cpe, queued, Transit);
    ExecExtends(cpe, moved, Schedule);
    ExecExtends(cpe, scheduled, Announce);
    OvertakenStates(Exec(cpe, left));
    run, n, i := scheduled + [Announce], |queued|, |scheduled|;
    assert run[..n] == queued && run[..n + 1] == moved && run[..i] == scheduled;
  }

  lemma OvertakenStates(s: State)
    requires s == State(true, Transition(Spawned, Disconnecting, Disconnected), 0, Unused, 0)
    ensures var queued := Step(s, Tick(false));
      var moved := Step(queued, Transit);
      var scheduled := Step(moved, Schedule);
      var looked := Step(scheduled, Announce);
      && queued.t.cur == Disconnecting && moved.t.cur == Disconnected && Looks(scheduled, Announce)
      && looked.t.cur == Disconnected && looked.told == 0
  {
  }

  lemma NeverToldAgain(cpe: bool, run: seq<Label>)
    requires Exec(cpe, run).t.cur == Disconnected
    ensures forall more ::
      Exec(cpe, run + more).t.cur == Disconnected && Exec(cpe, run + more).told == Exec(cpe, run).told
  {
    forall more
      ensures Exec(cpe, run + more).t.cur == Disconnected && Exec(cpe, run + more).told == Exec(cpe, run).told
    {
      assert (run + more)[..|run|] == run;
      DisconnectedIsFinal(cpe, run + more, |run|);
    }
  }

  lemma {:induction false} OfflineIsFinal(s: State, more: seq<Label>)
    requires !s.online && NoEntries(s)
    ensures var s' := Steps(s, more); !s'.online && NoEntries(s') && s'.told == s.told
    decreases |more|
  {
    if more != [] {
      OfflineIsFinal(s, more[..|more| - 1]);
    }
  }

  /** A player whose connection is offline is moved on by stray callbacks only: the departure task does not find it. */
  lemma {:induction false} OfflinePlayerStays(cpe: bool, run: seq<Label>, more: seq<Label>)
    requires !Exec(cpe, run).online && Transit !in more
    ensures !Exec(cpe, run + more).online && Exec(cpe, run + more).t == Exec(cpe, run).t
    decreases |more|
  {
    if more == [] {
      assert run + more == run;
    } else {
      var before := more[..|more| - 1];
      OfflinePlayerStays(cpe, run, before);
      ExecExtends(cpe, run + before, more[|more| - 1]);
      assert run + more == run + before + [more[|more| - 1]];
    }
  }

  /** A second disconnect before the next tick takes a spawned player offline, and it is never announced. */
  lemma SecondDisconnectLeavesUnannounced(cpe: bool) returns (run: seq<Label>)
    ensures Spawned in Trace(cpe, run) && !Exec(cpe, run).online
    ensures forall more :: Exec(cpe, run + more).told == 0
  {
    var left := SpawnedDisconnects(cpe);
    run := left + [Disconnect];
    TraceExtends(cpe, left, Disconnect);
    SpawnedStays(cpe, left, Disconnect);
    forall more ensures Exec(cpe, run + more).told == 0 {
      ExecSteps(cpe, run, more);
      OfflineIsFinal(Exec(cpe, run), more);
    }
  }

  // ----- When the connection goes offline.

  /** A tick found the player disconnected, or a disconnect found it on its way out. */
  predicate TakenOffline(cpe: bool, run: seq<Label>) {
    run != [] &&
    var before, l := run[..|run| - 1], run[|run| - 1];
    var cur := Exec(cpe, before).t.cur;
    TakenOffline(cpe, before) || (l.Tick? && cur == Disconnected) || (l.Disconnect? && Departs(cur))
  }

  lemma StepTakesOffline(cpe: bool, s: State, l: Label, k: nat, j: nat)
    requires At(cpe, s, k, j)
    ensures !Step(s, l).online <==>
            !s.online || (l.Tick? && s.t.cur == Disconnected) || (l.Disconnect? && Departs(s.t.cur))
  {
  }

  /** In every run the connection is offline exactly when one of these came. */
  lemma {:induction false} OfflineIff(cpe: bool, run: seq<Label>)
    ensures !Exec(cpe, run).online <==> TakenOffline(cpe, run)
  {
    if run != [] {
      var before := run[..|run| - 1];
      OfflineIff(cpe, before);
      var k, j := EveryRunFollowsTheLoginPath(cpe, before);
      StepTakesOffline(cpe, Exec(cpe, before), run[|run| - 1], k, j);
    }
  }

  /** A disconnected player is offline after one more tick. */
  lemma NextTickGoesOffline(cpe: bool, run: seq<Label>, sent: bool)
    requires Exec(cpe, run).t.cur == Disconnected
    ensures !Exec(cpe, run + [Tick(sent)]).online
  {
    OfflineIff(cpe, run + [Tick(sent)]);
    assert (run + [Tick(sent)])[..|run|] == run;
  }

  /** Without its extension packets accepted, an extended client never gets past the handshake. */
  lemma {:induction false} RefusedExtensionsHoldThePlayer(run: seq<Label>)
    requires Tick(true) !in run
    ensures forall s :: s in Trace(true, run) ==> s == ExHandshaking || s == ExHandshaked || Departs(s)
  {
    if run != [] {
      var before := run[..|run| - 1];
      RefusedExtensionsHoldThePlayer(before);
      var k, j := EveryRunFollowsTheLoginPath(true, before);
      var cur := Exec(true, before).t.cur;
      assert cur in Trace(true, before);
      HeldStep(Exec(true, before), run[|run| - 1], k, j);
    }
  }

  lemma HeldStep(s: State, l: Label, k: nat, j: nat)
    requires At(true, s, k, j) && l != Tick(true)
    requires s.t.cur == ExHandshaking || s.t.cur == ExHandshaked || Departs(s.t.cur)
    ensures var cur := Step(s, l).t.cur; cur == ExHandshaking || cur == ExHandshaked || Departs(cur)
  {
  }

  /** The hint passed to transit_state is right exactly when the player is where the caller believes. */
  lemma HintHoldsIff(cpe: bool, run: seq<Label>)
    ensures var t := Exec(cpe, run).t;
      && (t.next == LevelInitialized <==> t.cur == LevelInitializing || t.cur == LevelInitialized)
      && (t.next == Spawned <==> t.cur == Spawning || t.cur == Spawned)
      && (t.next == ExtensionSynced <==> t.cur == ExtensionSyncing || t.cur == ExtensionSynced)
      && (t.next == Disconnected <==> t.cur == Disconnecting || t.cur == Disconnected)
  {
    var k, j := EveryRunFollowsTheLoginPath(cpe, run);
  }

  // ----- The code that takes the steps.

  /** disconnect_player_task, and the players put on despawn lists so far. */
  class DepartureTask {
    var processing: bool
    var queue: seq<Session>
    var target: seq<Session>
    var despawned: seq<Session>

    constructor ()
      ensures !processing && queue == [] && target == [] && despawned == []
    {
      processing := false;
      queue, target, despawned := [], [], [];
    }

    method Push(player: Session)
      modifies this`queue
      ensures queue == old(queue) + [player]
    {
      queue := queue + [player];
    }

    method BeforeScheduling()
      requires !processing && target == []
      modifies this
      ensures target == old(queue) && queue == [] && despawned == old(despawned) && processing
      ensures forall p :: p in old(queue) ==> p.View(this) == Step(old(p.View(this)), Schedule)
    {
      processing := true;
      queue, target := target, queue;
    }

    /** The handler, and the task is unused again. Each player object belongs to one connection. */
    method OnEventComplete()
      requires processing && OwnPlayers(target)
      modifies this, set p | p in target :: p.player
      ensures !processing && target == [] && queue == old(queue)
      ensures forall p :: p in old(target) ==> p.View(this) == Handled(old(p.View(this)))
    {
      var spawned := DisconnectPlayers(target);
      despawned := despawned + spawned;
      target := [];
      processing := false;
    }
  }

  function MovedOn(p: Session, t: Transition, n: nat): Transition
    reads p`online
  {
    if p.online then TransitedTimes(t, n) else t
  }

  lemma CountNext(waiting: seq<Session>, n: nat)
    requires n < |waiting|
    ensures forall p :: multiset(waiting[..n + 1])[p] == multiset(waiting[..n])[p] + if p == waiting[n] then 1 else 0
  {
    assert waiting[..n + 1] == waiting[..n] + [waiting[n]];
  }

  /** The first loop of disconnect_player: who is to be announced, as often as queued. */
  method SelectSpawned(waiting: seq<Session>) returns (spawned: seq<Session>)
    ensures forall p :: p in spawned ==> p in waiting
    ensures forall p :: p in waiting ==>
      multiset(spawned)[p] == if HadSpawned(p.player.View()) then multiset(waiting)[p] else 0
  {
    spawned := [];
    for n := 0 to |waiting|
      invariant forall p :: p in spawned ==> p in waiting
      invariant forall p :: p in waiting ==>
        multiset(spawned)[p] == if HadSpawned(p.player.View()) then multiset(waiting[..n])[p] else 0
    {
      CountNext(waiting, n);
      if Rank(waiting[n].player.prev) >= Rank(Spawned) {
        spawned := spawned + [waiting[n]];
      }
    }
    assert waiting[..|waiting|] == waiting;
  }

  ghost predicate OwnPlayers(waiting: seq<Session>) {
    forall p, q :: p in waiting && q in waiting && p.player == q.player ==> p == q
  }

  /** The first n entries have been moved on from these states. */
  ghost predicate MovedSoFar(waiting: seq<Session>, n: nat, views: map<Session, Transition>)
    requires n <= |waiting|
    reads waiting, set p | p in waiting :: p.player
  {
    forall p :: p in waiting ==>
      p in views && p.player.View() == MovedOn(p, views[p], multiset(waiting[..n])[p])
  }

  method MoveOne(waiting: seq<Session>, n: nat, ghost views: map<Session, Transition>)
    requires n < |waiting| && OwnPlayers(waiting) && MovedSoFar(waiting, n, views)
    modifies waiting[n].player
    ensures MovedSoFar(waiting, n + 1, views)
  {
    CountNext(waiting, n);
    if waiting[n].online {
      waiting[n].player.TransitState();
    }
  }

  /** The second loop: a player is moved on as often as queued, unless its connection is no longer found. */
  method MoveOn(waiting: seq<Session>)
    requires OwnPlayers(waiting)
    modifies set p | p in waiting :: p.player
    ensures forall p :: p in waiting ==> p.player.View() == MovedOn(p, old(p.player.View()), multiset(waiting)[p])
  {
    ghost var views := map p | p in waiting :: p.player.View();
    for n := 0 to |waiting|
      invariant MovedSoFar(waiting, n, views)
    {
      MoveOne(waiting, n, views);
    }
    assert waiting[..|waiting|] == waiting;
  }

  /** World::disconnect_player. Who is announced is settled before anyone moves on. */
  method DisconnectPlayers(waiting: seq<Session>) returns (spawned: seq<Session>)
    requires OwnPlayers(waiting)
    modifies set p | p in waiting :: p.player
    ensures forall p :: p in waiting ==>
      multiset(spawned)[p] == if old(HadSpawned(p.player.View())) then multiset(waiting)[p] else 0
    ensures forall p :: p in spawned ==> p in waiting
    ensures forall p :: p in waiting ==> p.player.View() == MovedOn(p, old(p.player.View()), multiset(waiting)[p])
  {
    spawned := SelectSpawned(waiting);
    MoveOn(waiting);
  }

  /** A connection and its player, as far as the login state goes. */
  class Session {
    const player: PlayerState
    var online: bool

    /** As the machine sees it, the task being between calls. */
    ghost function View(task: DepartureTask): State
      reads this, player, task
    {
      var entries := multiset(task.target)[this];
      State(online, player.View(), multiset(task.queue)[this],
            if task.processing then Announcing(entries, entries) else Unused, multiset(task.despawned)[this])
    }

    /** handle_handshake_packet: a fresh player, and its first transition. */
    constructor (cpe: bool)
      ensures online && player.View() == AfterHandshake(cpe).t && fresh(player)
    {
      player := new PlayerState();
      online := true;
      new;
      if cpe {
        player.PrepareStateTransition(ExHandshaking, ExHandshaked);
      } else {
        player.PrepareStateTransition(Handshaking, Handshaked);
      }
    }

    /** Connection::disconnect */
    method Disconnect(ghost task: DepartureTask)
      modifies this`online, player
      ensures View(task) == Step(old(View(task)), Label.Disconnect)
    {
      if !online {
        return;
      }
      if Rank(player.cur) >= Rank(Handshaking) {
        player.PrepareStateTransition(Disconnecting, Disconnected);
        return;
      }
      online := false;
    }

    /** The world's tick, for this player. sent says whether the extension packets are accepted. */
    method Tick(sent: bool, task: DepartureTask)
      requires online
      modifies this`online, player, task`queue
      ensures View(task) == Step(old(View(task)), Label.Tick(sent))
    {
      match player.cur
      case ExHandshaked =>
        if sent {
          player.PrepareStateTransition(ExtensionSyncing, ExtensionSynced);
        }
      case Handshaked => player.PrepareStateTransition(LevelInitializing, LevelInitialized);
      case ExtensionSynced => player.PrepareStateTransition(LevelInitializing, LevelInitialized);
      case LevelInitialized => player.PrepareStateTransition(Spawning, Spawned);
      case Disconnecting => task.Push(this);
      case Disconnected => Disconnect(task);
      case _ =>
    }
  }
}
