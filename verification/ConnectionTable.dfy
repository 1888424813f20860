/**
The connection table and its generation keys: slot search, creation, delayed deletion and the lookup that
rejects stale keys (mmocraft/net/connection_environment.h, mmocraft/net/connection_environment.cpp,
mmocraft/net/connection_key.h, mmocraft/net/connection.cpp:33-81, mmocraft/net/tcp_server.cpp:32-46, 87-111).
Each function is one step.
*/
module ConnectionTable {
  import opened Wrappers

  const INVALID_TICK: nat := 0xDEADBEEF
  const REQUIRED_MILLISECONDS_FOR_EXPIRE: nat := 60 * 1000
  const REQUIRED_MILLISECONDS_FOR_SECURE_DELETION: nat := 5 * 1000
  const TWO_32: nat := 0x1_0000_0000

  // ----- Keys: the slot index in the low 32 bits, the creation tick in the high 32 bits.

  /** The operands of the bitwise or occupy different halves, so it is a sum. */
  function MakeKey(index: nat, createdAt: nat): nat
    requires index < TWO_32 && createdAt < TWO_32
  {
    index + createdAt * TWO_32
  }

  function KeyIndex(key: nat): nat {
    key % TWO_32
  }

  function KeyCreatedAt(key: nat): nat {
    key / TWO_32
  }

  lemma KeyRoundTrip(index: nat, createdAt: nat)
    requires index < TWO_32 && createdAt < TWO_32
    ensures KeyIndex(MakeKey(index, createdAt)) == index && KeyCreatedAt(MakeKey(index, createdAt)) == createdAt
  {
  }

  /** GetTickCount: the low half of the 64-bit clock. */
  function Tick32(now: nat): nat {
    now % TWO_32
  }

  // ----- Connections and entries.

  /** serial identifies the connection object; inWorld says its player is in handshaking or a later state. */
  datatype Connection = Connection(serial: nat, key: nat, online: bool, lastOffline: nat, lastInteraction: nat,
      inWorld: bool)

  datatype Entry = Entry(used: bool, willDelete: bool, connection: Option<Connection>, createdAt: nat)

  const EMPTY_ENTRY: Entry := Entry(false, true, None, INVALID_TICK)

  predicate IsExpired(c: Connection, now: nat) {
    now >= c.lastInteraction + REQUIRED_MILLISECONDS_FOR_EXPIRE
  }

  predicate IsSafeDelete(c: Connection, now: nat) {
    !c.online && now >= c.lastOffline + REQUIRED_MILLISECONDS_FOR_SECURE_DELETION
  }

  /**
  Connection::disconnect: a player in the world is first handed to the world; otherwise the connection goes offline.
  */
  function Disconnected(e: Entry, now: nat): Entry {
    if e.connection.None? || !e.connection.value.online then e
    else if e.connection.value.inWorld then e.(connection := Some(e.connection.value.(inWorld := false)))
    else e.(connection := Some(e.connection.value.(online := false, lastOffline := now)), willDelete := true)
  }

  /** What cleanup_expired_connection does to one entry. */
  function CleanedUp(e: Entry, now: nat): Entry {
    if !e.used || e.connection.None? then e
    else if IsSafeDelete(e.connection.value, now) then Entry(false, e.willDelete, None, INVALID_TICK)
    else if IsExpired(e.connection.value, now) then Disconnected(e, now)
    else e
  }

  function CleanUp(entries: seq<Entry>, now: nat): seq<Entry> {
    seq(|entries|, i requires 0 <= i < |entries| => CleanedUp(entries[i], now))
  }

  function CountUsed(entries: seq<Entry>): nat {
    if entries == [] then 0 else CountUsed(entries[..|entries| - 1]) + if entries[|entries| - 1].used then 1 else 0
  }

  /** The first slot not in use, or the table size. */
  function FirstUnused(entries: seq<Entry>): (i: nat)
    ensures i <= |entries|
    ensures forall k :: 0 <= k < i ==> entries[k].used
    ensures i < |entries| ==> !entries[i].used
  {
    if entries == [] then 0
    else
      var i := FirstUnused(entries[..|entries| - 1]);
      if i < |entries| - 1 || !entries[|entries| - 1].used then i else |entries|
  }

  function NewEntry(serial: nat, key: nat, now: nat): Entry {
    Entry(true, false, Some(Connection(serial, key, true, 0, now, false)), KeyCreatedAt(key))
  }

  /** try_acquire_connection. */
  function TryAcquire(entries: seq<Entry>, key: nat): Option<Connection>
    requires KeyIndex(key) < |entries|
  {
    var e := entries[KeyIndex(key)];
    if e.willDelete || KeyCreatedAt(key) != e.createdAt then None else e.connection
  }

  // ----- What every table keeps.

  /** A used entry owns a connection of its slot; an entry not marked for deletion owns an online one. */
  ghost predicate EntryValid(e: Entry, i: nat) {
    && (e.used <==> e.connection.Some?)
    && (e.connection.Some? ==>
          && KeyIndex(e.connection.value.key) == i && KeyCreatedAt(e.connection.value.key) == e.createdAt
          && (e.connection.value.online <==> !e.willDelete))
    && (!e.willDelete ==> e.used)
  }

  ghost predicate EntriesValid(entries: seq<Entry>) {
    forall i :: 0 <= i < |entries| ==> EntryValid(entries[i], i)
  }

  lemma {:induction false} CountUsedBound(entries: seq<Entry>)
    ensures CountUsed(entries) <= |entries|
    ensures CountUsed(entries) < |entries| <==> FirstUnused(entries) < |entries|
    decreases |entries|
  {
    if entries == [] {
    } else {
      CountUsedBound(entries[..|entries| - 1]);
    }
  }

  lemma {:induction false} CountUsedUpdate(entries: seq<Entry>, i: nat, e: Entry)
    requires i < |entries|
    ensures CountUsed(entries[i := e]) + (if entries[i].used then 1 else 0) == CountUsed(entries) + if e.used then 1
        else 0
    decreases |entries|
  {
    var last := |entries| - 1;
    if i == last {
      assert entries[i := e][..last] == entries[..last];
    } else {
      assert entries[i := e][..last] == entries[..last][i := e];
      CountUsedUpdate(entries[..last], i, e);
    }
  }

  // ----- The code: the table updated in place.

  class ConnectionEnvironment {
    const table: array<Entry>
    var numOfConnections: nat

    ghost predicate Valid()
      reads this, table
    {
      EntriesValid(table[..]) && numOfConnections == CountUsed(table[..]) && table.Length < TWO_32
    }

    constructor (maxConnections: nat)
      requires maxConnections < TWO_32
      ensures Valid() && fresh(table) && table.Length == maxConnections && numOfConnections == 0
      ensures forall i :: 0 <= i < maxConnections ==> table[i] == EMPTY_ENTRY
    {
      table := new Entry[maxConnections](_ => EMPTY_ENTRY);
      numOfConnections := 0;
      new;
      NoneUsed(table[..]);
    }

    static lemma {:induction false} NoneUsed(entries: seq<Entry>)
      requires forall e :: e in entries ==> !e.used
      ensures CountUsed(entries) == 0
      decreases |entries|
    {
      if entries == [] {
      } else {
        assert forall e :: e in entries[..|entries| - 1] ==> e in entries;
        NoneUsed(entries[..|entries| - 1]);
      }
    }

    /** When a connection may still be admitted, the search stops at a free slot of the table. */
    method GetUnusedConnectionId() returns (id: nat)
      requires Valid()
      ensures id == FirstUnused(table[..])
      ensures numOfConnections < table.Length ==> id < table.Length && !table[id].used
    {
      id := 0;
      while id < table.Length && table[id].used
        invariant 0 <= id <= table.Length
        invariant forall k :: 0 <= k < id ==> table[k].used
      {
        id := id + 1;
      }
      CountUsedBound(table[..]);
    }

    method OnConnectionCreate(serial: nat, key: nat, now: nat)
      requires Valid() && KeyIndex(key) < table.Length && !table[KeyIndex(key)].used
      modifies this, table
      ensures Valid() && table[..] == old(table[..])[KeyIndex(key) := NewEntry(serial, key, now)]
      ensures numOfConnections == old(numOfConnections) + 1
    {
      CountUsedUpdate(table[..], KeyIndex(key), NewEntry(serial, key, now));
      numOfConnections := numOfConnections + 1;
      table[KeyIndex(key)] := NewEntry(serial, key, now);
      assert table[..] == old(table[..])[KeyIndex(key) := NewEntry(serial, key, now)];
    }

    method CleanupExpiredConnection(now: nat)
      requires Valid()
      modifies this, table
      ensures Valid() && table[..] == CleanUp(old(table[..]), now)
    {
      var i := 0;
      while i < table.Length
        invariant 0 <= i <= table.Length
        invariant Valid()
        invariant forall k :: 0 <= k < i ==> table[k] == CleanedUp(old(table[k]), now)
        invariant forall k :: i <= k < table.Length ==> table[k] == old(table[k])
      {
        var entry := table[i];
        ghost var before := table[..];
        if entry.used {
          if IsSafeDelete(entry.connection.value, now) {
            // ~Connection calls on_connection_delete.
            table[i] := entry.(connection := None, createdAt := INVALID_TICK, used := false);
            CountUsedPositive(before, i);
            numOfConnections := numOfConnections - 1;
          } else if IsExpired(entry.connection.value, now) {
            table[i] := Disconnected(entry, now);
          }
        }
        CountUsedUpdate(before, i, table[i]);
        assert table[..] == before[i := table[i]];
        i := i + 1;
      }
    }

    static lemma CountUsedPositive(entries: seq<Entry>, i: nat)
      requires i < |entries| && entries[i].used
      ensures CountUsed(entries) > 0
    {
      CountUsedUpdate(entries, i, EMPTY_ENTRY);
    }

    /** The connections a walk over the table visits; each entry it dereferences owns an online connection. */
    method ForEachConnection() returns (visited: seq<Connection>)
      requires Valid()
      ensures forall c :: c in visited <==>
        c.online && exists i :: 0 <= i < table.Length && table[i].connection == Some(c)
    {
      visited := [];
      for i := 0 to table.Length
        invariant forall c :: c in visited <==> exists k :: 0 <= k < i && table[k].connection == Some(c) && c.online
      {
        assert EntryValid(table[..][i], i);
        if !table[i].willDelete {
          visited := visited + [table[i].connection.value];
        }
      }
    }
  }

  // ----- Runs of the server.

  /** A key handed out by new_connection, when, and for which connection object (its place in this log). */
  datatype Issue = Issue(key: nat, at: nat)

  /** now is GetTickCount64. The log of issued keys is never read by a step except to number the connections. */
  datatype Server = Server(now: nat, entries: seq<Entry>, count: nat, issued: seq<Issue>)

  datatype Label =
    | Tick(dt: nat)
    | Accept(cleanUp: bool)          // an accepted client; the cleanup runs first when its period is over
    | Interact(i: nat)               // a receive of an online connection
    | MoveInWorld(i: nat, to: bool)  // any change of the player's state
    | Disconnect(i: nat)             // Connection::disconnect, called by a kick, an error or the world

  function Init(max: nat): Server {
    Server(0, seq(max, _ => EMPTY_ENTRY), 0, [])
  }

  /** The connections a cleanup deletes; each destructor takes one off the unsigned counter. */
  function CountDeleted(entries: seq<Entry>, now: nat): nat {
    if entries == [] then 0
    else
      var e := entries[|entries| - 1];
      CountDeleted(entries[..|entries| - 1], now) +
      if e.used && e.connection.Some? && IsSafeDelete(e.connection.value, now) then 1 else 0
  }

  function AfterCleanUp(s: Server): Server {
    s.(entries := CleanUp(s.entries, s.now), count := (s.count - CountDeleted(s.entries, s.now)) % TWO_32)
  }

  predicate Admits(s: Server) {
    s.count < |s.entries|
  }

  /** new_connection; past the table's end when there is no free slot. */
  function Admit(s: Server): Server {
    var index := FirstUnused(s.entries);
    if index == |s.entries| || index >= TWO_32 then s
    else
      var key := MakeKey(index, Tick32(s.now));
      s.(entries := s.entries[index := NewEntry(|s.issued|, key, s.now)], count := s.count + 1,
         issued := s.issued + [Issue(key, s.now)])
  }

  function Step(s: Server, l: Label): Option<Server> {
    match l
    case Tick(dt) => Some(s.(now := s.now + dt))
    case Accept(cleanUp) =>
      var cleaned := if cleanUp then AfterCleanUp(s) else s;
      Some(if Admits(cleaned) then Admit(cleaned) else cleaned)
    case Interact(i) =>
      if i < |s.entries| && s.entries[i].connection.Some? && s.entries[i].connection.value.online then
        Some(s.(entries := s.entries[i := s.entries[i].(connection :=
            Some(s.entries[i].connection.value.(lastInteraction := s.now)))]))
      else None
    case MoveInWorld(i, to) =>
      if i < |s.entries| && s.entries[i].connection.Some? then
        Some(s.(entries := s.entries[i := s.entries[i].(connection :=
            Some(s.entries[i].connection.value.(inWorld := to)))]))
      else None
    case Disconnect(i) =>
      if i < |s.entries| then Some(s.(entries := s.entries[i := Disconnected(s.entries[i], s.now)])) else None
  }

  function Exec(max: nat, run: seq<Label>): Option<Server> {
    if run == [] then Some(Init(max))
    else match Exec(max, run[..|run| - 1])
      case None => None
      case Some(s) => Step(s, run[|run| - 1])
  }

  // ----- The invariant: accounting, and the history of each slot.

  ghost predicate Accounted(s: Server) {
    EntriesValid(s.entries) && s.count == CountUsed(s.entries) && s.count <= |s.entries| < TWO_32
  }

  /** The connection in a slot is the last one issued for it, and earlier ones are at least the deletion delay older. */
  ghost predicate SlotHistory(s: Server, i: nat)
    requires i < |s.entries|
  {
    match s.entries[i].connection
    case None =>
      forall j :: 0 <= j < |s.issued| && KeyIndex(s.issued[j].key) == i ==>
        s.issued[j].at + REQUIRED_MILLISECONDS_FOR_SECURE_DELETION <= s.now
    case Some(c) =>
      && c.serial < |s.issued| && s.issued[c.serial].key == c.key
      && (!c.online ==> s.issued[c.serial].at <= c.lastOffline)
      && (forall j :: 0 <= j < |s.issued| && j != c.serial && KeyIndex(s.issued[j].key) == i ==>
            j < c.serial && s.issued[j].at + REQUIRED_MILLISECONDS_FOR_SECURE_DELETION <= s.issued[c.serial].at)
  }

  ghost predicate IssuesValid(s: Server) {
    forall j :: 0 <= j < |s.issued| ==>
      var k := s.issued[j];
      k.at <= s.now && KeyIndex(k.key) < |s.entries| && KeyCreatedAt(k.key) == Tick32(k.at)
  }

  ghost predicate Inv(s: Server) {
    Accounted(s) && IssuesValid(s) && forall i :: 0 <= i < |s.entries| ==> SlotHistory(s, i)
  }

  lemma UpdateKeepsInv(s: Server, i: nat, e: Entry)
    requires Inv(s) && i < |s.entries| && EntryValid(e, i) && e.used == s.entries[i].used
    requires SlotHistory(s.(entries := s.entries[i := e]), i)
    ensures Inv(s.(entries := s.entries[i := e]))
  {
    var s' := s.(entries := s.entries[i := e]);
    CountUsedUpdate(s.entries, i, e);
    forall k | 0 <= k < |s'.entries| ensures SlotHistory(s', k) {
      assert SlotHistory(s, k);
    }
  }

  /** Exactly the deleted connections leave the number of used slots. */
  lemma {:induction false} CleanUpCounts(entries: seq<Entry>, now: nat)
    requires forall e :: e in entries ==> (e.used <==> e.connection.Some?)
    ensures CountUsed(entries) == CountUsed(CleanUp(entries, now)) + CountDeleted(entries, now)
    decreases |entries|
  {
    if entries != [] {
      var before := entries[..|entries| - 1];
      assert forall e :: e in before ==> e in entries;
      CleanUpCounts(before, now);
      assert CleanUp(entries, now)[..|entries| - 1] == CleanUp(before, now);
      assert entries[|entries| - 1] in entries;
    }
  }

  lemma CleanUpKeepsInv(s: Server)
    requires Inv(s)
    ensures Inv(AfterCleanUp(s))
  {
    var s' := AfterCleanUp(s);
    CleanUpKeepsCount(s);
    forall i | 0 <= i < |s'.entries| ensures EntryValid(s'.entries[i], i) && SlotHistory(s', i) {
      CleanUpKeepsSlot(s, i);
    }
  }

  lemma CleanUpKeepsCount(s: Server)
    requires Accounted(s)
    ensures var s' := AfterCleanUp(s); s'.count == CountUsed(s'.entries) <= |s'.entries|
  {
    forall e | e in s.entries ensures e.used <==> e.connection.Some? {
      var i :| 0 <= i < |s.entries| && e == s.entries[i];
      assert EntryValid(s.entries[i], i);
    }
    CleanUpCounts(s.entries, s.now);
    CountUsedBound(CleanUp(s.entries, s.now));
  }

  lemma CleanUpKeepsSlot(s: Server, i: nat)
    requires i < |s.entries| && EntryValid(s.entries[i], i) && SlotHistory(s, i) && IssuesValid(s)
    ensures var s' := AfterCleanUp(s); EntryValid(s'.entries[i], i) && SlotHistory(s', i)
  {
    assert AfterCleanUp(s).entries[i] == CleanedUp(s.entries[i], s.now);
  }

  lemma AdmitKeepsInv(s: Server)
    requires Inv(s) && Admits(s)
    ensures Inv(Admit(s)) && FirstUnused(s.entries) < |s.entries|
  {
    CountUsedBound(s.entries);
    var index := FirstUnused(s.entries);
    var key := MakeKey(index, Tick32(s.now));
    var s' := Admit(s);
    KeyRoundTrip(index, Tick32(s.now));
    CountUsedUpdate(s.entries, index, s'.entries[index]);
    CountUsedBound(s'.entries);
    forall i | 0 <= i < |s'.entries| ensures EntryValid(s'.entries[i], i) && SlotHistory(s', i) {
      assert EntryValid(s.entries[i], i) && SlotHistory(s, i);
    }
  }

  lemma StepKeepsInv(s: Server, l: Label, s': Server)
    requires Inv(s) && Step(s, l) == Some(s')
    ensures Inv(s')
  {
    match l {
      case Tick(_) =>
        forall i | 0 <= i < |s'.entries| ensures SlotHistory(s', i) { assert SlotHistory(s, i); }
      case Accept(cleanUp) =>
        if cleanUp {
          CleanUpKeepsInv(s);
        }
        var cleaned := if cleanUp then AfterCleanUp(s) else s;
        if Admits(cleaned) {
          AdmitKeepsInv(cleaned);
        }
      case Interact(i) =>
        assert SlotHistory(s, i) && EntryValid(s.entries[i], i);
        UpdateKeepsInv(s, i, s'.entries[i]);
      case MoveInWorld(i, _) =>
        assert SlotHistory(s, i) && EntryValid(s.entries[i], i);
        UpdateKeepsInv(s, i, s'.entries[i]);
      case Disconnect(i) =>
        assert SlotHistory(s, i) && EntryValid(s.entries[i], i);
        UpdateKeepsInv(s, i, s'.entries[i]);
    }
  }

  lemma {:induction false} InvHolds(max: nat, run: seq<Label>)
    requires max < TWO_32 && Exec(max, run).Some?
    ensures Inv(Exec(max, run).value) && |Exec(max, run).value.entries| == max
    decreases |run|
  {
    if run == [] {
      ConnectionEnvironment.NoneUsed(Init(max).entries);
    } else {
      InvHolds(max, run[..|run| - 1]);
      StepKeepsInv(Exec(max, run[..|run| - 1]).value, run[|run| - 1], Exec(max, run).value);
    }
  }

  // ----- Main results, over every run.

  /**
  The counter is the number of used slots and at most the maximum; unmarked entries own an online connection of their
  slot.
  */
  lemma ConnectionsAreAccounted(max: nat, run: seq<Label>)
    requires max < TWO_32 && Exec(max, run).Some?
    ensures var s := Exec(max, run).value;
      && s.count == CountUsed(s.entries) && s.count <= max == |s.entries|
      && (forall i :: 0 <= i < max && !s.entries[i].willDelete ==>
            s.entries[i].connection.Some? && s.entries[i].connection.value.online && s.entries[i].used)
  {
    InvHolds(max, run);
    var s := Exec(max, run).value;
    forall i | 0 <= i < max ensures EntryValid(s.entries[i], i) {
    }
  }

  /** Below the limit a client gets a free slot in range, and its key acquires exactly its own connection. */
  lemma AdmittedClientGetsFreeSlot(max: nat, run: seq<Label>)
    requires max < TWO_32 && Exec(max, run).Some? && Admits(Exec(max, run).value)
    ensures var s := Exec(max, run).value;
      var s' := Admit(s);
      && |s'.issued| == |s.issued| + 1
      && var issue := s'.issued[|s.issued|];
      && KeyIndex(issue.key) < max
      && !s.entries[KeyIndex(issue.key)].used
      && TryAcquire(s'.entries, issue.key).Some? && TryAcquire(s'.entries, issue.key).value.serial == |s.issued|
  {
    InvHolds(max, run);
    AdmitKeepsInv(Exec(max, run).value);
    KeyRoundTrip(FirstUnused(Exec(max, run).value.entries), Tick32(Exec(max, run).value.now));
  }

  /**
  The connection in the slot of the j-th issued key is online, and it is the one the key was issued for, or one
  created a positive multiple of 2^32 ms later.
  */
  ghost predicate Answers(s: Server, j: nat, c: Connection)
    requires j < |s.issued| && KeyIndex(s.issued[j].key) < |s.entries|
  {
    && s.entries[KeyIndex(s.issued[j].key)].connection == Some(c) && c.online && c.serial < |s.issued|
    && (c.serial == j
        || (j < c.serial && s.issued[c.serial].at > s.issued[j].at
            && (s.issued[c.serial].at - s.issued[j].at) % TWO_32 == 0))
  }

  /** Exactly the connections that answer to a key are acquired with it. */
  lemma AcquiredConnectionIsExact(max: nat, run: seq<Label>, j: nat, c: Connection)
    requires max < TWO_32 && Exec(max, run).Some? && j < |Exec(max, run).value.issued|
    ensures var s := Exec(max, run).value;
      && KeyIndex(s.issued[j].key) < |s.entries|
      && (TryAcquire(s.entries, s.issued[j].key) == Some(c) <==> Answers(s, j, c))
  {
    InvHolds(max, run);
    SlotAnswersIff(Exec(max, run).value, j, c);
  }

  lemma SlotAnswersIff(s: Server, j: nat, c: Connection)
    requires Inv(s) && j < |s.issued|
    ensures KeyIndex(s.issued[j].key) < |s.entries|
    ensures TryAcquire(s.entries, s.issued[j].key) == Some(c) <==> Answers(s, j, c)
  {
    var i := KeyIndex(s.issued[j].key);
    assert SlotHistory(s, i) && EntryValid(s.entries[i], i);
    if s.entries[i].connection == Some(c) {
      var a, b := s.issued[j].at, s.issued[c.serial].at;
      assert KeyCreatedAt(s.issued[j].key) == Tick32(a) && s.entries[i].createdAt == Tick32(b);
      if c.serial != j {
        SameTick32(a, b);
      }
    }
  }

  lemma SameTick32(a: nat, b: nat)
    requires a <= b
    ensures Tick32(a) == Tick32(b) <==> (b - a) % TWO_32 == 0
  {
    var q, r := a / TWO_32, b / TWO_32;
    assert a == TWO_32 * q + Tick32(a) && b == TWO_32 * r + Tick32(b);
    var d := (b - a) / TWO_32;
    assert b - a == TWO_32 * d + (b - a) % TWO_32;
  }

  /** A key younger than 2^32 ms never acquires a newer connection. */
  lemma StaleKeyNeverResolves(max: nat, run: seq<Label>, j: nat)
    requires max < TWO_32 && Exec(max, run).Some? && j < |Exec(max, run).value.issued|
    requires Exec(max, run).value.now - Exec(max, run).value.issued[j].at < 0x1_0000_0000
    ensures var s := Exec(max, run).value;
      && KeyIndex(s.issued[j].key) < |s.entries|
      && (TryAcquire(s.entries, s.issued[j].key).Some? ==> TryAcquire(s.entries, s.issued[j].key).value.serial == j)
  {
    InvHolds(max, run);
    var s := Exec(max, run).value;
    if TryAcquire(s.entries, s.issued[j].key).Some? {
      YoungKeyAnswers(s, j, TryAcquire(s.entries, s.issued[j].key).value);
    }
  }

  lemma YoungKeyAnswers(s: Server, j: nat, c: Connection)
    requires Inv(s) && j < |s.issued| && s.now - s.issued[j].at < 0x1_0000_0000
    requires KeyIndex(s.issued[j].key) < |s.entries| && TryAcquire(s.entries, s.issued[j].key) == Some(c)
    ensures c.serial == j
  {
    SlotAnswersIff(s, j, c);
    if c.serial != j {
      NoMultiple(s.issued[c.serial].at - s.issued[j].at);
    }
  }

  lemma NoMultiple(d: nat)
    requires 0 < d < 0x1_0000_0000
    ensures d % TWO_32 != 0
  {
  }

  /** An online connection is always found under its own key. */
  lemma OnlineConnectionIsFound(max: nat, run: seq<Label>, i: nat)
    requires max < TWO_32 && Exec(max, run).Some? && i < |Exec(max, run).value.entries|
    requires Exec(max, run).value.entries[i].connection.Some? && Exec(max, run).value.entries[i].connection.value.online
    ensures var s := Exec(max, run).value;
      var key := s.entries[i].connection.value.key;
      KeyIndex(key) == i && TryAcquire(s.entries, key) == s.entries[i].connection
  {
    InvHolds(max, run);
    assert EntryValid(Exec(max, run).value.entries[i], i);
  }

  lemma LastSlotIsCleaned(s: Server, key: nat)
    requires s.now == TWO_32 && s.count == 1 && s.entries == [Disconnected(NewEntry(0, key, 0), 0)]
    ensures var cleaned := AfterCleanUp(s);
      && cleaned == s.(entries := [EMPTY_ENTRY], count := 0)
      && FirstUnused(cleaned.entries) == 0
  {
    assert s.entries[..0] == [] && CountDeleted([], s.now) == 0;
    assert CleanUp(s.entries, s.now) == [EMPTY_ENTRY];
  }

  /** The age bound is tight: a key of age exactly 2^32 ms can acquire a newer connection. */
  lemma KeyOfFullAgeCanResolveToNewer() returns (run: seq<Label>, j: nat)
    ensures
      && Exec(1, run).Some? && j < |Exec(1, run).value.issued|
      && var s := Exec(1, run).value;
      && s.now - s.issued[j].at == 0x1_0000_0000
      && KeyIndex(s.issued[j].key) < |s.entries|
      && TryAcquire(s.entries, s.issued[j].key).Some?
      && TryAcquire(s.entries, s.issued[j].key).value.serial != j
  {
    run, j := [Accept(false), Disconnect(0), Tick(TWO_32), Accept(true)], 0;
    assert run[..3] == [Accept(false), Disconnect(0), Tick(TWO_32)] && run[..3][..2] == [Accept(false), Disconnect(0)];
    assert run[..3][..2][..1] == [Accept(false)] && run[..3][..2][..1][..0] == [];
    var s0 := Init(1);
    assert CountUsed(s0.entries) == 0 && FirstUnused(s0.entries) == 0;
    var key := MakeKey(0, 0);
    var s1 := Exec(1, [Accept(false)]).value;
    assert s1 == Server(0, [NewEntry(0, key, 0)], 1, [Issue(key, 0)]);
    var s2 := Exec(1, [Accept(false), Disconnect(0)]).value;
    var s3 := Exec(1, run[..3]).value;
    assert s3.now == TWO_32 && s3.entries == [Disconnected(NewEntry(0, key, 0), 0)];
    LastSlotIsCleaned(s3, key);
    var s4 := Exec(1, run).value;
    assert s4.entries == [NewEntry(1, key, TWO_32)] && s4.issued == [Issue(key, 0), Issue(key, TWO_32)];
    assert TryAcquire(s4.entries, key).value.serial != 0;
  }

  // ----- Who is disconnected and who is deleted, by the labels of the run.

  /** The clock: the sum of the ticks. */
  function Clock(run: seq<Label>): nat {
    if run == [] then 0
    else Clock(run[..|run| - 1]) + if run[|run| - 1].Tick? then run[|run| - 1].dt else 0
  }

  /** The last step issued a key for slot i. */
  predicate Issues(s: Server, s': Server, i: nat) {
    |s'.issued| > |s.issued| && KeyIndex(s'.issued[|s.issued|].key) == i
  }

  /** When a client was last accepted into slot i, or heard of there. */
  function Heard(max: nat, run: seq<Label>, i: nat): Option<nat>
    requires Exec(max, run).Some?
  {
    if run == [] then None
    else
      var before, l := run[..|run| - 1], run[|run| - 1];
      if l == Interact(i) || (l.Accept? && Issues(Exec(max, before).value, Exec(max, run).value, i))
      then Some(Clock(run)) else Heard(max, before, i)
  }

  predicate GoesOffline(e: Entry, e': Entry) {
    && e.connection.Some? && e'.connection.Some? && e.connection.value.serial == e'.connection.value.serial
    && e.connection.value.online && !e'.connection.value.online
  }

  /** When the connection in slot i last went offline. */
  function OfflineSince(max: nat, run: seq<Label>, i: nat): Option<nat>
    requires Exec(max, run).Some?
  {
    if run == [] then None
    else
      var before := run[..|run| - 1];
      var s, s' := Exec(max, before).value, Exec(max, run).value;
      if i < |s.entries| && i < |s'.entries| && GoesOffline(s.entries[i], s'.entries[i]) then Some(Clock(run))
      else OfflineSince(max, before, i)
  }

  lemma {:induction false} NowIsClock(max: nat, run: seq<Label>)
    requires Exec(max, run).Some?
    ensures Exec(max, run).value.now == Clock(run)
  {
    if run != [] {
      NowIsClock(max, run[..|run| - 1]);
    }
  }

  /** What one step makes of the connection in a slot. */
  ghost predicate SlotMoves(s: Server, l: Label, s': Server, i: nat)
    requires i < |s.entries| == |s'.entries|
  {
    var e, e' := s.entries[i], s'.entries[i];
    e'.connection.Some? ==>
      if l.Accept? && Issues(s, s', i) then
        e'.connection.value.online && e'.connection.value.lastInteraction == s.now
      else
        && e.connection.Some? && e.connection.value.serial == e'.connection.value.serial
        && (e'.connection.value.online ==> e.connection.value.online)
        && e'.connection.value.lastInteraction ==
             (if l == Interact(i) then s.now else e.connection.value.lastInteraction)
        && (!e'.connection.value.online ==>
              e'.connection.value.lastOffline ==
                if e.connection.value.online then s.now else e.connection.value.lastOffline)
  }

  lemma StepMovesSlot(s: Server, l: Label, s': Server, i: nat)
    requires Inv(s) && Step(s, l) == Some(s') && i < |s.entries|
    ensures |s'.entries| == |s.entries| && SlotMoves(s, l, s', i)
  {
    assert EntryValid(s.entries[i], i);
    if l.Accept? {
      var cleaned := if l.cleanUp then AfterCleanUp(s) else s;
      if l.cleanUp {
        CleanUpKeepsInv(s);
        assert cleaned.entries[i] == CleanedUp(s.entries[i], s.now);
      }
      if Admits(cleaned) {
        AdmitKeepsInv(cleaned);
        KeyRoundTrip(FirstUnused(cleaned.entries), Tick32(s.now));
      }
    }
  }

  /** The times a connection carries are those of its last accept or receive, and of its going offline. */
  lemma {:induction false} TimesAreOfTheRun(max: nat, run: seq<Label>, i: nat)
    requires max < TWO_32 && Exec(max, run).Some? && i < max
    ensures |Exec(max, run).value.entries| == max
    ensures var connection := Exec(max, run).value.entries[i].connection;
      connection.Some? ==>
        && Heard(max, run, i) == Some(connection.value.lastInteraction)
        && connection.value.lastInteraction <= Clock(run)
        && (!connection.value.online ==>
              OfflineSince(max, run, i) == Some(connection.value.lastOffline)
              && connection.value.lastOffline <= Clock(run))
    decreases |run|
  {
    InvHolds(max, run);
    if run != [] {
      var before, l := run[..|run| - 1], run[|run| - 1];
      TimesAreOfTheRun(max, before, i);
      InvHolds(max, before);
      NowIsClock(max, before);
      StepMovesSlot(Exec(max, before).value, l, Exec(max, run).value, i);
    }
  }

  /** What a cleanup, and the accept after it, leave of a connection. */
  ghost predicate CleansUp(e: Entry, e': Entry, silent: nat, offline: nat)
    requires e.connection.Some?
  {
    var c := e.connection.value;
    if c.online then
      if silent < 60_000 then e' == e
      else
        && e'.connection.Some? && e'.connection.value.serial == c.serial
        && if c.inWorld then !e'.connection.value.inWorld && e'.connection.value.online && !e'.willDelete
           else !e'.connection.value.online && e'.willDelete
    else
      if offline < 5_000 then e' == e
      else e'.connection.None? || e'.connection.value.serial != c.serial
  }

  /**
  An accept with a cleanup keeps an online connection heard of less than 60 s ago as it is, takes one silent for longer
  out of the world, or offline when it is not in the world, and deletes one offline for 5 s, and none earlier.
  */
  lemma CleanupIsExact(max: nat, run: seq<Label>, i: nat)
    requires max < TWO_32 && Exec(max, run).Some? && i < max
    ensures var s, s' := Exec(max, run).value, Step(Exec(max, run).value, Accept(true)).value;
      && |s.entries| == |s'.entries| == max
      && (s.entries[i].connection.Some? ==>
            && Heard(max, run, i).Some? && Heard(max, run, i).value <= Clock(run)
            && var silent := Clock(run) - Heard(max, run, i).value;
            && (s.entries[i].connection.value.online ==> CleansUp(s.entries[i], s'.entries[i], silent, 0))
            && (!s.entries[i].connection.value.online ==>
                  && OfflineSince(max, run, i).Some? && OfflineSince(max, run, i).value <= Clock(run)
                  && CleansUp(s.entries[i], s'.entries[i], silent, Clock(run) - OfflineSince(max, run, i).value)))
  {
    var s := Exec(max, run).value;
    TimesAreOfTheRun(max, run, i);
    InvHolds(max, run);
    NowIsClock(max, run);
    AcceptAfterCleanUp(s, i);
  }

  lemma AcceptAfterCleanUp(s: Server, i: nat)
    requires Inv(s) && i < |s.entries|
    ensures var s' := Step(s, Accept(true)).value;
      && |s'.entries| == |s.entries|
      && (CleanedUp(s.entries[i], s.now).used ==> s'.entries[i] == CleanedUp(s.entries[i], s.now))
      && (s'.entries[i] != CleanedUp(s.entries[i], s.now) ==>
            s'.entries[i].connection.Some? && s'.entries[i].connection.value.serial == |s.issued|)
      && (s.entries[i].connection.Some? ==> s.entries[i].used && s.entries[i].connection.value.serial < |s.issued|)
      && (s.entries[i].connection.Some? ==> (s.entries[i].connection.value.online <==> !s.entries[i].willDelete))
  {
    assert EntryValid(s.entries[i], i) && SlotHistory(s, i);
    var cleaned := AfterCleanUp(s);
    CleanUpKeepsInv(s);
    assert cleaned.entries[i] == CleanedUp(s.entries[i], s.now);
    if Admits(cleaned) {
      AdmitKeepsInv(cleaned);
    }
  }

  /** A client is let in exactly when some slot is unused, behind the cleanup if there is one. */
  lemma AdmittedIffSomeSlotIsFree(max: nat, run: seq<Label>, cleanUp: bool)
    requires max < TWO_32 && Exec(max, run).Some?
    ensures var s, s' := Exec(max, run).value, Step(Exec(max, run).value, Accept(cleanUp)).value;
      var cleaned := if cleanUp then CleanUp(s.entries, s.now) else s.entries;
      |s'.issued| == |s.issued| + (if exists i :: 0 <= i < max == |cleaned| && !cleaned[i].used then 1 else 0)
  {
    InvHolds(max, run);
    var s := Exec(max, run).value;
    var cleaned := if cleanUp then AfterCleanUp(s) else s;
    if cleanUp {
      CleanUpKeepsInv(s);
    }
    CountUsedBound(cleaned.entries);
    if Admits(cleaned) {
      AdmitKeepsInv(cleaned);
      assert !cleaned.entries[FirstUnused(cleaned.entries)].used;
    } else {
      assert forall i :: 0 <= i < |cleaned.entries| ==> cleaned.entries[i].used;
    }
  }

  /** Only online connections are heard of. A second disconnect takes any offline, and its key acquires nothing. */
  lemma DisconnectedTwiceIsOffline(max: nat, run: seq<Label>, i: nat)
    requires max < TWO_32 && Exec(max, run).Some? && i < max
    ensures var s := Exec(max, run).value;
      && |s.entries| == max && (Step(s, Interact(i)).Some? <==> !s.entries[i].willDelete)
      && Step(s, Disconnect(i)).Some? && Step(Step(s, Disconnect(i)).value, Disconnect(i)).Some?
      && var s' := Step(Step(s, Disconnect(i)).value, Disconnect(i)).value;
      && |s'.entries| == max && s'.entries[i].willDelete && Step(s', Interact(i)).None?
      && forall key :: KeyIndex(key) == i ==> TryAcquire(s'.entries, key).None?
  {
    InvHolds(max, run);
    assert EntryValid(Exec(max, run).value.entries[i], i);
  }

  /** A disconnect takes a player out of the world, and a connection whose player is not in it offline. */
  lemma DisconnectIsExact(max: nat, run: seq<Label>, i: nat, inWorld: bool)
    requires max < TWO_32 && Exec(max, run).Some? && i < |Exec(max, run).value.entries|
    requires !Exec(max, run).value.entries[i].willDelete
    ensures var s := Exec(max, run).value;
      && Step(s, MoveInWorld(i, inWorld)).Some?
      && Step(Step(s, MoveInWorld(i, inWorld)).value, Disconnect(i)).Some?
      && var s' := Step(Step(s, MoveInWorld(i, inWorld)).value, Disconnect(i)).value;
      && |s'.entries| == |s.entries|
      && s.entries[i].connection.Some?
      && s'.entries[i] == s.entries[i].(
           willDelete := !inWorld,
           connection := Some(s.entries[i].connection.value.(
             inWorld := false, online := inWorld,
             lastOffline := if inWorld then s.entries[i].connection.value.lastOffline else s.now)))
  {
    InvHolds(max, run);
    assert EntryValid(Exec(max, run).value.entries[i], i);
  }

  lemma ExecSnoc(max: nat, run: seq<Label>, l: Label)
    requires Exec(max, run).Some?
    ensures Exec(max, run + [l]) == Step(Exec(max, run).value, l)
  {
    assert (run + [l])[..|run|] == run;
  }

  lemma CleanUpStep(max: nat, run: seq<Label>, i: nat) returns (run': seq<Label>)
    requires max < TWO_32 && Exec(max, run).Some? && i < max
    ensures run' == run + [Accept(true)] && Exec(max, run').Some?
    ensures var s, s' := Exec(max, run).value, Exec(max, run').value;
      && |s.entries| == |s'.entries| == max && s'.now == s.now
      && (CleanedUp(s.entries[i], s.now).used ==> s'.entries[i] == CleanedUp(s.entries[i], s.now))
      && (s'.entries[i] != CleanedUp(s.entries[i], s.now) ==>
            s'.entries[i].connection.Some? && s'.entries[i].connection.value.serial == |s.issued|)
      && EntryValid(s.entries[i], i)
      && (s.entries[i].connection.Some? ==> s.entries[i].connection.value.serial < |s.issued|)
  {
    run' := run + [Accept(true)];
    ExecSnoc(max, run, Accept(true));
    InvHolds(max, run);
    AcceptAfterCleanUp(Exec(max, run).value, i);
    assert EntryValid(Exec(max, run).value.entries[i], i);
  }

  /** A client silent for 60 s is gone after three cleanups, the last one 5 s later, if the world does not interfere. */
  lemma SilentConnectionIsDeleted(max: nat, run: seq<Label>, i: nat)
    requires max < TWO_32 && Exec(max, run).Some? && i < max
    requires |Exec(max, run).value.entries| == max && Exec(max, run).value.entries[i].connection.Some?
    requires Heard(max, run, i).Some? ==> Clock(run) - Heard(max, run, i).value >= 60_000
    ensures var run' := run + [Accept(true)] + [Accept(true)] + [Tick(5_000)] + [Accept(true)];
      && Exec(max, run').Some? && |Exec(max, run').value.entries| == max
      && var e := Exec(max, run').value.entries[i];
      e.connection.None? || e.connection.value.serial != Exec(max, run).value.entries[i].connection.value.serial
  {
    TimesAreOfTheRun(max, run, i);
    NowIsClock(max, run);
    var run1 := CleanUpStep(max, run, i);
    var run2 := CleanUpStep(max, run1, i);
    ExecSnoc(max, run2, Tick(5_000));
    var run4 := CleanUpStep(max, run2 + [Tick(5_000)], i);
  }
}
