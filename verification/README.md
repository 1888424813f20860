# mmocraft in Dafny

mmocraft is a Minecraft Classic server for Windows. This project models the parts of it that are written by
hand and run under several threads: the block replication between the world file and the clients, the socket
buffers and packet framing on both sides, the connection table, the object pool, the level and position codecs,
the login state machine, and three vendored or utility algorithms.

Components that run concurrently are step systems: a datatype of labels, one per atomic step, a partial `Step`
function, and `Exec` over label sequences. A statement about `Exec` is a statement about every interleaving.
Code that updates objects or arrays in place is a class or an array method, proved against a function or a
predicate about which the promised properties are proved.

| file | what it models |
|---|---|
| `World.dfy` | the block file, the mixed-radix offset of a cell, committing edits, a client's replica |
| `BlockHistory.dfy` | packed edit records, the double buffer, the block sync task's queues and states |
| `Replication.dfy` | the replication protocol under every interleaving, and `sync_block` as code |
| `Delivery.dfy` | what becomes of each edit by the fields of its packet, and that the sync task can always go on |
| `HistoryPush.dfy` | concurrent pushes into one history buffer, with rollback as its own step |
| `SendBuffer.dfy`, `SendBuffers.dfy` | the lock-free send buffer as a protocol, and both send buffers as classes |
| `Framing.dfy`, `Receive.dfy` | packet framing, the receive buffer, the packet loop and the completion of a receive |
| `Wire.dfy` | packet sizes as sums of fields, the bytes of what is sent, and that the bench client cuts them right |
| `ClientBot.dfy` | the benchmark client's framer, which counts missing bytes instead of keeping them |
| `ConnectionTable.dfy` | the table, generation keys, delayed deletion, admission |
| `ObjectPool.dfy`, `Words.dfy` | the bitmap allocator, and 64-bit words as binary numbers |
| `LevelChunk.dfy` | the level packets, and a client's decoder for them |
| `PositionSync.dfy` | packed positions, the record chosen for each player, and the clients that apply the records |
| `PlayerLifecycle.dfy` | the login states of one player, and the task that announces its departure |
| `LockfreeStack.dfy` | the lock-free stack on a heap of reusable addresses |
| `EditDistance.dfy` | the edit-distance table and the similar-string search |
| `Uuid.dfy` | the SIMD UUID printer and parser, instruction by instruction, and the generator's masks |
| `Bytes.dfy`, `Wrappers.dfy` | bytes, big-endian 16-bit fields, slices; the optional value |

## What the proofs found

- The bound check of `commit_block_changes` is on the index and not on the coordinates, and the index is made of
  `int` products that wrap around. So an edit outside the world can overwrite the byte of another cell, of which no
  client is told, or a byte of the file's header. `World.EditKeepsAgreementIff` and `World.HeaderKeptIff` are the exact
  conditions; `World.OutsideEditAliases` and `World.WrappedEditAliases` are instances.
- When the history is full, the author of a refused edit is sent air, or the block it broke, whatever the server has
  there, and shows it until someone's edit of that cell is committed. `Replication.ReplicaAgreement` says exactly which
  cells a client shows wrong, `World.RevertKeepsAgreementIff` when a revert is harmless, and
  `Replication.RefusedEditSplits` is a run in which it is not. Such a packet can also reach a client that has no level
  yet (`Replication.FirstPostIsLevelIff`).
- The level comes before every history, as the comment in `sync_block` asks, for each client that no stray transition
  moved on (`Replication.LevelPrecedesHistory`). One that sends a pair of extension packets while it waits for the level
  is moved on by the second, is selected for the multicast, and is sent block changes first
  (`Replication.StrayPlayerGetsHistoryFirst`).
- The level packet sends the first `volume` bytes of the file, of which four are the header; the last four cells
  are neither sent nor committed. Agreement is stated on the cells whose offset is below `volume`.
- The absolute/relative test of `PacketSetPlayerPosition::serialize` looks at y twice and never at z. A client
  follows a move exactly when `PositionSync.StepFits` holds; `PositionSync.LargeZStepIsLost` is a step of 256 along
  z that no client sees. A post that one client refuses puts it out of step with a player whose own post was
  accepted (`PositionSync.RefusedPostDrifts`).
- A client that joins is sent where everyone is, and not the last transferred positions the next records are
  relative to. `PositionSync.JoinerTracksIff` says exactly whom it then shows right, and
  `PositionSync.JoinerCanStartOutOfStep` is a player it shows wrong until an absolute record.
- The key of a connection resists reuse of its slot for less than 2^32 ms, and for no longer
  (`ConnectionTable.KeyOfFullAgeCanResolveToNewer`).
- Pushing records of different sizes into the double buffer can leave it broken, in some interleavings and for some
  sizes; `HistoryPush.MixedSizesBreakIff` says for which. Records of one size, as the callers use, or with the largest
  at most twice the smallest, are always safe, and no others are at every capacity
  (`HistoryPush.SafeAtEveryCapacityIff`).
- The padding `memset` of the level packet always has length zero, so the padding of the last chunk is whatever
  the allocation held. The decoder does not read it.
- A disconnecting player remembers in `prev_state` whether it had spawned, but one transition more and it is
  forgotten: `PlayerLifecycle.DepartureAnnouncedIff` says exactly when the others are told. A pair of extension packets
  between the disconnect and the departure task is enough for them not to be
  (`PlayerLifecycle.SpawnedPlayerLeavesUnannounced`), and so is a second disconnect before the next tick
  (`PlayerLifecycle.SecondDisconnectLeavesUnannounced`). An ordinary departure is announced once for every tick that
  comes before the task is scheduled (`PlayerLifecycle.AnnouncedOncePerTick`).
- The bot's receive loop does not move past an id it does not know, so it repeats forever.
- `max_size_of_packet_struct` is the size of a C++ struct, 56 bytes on x64, and not of the largest packet, 131.
  The receive buffer is large enough for this not to matter (`Receive.ReceiverIsSegmentationIndependent`).

## Model

| member | source | states |
|---|---|---|
| World.IndexIsOffset | mmocraft/game/world.cpp:148-154 | inside a world with a volume below 2^31 neither `int` product of the index wraps, and the index is the cell's byte |
| World.OffsetInjective | mmocraft/game/world.cpp:148-154 | two cells of the world never share a byte of the block file |
| World.OffsetSurjective | mmocraft/game/world.cpp:148-154 | every byte behind the header and below the volume belongs to some cell |
| World.BlockFile.CommitBlockChanges | mmocraft/game/world.cpp:156-168 | the loop leaves the file with every record of the snapshot applied in order, at the wrapped index, skipping indices from the volume on |
| World.CommitAtCell | mmocraft/game/world.cpp:156-168 | after a commit of edits that alias no other cell, each covered cell holds the block of the last edit about it, or what it held before |
| World.CommitAndDeliver | mmocraft/game/world.cpp:170-181 | committing a snapshot and delivering the same bytes keeps a server and an agreeing client in agreement |
| World.DeliverLevel | mmocraft/game/world.cpp:75-91 | a client that receives the first volume bytes agrees on every covered cell, whatever it received before |
| World.EditKeepsAgreementIff | mmocraft/game/world.cpp:148-168 | an edit keeps an agreeing client in agreement if and only if it is in range, or its wrapped index lies in the header or past the volume, or it rewrites the byte it aliases with the same block |
| World.HeaderKeptIff | mmocraft/game/world.cpp:148-168 | an edit leaves the file's header alone if and only if its wrapped index lies behind the header, or it repeats the header's byte |
| World.OutsideEditAliases | mmocraft/game/world.cpp:148-168 | an edit one past the edge in x passes the bound check and has the index of a cell of another row |
| World.WrappedEditAliases | mmocraft/game/world.cpp:148-168 | in a 256 x 64 x 256 world an edit at y = 65535 wraps onto the first cell, another onto the header, and another to an index far behind the file |
| World.RevertKeepsAgreementIff | mmocraft/net/game_server.cpp:112-129 | after a refused edit its author shows the server's blocks if and only if the cell it names is not covered or already holds the block it is sent back |
| World.ShownCell | mmocraft/net/game_server.cpp:122-126 | at each cell a client shows its outstanding revert, or else what the server's posts make of it |
| World.NothingShownBeforeLevel | mmocraft/game/world.cpp:183-186 | block changes and reverts before any level show a client nothing |
| BlockHistory.ServerAndClientReadAlike | mmocraft/game/history_buffer.h:35-42 | for any bytes at all, the record the server decodes with its byte swaps is the packet a client reads big-endian |
| BlockHistory.AppendedRecord | mmocraft/game/history_buffer.cpp:8-20 | appending a packed record adds exactly that edit behind the others and leaves every earlier record readable as before |
| BlockHistory.Buffer.Push | mmocraft/util/double_buffering.h:18-28 | called alone, a push succeeds exactly when it fits, and then appends; the rollback undoes a refused one |
| BlockHistory.BlockSyncTask.PushEdit | mmocraft/game/world_task.h:86-89 | an edit goes to the live side only, and is accepted exactly when a record fits |
| BlockHistory.BlockSyncTask.IsReady | mmocraft/game/world_task.h:68-71 | ready exactly when unused, past the cooldown, and the live bytes or the queue of waiting players are not empty; an edit alone is enough |
| BlockHistory.BlockSyncTask.BeforeScheduling | mmocraft/game/world_task.h:73-79 | swapping both pairs hands the live edits and the queue to the handler and the old output side to the producers, and the cooldown starts |
| BlockHistory.BlockSyncTask.FinishEventComplete | mmocraft/game/world_task.h:95-97 | the output side and the waiting list are empty again before the state returns to unused |
| Replication.EditsSnapshottedExactlyOnce | mmocraft/game/world_task.h:68-98 | in every run the handled snapshots, the current snapshot and the live buffer together are the accepted edits in order, none lost or doubled |
| Replication.EncodeDecodes | mmocraft/game/history_buffer.h:35-47 | the bytes of a list of edits are read back record by record as exactly those edits |
| Replication.FileHoldsWritten | mmocraft/game/world.cpp:156-188 | in every reachable state the file is the initial one with the handled history, and the current one from its commit on, applied in order |
| Replication.DrainedFileHoldsAcceptedEdits | mmocraft/game/world.cpp:156-188 | with the sync task unused and nothing live, the file is the initial one with all accepted edits of the run applied in order |
| Delivery.LastAcceptedEditIsShown | mmocraft/net/game_server.cpp:112-120 | in every drained run the file, and every up-to-date client with no outstanding revert, hold at a covered cell the block of the last accepted packet about it when that was in set mode, and air when it was not |
| Delivery.UneditedCellIsShown | mmocraft/game/world.cpp:156-188 | in every drained run, the same of a cell no accepted packet names, and its first block |
| Delivery.RefusedEditIsTakenBack | mmocraft/net/game_server.cpp:122-128 | with 1024 records waiting an edit is refused and changes nothing but its author's client, which shows air in set mode and else the packet's own block, or nothing at all when that packet is refused too |
| Delivery.EveryEditReachesTheFile | mmocraft/game/world_task.h:68-98 | from every reachable state the sync task can go on, with no more edits and logins, until it is unused with nothing live and nobody waiting; every edit accepted so far is then in the file, in order, and every player who joined was served |
| Delivery.LastCellsNeverChange | mmocraft/game/world.cpp:156-168 | in every run, whatever the edits, the bytes of the file from the volume on keep their first values |
| Delivery.LeaverIsNotSelected | mmocraft/net/connection_environment.cpp:96-108 | a player that has left is in no later selection of receivers |
| Replication.ReplicaAgreement | mmocraft/game/world.cpp:75-91 | over every interleaving of edits that alias no other cell, logins, stray transitions, departures and sync steps, whenever the sync task is unused each level-initialized client that has the level and was refused no history shows at every covered cell its outstanding revert, or else the server's block; so it shows the server's block if and only if it has no outstanding revert of the cell or one to that block |
| Replication.UnrefusedCellsAgree | mmocraft/game/world.cpp:170-188 | in every such run, such a client shows the server's block at every covered cell of which it had no edit refused |
| Replication.RefusedEditSplits | mmocraft/net/game_server.cpp:117-126 | for every world, covered cell and edit whose revert differs from the server's block, a run in which the history is full and the author is left showing the revert |
| Replication.LevelPrecedesHistory | mmocraft/game/world.cpp:183-187 | in every interleaving, a client no stray transition moved on is sent a level before every history, and whoever may still be sent one has the level |
| Replication.LevelPrecedesHistoryIff | mmocraft/game/world.cpp:183-187 | for every client and run, each history in its inbox has a level before it if and only if no history was posted to it while it had none |
| Replication.StrayPlayerGetsHistoryFirst | mmocraft/net/game_server.cpp:171-184 | for every world and every edit that aliases no other cell, a run in which a player moved on by a stray transition is sent the edit and no level |
| Replication.FirstPostIsLevelIff | mmocraft/net/game_server.cpp:122-126 | a remark: the very first post a client accepts is a level if and only if neither a revert nor a history came to it first |
| Replication.JoinersServedInOrder | mmocraft/game/world_task.h:73-98 | in every run the players the level was posted to, those swapped out and those queued are together the players who joined, in order |
| Replication.EachJoinerServedOnce | mmocraft/game/world_task.h:73-98 | each player who joined has been posted the level once or is still to be, and never both |
| Replication.Server.SelectInitialized | mmocraft/net/connection_environment.cpp:96-108 | the selection holds every player at or past level_initialized exactly once, and nobody else |
| Replication.Server.MulticastHistory | mmocraft/game/world.cpp:64-71 | exactly the initialized players get the snapshot, or are marked as having been refused it |
| Replication.Server.ProcessLevelWaitPlayer | mmocraft/game/world.cpp:75-91 | exactly the waiting players get the first volume bytes, and those that accept become level-initialized |
| Replication.Server.SyncBlock | mmocraft/game/world.cpp:170-188 | the code commits, multicasts and then sends the level, with these effects on the file and every player, and keeps agreement when no edit aliases another cell, with the clients' own reverts counted or not |
| HistoryPush.SizeIsClaimedPlusPending | mmocraft/util/double_buffering.h:18-28 | for records of any sizes, in every interleaving, the size is the bytes of the successful pushes and the bytes still to be rolled back |
| HistoryPush.FittingPushLandsBehindIff | mmocraft/util/double_buffering.h:20-26 | a push that fits is placed directly behind the records before it if and only if no bytes are still to be rolled back |
| HistoryPush.PushesAreConsecutive | mmocraft/util/double_buffering.h:18-28 | with sizes that can leave no hole, in every interleaving successful records stand one directly behind the other inside the buffer |
| HistoryPush.PushesOccupyConsecutiveSlots | mmocraft/util/double_buffering.h:18-28 | with one record size, in every interleaving the k-th successful push has slot k of the buffer for itself, inside the capacity, and its bytes stand there once copied |
| HistoryPush.PushFailsOnlyWhenFull | mmocraft/util/double_buffering.h:18-28 | a push on its way to a rollback saw a buffer whose slots were all claimed |
| HistoryPush.QuietBufferIsTheRecords | mmocraft/util/double_buffering.h:18-28 | with sizes that can leave no hole, once no push is under way the size is the bytes of the successes, and the buffer is their records in order |
| HistoryPush.MixedSizesBreakIff | mmocraft/util/double_buffering.h:18-28 | records of given sizes can leave a quiet buffer that is not its records in order if and only if, behind some of them, one does not fit and two others together do |
| HistoryPush.TwiceTheSmallestIsSafe | mmocraft/util/double_buffering.h:18-28 | with the largest record at most twice the smallest, no capacity can be left broken |
| HistoryPush.SafeAtEveryCapacityIff | mmocraft/util/double_buffering.h:18-28 | no capacity can be left broken if and only if no record is more than twice as large as another nonempty one |
| SendBuffer.AcceptedIsAcknowledgedPlusLive | mmocraft/io/io_event.h:307-329 | for any number of producers and one consumer, in every interleaving the acknowledged bytes followed by the live region are the accepted pushes in compare-exchange order, and the tail stays within the capacity |
| SendBuffer.PostedRegionIsStable | mmocraft/io/io_event.cpp:46-57 | from its post to its completion no step moves or overwrites the region the kernel reads |
| SendBuffer.PostTakesAllLive | mmocraft/io/io_event.cpp:46-57 | in every run a send can be posted exactly when none is under way and bytes are buffered, and it covers all of them |
| SendBuffer.FailedSendIsPostedAgain | mmocraft/io/io_event.cpp:115-131 | a failed send leaves every buffered byte in place and can be posted again at once |
| SendBuffer.EverythingIsAcknowledged | mmocraft/io/io_event.h:320-329 | from every reachable state the event can go on by itself, posting and completing, until all accepted bytes are acknowledged |
| SendBuffer.RefusedIffItDidNotFit | mmocraft/io/io_event.h:307-314 | a push is refused exactly when its bytes did not fit behind the tail as it last observed it, at a moment during that push |
| SendBuffer.RetryDecides | mmocraft/io/io_event.h:309-314 | a push that is not refused is decided by its next retry, if nobody intervenes, by whether it fits then |
| SendBuffer.DrainedBufferTakesAnyPush | mmocraft/io/io_event.h:320-329 | once all is acknowledged and the pop is over, a push up to the whole capacity is accepted |
| SendBuffer.StepConservesBytes | mmocraft/io/io_event.h:307-329 | each step keeps the offsets in bounds and moves bytes in at the end and out at the front only |
| SendBuffers.EagerBuffer.Push | mmocraft/io/io_event.h:307-318 | the array code appends behind the tail or refuses, as the byte layout function says |
| SendBuffers.EagerBuffer.Pop | mmocraft/io/io_event.h:320-329 | the array code drops from the front and, once empty, returns both offsets to zero |
| SendBuffers.LazyBuffer.Push | mmocraft/io/io_event.h:199-211 | the array code first rewinds an empty buffer, then appends or refuses |
| SendBuffers.LazyBuffer.Pop | mmocraft/io/io_event.h:213-217 | the array code only moves the head |
| SendBuffers.BuffersAreInterchangeable | mmocraft/io/io_event.h:199-217 | for every sequence of calls both buffers allow the same pops, give the same answers, and hold the bytes of one FIFO |
| SendBuffers.PushAcceptedIff | mmocraft/io/io_event.h:307-318 | a push is accepted exactly when it fits behind the buffered bytes where they stand; popped space is free again only when all is popped |
| SendBuffers.UninterruptedPush | mmocraft/io/io_event.h:307-318 | the protocol's push steps, run without interference, have the effect and the answer of the class's push |
| SendBuffers.UninterruptedPop | mmocraft/io/io_event.h:320-329 | the protocol's pop steps, run without interference, have the effect of the class's pop |
| Framing.FramingIsUnique | mmocraft/net/packet.cpp:66-71 | a list of packets and a rest is the framing of a stream if and only if they concatenate to it, each packet has the size of its id, and the rest starts no complete known packet |
| Framing.FrameInTwoParts | mmocraft/net/connection.cpp:96-124 | framing may stop anywhere and continue from its leftover with more bytes, with the same result as framing all at once |
| Framing.SegmentationIndependence | mmocraft/net/connection.cpp:96-124 | for every size table, stream and segmentation, receiving piece by piece gives the packets and the leftover of the whole stream |
| Framing.LeftoverIsPartialPacket | mmocraft/net/connection.cpp:103-111 | a leftover with no unknown id in front is shorter than the packet it begins |
| Wire.ServerSizesAreTheFields | mmocraft/net/packet.cpp:140-182 | each size in the server's table is the id and the fields its parser reads |
| Wire.BotSizesAreTheFields | mmocraft-bench/client_bot.cpp:176-268 | each size the bench client uses is the id and the fields the server writes |
| Wire.RecordOnTheWire | mmocraft/game/history_buffer.h:35-47 | the eight bytes of a block record: id, coordinates with the high byte first, block |
| Wire.ChunkOnTheWire | mmocraft/net/packet.cpp:213-225 | the 1028 bytes of a data chunk: id, length with the high byte first, the part of the stream, anything, and a zero |
| Wire.FinalizeOnTheWire | mmocraft/net/packet.cpp:228-236 | the seven bytes behind a level: id, width, height and length with the high byte first |
| Wire.PositionOnTheWire | mmocraft/net/packet.cpp:284-316 | the bytes of each kind of position record, from the two positions |
| Wire.HistoryIsFramed | mmocraft-bench/client_bot.cpp:176-268 | the bench client cuts the bytes of a history into one packet an edit, in order |
| Wire.PositionsAreFramed | mmocraft-bench/client_bot.cpp:176-268 | it cuts serialized positions into one packet for each player that has moved |
| Wire.LevelIsFramed | mmocraft-bench/client_bot.cpp:176-268 | it cuts a level into its ceil(L / 1024) chunks and the finalize packet, whatever the padding holds |
| Receive.EveryFramedIdHasHandler | mmocraft/net/game_server.cpp:15-27 | an id has a size in the protocol table if and only if the server has a handler for it |
| Receive.RecvBuffer.Land | mmocraft/io/io_event.cpp:167-175 | a completed receive adds the landed bytes behind the buffered ones |
| Receive.RecvBuffer.Pop | mmocraft/io/io_event.cpp:177-182 | the overlapping forward move drops exactly the first n bytes |
| Receive.Connection.PostReceive | mmocraft/io/io_event.cpp:33-44 | a receive is posted exactly when none is under way, enough space is free and the kernel accepts |
| Receive.Connection.ProcessPackets | mmocraft/net/connection.cpp:96-124 | the loop hands over exactly the packets of the one-shot framing, consumes exactly their bytes, and names the reason it stopped |
| Receive.Connection.OnEventComplete | mmocraft/io/io_event.cpp:89-113 | a completed receive hands over the framing of the old leftover and the new bytes, keeps the new leftover, and kicks exactly when an unknown id is in front; a failed event or an offline connection processes nothing; with no bytes transferred the connection is to be disconnected |
| Receive.ReceiverIsSegmentationIndependent | mmocraft/io/io_event.cpp:33-44 | for every stream and segmentation the handler gets the packets up to the first unknown id; without one the leftover is at most 130 bytes, and the next receive is never refused for space |
| Receive.ReceiveAll | mmocraft/io/io_event.cpp:89-113 | a real connection driven through any receives that fit has handed over and kept exactly what the framing of the concatenation says |
| ClientBot.Bot.HandleReceive | mmocraft-bench/client_bot.cpp:162-272 | one call answers as the recursive framer does from the same count of missing bytes |
| ClientBot.DispatchIsFraming | mmocraft-bench/client_bot.cpp:176-268 | from a packet boundary, the ids dispatched are those of the one-shot framing, the incomplete last packet included |
| ClientBot.BotAgreesWithFraming | mmocraft-bench/client_bot.cpp:162-272 | for every segmentation the bot dispatches the ids of one-shot framing, its counter is the number of bytes the last packet lacks, and it spins exactly when the framing meets an unknown id |
| ConnectionTable.KeyRoundTrip | mmocraft/net/connection_key.h:22-33 | index and creation tick are read back from a key |
| ConnectionTable.ConnectionEnvironment.GetUnusedConnectionId | mmocraft/net/connection_environment.cpp:20-31 | below the limit the search returns an unused slot inside the table, the first one |
| ConnectionTable.ConnectionEnvironment.OnConnectionCreate | mmocraft/net/connection_environment.cpp:33-42 | exactly the key's slot is taken and the counter stays the number of used slots |
| ConnectionTable.ConnectionEnvironment.CleanupExpiredConnection | mmocraft/net/connection_environment.cpp:59-78 | each slot is deleted, disconnected or left by its own deadlines, and the counter stays the number of used slots |
| ConnectionTable.CleanupIsExact | mmocraft/net/connection.cpp:46-55 | by the labels of the run: an accept with a cleanup keeps an online connection heard of less than 60 s ago as it is, takes a longer silent one out of the world, or offline when its player is not in it, deletes one offline for 5 s, and none earlier |
| ConnectionTable.TimesAreOfTheRun | mmocraft/net/connection.cpp:39-62 | the times a connection carries are those of its accept or last receive, and of its going offline |
| ConnectionTable.SilentConnectionIsDeleted | mmocraft/net/connection_environment.cpp:59-78 | a connection silent for 60 s is gone after three cleanups, the last of them 5 s later |
| ConnectionTable.DisconnectIsExact | mmocraft/net/connection.cpp:66-81 | a disconnect takes an online player out of the world, and a connection whose player is not in it offline at once |
| ConnectionTable.DisconnectedTwiceIsOffline | mmocraft/net/connection.cpp:57-81 | after two disconnects a connection is heard of no more and no key acquires it; before, it is heard of exactly while online |
| ConnectionTable.AdmittedIffSomeSlotIsFree | mmocraft/net/tcp_server.cpp:87-111 | in every run a client is let in exactly when some slot is unused, behind the cleanup if one is due |
| ConnectionTable.ConnectionEnvironment.ForEachConnection | mmocraft/net/connection_environment.cpp:80-86 | the walk visits exactly the online connections and never dereferences an empty entry |
| ConnectionTable.CleanUpCounts | mmocraft/net/connection_environment.cpp:44-78 | the connections a cleanup deletes, each of which takes one off the counter, are exactly the used slots it frees |
| ConnectionTable.ConnectionsAreAccounted | mmocraft/net/connection_environment.cpp:20-108 | in every reachable state the counter is the number of used slots, at most the maximum, and every entry not marked for deletion owns an online connection |
| ConnectionTable.AdmittedClientGetsFreeSlot | mmocraft/net/tcp_server.cpp:87-111 | a client admitted below the limit gets an unused slot in range, and its key acquires its own connection |
| ConnectionTable.AcquiredConnectionIsExact | mmocraft/net/connection_environment.h:40-54 | a key acquires a connection if and only if that is online in the key's slot and is the one the key was issued for, or one created a positive multiple of 2^32 ms later |
| ConnectionTable.StaleKeyNeverResolves | mmocraft/net/connection.cpp:39-55 | in every run a key younger than 2^32 ms acquires nothing but the connection it was issued for |
| ConnectionTable.OnlineConnectionIsFound | mmocraft/net/connection_environment.h:40-54 | an online connection is found under its own key |
| ConnectionTable.KeyOfFullAgeCanResolveToNewer | mmocraft/net/connection_key.h:22-33 | a run in which a key of age 2^32 ms acquires a newer connection: the bound is tight |
| ObjectPool.AllocationIsExact | mmocraft/win/object_pool.h:106-209 | in every run live objects lie within the committed capacity; allocation fails exactly when the maximum is live or a needed commit fails, and otherwise yields an index that is fresh and committed |
| ObjectPool.LiveIffInUse | mmocraft/win/object_pool.h:191-209 | in every run the live objects are exactly those some call was answered with and no later call freed |
| ObjectPool.FreedIndexIsReusedWhenFull | mmocraft/win/object_pool.h:200-209 | with the whole capacity live, the next allocation behind a free answers the freed index, without committing memory |
| ObjectPool.FreedIndexComesBack | mmocraft/win/object_pool.h:200-209 | whatever else is live, a freed index is answered again after finitely many allocations, none of which commits memory |
| ObjectPool.CapacityDoubles | mmocraft/win/object_pool.h:106-121 | in every run of allocations and frees the capacity is 512 times two to the number of commits, up to the maximum |
| ObjectPool.ReservationIsExact | mmocraft/win/object_pool.h:106-121 | when a reservation succeeds, how far the capacity then reaches, and that nothing else changes |
| ObjectPool.LowestFreeWithinCapacity | mmocraft/win/object_pool.h:148-162 | the lowest free index is at most the capacity, and equals it only when all of the capacity is live |
| ObjectPool.Bitmap.Reserve | mmocraft/win/object_pool.h:106-121 | the capacity grows as asked up to the maximum, or stays when the commit fails |
| ObjectPool.Bitmap.GetFreeObjectIndex | mmocraft/win/object_pool.h:179-189 | the word scan finds the lowest index that is not live, and never falls off the bitmap |
| ObjectPool.Bitmap.NewObject | mmocraft/win/object_pool.h:148-162 | the bitmap code allocates as the bounded set allocator does |
| ObjectPool.Bitmap.FreeObject | mmocraft/win/object_pool.h:200-209 | exactly that index leaves the live ones, and the answer says whether it was among them |
| LevelChunk.ChunksDecode | mmocraft/net/packet.cpp:206-237 | a client reassembles the stream and the dimensions from any chunks of it, whatever the padding of the last chunk holds |
| LevelChunk.ChunkedSize | mmocraft/net/packet.cpp:206-226 | the chunks of a stream of L bytes are ceil(L / 1024) packets of 1028 bytes |
| LevelChunk.DeflateN | mmocraft/net/packet.cpp:214 | a deflate call writes as much of the rest as fits, touches nothing before, and reports the space left |
| LevelChunk.WriteChunks | mmocraft/net/packet.cpp:213-225 | the loop ends, stays inside the buffer with room for the finalize record, and leaves a chunking of the whole stream |
| LevelChunk.Serialize | mmocraft/net/packet.cpp:206-237 | for every stream within the deflate bound the result fits the allocation, has one chunk per 1024 bytes begun, and decodes to the stream and the dimensions |
| PositionSync.MasksSplitPosition | mmocraft/game/player.h:115-145 | the two 64-bit masks vanish exactly when the coordinate, or the orientation, is zero |
| PositionSync.DifferenceIsZeroIffEqual | mmocraft/game/player.h:168-177 | a component of the wrapped difference is zero exactly when the two positions agree in it |
| PositionSync.RecordTracksIffStepFits | mmocraft/net/packet.cpp:284-317 | applying the chosen record to the last transferred position gives the latest one if and only if the step is absolute or its z difference fits a signed byte |
| PositionSync.AbsoluteRecordResynchronizes | mmocraft/net/packet.cpp:284-292 | an absolute record gives the latest position from any position whatever |
| PositionSync.RecordIsAbsoluteIff | mmocraft/net/packet.cpp:284-292 | a record is absolute exactly when x or y has moved by more than 32; z does not count |
| PositionSync.RecordIsShortest | mmocraft/net/packet.cpp:293-316 | a record that is not absolute is the shortest that brings a receiver at the base to the latest position |
| PositionSync.LargeZStepIsLost | mmocraft/net/packet.cpp:284-310 | a step of 256 along z with a small step in yaw is sent as a relative record that leaves z unchanged |
| PositionSync.SerializedBytesDecode | mmocraft/net/packet.cpp:268-321 | a client cuts the serialized bytes into exactly the records written, and applies each |
| PositionSync.PairStaysInSyncIff | mmocraft/game/world.cpp:190-208 | given that the z step fits, a client in step with a player's committed position stays so if and only if both posts were accepted, both refused, or the player had not moved |
| PositionSync.AcceptedTickTracksIff | mmocraft/game/world.cpp:190-208 | with both posts accepted the client shows the latest position if and only if the z step fits |
| PositionSync.RecordTracksIff | mmocraft/net/packet.cpp:284-317 | exactly which shown positions a record brings to the latest one: any, when absolute; else those with the base in x and y, the truncated step away in z, and the right orientation unless it is sent |
| PositionSync.AcceptedTickBringsInStepIff | mmocraft/game/world.cpp:190-208 | with both posts accepted a client is in step with a player after a tick if and only if what it showed before tracks the player's record |
| PositionSync.JoinerTracksIff | mmocraft/net/packet.cpp:323-347 | after a join and a tick, the joiner's client shows a player right, and another client the joiner, if and only if the record tracks from where the spawn packet put it |
| PositionSync.JoinerCanStartOutOfStep | mmocraft/net/packet.cpp:323-347 | a joiner sent a player that has moved since the last transfer is out of step with it after the next relative record, while the old client is not |
| PositionSync.ClientsTrackExactly | mmocraft/game/world.cpp:190-208 | over every history of positions whose z steps fit and with every post accepted, clients that start in step show every player's latest position after every tick |
| PositionSync.PairsAreIndependent | mmocraft/game/world.cpp:93-208 | in every run of joins and ticks from an empty world, with any multicast posts refused, what a client shows of a player, and the position that player's next record is relative to, are what the events of these two alone make of them |
| PositionSync.ShownRightAfterRunIff | mmocraft/game/world.cpp:190-208 | after any such run, a tick accepted by both leaves a client showing a player right if and only if the record tracks from what the pair's own events left it showing |
| PositionSync.AbsoluteRecordHealsForGood | mmocraft/net/packet.cpp:284-292 | whatever happened before, an absolute record accepted by both brings a client in step with a player, and it stays so through every further join and every fitting tick that both accept, both refuse, or that does not move the player |
| PositionSync.RefusedPostDrifts | mmocraft/game/world.cpp:204-206 | a tick in which one post is refused and the other accepted puts that client out of step |
| PositionSync.SerializePlayer | mmocraft/net/packet.cpp:275-318 | the branch taken writes the bytes of the chosen record and remembers the latest position for the commit |
| PositionSync.Serialize | mmocraft/net/packet.cpp:268-321 | the loop writes one record per moved player within ten bytes a player |
| PlayerLifecycle.Session.Tick | mmocraft/game/world.cpp:234-282 | the tick's code takes exactly the step of the login machine, whatever the player's state |
| PlayerLifecycle.Session.Disconnect | mmocraft/net/connection.cpp:66-81 | a player in the world is first prepared for departure, and the connection goes offline only for one that is not |
| PlayerLifecycle.DisconnectPlayers | mmocraft/game/world.cpp:127-146 | listed for despawning are exactly the players whose previous state was spawned before any moved on, as often as queued; then each whose connection is found moves on as often |
| PlayerLifecycle.DepartureTask.OnEventComplete | mmocraft/game/world_task.h:38-44 | the handler, called with nothing between, does to every queued player what its steps do in the machine, and the task is unused again |
| PlayerLifecycle.UninterruptedHandler | mmocraft/game/world.cpp:127-146 | the looks at a player's entries, the send, the moves and the end, as single steps in a row, are the handler called in one go |
| PlayerLifecycle.EveryRunFollowsTheLoginPath | mmocraft/game/world.cpp:232-284 | in every run, whatever extra transitions occur, the states seen are an initial part of the plain or the extended login path, followed by at most disconnecting and then disconnected |
| PlayerLifecycle.EveryItineraryHappens | mmocraft/game/world.cpp:232-284 | conversely each such sequence of states is that of some run |
| PlayerLifecycle.RankGrows | mmocraft/game/player.h:37-68 | the enumerator's value grows along a run until the disconnect, so the comparisons by order are sound |
| PlayerLifecycle.SpawnedCameThroughTheLevel | mmocraft/game/world.cpp:245-262 | a run that reaches spawned has passed through the whole login path, level_initializing, level_initialized and spawning included |
| PlayerLifecycle.DisconnectingRemembersSpawn | mmocraft/game/world.cpp:129-135 | while a player is disconnecting, prev_state is at least spawned if and only if it had spawned |
| PlayerLifecycle.AnnouncedAsOftenAsFound | mmocraft/game/world.cpp:129-137 | in every run a player is put on a despawn list as often as the handler found it disconnecting, if it had spawned, and never otherwise |
| PlayerLifecycle.DepartureAnnouncedIff | mmocraft/game/world.cpp:127-146 | a disconnected player that had spawned was announced if and only if the handler is what moved it on, or had found it disconnecting before a stray callback did |
| PlayerLifecycle.LeavesSomewhere | mmocraft/game/world.cpp:140-145 | a disconnected player left disconnecting at some step of its run, so the condition above always applies |
| PlayerLifecycle.OrderlyDepartureIsAnnounced | mmocraft/game/world.cpp:127-146 | in a run without stray callbacks while disconnecting, a disconnected player was announced if and only if it had spawned |
| PlayerLifecycle.AnnouncedOncePerTick | mmocraft/game/world.cpp:271-275 | for every n, a run in which n ticks queue a spawned player and its departure is announced n times |
| PlayerLifecycle.SpawnedPlayerLeavesUnannounced | mmocraft/net/game_server.cpp:171-184 | a run in which a stray callback moves a spawned player on before the handler looks at it, and which however continued announces nothing |
| PlayerLifecycle.SecondDisconnectLeavesUnannounced | mmocraft/net/connection.cpp:66-81 | a run in which a second disconnect takes a spawned player offline before a tick, and which however continued announces nothing |
| PlayerLifecycle.OfflineIff | mmocraft/net/connection.cpp:66-81 | in every run the connection is offline if and only if a tick found the player disconnected, or a disconnect found it departing |
| PlayerLifecycle.NextTickGoesOffline | mmocraft/game/world.cpp:276-279 | a disconnected player is offline after one more tick |
| PlayerLifecycle.EveryDepartureCanEnd | mmocraft/game/world.cpp:127-146 | from every reachable state of a departing player, ticks and the departure task alone can take it offline |
| PlayerLifecycle.OfflinePlayerStays | mmocraft/net/connection_environment.h:40-49 | the departure task never moves on a player whose connection is offline |
| PlayerLifecycle.RefusedExtensionsHoldThePlayer | mmocraft/game/world.cpp:235-243 | without its extension packets accepted, an extended client never gets past the handshake |
| PlayerLifecycle.HintHoldsIff | mmocraft/game/player.h:85-90 | the hint a callback passes names the next state if and only if the player is in the pair of states the callback expects |
| LockfreeStack.EveryRunIsAtomic | mmocraft/util/lockfree_stack.h:18-44 | every interleaving of loads, retries, exchanges and deletions, with freed addresses reused, is related step by step to a stack with atomic push and pop |
| LockfreeStack.ListIsAtomicStack | mmocraft/util/lockfree_stack.h:26-44 | in every reachable state the list from the head is finite, visits no address twice, and holds the atomic stack's values |
| LockfreeStack.PopReturnsAtomicResult | mmocraft/util/lockfree_stack.h:18-44 | a popping thread reads a prefix of its pop's atomic result, reaches null exactly at its end, and never reads a freed node |
| LockfreeStack.PushRetryIsDefined | mmocraft/util/lockfree_stack.h:34-35 | a pusher's node is never freed under it, and a retry that reloads the head succeeds if nobody intervenes |
| LockfreeStack.NothingLeaks | mmocraft/util/lockfree_stack.h:18-44 | when nobody pushes or pops, exactly the nodes of the list are allocated |
| LockfreeStack.EveryNodeIsOwned | mmocraft/util/lockfree_stack.h:18-44 | at any time every allocated node is on the list, on the rest of a walker's chain, or a pusher's own |
| LockfreeStack.IdleThreadMayStart | mmocraft/util/lockfree_stack.h:18-44 | a thread outside may always pop, and push at any free address, which succeeds if nobody intervenes |
| LockfreeStack.PushedOnceInOrder | mmocraft/util/lockfree_stack.h:26-44 | of the atomic stack: all popped batches turned oldest-first, followed by the contents turned oldest-first, are the pushes in order |
| LockfreeStack.EveryValueIsInOneHand | mmocraft/util/lockfree_stack.h:18-44 | of the threads, in every run with walks under way: the pushed values, in order, are the batches of the pops and then the nodes on the list; a batch is what its thread has read followed by the values on the chain still before it |
| LockfreeStack.PoppedOnceInOrder | mmocraft/util/lockfree_stack.h:18-44 | of the threads: in every run with all walks finished, what they read, batch after batch, followed by the nodes still on the list, is exactly the pushed values in order, so none is read twice or lost |
| EditDistance.GetLevenshteinDistance | mmocraft/config/argparse.h:549-573 | the table ends with the distance of the two strings in its last cell |
| EditDistance.DistanceIsShortestScript | mmocraft/config/argparse.h:549-573 | the distance is the least length of any script of insertions, deletions and substitutions from one string to the other |
| EditDistance.ScriptIsNoShorter | mmocraft/config/argparse.h:563-568 | no script is shorter than the distance |
| EditDistance.ShortestScript | mmocraft/config/argparse.h:563-568 | some script is as long as the distance |
| EditDistance.DistanceSymmetric | mmocraft/config/argparse.h:549-573 | the distance does not depend on the order of the strings |
| EditDistance.DistanceTriangle | mmocraft/config/argparse.h:549-573 | the distance obeys the triangle inequality |
| EditDistance.DistanceZeroIffEqual | mmocraft/config/argparse.h:549-573 | the distance is zero exactly for equal strings |
| EditDistance.GetMostSimilarString | mmocraft/config/argparse.h:575-591 | the search returns the first key at least distance, and the empty string when there is no key |
| Uuid.Print | mmocraft/util/uuid_v4.h:29-60 | for every value, and whatever the undefined upper lane holds, the three stores leave the lowercase 8-4-4-4-12 text and touch nothing behind it |
| Uuid.ParsePrinted | mmocraft/util/uuid_v4.h:66-99 | for every 128-bit value, parsing the text gives the value back |
| Uuid.PrintParsedIff | mmocraft/util/uuid_v4.h:29-99 | a 36-character text survives parsing and printing if and only if it is a lowercase 8-4-4-4-12 one |
| Uuid.GeneratedIsRandomVersion4 | mmocraft/util/uuid_v4.h:251-259 | a generated value has the version and variant bits of sections 4.1.1, 4.1.3 and 4.4 of RFC 4122, and every other bit random |
| Uuid.GeneratedIffVersion4 | mmocraft/util/uuid_v4.h:251-259 | exactly the version 4 values can be generated |
| Uuid.GeneratedText | mmocraft/util/uuid_v4.h:251-259 | in the text the third group starts with 4 and the fourth with 8, 9, a or b |

## Left out

- Weak memory ordering: every atomic operation is one sequentially consistent step. A producer's copy into a send buffer is part of its successful compare-exchange, although the code publishes the tail first.
- HistoryPush.PushesOccupyConsecutiveSlots: no snapshot or clear happens during a push; the race between `snapshot` and a push in flight is not modelled.
- Replication.ReplicaAgreement: assumes edits that alias no other cell, a volume below 2^31, in-order delivery of accepted posts, and one login per player; races inside `set_offline` are single steps. A refused history post is remembered and excludes that player, since the code does not retry it. What a client shows of its own edit before the server answers is not modelled.
- Replication.Server.SyncBlock: the handler as one call, with the kernel's answers as two sets of accepting players; the interleaved version is the step system.
- The last four cells of the file, which are neither sent nor committed.
- ConnectionTable.StaleKeyNeverResolves: ticks are a shared clock, `GetTickCount` being the low half of `GetTickCount64`; each function of the table is one step.
- ObjectPool.AllocationIsExact: a maximum capacity close to 2^32, where 32-bit indices would wrap, is excluded; words are binary numbers, and the bit operations are arithmetic on their digits.
- Global pools: packing a pool number and an index into an id, and finding the pool, is left out as an easy member.
- SendBuffer.AcceptedIsAcknowledgedPlusLive: push sizes near 2^31, where `int` arithmetic would overflow, and a completion with no bytes, which disconnects, are not modelled.
- SendBuffer.EverythingIsAcknowledged: that the kernel completes what was posted, and does not fail for ever, is its doing and not the buffer's; the lemma gives one continuation.
- Delivery.EveryEditReachesTheFile: the continuation schedules the task when it may; the cooldown only delays that.
- Receive.Connection.OnEventComplete: what disconnecting does is modelled with the login states; the nine handlers answer with success, and what they do is modelled only where another component needs it.
- ClientBot.Bot.HandleReceive: the code repeats its loop forever on an unknown id; the method stops and says so. Bot states and statistics are left out.
- LevelChunk.Serialize: zlib is a fixed byte stream within its bound; a failed `deflateInit` is not modelled. That a client inflates the stream to the bytes deflated is assumed where the level is a message.
- PositionSync.ClientsTrackExactly: for a fixed set of players that start in step.
- PositionSync.PairsAreIndependent: joins are taken one at a time, with every spawn post accepted; players who leave are not modelled. Game ids are distinct, as with at most 256 connections.
- PlayerLifecycle.AnnouncedAsOftenAsFound: what counts is the despawn list of the handler; whether each client accepts the packet is not modelled, nor is saving the player's data.
- PlayerLifecycle.EveryRunFollowsTheLoginPath: one handshake packet; a second one replaces the player object while queues may still hold the old one.
- Uuid.Print: vectors are sequences of bytes on a little-endian machine; hashing, comparison and stream operators are left out.
- Registered I/O, completion ports, sockets, `VirtualAlloc`, file mapping, Couchbase, SQL, protobuf, logging, configuration, the other servers, chat, spawn and despawn packets, string fields, and the rest of argparse.h: foreign calls, plumbing, or easy members.
