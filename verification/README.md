# Planning poker: rooms, the room registry and the Fibonacci memo

This project models, in Dafny, the server-side core of a planning-poker
application, plus one small helper from the web client.

- **Room (`Api/Models/Room.cs`).** A room holds:
  - its players, each with a spectator flag, an owner flag and a connection flag;
  - the votes of the current round, at most one per voter;
  - the owner, and a sticky record of the founding owner;
  - the times at which players dropped their connection;
  - whether the votes are revealed;
  - a queue of tickets with a pointer to the current ticket;
  - a disposed flag.

  Every operation is a guarded update of that state.
  - These operations publish events on the room's channel: `Vote`, `NextRound`, `Reveal`, `JoinRoom`, `SpectatorState`, `LeaveRoom`, `ExplicitLeaveRoom` and `SetOwner`.
  - `CleanupDisconnectedPlayers` publishes only when it hands the room to an heir, which it does through `SetOwner`.
  - The queue edits publish nothing: `QueueTicket`, `ReorderTicket` and `RemoveTicket`.
  - `ConnectToRoom` and `Dispose` publish nothing either.
- **Room registry (`Api/Services/RoomManager.cs`).** A dictionary from room code to room. Its operations are:
  - create-if-absent;
  - lookup;
  - a periodic sweep that marks unobserved rooms as empty and retires rooms that have been empty too long;
  - disposal of everything.
- **Fibonacci helper (`Client/src/lib/utils.ts`).** The client's recursive Fibonacci function, with its module-level memo array.

## Layout

- `wrappers.dfy` (module `Wrappers`): `Option` (the source's nullable references) and `Result` (the exception `JoinRoom` throws)
- `tickets.dfy` (module `Tickets`): the ticket record and `Ticket.Empty`; the generic list operations `RemoveAt` and `InsertAt`, which the player and vote lists also use; the move `ReorderTicket` builds from them, and the pointer corrections
- `players.dfy` (module `Players`): the player record; lookups by id, name and "not a spectator"; removal by id; the owner-flag rewrite of `SetOwner`
- `votes.dfy` (module `Votes`): the vote record; the vote list's lookup, removal by voter and the replace-or-append of `Vote`
- `room_rules.dfy` (module `RoomRules`): the rules a room keeps between operations, and one lemma per kind of update showing that the update keeps them
- `room.dfy` (module `Rooms`): the `Room` class, with one method per operation of `Room.cs`
- `room_manager.dfy` (module `RoomManagement`): the `RoomManager` class and the `CreateRoom` union
- `fibonacci.dfy` (module `Fibonacci`): `Fib`, and the memo as a class with `GetFibonacciNumber`

### Room

`Room` is a class whose fields mirror the fields of `Room.cs`.

- **Lists.** The player, vote and ticket lists are `seq` fields, and the disconnect times are a `map`. Each operation reassigns them, as the C# code mutates them in place.
- **Players.** A player is a record value, keyed by its id.
- **Owner.** The owner is held as the owner's id.
- **Channel.** The channel is the sequence of events published so far, and every `OnNext` appends to it.
- **Time.** `DateTime.UtcNow` becomes a parameter `now`, in seconds.
- **Ids.** A `Guid` is an integer, and `Guid.Empty` is 0.

`Room.Valid()` is `RoomRules.Consistent` on the room's fields:

- the ticket pointer lies within the queue or just past its end;
- player ids and player names are unique;
- there is at most one vote per voter;
- votes and disconnect records belong to present players;
- a player is connected exactly when it has no disconnect record;
- at most one player carries the owner flag;
- while an owner is set, exactly that player carries the owner flag, and it is not a spectator;
- in a live room the owner is one of the players.

Every public operation of the room keeps `Valid()`:

- `Vote` relies on `VoteConsistent`.
- `SetOwner` relies on `SetOwnerConsistent`, or on `NoOwnerConsistent` for an unknown id.
- `SpectatorState` relies on `SpectatorConsistent`.
- `LeaveRoom` relies on `DisconnectConsistent`.
- `ExplicitLeaveRoom` relies on `LeaveConsistent`.
- `JoinRoom` relies on `ReconnectConsistent` (through `Reconnect`) or `JoinConsistent` (through `Admit` and `AddPlayer`), and on the lemmas `SetOwner` uses.
- `CleanupDisconnectedPlayers` relies on `SweepStepConsistent` (through `SweepOne`), on `SweptNothing` and `SweptOneMore` for its loop, and on the lemmas `SetOwner` uses.
- `Dispose`, `NextRound`, `Reveal`, `QueueTicket`, `ReorderTicket`, `RemoveTicket` and `ConnectToRoom` need no such lemma. They touch only the disposed flag, the votes as a whole, the revealed flag, the ticket queue and its pointer, or the empty-since mark, and Dafny checks the rules for those directly.

The helper `ClearOwnerFlags` does not keep `Valid()`: while an owner is set, it leaves that owner unflagged. It is called only inside `SetOwner`, which flags the new owner right after.

The registry's `RoomManager.Valid()` says that every room is filed under its own code and keeps the rules of a room. Every registry operation keeps it, so a room handed out by `CreateRoom` or `GetRoom` can be used with every `Room` operation.

## Model

| member | source | states |
|---|---|---|
| Tickets.RemoveAt | Api/Models/Room.cs:130 | `List.RemoveAt(i)`: the list is one shorter, elements before `i` stay in place, and elements after `i` move one position left |
| Tickets.InsertAt | Api/Models/Room.cs:117 | `List.Insert(i, x)`: the list is one longer, `x` sits at `i`, elements before `i` stay in place, and the rest move one position right |
| Tickets.RemoveAtMultiset | Api/Models/Room.cs:130 | removing position `i` removes exactly one copy of that ticket from the queue's multiset |
| Tickets.Move | Api/Models/Room.cs:115-117 | the reorder as the source writes it: remove the ticket at `from`, then insert it at `to`; its meaning is stated by `MovePermutes`, `MoveAt` and `MoveKeepsPointer` |
| Tickets.MovePermutes | Api/Models/Room.cs:115-117 | a reorder keeps the queue's length and its multiset of tickets: it is a permutation |
| Tickets.MoveAt | Api/Models/Room.cs:115-117 | where each ticket lands after a move: the moved one at `to`, those between the two positions shifted by one toward `from`, and the rest in place |
| Tickets.PointerAfterMove | Api/Models/Room.cs:119-120 | the pointer correction of `ReorderTicket`: one less when the moved ticket crossed the pointer from below, one more when it crossed from above, otherwise unchanged; its meaning is stated by `MoveKeepsPointer` |
| Tickets.PointerAfterRemove | Api/Models/Room.cs:131 | the pointer correction of `RemoveTicket`: one less when the removed ticket lay before the pointer, otherwise unchanged; its meaning is stated by `RemoveKeepsPointer` |
| Tickets.MoveKeepsPointer | Api/Models/Room.cs:119-120 | the corrected pointer of a reorder stays in range and designates the same ticket, and a pointer that is past the end stays past the end |
| Tickets.RemoveKeepsPointer | Api/Models/Room.cs:130-131 | the corrected pointer of a removal stays in range and designates the same ticket, and a pointer that is past the end stays past the end |
| Players.IndexOfId | Api/Models/Room.cs:281-287 | `FirstOrDefault` by id: the first position holding the id; there is none exactly when no player has that id |
| Players.IndexOfName | Api/Models/Room.cs:163 | `FirstOrDefault` by name: the first position holding the name; there is none exactly when no player has that name |
| Players.IndexOfUniqueId | Api/Models/Room.cs:324-325 | with unique ids, looking up a player's own id finds that player |
| Players.FirstNonSpectator | Api/Models/Room.cs:324 | the first player who is not a spectator; there is none exactly when everyone spectates |
| Players.SuccessorIndex | Api/Models/Room.cs:324 | the heir chosen by cleanup: the first non-spectator when one exists, and otherwise the first player |
| Players.WithoutIds | Api/Models/Room.cs:236 | removal of every player whose id is in a set, keeping the order of the rest; its meaning is stated by `WithoutIdsMembers`, `WithoutIdsIds` and `RemoveFirstIsRemoveAll` |
| Players.WithoutIdsMembers | Api/Models/Room.cs:304-313 | removing players by id keeps exactly the players whose id was not removed |
| Players.WithoutIdsIds | Api/Models/Room.cs:304-313 | after removal, the ids present are the old ids minus the removed ones |
| Players.WithoutIdsUnique | Api/Models/Room.cs:236 | removing players keeps ids and names unique |
| Players.Promote | Api/Models/Room.cs:267-270 | the players after `SetOwner`: same ids, names and connection flags; the owner flag is set on exactly the players with the new owner's id; only that player stops spectating |
| Players.ClearedOwners | Api/Models/Room.cs:267 | the `ForEach` that clears every owner flag; `Rooms.Room.ClearOwnerFlags` is proved to compute it and `ClearThenFlagIsPromote` connects it to `Promote` |
| Players.ClearThenFlagIsPromote | Api/Models/Room.cs:267-270 | clearing every owner flag and then flagging the found player, as `SetOwner` does step by step, yields `Promote` |
| Players.RemoveFirstIsRemoveAll | Api/Models/Room.cs:236 | with unique ids, `Players.Remove` of the first player with an id is the same as removing every player with that id |
| Players.NotPresentUnchanged | Api/Models/Room.cs:308-313 | removing an id that no player has changes nothing |
| Players.WithoutIdsNone | Api/Models/Room.cs:304 | removing no ids changes nothing |
| Players.WithoutIdsTwice | Api/Models/Room.cs:304-313 | removing one more id after a batch is removing the enlarged batch, so cleanup's removal order does not matter |
| Players.PromoteKeepsIds | Api/Models/Room.cs:267-270 | changing the owner keeps the set of player ids |
| Players.PromoteKeepsUnique | Api/Models/Room.cs:267-270 | changing the owner keeps ids and names unique and leaves at most one flagged owner |
| Players.ReplaceKeepsKeys | Api/Models/Room.cs:209 | setting a player's flags in place keeps the ids and names of the list, and keeps them unique |
| Votes.IndexOfVoter | Api/Models/Room.cs:69-70 | `FirstOrDefault` by voter: the first vote of that voter; there is none exactly when the voter has not voted |
| Votes.WithoutVoters | Api/Models/Room.cs:237 | `RemoveAll` over the votes of a set of voters; its meaning is stated by `WithoutVotersMembers` and `WithoutVotersVoters` |
| Votes.WithoutVotersMembers | Api/Models/Room.cs:237 | `RemoveAll` by voter keeps exactly the votes of the other voters |
| Votes.WithoutVotersVoters | Api/Models/Room.cs:237 | after `RemoveAll`, the voters present are the old voters minus the removed ones |
| Votes.WithoutVotersUnique | Api/Models/Room.cs:237 | `RemoveAll` keeps one vote per voter |
| Votes.WithoutVotersAppend | Api/Models/Room.cs:237 | `RemoveAll` distributes over concatenation |
| Votes.WithoutVotersNone | Api/Models/Room.cs:312 | removing no voters changes nothing |
| Votes.WithoutVotersTwice | Api/Models/Room.cs:304-313 | removing one more voter after a batch is removing the enlarged batch |
| Votes.NotVoterUnchanged | Api/Models/Room.cs:312 | removing voters who have not voted changes nothing |
| Votes.RemoveFirstVoteIsRemoveAll | Api/Models/Room.cs:69-70 | with one vote per voter, removing the voter's first vote removes all of that voter's votes |
| Votes.CastVote | Api/Models/Room.cs:69-72 | the vote list after a vote: the voter's first vote removed if there is one, the new vote appended; its meaning is stated by `CastVoteShape`, `CastVoteRecords` and `CastVoteTwice` |
| Votes.CastVoteShape | Api/Models/Room.cs:69-72 | casting a vote is the voter's earlier votes dropped, with the new vote appended last |
| Votes.CastVoteRecords | Api/Models/Room.cs:64-74 | after a vote there is still one vote per voter; the voter's only vote carries the new value, possibly null; other voters' votes are untouched and in order; the voter is now among the voters |
| Votes.AppendVoters | Api/Models/Room.cs:72 | appending a vote adds exactly its voter |
| Votes.CastVoteTwice | Api/Models/Room.cs:64-74 | voting twice leaves only the second vote (last write wins) |
| RoomRules.PromoteConsistent | Api/Models/Room.cs:267-270 | promoting a present player keeps the membership rules, and makes that player the sole non-spectating owner |
| RoomRules.SetOwnerConsistent | Api/Models/Room.cs:251-273 | `SetOwner` on a present player keeps every room rule, with that player as owner |
| RoomRules.NoOwnerConsistent | Api/Models/Room.cs:256-259 | forgetting the owner, as `SetOwner` on an unknown id does, keeps every room rule |
| RoomRules.SpectatorConsistent | Api/Models/Room.cs:199-211 | setting the spectator flag of anyone but the owner keeps every room rule, so the owner never becomes a spectator |
| RoomRules.DisconnectConsistent | Api/Models/Room.cs:213-227 | marking a player disconnected, together with its disconnect time, keeps every room rule |
| RoomRules.ReconnectConsistent | Api/Models/Room.cs:154-171 | marking a player connected, with its disconnect record dropped, keeps every room rule |
| RoomRules.LeaveConsistent | Api/Models/Room.cs:229-249 | removing a player with its votes and disconnect record keeps every room rule once a leaving owner is forgotten, and in a disposed room even without forgetting it |
| RoomRules.SweepStepConsistent | Api/Models/Room.cs:304-319 | one pass of cleanup's loop, for a timed-out id, keeps every room rule, whether or not a player has that id |
| RoomRules.JoinConsistent | Api/Models/Room.cs:175-179 | appending a connected, unflagged newcomer with a fresh id and a fresh name keeps every room rule; the newcomer is found last |
| RoomRules.VoteConsistent | Api/Models/Room.cs:64-74 | a vote by a present player keeps every room rule, in particular one vote per voter |
| RoomRules.AppendIds | Api/Models/Room.cs:179 | appending a player adds exactly its id |
| RoomRules.AppendIndex | Api/Models/Room.cs:179 | an appended player with a fresh id is found at the end |
| RoomRules.SweptNothing | Api/Models/Room.cs:299-304 | before cleanup's loop runs, nothing has been removed |
| RoomRules.SweptOneMore | Api/Models/Room.cs:304-319 | one more pass of cleanup's loop extends the set of swept ids by the id it handles |
| RoomRules.RemoveKeysTwice | Api/Models/Room.cs:306 | dropping one more key from a map after a batch is dropping the enlarged batch |
| Rooms.TimedOut | Api/Models/Room.cs:297-302 | the reference set of the sweep: the disconnected ids whose time is earlier than thirty minutes before `now`; its properties are stated by `TimedOutGrows` and `JustLeftKept`, and `SweepTimedOut` is proved to remove exactly these ids |
| Rooms.TimedOutGrows | Api/Models/Room.cs:297-302 | the set of timed-out players only grows as time passes |
| Rooms.JustLeftKept | Api/Models/Room.cs:226 | a player whose disconnect time `LeaveRoom` has just recorded is not swept for thirty minutes, and recording it changes no other player's timeout |
| Rooms.Room.constructor | Api/Models/Room.cs:29-38 | a new room has the given name and code, no players, votes or tickets, pointer 0, no owner, and is live |
| Rooms.Room.CurrentTicket | Api/Models/Room.cs:46-47 | the ticket under the pointer, or `Ticket.Empty` when the pointer is at the end of the queue |
| Rooms.Room.State | Api/Models/Room.cs:275-279 | the snapshot for a player: it is flagged owner exactly when the player owns the room; it carries the queue and the pointer exactly for the owner |
| Rooms.Room.IsReconnectingOwner | Api/Models/Room.cs:289-293 | for a player who is not present, the test holds only when the room has no owner and the joiner carries the name of an absent founding owner |
| Rooms.Room.HasVotes | Api/Models/Room.cs:97-100 | true exactly when someone has voted |
| Rooms.Room.Dispose | Api/Models/Room.cs:53-62 | the room ends up disposed; a second call changes nothing; the room's rules still hold |
| Rooms.Room.CanVote | Api/Models/Room.cs:66 | the guard of `Vote`: the room is live and the voter is a present non-spectator; `Rooms.Room.Vote` changes nothing when it fails and records the vote when it holds |
| Rooms.Room.Vote | Api/Models/Room.cs:64-74 | in a disposed room, or for an unknown player or a spectator, nothing changes and no event is sent; otherwise the vote list is the voter's old votes replaced by the new one, the voter's only vote carries the new value, other votes are untouched, and one `Vote` event is sent |
| Rooms.Room.NextRound | Api/Models/Room.cs:76-86 | in a live room the votes are emptied and hidden; the pointer advances only while it is inside the queue; the event carries the new current ticket |
| Rooms.Room.Reveal | Api/Models/Room.cs:88-95 | in a live room the votes are shown and `Reveal` is published, whether or not anyone has voted |
| Rooms.Room.QueueTicket | Api/Models/Room.cs:102-107 | in a live room the ticket is appended; the pointer does not move, so the current ticket is unchanged unless the queue had run out, in which case the new ticket becomes current |
| Rooms.Room.ReorderTicket | Api/Models/Room.cs:109-122 | succeeds exactly when the room is live, both indices are in range, they differ, and neither is the pointer; on failure nothing changes; on success the queue is the move, a permutation of the old queue, and the pointer is exactly `PointerAfterMove` of the old one, so an in-range pointer still designates the same ticket and a pointer past the end stays past the end |
| Rooms.Room.RemoveTicket | Api/Models/Room.cs:124-133 | succeeds exactly when the room is live, the index is in range, and it is not the pointer; on failure nothing changes; on success exactly that ticket is gone, the order of the rest is kept, and the pointer is exactly `PointerAfterRemove` of the old one, so the current ticket is unchanged |
| Rooms.Room.ConnectToRoom | Api/Models/Room.cs:135-147 | clears the empty-since mark; returns the player's own snapshot, or an anonymous non-owner snapshot for an unknown id |
| Rooms.Room.SetOwner | Api/Models/Room.cs:251-273 | disposed: nothing changes; unknown id: the room loses its owner and nothing else changes; otherwise that player becomes the one flagged, non-spectating owner, the founder record is written if it was unset or `permanent` is set, and `PlayerUpdate` then `OwnerChange` are published |
| Rooms.Room.ClearOwnerFlags | Api/Models/Room.cs:267 | every player's owner flag is cleared and nothing else changes |
| Rooms.Room.SpectatorState | Api/Models/Room.cs:199-211 | disposed room, unknown player or the owner: nothing changes; otherwise only that player's spectator flag changes and `PlayerUpdate` is published |
| Rooms.Room.LeaveRoom | Api/Models/Room.cs:213-227 | for a present player of a live room: the player stays, with its vote, marked disconnected at `now`, and `PlayerUpdate` is published; otherwise nothing changes |
| Rooms.Room.ExplicitLeaveRoom | Api/Models/Room.cs:229-249 | a present player, its votes and its disconnect record are removed even in a disposed room; in a live room `Leave` is published and a leaving owner is forgotten |
| Rooms.Room.JoinRoom | Api/Models/Room.cs:149-197 | fails exactly on a disposed room, and then changes nothing; a known id, or failing that a known name, reconnects that player without adding anyone; anyone else is appended after the players already present, connected, with its disconnect record untouched. In a room with an owner, the newcomer spectates as asked, and only `Join` is published. In a room without an owner, the newcomer becomes the one flagged, non-spectating owner and the founder unless one is recorded; `PlayerUpdate`, `OwnerChange` and `Join` are published. The caller gets the snapshot of a present player, and a newcomer's snapshot is owner exactly when the room had no owner |
| Rooms.Room.Admit | Api/Models/Room.cs:173-196 | the newcomer is appended; when it takes over the room it becomes the one non-spectating owner and the founder record is written if unset; `PlayerUpdate`, `OwnerChange` and `Join` are published in that order |
| Rooms.Room.AddPlayer | Api/Models/Room.cs:179 | the newcomer is appended and its id becomes present |
| Rooms.Room.Reconnect | Api/Models/Room.cs:154-171 | the player is marked connected, its disconnect record is dropped, and `PlayerUpdate` is published |
| Rooms.Room.SweepOne | Api/Models/Room.cs:306-318 | one pass of cleanup's loop drops the id's player, votes, disconnect record and ownership |
| Rooms.Room.SweepTimedOut | Api/Models/Room.cs:299-319 | cleanup's loop drops exactly the timed-out players, their votes, their disconnect records, and the ownership of a timed-out owner |
| Rooms.Room.CleanupDisconnectedPlayers | Api/Models/Room.cs:295-326 | the timed-out players are removed with their votes and records; then a live room that still has players and no owner makes its heir the owner (the first non-spectator, or else the first player); afterwards a live room with players always has an owner among them |
| RoomManagement.Expired | Api/Services/RoomManager.cs:51 | a room is expired when its empty-since mark is earlier than thirty minutes before `now`; `RoomCleanup` removes exactly the expired rooms |
| RoomManagement.Marked | Api/Services/RoomManager.cs:57-61 | the sweep marks only unobserved rooms that have no mark, and never clears or moves a mark |
| RoomManagement.MarkedTwice | Api/Services/RoomManager.cs:57-61 | a second sweep at a later time leaves the mark where the first sweep put it |
| RoomManagement.RoomManager.constructor | Api/Services/RoomManager.cs:12-19 | the registry starts empty |
| RoomManagement.RoomManager.CreateRoom | Api/Services/RoomManager.cs:31-37 | a taken code gives `RoomExists` and changes nothing; otherwise exactly one new room is filed under the code. It carries that code as its id, keeps the rules of a room, and starts like a constructed room: no players, votes or tickets, pointer 0, no owner or founder, no disconnect records, votes hidden, nothing published, live and unmarked |
| RoomManagement.RoomManager.GetRoom | Api/Services/RoomManager.cs:39-42 | the room filed under the code, which carries that code as its id and keeps the rules of a room; nothing when the code is not registered |
| RoomManagement.RoomManager.RoomCleanup | Api/Services/RoomManager.cs:44-62 | exactly the rooms empty since more than thirty minutes before `now` are removed and disposed, with their mark untouched; every other room stays, and an unobserved room without a mark is marked at `now`; every room kept still keeps the rules of a room |
| RoomManagement.RoomManager.SweepRooms | Api/Services/RoomManager.cs:50-61 | the sweep's loop over every registered code: exactly the expired rooms leave the registry and are disposed with their mark untouched, and the others are marked as `Marked` says, in any order |
| RoomManagement.RoomManager.SweepRoom | Api/Services/RoomManager.cs:51-61 | one pass of the sweep: an expired room leaves the registry and is disposed, its mark untouched; any other room is only marked |
| RoomManagement.RoomManager.Dispose | Api/Services/RoomManager.cs:21-29 | every registered room is disposed and the registry is left empty |
| Fibonacci.Fib | Client/src/lib/utils.ts:12-22 | the Fibonacci numbers, as the two base cases and the recurrence the helper computes; the reference that `GetFibonacciNumber` is proved against |
| Fibonacci.Hit | Client/src/lib/utils.ts:18 | the memo's truthiness test: the slot holds a value and that value is not zero; `HitIsPresence` shows that in a sound memo this is just presence |
| Fibonacci.FibPositive | Client/src/lib/utils.ts:18 | every Fibonacci number from index 1 on is positive, so a stored value is never falsy |
| Fibonacci.HitIsPresence | Client/src/lib/utils.ts:18-20 | in a sound memo, the truthiness test of the array slot is exactly the presence of the index |
| Fibonacci.FibonacciMemo.constructor | Client/src/lib/utils.ts:9 | the memo starts empty |
| Fibonacci.FibonacciMemo.GetFibonacciNumber | Client/src/lib/utils.ts:11-26 | returns the Fibonacci number of the index, whether the answer comes from the memo or is computed; every stored entry stays equal to the Fibonacci number of its index; after a call with an index of two or more, that index is stored; no entry is dropped |

## Left out

- The reactive plumbing is not modelled:
  - the channel is a Subject; `OnCompleted` and `Dispose` on it are not modelled (Api/Models/Room.cs:59-60);
  - the one-minute timers and their disposal are not modelled (Api/Models/Room.cs:35-37, 61; Api/Services/RoomManager.cs:15-16, 23);
  - `TakeUntil(Channel)` stops a room's cleanup timer at its first event, which is timer behaviour;
  - cleanup is a method that takes `now`.
- `Channel.HasObservers` is a library property. `RoomCleanup` takes it as the set `observed` of codes whose rooms have subscribers.
- Logging in the registry is not modelled.
- Operations run one at a time. In the source, the timer callbacks run alongside request handlers and nothing takes a lock, so interleavings of two operations on one room or on the registry are not modelled.
- Aliasing is not modelled:
  - In the source, the snapshots and the event payloads hold the live `Player` objects and lists.
  - The model copies their values at the moment of publication, which is after the call's last flag update.
  - The owner is held as an id. A disposed room whose owner leaves explicitly keeps that id, where the source keeps a reference to the removed player.
- The registry's dictionary is static in the source, and so shared by every `RoomManager`. The model makes it a field of one registry.
- Rooms.Room.JoinRoom: the founder check after `SetOwner` (Api/Models/Room.cs:185-189) is not modelled as a separate step. `SetOwner` already records a missing founder, so that check never fires.
- Rooms.Room.JoinRoom: the `ObjectDisposedException` becomes the `Failure(RoomDisposed)` result.
- `Player.cs` declares no connection flag and `RoomState.cs` declares seven fields. The model follows `Room.cs`:
  - players carry a connection flag, which is set for a newcomer;
  - snapshots have ten fields.
- Four behaviours of `Room.cs` that a reader might not expect are modelled as written:
  - `Reveal` does not check `HasVotes`.
  - `SetOwner` on an unknown id clears the owner instead of doing nothing. Stale owner flags may then remain, so the rules require at most one flagged player while the room has no owner.
  - `ExplicitLeaveRoom` acts on a disposed room.
  - `ConnectToRoom` does not look at the disposed flag.
- Fibonacci.FibonacciMemo.GetFibonacciNumber: numbers are unbounded integers, so JavaScript's loss of precision past 2^53 is not modelled.
- Fibonacci.FibonacciMemo.GetFibonacciNumber: the index is a natural number. A negative or fractional index recurses forever in the source.
- The HTTP endpoints, the Jira integration, the room-code generator, `cn` and the rest of the client are not part of this model.
