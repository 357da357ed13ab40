/** The planning-poker room (Api/Models/Room.cs): a single-writer aggregate
    holding the player list, the vote list, the owner, the sticky record of
    the founding owner, the disconnect times, the revealed flag, the ticket
    queue with its current index, and the disposed flag. Every update is
    published on the room's channel, modelled as the log of events that
    were published, in order. */
module Rooms {
  import opened Wrappers
  import opened Players
  import opened Tickets
  import Votes
  import opened RoomRules

  /** `Room.EventType`. */
  datatype EventType = Init | Join | Leave | Vote | Reveal | NextRound | OwnerChange | PlayerUpdate

  /** The object published with an event, as it was when published. */
  datatype Payload =
    | PlayerPayload(player: Player)
    | VotePayload(vote: Votes.Vote)
    | TicketPayload(ticket: Ticket)
    | TextPayload(text: string)

  datatype Event = Event(kind: EventType, payload: Payload)

  /** The snapshot a subscriber receives; the ticket queue and its index
      are present only for the owner. */
  datatype RoomState = RoomState(
    playerId: Guid,
    owner: bool,
    friendlyName: string,
    players: seq<Player>,
    votes: seq<Votes.Vote>,
    ownerId: Guid,
    revealed: bool,
    currentTicket: Ticket,
    tickets: Option<seq<Ticket>>,
    currentTicketIndex: Option<int>)

  /** The `ObjectDisposedException` `JoinRoom` throws. */
  datatype JoinError = RoomDisposed

  /** The founding owner, whose id and name are always recorded together. */
  datatype OwnerRecord = OwnerRecord(id: Guid, name: string)

  /** How long a disconnected player is kept: thirty minutes, in seconds. */
  const DisconnectGrace: int := 30 * 60

  /** The ids whose disconnect time is earlier than `now - DisconnectGrace`. */
  function TimedOut(disconnected: map<Guid, int>, now: int): set<Guid>
  {
    set id | id in disconnected && disconnected[id] < now - DisconnectGrace
  }

  /** Waiting longer never brings a timed-out player back. */
  lemma TimedOutGrows(disconnected: map<Guid, int>, now: int, later: int)
    requires now <= later
    ensures TimedOut(disconnected, now) <= TimedOut(disconnected, later)
  {
  }

  /** A player who has just left is kept for the whole grace period: at any
      time up to thirty minutes after `LeaveRoom` records it, it is not timed
      out, and every other id is timed out exactly as before. */
  lemma JustLeftKept(disconnected: map<Guid, int>, id: Guid, left: int, now: int)
    requires now <= left + DisconnectGrace
    ensures id !in TimedOut(disconnected[id := left], now)
    ensures TimedOut(disconnected[id := left], now) == TimedOut(disconnected, now) - {id}
  {
  }

  class Room {
    const id: string
    const name: string

    var players: seq<Player>
    var votes: seq<Votes.Vote>
    var tickets: seq<Ticket>
    var currentTicketIndex: int
    var owner: Option<Guid>
    var originalOwner: Option<OwnerRecord>
    var disconnectedPlayers: map<Guid, int>
    var emptySince: Option<int>
    var isDisposed: bool
    var revealed: bool
    /** Every event published on `Channel`, oldest first. */
    var channel: seq<Event>

    /** The room keeps the rules of `RoomRules.Consistent` between operations. */
    ghost predicate Valid()
      reads this`players, this`votes, this`tickets, this`currentTicketIndex,
            this`owner, this`disconnectedPlayers, this`isDisposed
    {
      Consistent(players, votes, tickets, currentTicketIndex, owner, disconnectedPlayers, isDisposed)
    }

    constructor (name: string, code: string)
      ensures Valid()
      ensures this.name == name && id == code
      ensures players == [] && votes == [] && tickets == [] && currentTicketIndex == 0
      ensures owner == None && originalOwner == None && disconnectedPlayers == map[]
      ensures emptySince == None && !isDisposed && !revealed && channel == []
    {
      this.name := name;
      id := code;
      players, votes, tickets, currentTicketIndex := [], [], [], 0;
      owner, originalOwner, disconnectedPlayers := None, None, map[];
      emptySince, isDisposed, revealed, channel := None, false, false, [];
    }

    /** `CurrentTicket`: the ticket under the pointer, or `Ticket.Empty`
        once the pointer has run past the queue. */
    function CurrentTicket(): (t: Ticket)
      reads this`tickets, this`currentTicketIndex
      ensures 0 <= currentTicketIndex < |tickets| ==> t == tickets[currentTicketIndex]
      ensures currentTicketIndex == |tickets| ==> t == Empty
    {
      if 0 <= currentTicketIndex < |tickets| then tickets[currentTicketIndex] else Empty
    }

    /** `State(playerId)`: the snapshot scoped to that player's role. */
    function State(playerId: Guid): (s: RoomState)
      reads this
      ensures s.playerId == playerId && s.friendlyName == name
      ensures s.players == players && s.votes == votes && s.revealed == revealed
      ensures s.owner <==> owner == Some(playerId)
      ensures s.ownerId == if owner.Some? then owner.value else EmptyGuid
      ensures s.currentTicket == CurrentTicket()
      ensures s.tickets.Some? <==> s.owner
      ensures s.currentTicketIndex.Some? <==> s.owner
      ensures s.owner ==> s.tickets.value == tickets && s.currentTicketIndex.value == currentTicketIndex
    {
      var isOwner := owner == Some(playerId);
      RoomState(playerId, isOwner, name, players, votes,
                if owner.Some? then owner.value else EmptyGuid,
                revealed, CurrentTicket(),
                if isOwner then Some(tickets) else None,
                if isOwner then Some(currentTicketIndex) else None)
    }

    /** `IsReconnectingOwner`: the joiner is the owner coming back from a
        transient disconnect, or carries the founding owner's name while the
        room is ownerless and the founder is absent. */
    predicate IsReconnectingOwner(playerId: Guid, playerName: string)
      reads this
      ensures IsReconnectingOwner(playerId, playerName) && Valid() && playerId !in Ids(players) ==>
        owner.None? && originalOwner.Some? && originalOwner.value.name == playerName
        && originalOwner.value.id !in Ids(players)
    {
      (playerId in disconnectedPlayers && owner == Some(playerId))
      || (originalOwner.Some? && originalOwner.value.name == playerName && owner.None?
          && originalOwner.value.id !in Ids(players))
    }

    /** `HasVotes`. */
    function HasVotes(): (b: bool)
      reads this`votes
      ensures b <==> Votes.Voters(votes) != {}
    {
      assert |votes| > 0 ==> votes[0].voter in Votes.Voters(votes);
      |votes| > 0
    }

    /** `Dispose`: marks the room disposed; a second call does nothing. */
    method Dispose()
      modifies this`isDisposed
      ensures isDisposed
      ensures old(Valid()) ==> Valid()
    {
      if isDisposed {
        return;
      }
      isDisposed := true;
    }

    /** A vote is accepted from a known, non-spectating player of a live room. */
    predicate CanVote(playerId: Guid)
      reads this`isDisposed, this`players
    {
      !isDisposed && match IndexOfId(players, playerId)
        case None => false
        case Some(k) => !players[k].isSpectator
    }

    /** `Vote(value, playerId)`. */
    method Vote(value: Option<Votes.uint>, playerId: Guid)
      requires Valid()
      modifies this`votes, this`channel
      ensures Valid()
      ensures !CanVote(playerId) ==> votes == old(votes) && channel == old(channel)
      ensures CanVote(playerId) ==>
        && votes == Votes.CastVote(old(votes), playerId, value)
        && channel == old(channel) + [Event(EventType.Vote, VotePayload(Votes.Vote(playerId, value)))]
      ensures CanVote(playerId) ==>
        && Votes.Vote(playerId, value) in votes
        && (forall v :: v in votes && v.voter == playerId ==> v.value == value)
        && Votes.WithoutVoters(votes, {playerId}) == Votes.WithoutVoters(old(votes), {playerId})
    {
      if isDisposed {
        return;
      }
      var k := IndexOfId(players, playerId);
      if k.None? || players[k.value].isSpectator {
        return;
      }
      VoteConsistent(players, votes, tickets, currentTicketIndex, owner, disconnectedPlayers, isDisposed,
                     playerId, value);
      Votes.CastVoteRecords(votes, playerId, value);
      var existing := Votes.IndexOfVoter(votes, playerId);
      if existing.Some? {
        votes := RemoveAt(votes, existing.value);
      }
      votes := votes + [Votes.Vote(playerId, value)];
      channel := channel + [Event(EventType.Vote, VotePayload(Votes.Vote(playerId, value)))];
    }

    /** `NextRound`: clears the votes, hides them, and advances the pointer
        unless it is already past the queue. */
    method NextRound()
      requires Valid()
      modifies this`votes, this`revealed, this`currentTicketIndex, this`channel
      ensures Valid()
      ensures old(isDisposed) ==>
        votes == old(votes) && revealed == old(revealed)
        && currentTicketIndex == old(currentTicketIndex) && channel == old(channel)
      ensures !isDisposed ==>
        && votes == [] && !revealed
        && currentTicketIndex == (if old(currentTicketIndex) < |tickets| then old(currentTicketIndex) + 1 else |tickets|)
        && channel == old(channel) + [Event(EventType.NextRound, TicketPayload(CurrentTicket()))]
      ensures !isDisposed ==> !HasVotes()
    {
      if isDisposed {
        return;
      }
      votes := [];
      revealed := false;
      if currentTicketIndex < |tickets| {
        currentTicketIndex := currentTicketIndex + 1;
      }
      var nextTicket := CurrentTicket();
      channel := channel + [Event(EventType.NextRound, TicketPayload(nextTicket))];
    }

    /** `Reveal`: shows the votes; it does not look at `HasVotes`. */
    method Reveal()
      requires Valid()
      modifies this`revealed, this`channel
      ensures Valid()
      ensures old(isDisposed) ==> revealed == old(revealed) && channel == old(channel)
      ensures !isDisposed ==> revealed && channel == old(channel) + [Event(EventType.Reveal, TextPayload("reveal"))]
    {
      if isDisposed {
        return;
      }
      revealed := true;
      channel := channel + [Event(EventType.Reveal, TextPayload("reveal"))];
    }

    /** `QueueTicket`: appends without moving the pointer, so a ticket
        queued after the queue ran out becomes the current one. */
    method QueueTicket(ticket: Ticket)
      requires Valid()
      modifies this`tickets
      ensures Valid()
      ensures tickets == if old(isDisposed) then old(tickets) else old(tickets) + [ticket]
      ensures !isDisposed && old(currentTicketIndex) < old(|tickets|) ==> CurrentTicket() == old(CurrentTicket())
      ensures !isDisposed && old(currentTicketIndex) == old(|tickets|) ==> CurrentTicket() == ticket
    {
      if isDisposed {
        return;
      }
      tickets := tickets + [ticket];
    }

    /** `ReorderTicket(indexFrom, indexTo)`. */
    method ReorderTicket(indexFrom: int, indexTo: int) returns (ok: bool)
      requires Valid()
      modifies this`tickets, this`currentTicketIndex
      ensures Valid()
      ensures ok <==>
        && !isDisposed
        && 0 <= indexFrom < old(|tickets|) && 0 <= indexTo < old(|tickets|)
        && indexFrom != indexTo
        && indexFrom != old(currentTicketIndex) && indexTo != old(currentTicketIndex)
      ensures !ok ==> tickets == old(tickets) && currentTicketIndex == old(currentTicketIndex)
      ensures ok ==> tickets == Move(old(tickets), indexFrom, indexTo)
      ensures ok ==> multiset(tickets) == multiset(old(tickets))
      ensures ok ==> currentTicketIndex == PointerAfterMove(indexFrom, indexTo, old(currentTicketIndex))
      ensures old(currentTicketIndex) < old(|tickets|) ==>
        currentTicketIndex < |tickets| && tickets[currentTicketIndex] == old(tickets[currentTicketIndex])
      ensures old(currentTicketIndex) == old(|tickets|) ==> currentTicketIndex == |tickets|
    {
      if isDisposed
         || indexFrom < 0 || indexTo < 0 || indexFrom >= |tickets| || indexTo >= |tickets|
         || indexFrom == indexTo || indexFrom == currentTicketIndex || indexTo == currentTicketIndex {
        return false;
      }
      MovePermutes(tickets, indexFrom, indexTo);
      MoveKeepsPointer(tickets, indexFrom, indexTo, currentTicketIndex);
      var ticket := tickets[indexFrom];
      tickets := InsertAt(RemoveAt(tickets, indexFrom), indexTo, ticket);
      assert tickets == Move(old(tickets), indexFrom, indexTo);
      if indexFrom < currentTicketIndex && indexTo > currentTicketIndex {
        currentTicketIndex := currentTicketIndex - 1;
      } else if indexFrom > currentTicketIndex && indexTo < currentTicketIndex {
        currentTicketIndex := currentTicketIndex + 1;
      }
      ok := true;
    }

    /** `RemoveTicket(index)`. */
    method RemoveTicket(index: int) returns (ok: bool)
      requires Valid()
      modifies this`tickets, this`currentTicketIndex
      ensures Valid()
      ensures ok <==>
        !isDisposed && 0 <= index < old(|tickets|) && index != old(currentTicketIndex)
      ensures !ok ==> tickets == old(tickets) && currentTicketIndex == old(currentTicketIndex)
      ensures ok ==> tickets == RemoveAt(old(tickets), index)
      ensures ok ==> multiset(tickets) == multiset(old(tickets)) - multiset{old(tickets[index])}
      ensures ok ==> currentTicketIndex == PointerAfterRemove(index, old(currentTicketIndex))
      ensures old(currentTicketIndex) < old(|tickets|) ==>
        currentTicketIndex < |tickets| && tickets[currentTicketIndex] == old(tickets[currentTicketIndex])
      ensures old(currentTicketIndex) == old(|tickets|) ==> currentTicketIndex == |tickets|
    {
      if isDisposed {
        return false;
      }
      if index < 0 || index >= |tickets| {
        return false;
      }
      if index == currentTicketIndex {
        return false;
      }
      RemoveKeepsPointer(tickets, index, currentTicketIndex);
      tickets := RemoveAt(tickets, index);
      if index < currentTicketIndex {
        currentTicketIndex := currentTicketIndex - 1;
      }
      RemoveAtMultiset(old(tickets), index);
      ok := true;
    }

    /** `ConnectToRoom(playerId)`: clears `EmptySince` and returns the
        caller's snapshot, or an anonymous non-owner one for a stranger. */
    method ConnectToRoom(playerId: Guid) returns (s: RoomState)
      modifies this`emptySince
      ensures emptySince == None
      ensures playerId in Ids(players) ==> s == State(playerId)
      ensures playerId !in Ids(players) ==>
        s == RoomState(playerId, false, name, players, votes,
                       if owner.Some? then owner.value else EmptyGuid,
                       revealed, CurrentTicket(), None, None)
    {
      emptySince := None;
      var existing := IndexOfId(players, playerId);
      if existing.Some? {
        s := State(players[existing.value].id);
      } else {
        s := RoomState(playerId, false, name, players, votes,
                       if owner.Some? then owner.value else EmptyGuid,
                       revealed, CurrentTicket(), None, None);
      }
    }
  
    /** `SetOwner(player, permanent)`: on a known id that player becomes the
        one flagged owner and stops spectating, and the founding-owner
        record is written if unset or if `permanent`; on an unknown id the
        room is left without an owner. */
    method SetOwner(playerId: Guid, permanent: bool)
      requires Valid()
      modifies this`players, this`owner, this`originalOwner, this`channel
      ensures Valid()
      ensures old(isDisposed) ==>
        players == old(players) && owner == old(owner)
        && originalOwner == old(originalOwner) && channel == old(channel)
      ensures !isDisposed && playerId !in Ids(old(players)) ==>
        players == old(players) && owner == None
        && originalOwner == old(originalOwner) && channel == old(channel)
      ensures !isDisposed && playerId in Ids(old(players)) ==>
        var k := IndexOfId(old(players), playerId).value;
        && owner == Some(playerId)
        && players == Promote(old(players), playerId)
        && originalOwner == (if old(originalOwner).None? || permanent
                             then Some(OwnerRecord(playerId, old(players)[k].name))
                             else old(originalOwner))
        && channel == old(channel) + [Event(EventType.PlayerUpdate, PlayerPayload(players[k])),
                                      Event(EventType.OwnerChange, PlayerPayload(players[k]))]
    {
      if isDisposed {
        return;
      }
      var found := IndexOfId(players, playerId);
      if found.None? {
        NoOwnerConsistent(players, votes, tickets, currentTicketIndex, owner, disconnectedPlayers, isDisposed);
        owner := None;
        return;
      }
      var k := found.value;
      SetOwnerConsistent(players, votes, tickets, currentTicketIndex, owner, disconnectedPlayers, isDisposed, k);
      owner := Some(playerId);
      if originalOwner.None? || permanent {
        originalOwner := Some(OwnerRecord(playerId, players[k].name));
      }
      ClearOwnerFlags();
      players := players[k := players[k].(isSpectator := false, isOwner := true)];
      channel := channel + [Event(EventType.PlayerUpdate, PlayerPayload(players[k])),
                            Event(EventType.OwnerChange, PlayerPayload(players[k]))];
    }

    /** `Players.ForEach(p => p.IsOwner = false)`. */
    method ClearOwnerFlags()
      modifies this`players
      ensures players == ClearedOwners(old(players))
    {
      for i := 0 to |players|
        invariant |players| == |old(players)|
        invariant forall j :: 0 <= j < i ==> players[j] == old(players)[j].(isOwner := false)
        invariant forall j :: i <= j < |players| ==> players[j] == old(players)[j]
      {
        players := players[i := players[i].(isOwner := false)];
      }
    }

    /** `SpectatorState(id, isSpectator)`: sets the flag of a known player
        other than the owner. */
    method SpectatorState(playerId: Guid, isSpectator: bool)
      requires Valid()
      modifies this`players, this`channel
      ensures Valid()
      ensures old(isDisposed) || playerId !in Ids(old(players)) || owner == Some(playerId) ==>
        players == old(players) && channel == old(channel)
      ensures !isDisposed && playerId in Ids(old(players)) && owner != Some(playerId) ==>
        var k := IndexOfId(old(players), playerId).value;
        && players == old(players)[k := old(players)[k].(isSpectator := isSpectator)]
        && channel == old(channel) + [Event(EventType.PlayerUpdate, PlayerPayload(players[k]))]
    {
      if isDisposed {
        return;
      }
      var found := IndexOfId(players, playerId);
      if found.None? || owner == Some(playerId) {
        return;
      }
      var k := found.value;
      SpectatorConsistent(players, votes, tickets, currentTicketIndex, owner, disconnectedPlayers, isDisposed,
                          k, isSpectator);
      players := players[k := players[k].(isSpectator := isSpectator)];
      channel := channel + [Event(EventType.PlayerUpdate, PlayerPayload(players[k]))];
    }

    /** `LeaveRoom(id)`, the transient leave of a dropped connection at time
        `now`: the player stays, with its vote, marked disconnected. */
    method LeaveRoom(playerId: Guid, now: int)
      requires Valid()
      modifies this`players, this`disconnectedPlayers, this`channel
      ensures Valid()
      ensures old(isDisposed) || playerId !in Ids(old(players)) ==>
        players == old(players) && disconnectedPlayers == old(disconnectedPlayers) && channel == old(channel)
      ensures !isDisposed && playerId in Ids(old(players)) ==>
        var k := IndexOfId(old(players), playerId).value;
        && players == old(players)[k := old(players)[k].(isConnected := false)]
        && disconnectedPlayers == old(disconnectedPlayers)[playerId := now]
        && channel == old(channel) + [Event(EventType.PlayerUpdate, PlayerPayload(players[k]))]
    {
      var found := IndexOfId(players, playerId);
      if found.None? {
        return;
      }
      if isDisposed {
        return;
      }
      var k := found.value;
      DisconnectConsistent(players, votes, tickets, currentTicketIndex, owner, disconnectedPlayers, isDisposed,
                           k, now);
      players := players[k := players[k].(isConnected := false)];
      channel := channel + [Event(EventType.PlayerUpdate, PlayerPayload(players[k]))];
      disconnectedPlayers := disconnectedPlayers[playerId := now];
    }

    /** `ExplicitLeaveRoom(id)`: removes the player, its votes and its
        disconnect record even in a disposed room; in a live room it also
        publishes `Leave` and drops the ownership of a leaving owner. */
    method ExplicitLeaveRoom(playerId: Guid)
      requires Valid()
      modifies this`players, this`votes, this`disconnectedPlayers, this`owner, this`channel
      ensures Valid()
      ensures playerId !in Ids(old(players)) ==>
        players == old(players) && votes == old(votes) && disconnectedPlayers == old(disconnectedPlayers)
        && owner == old(owner) && channel == old(channel)
      ensures playerId in Ids(old(players)) ==>
        && players == WithoutIds(old(players), {playerId})
        && votes == Votes.WithoutVoters(old(votes), {playerId})
        && disconnectedPlayers == old(disconnectedPlayers) - {playerId}
      ensures playerId in Ids(old(players)) && old(isDisposed) ==>
        owner == old(owner) && channel == old(channel)
      ensures playerId in Ids(old(players)) && !old(isDisposed) ==>
        var k := IndexOfId(old(players), playerId).value;
        && owner == (if old(owner) == Some(playerId) then None else old(owner))
        && channel == old(channel) + [Event(EventType.Leave, PlayerPayload(old(players)[k]))]
    {
      var found := IndexOfId(players, playerId);
      if found.None? {
        return;
      }
      var k := found.value;
      var player := players[k];
      LeaveConsistent(players, votes, tickets, currentTicketIndex, owner, disconnectedPlayers, isDisposed, k);
      players := RemoveAt(players, k);
      votes := Votes.WithoutVoters(votes, {playerId});
      disconnectedPlayers := disconnectedPlayers - {playerId};
      if isDisposed {
        return;
      }
      channel := channel + [Event(EventType.Leave, PlayerPayload(player))];
      if owner == Some(playerId) {
        owner := None;
      }
    }

    /** `JoinRoom(playerId, playerName, isSpectator)`. A known id, or else a
        known name, reconnects that player; anyone else is appended, and
        becomes owner when the room has none. A disposed room refuses. */
    method JoinRoom(playerId: Guid, playerName: string, isSpectator: bool)
      returns (r: Result<RoomState, JoinError>)
      requires Valid()
      modifies this`players, this`owner, this`originalOwner, this`disconnectedPlayers, this`channel
      ensures Valid()
      ensures r.Failure? <==> old(isDisposed)
      ensures old(isDisposed) ==>
        players == old(players) && owner == old(owner) && originalOwner == old(originalOwner)
        && disconnectedPlayers == old(disconnectedPlayers) && channel == old(channel)
      // The caller is always handed the snapshot of a player who is present.
      ensures r.Success? ==> r.value == State(r.value.playerId) && r.value.playerId in Ids(players)
      // Reconnection, by id first and then by name: nobody is added.
      ensures !isDisposed && (playerId in Ids(old(players)) || playerName in Names(old(players))) ==>
        var k := if playerId in Ids(old(players)) then IndexOfId(old(players), playerId).value
                 else IndexOfName(old(players), playerName).value;
        && r.value.playerId == old(players)[k].id
        && players == old(players)[k := old(players)[k].(isConnected := true)]
        && disconnectedPlayers == old(disconnectedPlayers) - {old(players)[k].id}
        && owner == old(owner) && originalOwner == old(originalOwner)
        && channel == old(channel) + [Event(EventType.PlayerUpdate, PlayerPayload(players[k]))]
      // A newcomer is appended after the players already present, connected
      // and spectating as asked; in a room without an owner it takes over,
      // never as a spectator, and becomes the founder unless one is recorded.
      ensures !isDisposed && playerId !in Ids(old(players)) && playerName !in Names(old(players)) ==>
        var q := Player(playerId, playerName, isSpectator && old(owner).Some?, false, true);
        && r.value.playerId == playerId
        && (r.value.owner <==> old(owner).None?)
        && disconnectedPlayers == old(disconnectedPlayers)
        && (old(owner).Some? ==>
              && players == old(players) + [q]
              && owner == old(owner) && originalOwner == old(originalOwner)
              && channel == old(channel) + [Event(EventType.Join, PlayerPayload(q))])
        && (old(owner).None? ==>
              var p := q.(isOwner := true);
              && players == Promote(old(players) + [q], playerId)
              && owner == Some(playerId)
              && originalOwner == (if old(originalOwner).None? then Some(OwnerRecord(playerId, playerName))
                                   else old(originalOwner))
              && channel == old(channel) + [Event(EventType.PlayerUpdate, PlayerPayload(p)),
                                            Event(EventType.OwnerChange, PlayerPayload(p)),
                                            Event(EventType.Join, PlayerPayload(p))])
    {
      if isDisposed {
        return Failure(RoomDisposed);
      }
      var existing := IndexOfId(players, playerId);
      if existing.None? {
        existing := IndexOfName(players, playerName);
      }
      if existing.Some? {
        var rid := Reconnect(existing.value);
        assert players[existing.value].id == rid;
        return Success(State(rid));
      }
      var reconnectingOwner := IsReconnectingOwner(playerId, playerName);
      var player := Player(playerId, playerName, |players| != 0 && isSpectator && !reconnectingOwner, false, true);
      ghost var q := Player(playerId, playerName, isSpectator && owner.Some?, false, true);
      if owner.Some? {
        // A live room's owner is one of its players, so the room is not empty.
        assert players[IndexOfId(players, owner.value).value].id == owner.value;
        assert player == q;
      }
      ghost var ps0 := players;
      Admit(player, owner.None? || reconnectingOwner);
      assert players[|players| - 1].id == playerId;
      if old(owner).None? {
        assert Promote(ps0 + [player], playerId) == Promote(ps0 + [q], playerId);
      }
      r := Success(State(playerId));
    }

    /** The newcomer branch of `JoinRoom`: a player whose id and name are
        both new is appended; when it is to take over an ownerless room it
        becomes owner; then the join is published. */
    method Admit(player: Player, takeOver: bool)
      requires Valid() && !isDisposed
      requires player.id !in Ids(players) && player.name !in Names(players)
      requires player.isConnected && !player.isOwner
      requires takeOver <==> owner.None?
      modifies this`players, this`owner, this`originalOwner, this`disconnectedPlayers, this`channel
      ensures Valid()
      ensures |players| == |old(players)| + 1 && disconnectedPlayers == old(disconnectedPlayers)
      ensures !takeOver ==>
        && players == old(players) + [player]
        && owner == old(owner) && originalOwner == old(originalOwner)
        && channel == old(channel) + [Event(EventType.Join, PlayerPayload(player))]
      ensures takeOver ==>
        var p := players[|old(players)|];
        && players == Promote(old(players) + [player], player.id)
        && p == player.(isSpectator := false, isOwner := true)
        && owner == Some(player.id)
        && originalOwner == (if old(originalOwner).None? then Some(OwnerRecord(player.id, player.name))
                             else old(originalOwner))
        && channel == old(channel) + [Event(EventType.PlayerUpdate, PlayerPayload(p)),
                                      Event(EventType.OwnerChange, PlayerPayload(p)),
                                      Event(EventType.Join, PlayerPayload(p))]
    {
      AddPlayer(player);
      if takeOver {
        // `SetOwner` records a missing founder itself, so the source's own
        // check for a missing founder that follows it never fires.
        SetOwner(player.id, false);
      }
      assert disconnectedPlayers - {player.id} == disconnectedPlayers;
      disconnectedPlayers := disconnectedPlayers - {player.id};
      assert Valid();
      channel := channel + [Event(EventType.Join, PlayerPayload(players[|players| - 1]))];
    }

    /** `Players.Add(player)` for a player whose id and name are both new. */
    method AddPlayer(player: Player)
      requires Valid() && !isDisposed
      requires player.id !in Ids(players) && player.name !in Names(players)
      requires player.isConnected && !player.isOwner
      modifies this`players
      ensures Valid()
      ensures players == old(players) + [player]
      ensures IndexOfId(players, player.id) == Some(|old(players)|)
      ensures Ids(players) == Ids(old(players)) + {player.id}
    {
      JoinConsistent(players, votes, tickets, currentTicketIndex, owner, disconnectedPlayers, isDisposed, player);
      players := players + [player];
    }

    /** A known player reconnecting: the disconnect record goes, the player
        is marked connected and the update is published. */
    method Reconnect(k: nat) returns (rid: Guid)
      requires Valid() && k < |players|
      modifies this`players, this`disconnectedPlayers, this`channel
      ensures Valid()
      ensures rid == old(players)[k].id
      ensures players == old(players)[k := old(players)[k].(isConnected := true)]
      ensures disconnectedPlayers == old(disconnectedPlayers) - {rid}
      ensures channel == old(channel) + [Event(EventType.PlayerUpdate, PlayerPayload(players[k]))]
    {
      rid := players[k].id;
      ReconnectConsistent(players, votes, tickets, currentTicketIndex, owner, disconnectedPlayers, isDisposed, k);
      disconnectedPlayers := disconnectedPlayers - {rid};
      players := players[k := players[k].(isConnected := true)];
      channel := channel + [Event(EventType.PlayerUpdate, PlayerPayload(players[k]))];
    }

    /** One pass of the disconnect sweep's loop for a timed-out id. */
    method SweepOne(pid: Guid)
      requires Valid()
      modifies this`players, this`votes, this`disconnectedPlayers, this`owner
      ensures Valid()
      ensures players == WithoutIds(old(players), {pid})
      ensures votes == Votes.WithoutVoters(old(votes), {pid})
      ensures disconnectedPlayers == old(disconnectedPlayers) - {pid}
      ensures owner == if old(owner) == Some(pid) then None else old(owner)
    {
      SweepStepConsistent(players, votes, tickets, currentTicketIndex, owner, disconnectedPlayers, isDisposed, pid);
      disconnectedPlayers := disconnectedPlayers - {pid};
      var found := IndexOfId(players, pid);
      if found.Some? {
        players := RemoveAt(players, found.value);
        votes := Votes.WithoutVoters(votes, {pid});
      }
      if owner == Some(pid) {
        owner := None;
      }
    }

    /** `CleanupDisconnectedPlayers` at time `now`: every player disconnected
        for longer than the grace period is dropped with its votes and its
        disconnect record (and its ownership); then a room left with players
        but no owner hands ownership to the first non-spectator, or to the
        first player if everyone spectates. */
    method CleanupDisconnectedPlayers(now: int)
      requires Valid()
      modifies this`players, this`votes, this`disconnectedPlayers, this`owner, this`originalOwner, this`channel
      ensures Valid()
      ensures var gone := TimedOut(old(disconnectedPlayers), now);
        && disconnectedPlayers == old(disconnectedPlayers) - gone
        && votes == Votes.WithoutVoters(old(votes), gone)
        && Ids(players) == Ids(old(players)) - gone
      ensures var gone := TimedOut(old(disconnectedPlayers), now);
        var kept := WithoutIds(old(players), gone);
        var keptOwner := if old(owner).Some? && old(owner).value in gone then None else old(owner);
        isDisposed || kept == [] || keptOwner.Some? ==>
          players == kept && owner == keptOwner
          && originalOwner == old(originalOwner) && channel == old(channel)
      ensures var gone := TimedOut(old(disconnectedPlayers), now);
        var kept := WithoutIds(old(players), gone);
        var keptOwner := if old(owner).Some? && old(owner).value in gone then None else old(owner);
        !isDisposed && kept != [] && keptOwner.None? ==>
          var heir := SuccessorIndex(kept);
          && players == Promote(kept, kept[heir].id)
          && owner == Some(kept[heir].id)
          && originalOwner == (if old(originalOwner).None? then Some(OwnerRecord(kept[heir].id, kept[heir].name))
                               else old(originalOwner))
          && channel == old(channel) + [Event(EventType.PlayerUpdate, PlayerPayload(players[heir])),
                                        Event(EventType.OwnerChange, PlayerPayload(players[heir]))]
      // A live room that still has players always has an owner among them.
      ensures !isDisposed && players != [] ==> owner.Some? && owner.value in Ids(players)
    {
      SweepTimedOut(now);
      ghost var gone := TimedOut(old(disconnectedPlayers), now);
      WithoutIdsIds(old(players), gone);
      if |players| <= 0 || owner.Some? {
        return;
      }
      var heir := SuccessorIndex(players);
      IndexOfUniqueId(players, heir);
      PromoteKeepsIds(players, players[heir].id);
      SetOwner(players[heir].id, false);
    }

    /** The loop of `CleanupDisconnectedPlayers`: each timed-out id is
        swept in turn, in any order, since the outcome does not depend on it. */
    method SweepTimedOut(now: int)
      requires Valid()
      modifies this`players, this`votes, this`disconnectedPlayers, this`owner
      ensures Valid()
      ensures var gone := TimedOut(old(disconnectedPlayers), now);
        && players == WithoutIds(old(players), gone)
        && votes == Votes.WithoutVoters(old(votes), gone)
        && disconnectedPlayers == old(disconnectedPlayers) - gone
        && owner == if old(owner).Some? && old(owner).value in gone then None else old(owner)
    {
      ghost var ps0, vs0, d0, owner0 := players, votes, disconnectedPlayers, owner;
      var pending := TimedOut(disconnectedPlayers, now);
      ghost var done: set<Guid> := {};
      SweptNothing(ps0, vs0, d0, owner0);
      while pending != {}
        invariant done + pending == TimedOut(d0, now) && done !! pending
        invariant Valid()
        invariant SweptBy(ps0, vs0, d0, owner0, done, players, votes, disconnectedPlayers, owner)
        decreases pending
      {
        var pid :| pid in pending;
        SweptOneMore(ps0, vs0, d0, owner0, done, players, votes, disconnectedPlayers, owner, pid);
        SweepOne(pid);
        done := done + {pid};
        pending := pending - {pid};
      }
    }
  }
}
