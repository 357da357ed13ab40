/** The rules every room keeps between operations, stated on the room's
    lists as values, and the facts that each kind of update keeps them. */
module RoomRules {
  import opened Wrappers
  import opened Players
  import opened Tickets
  import Votes

  /** The rules of a room: the queue pointer stays within the queue or just
      past its end, and the membership and owner rules below hold. */
  ghost predicate Consistent(ps: seq<Player>, vs: seq<Votes.Vote>, ts: seq<Ticket>, index: int,
                             owner: Option<Guid>, d: map<Guid, int>, disposed: bool)
  {
    0 <= index <= |ts| && MembersConsistent(ps, vs, d) && OwnerConsistent(ps, owner, disposed)
  }

  /** Players are keyed by id (and, through join reconciliation, by
      name); votes and disconnect records belong to present players; a
      player is connected exactly when it has no disconnect record. */
  ghost predicate MembersConsistent(ps: seq<Player>, vs: seq<Votes.Vote>, d: map<Guid, int>)
  {
    && UniqueIds(ps) && UniqueNames(ps)
    && Votes.OneVotePerVoter(vs)
    && Votes.Voters(vs) <= Ids(ps)
    && d.Keys <= Ids(ps)
    && (forall i :: 0 <= i < |ps| ==> (ps[i].isConnected <==> ps[i].id !in d))
  }

  /** At most one player is flagged owner; while an owner is set it is the
      flagged player and is not a spectator; in a live room the owner is one
      of the players. */
  ghost predicate OwnerConsistent(ps: seq<Player>, owner: Option<Guid>, disposed: bool)
  {
    && AtMostOneOwnerFlag(ps)
    && (owner.Some? ==> forall i :: 0 <= i < |ps| ==> (ps[i].isOwner <==> ps[i].id == owner.value))
    && (owner.Some? ==> forall i :: 0 <= i < |ps| && ps[i].id == owner.value ==> !ps[i].isSpectator)
    && (!disposed && owner.Some? ==> owner.value in Ids(ps))
  }

  /** Promoting a present player keeps the membership rules and makes that
      player the sole, non-spectating owner. */
  lemma PromoteConsistent(ps: seq<Player>, vs: seq<Votes.Vote>, d: map<Guid, int>, id: Guid, disposed: bool)
    requires MembersConsistent(ps, vs, d) && id in Ids(ps)
    ensures MembersConsistent(Promote(ps, id), vs, d)
    ensures OwnerConsistent(Promote(ps, id), Some(id), disposed)
  {
    PromoteKeepsIds(ps, id);
    PromoteKeepsUnique(ps, id);
  }

  /** The owner flags `SetOwner` writes (all cleared, then the new owner
      flagged and taken out of spectating) amount to `Promote`, which keeps
      the room's rules with that player as owner. */
  lemma SetOwnerConsistent(ps: seq<Player>, vs: seq<Votes.Vote>, ts: seq<Ticket>, index: int,
                           owner: Option<Guid>, d: map<Guid, int>, disposed: bool, k: nat)
    requires Consistent(ps, vs, ts, index, owner, d, disposed) && k < |ps|
    ensures ClearedOwners(ps)[k := ClearedOwners(ps)[k].(isSpectator := false, isOwner := true)]
            == Promote(ps, ps[k].id)
    ensures Consistent(Promote(ps, ps[k].id), vs, ts, index, Some(ps[k].id), d, disposed)
  {
    assert ps[k].id in Ids(ps);
    ClearThenFlagIsPromote(ps, k, ps[k].id);
    PromoteConsistent(ps, vs, d, ps[k].id, disposed);
  }

  /** Forgetting the owner keeps the room's rules. */
  lemma NoOwnerConsistent(ps: seq<Player>, vs: seq<Votes.Vote>, ts: seq<Ticket>, index: int,
                          owner: Option<Guid>, d: map<Guid, int>, disposed: bool)
    requires Consistent(ps, vs, ts, index, owner, d, disposed)
    ensures Consistent(ps, vs, ts, index, None, d, disposed)
  {
  }

  /** Setting the spectator flag of a player who is not the owner keeps the
      room's rules. */
  lemma SpectatorConsistent(ps: seq<Player>, vs: seq<Votes.Vote>, ts: seq<Ticket>, index: int,
                            owner: Option<Guid>, d: map<Guid, int>, disposed: bool, k: nat, flag: bool)
    requires Consistent(ps, vs, ts, index, owner, d, disposed) && k < |ps| && owner != Some(ps[k].id)
    ensures Consistent(ps[k := ps[k].(isSpectator := flag)], vs, ts, index, owner, d, disposed)
  {
    ReplaceKeepsKeys(ps, k, ps[k].(isSpectator := flag));
  }

  /** Marking a player disconnected at time `now`, with that time recorded,
      keeps the room's rules. */
  lemma DisconnectConsistent(ps: seq<Player>, vs: seq<Votes.Vote>, ts: seq<Ticket>, index: int,
                             owner: Option<Guid>, d: map<Guid, int>, disposed: bool, k: nat, now: int)
    requires Consistent(ps, vs, ts, index, owner, d, disposed) && k < |ps|
    ensures Consistent(ps[k := ps[k].(isConnected := false)], vs, ts, index, owner, d[ps[k].id := now], disposed)
  {
    ReplaceKeepsKeys(ps, k, ps[k].(isConnected := false));
    assert ps[k].id in Ids(ps);
  }

  /** A returning player marked connected again, with its disconnect record
      dropped, keeps the room's rules. */
  lemma ReconnectConsistent(ps: seq<Player>, vs: seq<Votes.Vote>, ts: seq<Ticket>, index: int,
                            owner: Option<Guid>, d: map<Guid, int>, disposed: bool, k: nat)
    requires Consistent(ps, vs, ts, index, owner, d, disposed) && k < |ps|
    ensures Consistent(ps[k := ps[k].(isConnected := true)], vs, ts, index, owner, d - {ps[k].id}, disposed)
  {
    ReplaceKeepsKeys(ps, k, ps[k].(isConnected := true));
  }

  /** Removing a present player together with its votes and its disconnect
      record keeps the membership rules; the owner rules hold once the
      leaving owner is forgotten, and in a disposed room even without that. */
  lemma LeaveConsistent(ps: seq<Player>, vs: seq<Votes.Vote>, ts: seq<Ticket>, index: int,
                        owner: Option<Guid>, d: map<Guid, int>, disposed: bool, k: nat)
    requires Consistent(ps, vs, ts, index, owner, d, disposed) && k < |ps|
    ensures RemoveAt(ps, k) == WithoutIds(ps, {ps[k].id})
    ensures Consistent(RemoveAt(ps, k), Votes.WithoutVoters(vs, {ps[k].id}), ts, index,
                       if owner == Some(ps[k].id) then None else owner, d - {ps[k].id}, disposed)
    ensures disposed ==>
      Consistent(RemoveAt(ps, k), Votes.WithoutVoters(vs, {ps[k].id}), ts, index, owner, d - {ps[k].id}, disposed)
  {
    var id := ps[k].id;
    var r := RemoveAt(ps, k);
    RemoveFirstIsRemoveAll(ps, id, k);
    WithoutIdsIds(ps, {id});
    WithoutIdsUnique(ps, {id});
    Votes.WithoutVotersVoters(vs, {id});
    Votes.WithoutVotersUnique(vs, {id});
    forall i | 0 <= i < |r| ensures r[i].id != id {
      if i < k {
        assert r[i] == ps[i];
      } else {
        assert r[i] == ps[i + 1];
      }
    }
  }

  /** One pass of the disconnect sweep: dropping the player with a timed-out
      id (if present), its votes, its disconnect record and, if it owned the
      room, the ownership keeps the room's rules. When nobody has the id,
      the player and vote lists are already free of it. */
  lemma SweepStepConsistent(ps: seq<Player>, vs: seq<Votes.Vote>, ts: seq<Ticket>, index: int,
                            owner: Option<Guid>, d: map<Guid, int>, disposed: bool, id: Guid)
    requires Consistent(ps, vs, ts, index, owner, d, disposed)
    ensures IndexOfId(ps, id).Some? ==> RemoveAt(ps, IndexOfId(ps, id).value) == WithoutIds(ps, {id})
    ensures IndexOfId(ps, id).None? ==> WithoutIds(ps, {id}) == ps && Votes.WithoutVoters(vs, {id}) == vs
    ensures Consistent(WithoutIds(ps, {id}), Votes.WithoutVoters(vs, {id}), ts, index,
                       if owner == Some(id) then None else owner, d - {id}, disposed)
  {
    match IndexOfId(ps, id)
    case Some(k) =>
      LeaveConsistent(ps, vs, ts, index, owner, d, disposed, k);
    case None =>
      NotPresentUnchanged(ps, id);
      Votes.NotVoterUnchanged(vs, {id});
      assert d - {id} == d;
  }

  /** A newcomer, connected, unflagged and distinct in id and name from
      everyone present, appended to the list keeps the room's rules as long
      as it is not the recorded owner. */
  lemma JoinConsistent(ps: seq<Player>, vs: seq<Votes.Vote>, ts: seq<Ticket>, index: int,
                       owner: Option<Guid>, d: map<Guid, int>, disposed: bool, q: Player)
    requires Consistent(ps, vs, ts, index, owner, d, disposed)
    requires q.id !in Ids(ps) && q.name !in Names(ps) && q.isConnected && !q.isOwner
    requires owner != Some(q.id)
    ensures Ids(ps + [q]) == Ids(ps) + {q.id}
    ensures IndexOfId(ps + [q], q.id) == Some(|ps|)
    ensures Consistent(ps + [q], vs, ts, index, owner, d, disposed)
  {
    var r := ps + [q];
    AppendIds(ps, q);
    AppendIndex(ps, q);
    forall i | 0 <= i < |ps| ensures ps[i].id != q.id && ps[i].name != q.name {
      assert ps[i].id in Ids(ps) && ps[i].name in Names(ps);
    }
    assert UniqueIds(r) && UniqueNames(r);
  }

  /** Casting a vote as a present player keeps the room's rules. */
  lemma VoteConsistent(ps: seq<Player>, vs: seq<Votes.Vote>, ts: seq<Ticket>, index: int,
                       owner: Option<Guid>, d: map<Guid, int>, disposed: bool,
                       id: Guid, value: Option<Votes.uint>)
    requires Consistent(ps, vs, ts, index, owner, d, disposed) && id in Ids(ps)
    ensures Consistent(ps, Votes.CastVote(vs, id, value), ts, index, owner, d, disposed)
  {
    Votes.CastVoteRecords(vs, id, value);
  }

  /** Appending a player adds exactly its id. */
  lemma AppendIds(ps: seq<Player>, q: Player)
    ensures Ids(ps + [q]) == Ids(ps) + {q.id}
  {
    var r := ps + [q];
    assert r[|ps|] == q;
    forall x | x in Ids(r) ensures x in Ids(ps) + {q.id} {
      var j :| 0 <= j < |r| && r[j].id == x;
      if j < |ps| {
        assert r[j] == ps[j];
      }
    }
    forall x | x in Ids(ps) ensures x in Ids(r) {
      var j :| 0 <= j < |ps| && ps[j].id == x;
      assert r[j] == ps[j];
    }
  }

  /** A fresh id appended to the list is found in the last position. */
  lemma AppendIndex(ps: seq<Player>, q: Player)
    requires q.id !in Ids(ps)
    ensures IndexOfId(ps + [q], q.id) == Some(|ps|)
  {
    var r := ps + [q];
    AppendIds(ps, q);
    forall j | 0 <= j < |ps| ensures r[j].id != q.id {
      assert r[j] == ps[j];
      assert ps[j].id in Ids(ps);
    }
  }

  /** The state of the disconnect sweep after the ids in `done` were
      dropped from the lists `ps0`, `vs0`, `d0` and the owner `owner0`. */
  ghost predicate SweptBy(ps0: seq<Player>, vs0: seq<Votes.Vote>, d0: map<Guid, int>, owner0: Option<Guid>,
                          done: set<Guid>,
                          ps: seq<Player>, vs: seq<Votes.Vote>, d: map<Guid, int>, owner: Option<Guid>)
  {
    && ps == WithoutIds(ps0, done)
    && vs == Votes.WithoutVoters(vs0, done)
    && d == d0 - done
    && owner == if owner0.Some? && owner0.value in done then None else owner0
  }

  /** Before the sweep nothing is dropped. */
  lemma SweptNothing(ps0: seq<Player>, vs0: seq<Votes.Vote>, d0: map<Guid, int>, owner0: Option<Guid>)
    ensures SweptBy(ps0, vs0, d0, owner0, {}, ps0, vs0, d0, owner0)
  {
    WithoutIdsNone(ps0);
    Votes.WithoutVotersNone(vs0);
    assert d0 - {} == d0;
  }

  /** Dropping one more id from the swept state is sweeping the enlarged set. */
  lemma SweptOneMore(ps0: seq<Player>, vs0: seq<Votes.Vote>, d0: map<Guid, int>, owner0: Option<Guid>,
                     done: set<Guid>,
                     ps: seq<Player>, vs: seq<Votes.Vote>, d: map<Guid, int>, owner: Option<Guid>, id: Guid)
    requires SweptBy(ps0, vs0, d0, owner0, done, ps, vs, d, owner)
    ensures SweptBy(ps0, vs0, d0, owner0, done + {id},
                    WithoutIds(ps, {id}), Votes.WithoutVoters(vs, {id}), d - {id},
                    if owner == Some(id) then None else owner)
  {
    WithoutIdsTwice(ps0, done, id);
    Votes.WithoutVotersTwice(vs0, done, id);
    RemoveKeysTwice(d0, done, id);
  }

  /** Dropping one more key after a batch is dropping the enlarged batch. */
  lemma RemoveKeysTwice<K, V>(m: map<K, V>, gone: set<K>, k: K)
    ensures m - gone - {k} == m - (gone + {k})
  {
    var a := m - gone - {k};
    var b := m - (gone + {k});
    assert a.Keys == b.Keys;
    forall x | x in a ensures a[x] == b[x] { }
  }
}
