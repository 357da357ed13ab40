/** Players of a room (Api/Models/Player.cs, extended with the connection
    flag Room.cs sets) and the list queries and updates Room.cs performs on
    its player list: `FirstOrDefault` by id, by name and by "not a
    spectator", `Remove`, and the owner-flag rewrite of `SetOwner`. */
module Players {
  import opened Wrappers

  /** `Guid`, kept opaque. */
  type Guid = int

  /** `Guid.Empty`, reported as the owner id of an ownerless room. */
  const EmptyGuid: Guid := 0

  datatype Player = Player(id: Guid, name: string, isSpectator: bool, isOwner: bool, isConnected: bool)

  function Ids(ps: seq<Player>): set<Guid>
  {
    set i | 0 <= i < |ps| :: ps[i].id
  }

  function Names(ps: seq<Player>): set<string>
  {
    set i | 0 <= i < |ps| :: ps[i].name
  }

  /** No two players share an id. */
  ghost predicate UniqueIds(ps: seq<Player>)
  {
    forall i, j :: 0 <= i < j < |ps| ==> ps[i].id != ps[j].id
  }

  /** No two players share a name. */
  ghost predicate UniqueNames(ps: seq<Player>)
  {
    forall i, j :: 0 <= i < j < |ps| ==> ps[i].name != ps[j].name
  }

  /** All players carrying the owner flag share one id: with unique ids,
      at most one player is flagged. */
  ghost predicate AtMostOneOwnerFlag(ps: seq<Player>)
  {
    forall i, j :: 0 <= i < |ps| && 0 <= j < |ps| && ps[i].isOwner && ps[j].isOwner ==> ps[i].id == ps[j].id
  }

  /** `Players.FirstOrDefault(p => p.Id == id)`, as a position. */
  function IndexOfId(ps: seq<Player>, id: Guid): (r: Option<nat>)
    ensures r.Some? ==> r.value < |ps| && ps[r.value].id == id
    ensures r.Some? ==> forall j :: 0 <= j < r.value ==> ps[j].id != id
    ensures r.None? <==> id !in Ids(ps)
  {
    if |ps| == 0 then None
    else if ps[0].id == id then Some(0)
    else
      match IndexOfId(ps[1..], id)
      case None => assert Ids(ps) == {ps[0].id} + Ids(ps[1..]); None
      case Some(k) => Some(k + 1)
  }

  /** `Players.FirstOrDefault(p => p.Name == name)`, as a position. */
  function IndexOfName(ps: seq<Player>, name: string): (r: Option<nat>)
    ensures r.Some? ==> r.value < |ps| && ps[r.value].name == name
    ensures r.Some? ==> forall j :: 0 <= j < r.value ==> ps[j].name != name
    ensures r.None? <==> name !in Names(ps)
  {
    if |ps| == 0 then None
    else if ps[0].name == name then Some(0)
    else
      match IndexOfName(ps[1..], name)
      case None => assert Names(ps) == {ps[0].name} + Names(ps[1..]); None
      case Some(k) => Some(k + 1)
  }

  /** With unique ids, looking up a player's id finds that player. */
  lemma IndexOfUniqueId(ps: seq<Player>, k: nat)
    requires UniqueIds(ps) && k < |ps|
    ensures IndexOfId(ps, ps[k].id) == Some(k)
  {
    assert ps[k] in ps;
  }

  /** `Players.FirstOrDefault(p => !p.IsSpectator)`, as a position. */
  function FirstNonSpectator(ps: seq<Player>): (r: Option<nat>)
    ensures r.Some? ==> r.value < |ps| && !ps[r.value].isSpectator
    ensures r.Some? ==> forall j :: 0 <= j < r.value ==> ps[j].isSpectator
    ensures r.None? ==> forall j :: 0 <= j < |ps| ==> ps[j].isSpectator
  {
    if |ps| == 0 then None
    else if !ps[0].isSpectator then Some(0)
    else
      match FirstNonSpectator(ps[1..])
      case None => None
      case Some(k) => Some(k + 1)
  }

  /** The player the stale-player cleanup promotes:
      `FirstOrDefault(p => !p.IsSpectator) ?? Players[0]`. */
  function SuccessorIndex(ps: seq<Player>): (r: nat)
    requires |ps| > 0
    ensures r < |ps|
    ensures (exists j :: 0 <= j < |ps| && !ps[j].isSpectator) ==> !ps[r].isSpectator
    ensures ps[r].isSpectator ==> r == 0
    ensures !ps[r].isSpectator ==> forall j :: 0 <= j < r ==> ps[j].isSpectator
  {
    match FirstNonSpectator(ps)
    case Some(k) => k
    case None => 0
  }

  /** `RemoveAll` over players whose id is in `gone`; the others keep their order. */
  function WithoutIds(ps: seq<Player>, gone: set<Guid>): seq<Player>
  {
    if ps == [] then []
    else if ps[0].id in gone then WithoutIds(ps[1..], gone)
    else [ps[0]] + WithoutIds(ps[1..], gone)
  }

  /** The filter keeps exactly the players whose id is not in `gone`. */
  lemma {:induction false} WithoutIdsMembers(ps: seq<Player>, gone: set<Guid>)
    ensures forall p :: p in WithoutIds(ps, gone) <==> p in ps && p.id !in gone
  {
    if ps != [] {
      WithoutIdsMembers(ps[1..], gone);
      assert ps == [ps[0]] + ps[1..];
    }
  }

  /** The filter keeps exactly the ids not in `gone`. */
  lemma WithoutIdsIds(ps: seq<Player>, gone: set<Guid>)
    ensures Ids(WithoutIds(ps, gone)) == Ids(ps) - gone
  {
    var r := WithoutIds(ps, gone);
    WithoutIdsMembers(ps, gone);
    forall x | x in Ids(r) ensures x in Ids(ps) - gone {
      var i :| 0 <= i < |r| && r[i].id == x;
      assert r[i] in r;
      var j :| 0 <= j < |ps| && ps[j] == r[i];
    }
    forall x | x in Ids(ps) - gone ensures x in Ids(r) {
      var j :| 0 <= j < |ps| && ps[j].id == x;
      assert ps[j] in ps;
      var i :| 0 <= i < |r| && r[i] == ps[j];
    }
  }

  /** Dropping players keeps ids and names unique. */
  lemma {:induction false} WithoutIdsUnique(ps: seq<Player>, gone: set<Guid>)
    requires UniqueIds(ps) && UniqueNames(ps)
    ensures UniqueIds(WithoutIds(ps, gone)) && UniqueNames(WithoutIds(ps, gone))
  {
    if ps != [] {
      var rest := WithoutIds(ps[1..], gone);
      WithoutIdsUnique(ps[1..], gone);
      WithoutIdsMembers(ps[1..], gone);
      if ps[0].id !in gone {
        forall p | p in rest ensures p.id != ps[0].id && p.name != ps[0].name {
          var k :| 0 <= k < |ps[1..]| && ps[1..][k] == p;
          assert ps[k + 1] == p;
        }
        var r := [ps[0]] + rest;
        forall i, j | 0 <= i < j < |r| ensures r[i].id != r[j].id && r[i].name != r[j].name {
          if i == 0 {
            assert r[j] in rest;
          } else {
            assert r[i] == rest[i - 1] && r[j] == rest[j - 1];
          }
        }
      }
    }
  }

  /** The player list after `SetOwner(id)`: every owner flag cleared, then
      the player with that id flagged as owner and taken out of spectating. */
  function Promote(ps: seq<Player>, id: Guid): (r: seq<Player>)
    ensures |r| == |ps|
    ensures forall k :: 0 <= k < |r| ==>
      r[k].id == ps[k].id && r[k].name == ps[k].name && r[k].isConnected == ps[k].isConnected
    ensures forall k :: 0 <= k < |r| ==> r[k].isOwner == (ps[k].id == id)
    ensures forall k :: 0 <= k < |r| ==> r[k].isSpectator == (ps[k].isSpectator && ps[k].id != id)
  {
    seq(|ps|, k requires 0 <= k < |ps| =>
      if ps[k].id == id then ps[k].(isSpectator := false, isOwner := true)
      else ps[k].(isOwner := false))
  }

  /** Every player with the owner flag cleared. */
  function ClearedOwners(ps: seq<Player>): seq<Player>
  {
    seq(|ps|, j requires 0 <= j < |ps| => ps[j].(isOwner := false))
  }

  /** Clearing every owner flag and then flagging the player with the
      given id, as `SetOwner` does, yields `Promote`. */
  lemma ClearThenFlagIsPromote(ps: seq<Player>, k: nat, id: Guid)
    requires UniqueIds(ps) && k < |ps| && ps[k].id == id
    ensures ClearedOwners(ps)[k := ClearedOwners(ps)[k].(isSpectator := false, isOwner := true)]
            == Promote(ps, id)
  {
  }

  /** Removing the first player with a given id is the same as removing
      every player with that id, because ids are unique. */
  lemma {:induction false} RemoveFirstIsRemoveAll(ps: seq<Player>, id: Guid, k: nat)
    requires UniqueIds(ps)
    requires k < |ps| && ps[k].id == id
    ensures ps[..k] + ps[k + 1..] == WithoutIds(ps, {id})
  {
    if k == 0 {
      assert ps[..0] + ps[1..] == ps[1..];
      NotPresentUnchanged(ps[1..], id);
    } else {
      RemoveFirstIsRemoveAll(ps[1..], id, k - 1);
      assert ps[..k] + ps[k + 1..] == [ps[0]] + (ps[1..][..k - 1] + ps[1..][k..]);
    }
  }

  /** Removing an id that no player has changes nothing. */
  lemma {:induction false} NotPresentUnchanged(ps: seq<Player>, id: Guid)
    requires id !in Ids(ps)
    ensures WithoutIds(ps, {id}) == ps
  {
    if ps != [] {
      assert ps[0].id != id;
      assert id !in Ids(ps[1..]) by {
        forall i | 0 <= i < |ps[1..]| ensures ps[1..][i].id != id {
          assert ps[1..][i] == ps[i + 1];
        }
      }
      NotPresentUnchanged(ps[1..], id);
    }
  }

  /** Removing no ids changes nothing. */
  lemma {:induction false} WithoutIdsNone(ps: seq<Player>)
    ensures WithoutIds(ps, {}) == ps
  {
    if ps != [] {
      WithoutIdsNone(ps[1..]);
    }
  }

  /** Removing one more id after a batch is removing the enlarged batch. */
  lemma {:induction false} WithoutIdsTwice(ps: seq<Player>, gone: set<Guid>, id: Guid)
    ensures WithoutIds(WithoutIds(ps, gone), {id}) == WithoutIds(ps, gone + {id})
  {
    if ps != [] {
      WithoutIdsTwice(ps[1..], gone, id);
    }
  }

  /** `Promote` keeps the ids of the list. */
  lemma PromoteKeepsIds(ps: seq<Player>, id: Guid)
    ensures Ids(Promote(ps, id)) == Ids(ps)
  {
    var r := Promote(ps, id);
    forall x | x in Ids(ps) ensures x in Ids(r) {
      var k :| 0 <= k < |ps| && ps[k].id == x;
      assert r[k].id == x;
    }
  }

  /** Promotion keeps the list free of duplicate ids and names and leaves
      at most one flagged owner. */
  lemma PromoteKeepsUnique(ps: seq<Player>, id: Guid)
    requires UniqueIds(ps) && UniqueNames(ps)
    ensures UniqueIds(Promote(ps, id)) && UniqueNames(Promote(ps, id))
    ensures AtMostOneOwnerFlag(Promote(ps, id))
  {
  }

  /** Updating the flags of one player keeps the ids and names of the list
      and their uniqueness. */
  lemma ReplaceKeepsKeys(ps: seq<Player>, k: nat, q: Player)
    requires k < |ps| && q.id == ps[k].id && q.name == ps[k].name
    ensures Ids(ps[k := q]) == Ids(ps) && Names(ps[k := q]) == Names(ps)
    ensures UniqueIds(ps) ==> UniqueIds(ps[k := q])
    ensures UniqueNames(ps) ==> UniqueNames(ps[k := q])
  {
    var r := ps[k := q];
    forall x | x in Ids(ps) ensures x in Ids(r) {
      var j :| 0 <= j < |ps| && ps[j].id == x;
      assert r[j].id == x;
    }
    forall x | x in Names(ps) ensures x in Names(r) {
      var j :| 0 <= j < |ps| && ps[j].name == x;
      assert r[j].name == x;
    }
    forall x | x in Ids(r) ensures x in Ids(ps) {
      var j :| 0 <= j < |r| && r[j].id == x;
      assert ps[j].id == x;
    }
    forall x | x in Names(r) ensures x in Names(ps) {
      var j :| 0 <= j < |r| && r[j].name == x;
      assert ps[j].name == x;
    }
  }
}
