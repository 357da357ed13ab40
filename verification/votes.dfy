/** Votes of a room (`Vote(Voter, Value)` as Room.cs builds it) and the
    list operations Room.cs performs on its vote list: find by voter,
    `Remove` of that vote, `Add`, and `RemoveAll` by voter. */
module Votes {
  import opened Wrappers
  import opened Players
  import opened Tickets

  /** C#'s `uint`. */
  type uint = x: int | 0 <= x < 0x1_0000_0000

  /** A vote; an absent value is a recorded "no vote". */
  datatype Vote = Vote(voter: Guid, value: Option<uint>)

  function Voters(vs: seq<Vote>): set<Guid>
  {
    set i | 0 <= i < |vs| :: vs[i].voter
  }

  /** The rule of one vote per voter. */
  ghost predicate OneVotePerVoter(vs: seq<Vote>)
  {
    forall i, j :: 0 <= i < j < |vs| ==> vs[i].voter != vs[j].voter
  }

  /** `Votes.FirstOrDefault(v => v.Voter == id)`, as a position. */
  function IndexOfVoter(vs: seq<Vote>, id: Guid): (r: Option<nat>)
    ensures r.Some? ==> r.value < |vs| && vs[r.value].voter == id
    ensures r.Some? ==> forall j :: 0 <= j < r.value ==> vs[j].voter != id
    ensures r.None? <==> id !in Voters(vs)
  {
    if |vs| == 0 then None
    else if vs[0].voter == id then Some(0)
    else
      match IndexOfVoter(vs[1..], id)
      case None => assert Voters(vs) == {vs[0].voter} + Voters(vs[1..]); None
      case Some(k) => Some(k + 1)
  }

  /** `Votes.RemoveAll(v => v.Voter in gone)`; the other votes keep their order. */
  function WithoutVoters(vs: seq<Vote>, gone: set<Guid>): seq<Vote>
  {
    if vs == [] then []
    else if vs[0].voter in gone then WithoutVoters(vs[1..], gone)
    else [vs[0]] + WithoutVoters(vs[1..], gone)
  }

  /** The filter keeps exactly the votes whose voter is not in `gone`. */
  lemma {:induction false} WithoutVotersMembers(vs: seq<Vote>, gone: set<Guid>)
    ensures forall v :: v in WithoutVoters(vs, gone) <==> v in vs && v.voter !in gone
  {
    if vs != [] {
      WithoutVotersMembers(vs[1..], gone);
      assert vs == [vs[0]] + vs[1..];
    }
  }

  /** The vote list after `Vote(value, id)` by an eligible player: the
      voter's earlier vote, if any, is removed and the new one appended. */
  function CastVote(vs: seq<Vote>, id: Guid, value: Option<uint>): seq<Vote>
  {
    var kept := match IndexOfVoter(vs, id)
      case None => vs
      case Some(k) => RemoveAt(vs, k);
    kept + [Vote(id, value)]
  }

  lemma WithoutVotersVoters(vs: seq<Vote>, gone: set<Guid>)
    ensures Voters(WithoutVoters(vs, gone)) == Voters(vs) - gone
  {
    var r := WithoutVoters(vs, gone);
    WithoutVotersMembers(vs, gone);
    forall x | x in Voters(vs) - gone ensures x in Voters(r) {
      var v :| v in vs && v.voter == x;
      assert v in r;
    }
  }

  /** Dropping votes keeps one vote per voter. */
  lemma {:induction false} WithoutVotersUnique(vs: seq<Vote>, gone: set<Guid>)
    requires OneVotePerVoter(vs)
    ensures OneVotePerVoter(WithoutVoters(vs, gone))
  {
    if vs != [] {
      var rest := WithoutVoters(vs[1..], gone);
      WithoutVotersUnique(vs[1..], gone);
      WithoutVotersMembers(vs[1..], gone);
      if vs[0].voter !in gone {
        forall v | v in rest ensures v.voter != vs[0].voter {
          var k :| 0 <= k < |vs[1..]| && vs[1..][k] == v;
          assert vs[k + 1] == v;
        }
        var r := [vs[0]] + rest;
        forall i, j | 0 <= i < j < |r| ensures r[i].voter != r[j].voter {
          if i == 0 {
            assert r[j] in rest;
          } else {
            assert r[i] == rest[i - 1] && r[j] == rest[j - 1];
          }
        }
      }
    }
  }

  lemma {:induction false} WithoutVotersAppend(a: seq<Vote>, b: seq<Vote>, gone: set<Guid>)
    ensures WithoutVoters(a + b, gone) == WithoutVoters(a, gone) + WithoutVoters(b, gone)
  {
    if a != [] {
      assert (a + b)[1..] == a[1..] + b;
      WithoutVotersAppend(a[1..], b, gone);
    } else {
      assert a + b == b;
    }
  }

  /** Removing no voters changes nothing. */
  lemma {:induction false} WithoutVotersNone(vs: seq<Vote>)
    ensures WithoutVoters(vs, {}) == vs
  {
    if vs != [] {
      WithoutVotersNone(vs[1..]);
    }
  }

  /** Removing the voters of an earlier batch and then one more voter is
      removing the enlarged batch. */
  lemma {:induction false} WithoutVotersTwice(vs: seq<Vote>, gone: set<Guid>, id: Guid)
    ensures WithoutVoters(WithoutVoters(vs, gone), {id}) == WithoutVoters(vs, gone + {id})
  {
    if vs != [] {
      WithoutVotersTwice(vs[1..], gone, id);
    }
  }

  /** Removing a voter who has no vote changes nothing. */
  lemma {:induction false} NotVoterUnchanged(vs: seq<Vote>, gone: set<Guid>)
    requires Voters(vs) !! gone
    ensures WithoutVoters(vs, gone) == vs
  {
    if vs != [] {
      assert vs[0] in vs;
      assert Voters(vs[1..]) <= Voters(vs) by {
        forall v | v in vs[1..] ensures v in vs { }
      }
      NotVoterUnchanged(vs[1..], gone);
    }
  }

  /** With one vote per voter, removing the voter's first vote removes all of them. */
  lemma {:induction false} RemoveFirstVoteIsRemoveAll(vs: seq<Vote>, id: Guid, k: nat)
    requires OneVotePerVoter(vs)
    requires k < |vs| && vs[k].voter == id
    ensures RemoveAt(vs, k) == WithoutVoters(vs, {id})
  {
    if k == 0 {
      assert RemoveAt(vs, 0) == vs[1..];
      assert id !in Voters(vs[1..]) by {
        forall v | v in vs[1..] ensures v.voter != id {
          var j :| 0 <= j < |vs[1..]| && vs[1..][j] == v;
          assert vs[j + 1] == v;
        }
      }
      NotVoterUnchanged(vs[1..], {id});
    } else {
      RemoveFirstVoteIsRemoveAll(vs[1..], id, k - 1);
      assert RemoveAt(vs, k) == [vs[0]] + RemoveAt(vs[1..], k - 1);
    }
  }

  /** A cast vote is the voter's previous votes dropped and the new vote appended. */
  lemma CastVoteShape(vs: seq<Vote>, id: Guid, value: Option<uint>)
    requires OneVotePerVoter(vs)
    ensures CastVote(vs, id, value) == WithoutVoters(vs, {id}) + [Vote(id, value)]
  {
    match IndexOfVoter(vs, id)
    case None => NotVoterUnchanged(vs, {id});
    case Some(k) => RemoveFirstVoteIsRemoveAll(vs, id, k);
  }

  /** After a vote is cast, exactly one vote has that voter and it carries
      the new value; every other voter's votes are untouched and in order. */
  lemma CastVoteRecords(vs: seq<Vote>, id: Guid, value: Option<uint>)
    requires OneVotePerVoter(vs)
    ensures OneVotePerVoter(CastVote(vs, id, value))
    ensures Vote(id, value) in CastVote(vs, id, value)
    ensures forall v :: v in CastVote(vs, id, value) && v.voter == id ==> v == Vote(id, value)
    ensures WithoutVoters(CastVote(vs, id, value), {id}) == WithoutVoters(vs, {id})
    ensures Voters(CastVote(vs, id, value)) == Voters(vs) + {id}
  {
    var kept := WithoutVoters(vs, {id});
    var r := CastVote(vs, id, value);
    CastVoteShape(vs, id, value);
    WithoutVotersUnique(vs, {id});
    WithoutVotersVoters(vs, {id});
    forall i, j | 0 <= i < j < |r| ensures r[i].voter != r[j].voter {
      if j == |r| - 1 {
        assert r[i] in kept;
      } else {
        assert r[i] == kept[i] && r[j] == kept[j];
      }
    }
    AppendVoters(kept, Vote(id, value));
    WithoutVotersAppend(kept, [Vote(id, value)], {id});
    NotVoterUnchanged(kept, {id});
    assert WithoutVoters([Vote(id, value)], {id}) == [];
  }

  /** Appending a vote adds exactly its voter. */
  lemma AppendVoters(vs: seq<Vote>, v: Vote)
    ensures Voters(vs + [v]) == Voters(vs) + {v.voter}
  {
    var r := vs + [v];
    assert r[|vs|] == v;
    forall x | x in Voters(r) ensures x in Voters(vs) + {v.voter} {
      var j :| 0 <= j < |r| && r[j].voter == x;
      if j < |vs| {
        assert r[j] == vs[j];
      }
    }
    forall x | x in Voters(vs) ensures x in Voters(r) {
      var j :| 0 <= j < |vs| && vs[j].voter == x;
      assert r[j] == vs[j];
    }
  }

  /** Voting twice leaves only the second vote: the replacement is last-write-wins. */
  lemma CastVoteTwice(vs: seq<Vote>, id: Guid, a: Option<uint>, b: Option<uint>)
    requires OneVotePerVoter(vs)
    ensures CastVote(CastVote(vs, id, a), id, b) == CastVote(vs, id, b)
  {
    CastVoteRecords(vs, id, a);
    CastVoteShape(vs, id, a);
    CastVoteShape(CastVote(vs, id, a), id, b);
    CastVoteShape(vs, id, b);
  }
}
