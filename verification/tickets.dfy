/** The ticket record a room queues (Api/Models/Ticket.cs) and the list
    operations the room applies to its queue (`List.RemoveAt`,
    `List.Insert`, and the move that `ReorderTicket` builds from them).
    `RemoveAt` and `InsertAt` are generic: the player and vote lists use
    them too. */
module Tickets {

  /** A work item, immutable once built by the ticket-tracker integration. */
  datatype Ticket = Ticket(
    id: string,
    key: string,
    typeName: string,
    title: string,
    icon: string,
    description: string,
    labels: seq<string>)

  /** `Ticket.Empty`: the sentinel returned when the queue pointer is out of range. */
  const Empty: Ticket := Ticket("", "", "", "", "", "", [])

  /** `List.RemoveAt(i)`: drops element `i`, keeping the order of the rest. */
  function RemoveAt<T>(s: seq<T>, i: nat): (r: seq<T>)
    requires i < |s|
    ensures |r| == |s| - 1
    ensures forall k :: 0 <= k < i ==> r[k] == s[k]
    ensures forall k :: i <= k < |r| ==> r[k] == s[k + 1]
  {
    s[..i] + s[i + 1..]
  }

  /** `List.Insert(i, x)`: `x` lands at position `i`, later elements shift right. */
  function InsertAt<T>(s: seq<T>, i: nat, x: T): (r: seq<T>)
    requires i <= |s|
    ensures |r| == |s| + 1 && r[i] == x
    ensures forall k :: 0 <= k < i ==> r[k] == s[k]
    ensures forall k :: i < k < |r| ==> r[k] == s[k - 1]
  {
    s[..i] + [x] + s[i..]
  }

  /** The queue after `RemoveAt(from)` followed by `Insert(to, s[from])`. */
  function Move<T>(s: seq<T>, from: nat, to: nat): seq<T>
    requires from < |s| && to < |s|
  {
    InsertAt(RemoveAt(s, from), to, s[from])
  }

  lemma RemoveAtMultiset<T>(s: seq<T>, i: nat)
    requires i < |s|
    ensures multiset(RemoveAt(s, i)) == multiset(s) - multiset{s[i]}
  {
    assert s == s[..i] + [s[i]] + s[i + 1..];
  }

  /** Moving a ticket keeps the queue's length and its multiset of tickets. */
  lemma MovePermutes<T>(s: seq<T>, from: nat, to: nat)
    requires from < |s| && to < |s|
    ensures |Move(s, from, to)| == |s|
    ensures multiset(Move(s, from, to)) == multiset(s)
  {
    var t := RemoveAt(s, from);
    RemoveAtMultiset(s, from);
    assert t == t[..to] + t[to..];
    assert multiset(Move(s, from, to)) == multiset(t) + multiset{s[from]};
  }

  /** Where every element of the queue ends up after a move: the moved
      element sits at `to`, elements strictly between the two positions
      shift by one towards `from`, and all others keep their place. */
  lemma MoveAt<T>(s: seq<T>, from: nat, to: nat, k: nat)
    requires from < |s| && to < |s| && k < |s|
    ensures k == from ==> Move(s, from, to)[to] == s[k]
    ensures k < from && k < to ==> Move(s, from, to)[k] == s[k]
    ensures k > from && k > to ==> Move(s, from, to)[k] == s[k]
    ensures from < k <= to ==> Move(s, from, to)[k - 1] == s[k]
    ensures to <= k < from ==> Move(s, from, to)[k + 1] == s[k]
  {
  }

  /** The pointer after `ReorderTicket` moves a ticket from `from` to `to`:
      one less when the moved ticket crossed the current one from below, one
      more when it crossed from above, otherwise unchanged. */
  function PointerAfterMove(from: int, to: int, cur: int): int
  {
    if from < cur && to > cur then cur - 1
    else if from > cur && to < cur then cur + 1
    else cur
  }

  /** The pointer after `RemoveTicket` drops position `index`: one less when
      the removed ticket lay before the current one, otherwise unchanged. */
  function PointerAfterRemove(index: int, cur: int): int
  {
    if index < cur then cur - 1 else cur
  }

  /** The pointer correction of `ReorderTicket` keeps the pointer on the same
      ticket, or still just past the end. */
  lemma MoveKeepsPointer<T>(s: seq<T>, from: nat, to: nat, cur: nat)
    requires from < |s| && to < |s| && cur <= |s|
    requires from != to && from != cur && to != cur
    ensures cur < |s| ==>
      && 0 <= PointerAfterMove(from, to, cur) < |s|
      && Move(s, from, to)[PointerAfterMove(from, to, cur)] == s[cur]
    ensures cur == |s| ==> PointerAfterMove(from, to, cur) == |s|
  {
    if cur < |s| {
      MoveAt(s, from, to, cur);
    }
  }

  /** The pointer correction of `RemoveTicket` keeps the pointer on the same
      ticket, or still just past the end. */
  lemma RemoveKeepsPointer<T>(s: seq<T>, index: nat, cur: nat)
    requires index < |s| && cur <= |s| && index != cur
    ensures cur < |s| ==>
      && 0 <= PointerAfterRemove(index, cur) < |s| - 1
      && RemoveAt(s, index)[PointerAfterRemove(index, cur)] == s[cur]
    ensures cur == |s| ==> PointerAfterRemove(index, cur) == |s| - 1
  {
  }
}
