/**
 * The TypeScript server's in-memory store (server/storage.ts). Each JavaScript
 * `Map` keyed by id is held as the sequence of its entries in insertion
 * order, which is the order `Map.values()` yields them; two counters hand
 * out ids starting at 1 and are never decremented.
 */
module Storage {
  import opened Wrappers
  import opened Schema
  import opened HistoryOrder

  /** `Map.get` on the users map: the stored user with that id, if any. */
  function FindUser(users: seq<User>, id: int): (r: Option<User>)
    ensures r.Some? ==> r.value in users && r.value.id == id
    ensures r.None? ==> forall u :: u in users ==> u.id != id
  {
    if users == [] then None
    else if users[0].id == id then Some(users[0])
    else FindUser(users[1..], id)
  }

  /** The position of the first user, in insertion order, with that username. */
  function FirstWithUsername(users: seq<User>, username: string): (r: Option<nat>)
    ensures r.Some? ==> r.value < |users| && users[r.value].username == username
    ensures r.Some? ==> forall k :: 0 <= k < r.value ==> users[k].username != username
    ensures r.None? ==> forall k :: 0 <= k < |users| ==> users[k].username != username
  {
    if users == [] then None
    else if users[0].username == username then Some(0)
    else match FirstWithUsername(users[1..], username)
      case None => None
      case Some(k) => Some(k + 1)
  }

  /** `Map.delete` on the history map: every entry with that id goes, the rest keep their order. */
  function RemoveById(items: seq<HistoryItem>, id: int): (r: seq<HistoryItem>)
    ensures multiset(r) <= multiset(items)
    ensures (forall k :: 0 <= k < |items| ==> items[k].id != id) ==> r == items
  {
    if items == [] then []
    else
      assert items == [items[0]] + items[1..];
      if items[0].id == id then RemoveById(items[1..], id)
      else [items[0]] + RemoveById(items[1..], id)
  }

  /** What stays after a delete: exactly the items with another id. */
  lemma {:induction false} RemoveByIdMembers(items: seq<HistoryItem>, id: int)
    ensures forall x :: x in RemoveById(items, id) <==> x in items && x.id != id
  {
    if items != [] {
      RemoveByIdMembers(items[1..], id);
      assert items == [items[0]] + items[1..];
    }
  }

  /** A delete keeps storage order, so ids stay increasing. */
  lemma {:induction false} RemoveByIdKeepsOrder(items: seq<HistoryItem>, id: int)
    requires IdsIncreasing(items)
    ensures IdsIncreasing(RemoveById(items, id))
  {
    if items != [] {
      RemoveByIdKeepsOrder(items[1..], id);
      RemoveByIdMembers(items[1..], id);
      var rest := RemoveById(items[1..], id);
      forall y | y in rest ensures items[0].id < y.id {
        var k :| 0 <= k < |items[1..]| && items[1..][k] == y;
        assert items[k + 1] == y;
      }
    }
  }

  class MemStorage {
    var users: seq<User>
    var historyItems: seq<HistoryItem>
    var userId: int
    var historyId: int

    /** Ids follow insertion order and stay below the counters that issue the next ones. */
    ghost predicate Valid()
      reads this
    {
      && 1 <= userId && 1 <= historyId
      && (forall i, j :: 0 <= i < j < |users| ==> users[i].id < users[j].id)
      && (forall u :: u in users ==> 1 <= u.id < userId)
      && IdsIncreasing(historyItems)
      && (forall h :: h in historyItems ==> 1 <= h.id < historyId)
    }

    constructor()
      ensures Valid()
      ensures users == [] && historyItems == [] && userId == 1 && historyId == 1
    {
      users := [];
      historyItems := [];
      userId := 1;
      historyId := 1;
    }

    function GetUser(id: int): Option<User>
      reads this
    {
      FindUser(users, id)
    }

    /** `find` over the users in insertion order: the first with that username. */
    function GetUserByUsername(username: string): Option<User>
      reads this
    {
      match FirstWithUsername(users, username)
      case None => None
      case Some(k) => Some(users[k])
    }

    /** The user's items, newest first, ties in storage order. */
    function GetHistoryByUserId(ownerId: int): (r: seq<HistoryItem>)
      reads this
      requires Valid()
      ensures forall x :: x in r <==> x in historyItems && x.userId == ownerId
      ensures NewestFirst(r)
    {
      var mine := ItemsOfUser(historyItems, ownerId);
      ItemsOfUserMembers(historyItems, ownerId);
      ItemsOfUserKeepsOrder(historyItems, ownerId);
      SortIsStable(mine);
      var r := SortNewestFirst(mine);
      assert forall x :: x in r <==> x in multiset(mine);
      r
    }

    method CreateUser(insertUser: InsertUser) returns (user: User)
      requires Valid()
      modifies this
      ensures Valid()
      ensures user == NewUser(insertUser, old(userId))
      ensures users == old(users) + [user] && userId == old(userId) + 1
      ensures historyItems == old(historyItems) && historyId == old(historyId)
      ensures GetUser(user.id) == Some(user)
    {
      var id := userId;
      userId := userId + 1;
      user := NewUser(insertUser, id);
      users := users + [user];
    }

    method CreateHistoryItem(insertItem: InsertHistoryItem, now: int) returns (item: HistoryItem)
      requires Valid()
      modifies this
      ensures Valid()
      ensures item == NewHistoryItem(insertItem, old(historyId), now)
      ensures historyItems == old(historyItems) + [item] && historyId == old(historyId) + 1
      ensures users == old(users) && userId == old(userId)
      ensures forall h :: h in old(historyItems) ==> h.id < item.id
      ensures item in GetHistoryByUserId(item.userId)
    {
      var id := historyId;
      historyId := historyId + 1;
      item := NewHistoryItem(insertItem, id, now);
      historyItems := historyItems + [item];
    }

    method DeleteHistoryItem(id: int)
      requires Valid()
      modifies this
      ensures Valid()
      ensures historyItems == RemoveById(old(historyItems), id)
      ensures forall x :: x in historyItems <==> x in old(historyItems) && x.id != id
      ensures users == old(users) && userId == old(userId) && historyId == old(historyId)
    {
      RemoveByIdMembers(historyItems, id);
      RemoveByIdKeepsOrder(historyItems, id);
      historyItems := RemoveById(historyItems, id);
    }
  }
}
