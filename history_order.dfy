/**
 * The order in which history is listed: newest `savedAt` first. The
 * TypeScript store sorts with `(a, b) => b.savedAt - a.savedAt`, and
 * JavaScript's sort is stable, so items saved at the same instant keep
 * their storage order, which is ascending id order.
 */
module HistoryOrder {
  import opened Schema

  /** Ids strictly increasing along the sequence: storage order with store-assigned ids. */
  ghost predicate IdsIncreasing(s: seq<HistoryItem>) {
    forall i, j :: 0 <= i < j < |s| ==> s[i].id < s[j].id
  }

  /** Newest first; nothing about ties. */
  ghost predicate SavedAtDescending(s: seq<HistoryItem>) {
    forall i, j :: 0 <= i < j < |s| ==> s[i].savedAt >= s[j].savedAt
  }

  /** Newest first, and among equal timestamps ascending id, which is what a stable sort leaves. */
  ghost predicate NewestFirst(s: seq<HistoryItem>) {
    forall i, j :: 0 <= i < j < |s| ==> Precedes(s[i], s[j])
  }

  /** Appending an item with a larger id than every stored one keeps ids increasing. */
  lemma AppendKeepsIdsIncreasing(s: seq<HistoryItem>, x: HistoryItem)
    requires IdsIncreasing(s)
    requires forall y :: y in s ==> y.id < x.id
    ensures IdsIncreasing(s + [x])
  {
    var all := s + [x];
    forall i, j | 0 <= i < j < |all| ensures all[i].id < all[j].id {
      assert all[i] == s[i];
      if j < |s| {
        assert all[j] == s[j];
      } else {
        assert s[i] in s;
      }
    }
  }

  /** `x` is listed before `y` in a stable newest-first order. */
  predicate Precedes(x: HistoryItem, y: HistoryItem) {
    x.savedAt > y.savedAt || (x.savedAt == y.savedAt && x.id < y.id)
  }

  /** One step of a stable insertion sort: `x` goes before the first element that is not newer. */
  function Insert(x: HistoryItem, t: seq<HistoryItem>): (r: seq<HistoryItem>)
    ensures multiset(r) == multiset(t) + multiset{x}
  {
    if t == [] || x.savedAt >= t[0].savedAt then [x] + t
    else
      assert t == [t[0]] + t[1..];
      [t[0]] + Insert(x, t[1..])
  }

  /** The stable sort by `savedAt`, newest first. */
  function SortNewestFirst(s: seq<HistoryItem>): (r: seq<HistoryItem>)
    ensures multiset(r) == multiset(s)
  {
    if s == [] then []
    else
      assert s == [s[0]] + s[1..];
      Insert(s[0], SortNewestFirst(s[1..]))
  }

  /** Every element of an insertion is `x` or came from `t`. */
  lemma InsertMembers(x: HistoryItem, t: seq<HistoryItem>)
    ensures forall y :: y in Insert(x, t) ==> y == x || y in t
  {
    forall y | y in Insert(x, t) ensures y == x || y in t {
      assert y in multiset(Insert(x, t));
    }
  }

  /** Inserting into a newest-first list keeps it newest first. */
  lemma {:induction false} InsertKeepsDescending(x: HistoryItem, t: seq<HistoryItem>)
    requires SavedAtDescending(t)
    ensures SavedAtDescending(Insert(x, t))
  {
    if t != [] && x.savedAt < t[0].savedAt {
      InsertKeepsDescending(x, t[1..]);
      InsertMembers(x, t[1..]);
      var rest := Insert(x, t[1..]);
      forall y | y in rest ensures t[0].savedAt >= y.savedAt {
        if y != x {
          var k :| 0 <= k < |t[1..]| && t[1..][k] == y;
          assert t[k + 1] == y;
        }
      }
    }
  }

  /** Inserting an item older in id than everything present keeps a stable newest-first list. */
  lemma {:induction false} InsertKeepsNewestFirst(x: HistoryItem, t: seq<HistoryItem>)
    requires NewestFirst(t)
    requires forall y :: y in t ==> x.id < y.id
    ensures NewestFirst(Insert(x, t))
  {
    if t != [] && x.savedAt < t[0].savedAt {
      assert forall y :: y in t[1..] ==> y in t;
      InsertKeepsNewestFirst(x, t[1..]);
      InsertMembers(x, t[1..]);
      var rest := Insert(x, t[1..]);
      forall y | y in rest
        ensures Precedes(t[0], y)
      {
        if y != x {
          var k :| 0 <= k < |t[1..]| && t[1..][k] == y;
          assert t[k + 1] == y;
        }
      }
    }
  }

  /** The sort lists newest first. */
  lemma {:induction false} SortIsDescending(s: seq<HistoryItem>)
    ensures SavedAtDescending(SortNewestFirst(s))
  {
    if s != [] {
      SortIsDescending(s[1..]);
      InsertKeepsDescending(s[0], SortNewestFirst(s[1..]));
    }
  }

  /** The sort is stable: from storage order (increasing ids), equal timestamps stay in id order. */
  lemma {:induction false} SortIsStable(s: seq<HistoryItem>)
    requires IdsIncreasing(s)
    ensures NewestFirst(SortNewestFirst(s))
  {
    if s != [] {
      var rest := SortNewestFirst(s[1..]);
      SortIsStable(s[1..]);
      forall y | y in rest ensures s[0].id < y.id {
        assert y in multiset(rest);
        var k :| 0 <= k < |s[1..]| && s[1..][k] == y;
        assert s[k + 1] == y;
      }
      InsertKeepsNewestFirst(s[0], rest);
    }
  }

  /** The head of a stable newest-first list precedes every other element. */
  lemma HeadPrecedes(a: seq<HistoryItem>, y: HistoryItem)
    requires NewestFirst(a) && a != [] && y in a
    ensures y == a[0] || Precedes(a[0], y)
  {
    var k :| 0 <= k < |a| && a[k] == y;
    if k > 0 {
      assert Precedes(a[0], a[k]);
    }
  }

  /** Removing the common head of two equal multisets. */
  lemma TailMultisets(a: seq<HistoryItem>, b: seq<HistoryItem>)
    requires a != [] && b != [] && a[0] == b[0] && multiset(a) == multiset(b)
    ensures multiset(a[1..]) == multiset(b[1..])
  {
    assert a == [a[0]] + a[1..];
    assert b == [b[0]] + b[1..];
    assert multiset(a) == multiset{a[0]} + multiset(a[1..]);
    assert multiset(b) == multiset{b[0]} + multiset(b[1..]);
    assert multiset(a[1..]) == multiset(a) - multiset{a[0]};
    assert multiset(b[1..]) == multiset(b) - multiset{b[0]};
  }

  /** The tail of a stable newest-first list is one too. */
  lemma NewestFirstTail(a: seq<HistoryItem>)
    requires NewestFirst(a) && a != []
    ensures NewestFirst(a[1..])
  {
    forall i, j | 0 <= i < j < |a[1..]| ensures Precedes(a[1..][i], a[1..][j]) {
      assert Precedes(a[i + 1], a[j + 1]);
    }
  }

  /** A stable newest-first order admits one arrangement of given items. */
  lemma {:induction false} NewestFirstUnique(a: seq<HistoryItem>, b: seq<HistoryItem>)
    requires NewestFirst(a) && NewestFirst(b)
    requires multiset(a) == multiset(b)
    ensures a == b
  {
    if a == [] {
      assert |b| == |multiset(b)|;
    } else {
      assert a[0] in multiset(b);
      assert b[0] in multiset(a);
      HeadPrecedes(a, b[0]);
      HeadPrecedes(b, a[0]);
      assert a[0] == b[0];
      TailMultisets(a, b);
      NewestFirstTail(a);
      NewestFirstTail(b);
      NewestFirstUnique(a[1..], b[1..]);
      assert a == [a[0]] + a[1..];
      assert b == [b[0]] + b[1..];
    }
  }

  /** Filtering keeps the storage order, so ids stay increasing. */
  lemma {:induction false} ItemsOfUserKeepsOrder(items: seq<HistoryItem>, userId: int)
    requires IdsIncreasing(items)
    ensures IdsIncreasing(ItemsOfUser(items, userId))
  {
    if items != [] {
      ItemsOfUserKeepsOrder(items[1..], userId);
      ItemsOfUserMembers(items[1..], userId);
      var rest := ItemsOfUser(items[1..], userId);
      forall y | y in rest ensures items[0].id < y.id {
        var k :| 0 <= k < |items[1..]| && items[1..][k] == y;
        assert items[k + 1] == y;
      }
    }
  }
}
