/**
  Properties of the card-move transaction (internal/repository/card_repository.go,
  `Move`): position uniqueness, the no-op move, and the reading of both shifts
  as an edit of the list's display order.
 */
module MoveProperties {
  import opened Models
  import opened CardRepository

  /** Within each list no two cards share a position. */
  predicate DistinctPositions(cards: map<int, CardRow>) {
    forall a, b :: a in cards && b in cards && a != b && cards[a].listId == cards[b].listId ==>
      cards[a].position != cards[b].position
  }

  /**
    With integer positions, a move keeps positions distinct within every list.
    (With the source's float positions it does not: moving the card at 1 out of
    a list holding 0.5, 1 and 1.5 shifts 1.5 onto 0.5.)
   */
  lemma MovePreservesDistinctPositions(cards: map<int, CardRow>, cardId: int, newListId: int, newPosition: int)
    requires cardId in cards
    requires DistinctPositions(cards)
    ensures DistinctPositions(Moved(cards, cardId, newListId, newPosition))
  {
    var r := Moved(cards, cardId, newListId, newPosition);
    var p := cards[cardId].position;
    var oldListId := cards[cardId].listId;
    forall a, b | a in r && b in r && a != b && r[a].listId == r[b].listId
      ensures r[a].position != r[b].position
    {
      if a != cardId && b != cardId {
        var xa := cards[a].position;
        var xb := cards[b].position;
        assert xa != xb;
        var ya := if cards[a].listId == oldListId && xa > p then xa - 1 else xa;
        var yb := if cards[b].listId == oldListId && xb > p then xb - 1 else xb;
        assert cards[a].listId == oldListId ==> xa != p;
        assert ya != yb;
        assert r[a].position == (if cards[a].listId == newListId && ya >= newPosition then ya + 1 else ya);
        assert r[b].position == (if cards[b].listId == newListId && yb >= newPosition then yb + 1 else yb);
      } else if a == cardId {
        var xb := cards[b].position;
        var yb := if cards[b].listId == oldListId && xb > p then xb - 1 else xb;
        assert r[b].position == (if yb >= newPosition then yb + 1 else yb);
      } else {
        var xa := cards[a].position;
        var ya := if cards[a].listId == oldListId && xa > p then xa - 1 else xa;
        assert r[a].position == (if ya >= newPosition then ya + 1 else ya);
      }
    }
  }

  /**
    Moving a card to the list and position it already has changes nothing,
    provided no other card of that list shares its position.
   */
  lemma MoveToOwnPositionIsNoOp(cards: map<int, CardRow>, cardId: int)
    requires cardId in cards
    requires forall id :: id in cards && id != cardId && cards[id].listId == cards[cardId].listId ==>
               cards[id].position != cards[cardId].position
    ensures Moved(cards, cardId, cards[cardId].listId, cards[cardId].position) == cards
  {
    var r := Moved(cards, cardId, cards[cardId].listId, cards[cardId].position);
    forall id | id in cards
      ensures r[id] == cards[id]
    {
    }
  }

  /**
    `order` is the display order of list `listId`: it names exactly the cards
    of that list, and the card at index i sits at position i + 1.
   */
  predicate Ranked(cards: map<int, CardRow>, listId: int, order: seq<int>) {
    && (forall i :: 0 <= i < |order| ==>
          order[i] in cards && cards[order[i]].listId == listId && cards[order[i]].position == i + 1)
    && (forall id :: id in cards && cards[id].listId == listId ==> id in order)
  }

  /** The order with its i-th element taken out. */
  function Without(s: seq<int>, i: int): (r: seq<int>)
    requires 0 <= i < |s|
    ensures |r| == |s| - 1
    ensures forall k :: 0 <= k < |r| ==> r[k] == (if k < i then s[k] else s[k + 1])
  {
    s[..i] + s[i + 1..]
  }

  /** The order with `x` inserted at index j. */
  function InsertAt(s: seq<int>, j: int, x: int): (r: seq<int>)
    requires 0 <= j <= |s|
    ensures |r| == |s| + 1
    ensures forall k :: 0 <= k < |r| ==> r[k] == (if k < j then s[k] else if k == j then x else s[k - 1])
  {
    s[..j] + [x] + s[j..]
  }

  /** In a ranked list no two cards share a position. */
  lemma RankedIsDistinct(cards: map<int, CardRow>, listId: int, order: seq<int>)
    requires Ranked(cards, listId, order)
    ensures forall i, j :: 0 <= i < j < |order| ==> order[i] != order[j]
  {
  }

  /** Where one other card ends up: the two shifts applied to its row. */
  lemma MovedOther(cards: map<int, CardRow>, cardId: int, newListId: int, newPosition: int, id: int)
    requires cardId in cards && id in cards && id != cardId
    ensures id in Moved(cards, cardId, newListId, newPosition)
    ensures var c := cards[id];
            var y := if c.listId == cards[cardId].listId && c.position > cards[cardId].position
                     then c.position - 1 else c.position;
            Moved(cards, cardId, newListId, newPosition)[id]
              == c.(position := if c.listId == newListId && y >= newPosition then y + 1 else y)
  {
  }

  /**
    Same-list move on positions 1..n: moving the card at index i (position
    i + 1) to position q is taking it out of the display order and putting it
    back at index q - 1; every other card keeps its relative order.
   */
  lemma SameListMoveReorders(cards: map<int, CardRow>, listId: int, order: seq<int>, i: int, q: int)
    requires Ranked(cards, listId, order)
    requires 0 <= i < |order|
    requires 1 <= q <= |order|
    ensures Ranked(Moved(cards, order[i], listId, q), listId, InsertAt(Without(order, i), q - 1, order[i]))
  {
    RankedIsDistinct(cards, listId, order);
    SameListRanks(cards, listId, order, i, q);
    SameListComplete(cards, listId, order, i, q);
  }

  lemma SameListRanks(cards: map<int, CardRow>, listId: int, order: seq<int>, i: int, q: int)
    requires Ranked(cards, listId, order)
    requires forall a, b :: 0 <= a < b < |order| ==> order[a] != order[b]
    requires 0 <= i < |order| && 1 <= q <= |order|
    ensures var result := InsertAt(Without(order, i), q - 1, order[i]);
            var r := Moved(cards, order[i], listId, q);
            forall k :: 0 <= k < |result| ==>
              result[k] in r && r[result[k]].listId == listId && r[result[k]].position == k + 1
  {
    var result := InsertAt(Without(order, i), q - 1, order[i]);
    forall k | 0 <= k < |result|
      ensures var r := Moved(cards, order[i], listId, q);
              result[k] in r && r[result[k]].listId == listId && r[result[k]].position == k + 1
    {
      SameListRankAt(cards, listId, order, i, q, k);
    }
  }

  /** The card at index k of the new order sits at position k + 1 after the move. */
  lemma SameListRankAt(cards: map<int, CardRow>, listId: int, order: seq<int>, i: int, q: int, k: int)
    requires Ranked(cards, listId, order)
    requires forall a, b :: 0 <= a < b < |order| ==> order[a] != order[b]
    requires 0 <= i < |order| && 1 <= q <= |order| && 0 <= k < |order|
    ensures var result := InsertAt(Without(order, i), q - 1, order[i]);
            var r := Moved(cards, order[i], listId, q);
            result[k] in r && r[result[k]].listId == listId && r[result[k]].position == k + 1
  {
    var result := InsertAt(Without(order, i), q - 1, order[i]);
    if k != q - 1 {
      var x := if k < q - 1 then k else k - 1;
      var m := if x < i then x else x + 1;
      assert result[k] == order[m];
      MovedOther(cards, order[i], listId, q, order[m]);
    }
  }

  lemma SameListComplete(cards: map<int, CardRow>, listId: int, order: seq<int>, i: int, q: int)
    requires Ranked(cards, listId, order)
    requires 0 <= i < |order| && 1 <= q <= |order|
    ensures var result := InsertAt(Without(order, i), q - 1, order[i]);
            var r := Moved(cards, order[i], listId, q);
            forall id :: id in r && r[id].listId == listId ==> id in result
  {
    var r := Moved(cards, order[i], listId, q);
    forall id | id in r && r[id].listId == listId
      ensures id in InsertAt(Without(order, i), q - 1, order[i])
    {
      SameListCompleteAt(cards, listId, order, i, q, id);
    }
  }

  /** A card of the list after the move has a place in the new order. */
  lemma SameListCompleteAt(cards: map<int, CardRow>, listId: int, order: seq<int>, i: int, q: int, id: int)
    requires Ranked(cards, listId, order)
    requires 0 <= i < |order| && 1 <= q <= |order|
    requires id in Moved(cards, order[i], listId, q) && Moved(cards, order[i], listId, q)[id].listId == listId
    ensures id in InsertAt(Without(order, i), q - 1, order[i])
  {
    var cardId := order[i];
    var result := InsertAt(Without(order, i), q - 1, cardId);
    if id != cardId {
      MovedOther(cards, cardId, listId, q, id);
      assert cards[id].listId == listId;
      var m := IndexOf(order, id);
      assert m != i;
      var x := WithoutKeeps(order, i, m);
      InsertAtKeeps(Without(order, i), q - 1, cardId, x);
    } else {
      assert result[q - 1] == id;
    }
  }

  /** Taking out index i moves every other element to a known index. */
  lemma WithoutKeeps(s: seq<int>, i: int, m: int) returns (x: int)
    requires 0 <= i < |s| && 0 <= m < |s| && m != i
    ensures 0 <= x < |Without(s, i)| && Without(s, i)[x] == s[m]
  {
    x := if m < i then m else m - 1;
  }

  /** Inserting at index j keeps every element of `s`. */
  lemma InsertAtKeeps(s: seq<int>, j: int, y: int, x: int)
    requires 0 <= j <= |s| && 0 <= x < |s|
    ensures s[x] in InsertAt(s, j, y)
  {
    var k := if x < j then x else x + 1;
    assert InsertAt(s, j, y)[k] == s[x];
  }

  /** An index at which a member of the order sits. */
  lemma IndexOf(s: seq<int>, x: int) returns (m: int)
    requires x in s
    ensures 0 <= m < |s| && s[m] == x
  {
    m :| 0 <= m < |s| && s[m] == x;
  }

  /**
    Cross-list move on positions 1..n: the card leaves the display order of its
    old list (the cards behind it close the gap) and enters the new list's
    order at index q - 1 (the cards from there on move back one place).
   */
  lemma CrossListMoveTransfers(cards: map<int, CardRow>, fromList: int, fromOrder: seq<int>,
                               toList: int, toOrder: seq<int>, i: int, q: int)
    requires fromList != toList
    requires Ranked(cards, fromList, fromOrder) && Ranked(cards, toList, toOrder)
    requires 0 <= i < |fromOrder|
    requires 1 <= q <= |toOrder| + 1
    ensures Ranked(Moved(cards, fromOrder[i], toList, q), fromList, Without(fromOrder, i))
    ensures Ranked(Moved(cards, fromOrder[i], toList, q), toList, InsertAt(toOrder, q - 1, fromOrder[i]))
  {
    RankedIsDistinct(cards, fromList, fromOrder);
    LeavingRanks(cards, fromList, fromOrder, toList, i, q);
    LeavingComplete(cards, fromList, fromOrder, toList, i, q);
    EnteringRanks(cards, fromList, fromOrder, toList, toOrder, i, q);
    EnteringComplete(cards, fromList, fromOrder, toList, toOrder, i, q);
  }

  lemma LeavingRanks(cards: map<int, CardRow>, fromList: int, fromOrder: seq<int>, toList: int, i: int, q: int)
    requires fromList != toList
    requires Ranked(cards, fromList, fromOrder)
    requires 0 <= i < |fromOrder|
    ensures var left := Without(fromOrder, i);
            var r := Moved(cards, fromOrder[i], toList, q);
            forall k :: 0 <= k < |left| ==>
              left[k] in r && r[left[k]].listId == fromList && r[left[k]].position == k + 1
  {
    var cardId := fromOrder[i];
    var r := Moved(cards, cardId, toList, q);
    var left := Without(fromOrder, i);
    RankedIsDistinct(cards, fromList, fromOrder);
    forall k | 0 <= k < |left|
      ensures left[k] in r && r[left[k]].listId == fromList && r[left[k]].position == k + 1
    {
      var m := if k < i then k else k + 1;
      assert left[k] == fromOrder[m];
      MovedOther(cards, cardId, toList, q, fromOrder[m]);
    }
  }

  lemma LeavingComplete(cards: map<int, CardRow>, fromList: int, fromOrder: seq<int>, toList: int, i: int, q: int)
    requires fromList != toList
    requires Ranked(cards, fromList, fromOrder)
    requires 0 <= i < |fromOrder|
    ensures var left := Without(fromOrder, i);
            var r := Moved(cards, fromOrder[i], toList, q);
            forall id :: id in r && r[id].listId == fromList ==> id in left
  {
    var cardId := fromOrder[i];
    var r := Moved(cards, cardId, toList, q);
    var left := Without(fromOrder, i);
    forall id | id in r && r[id].listId == fromList
      ensures id in left
    {
      MovedOther(cards, cardId, toList, q, id);
      var m := IndexOf(fromOrder, id);
      var x := if m < i then m else m - 1;
      assert left[x] == id;
    }
  }

  lemma EnteringRanks(cards: map<int, CardRow>, fromList: int, fromOrder: seq<int>,
                      toList: int, toOrder: seq<int>, i: int, q: int)
    requires fromList != toList
    requires Ranked(cards, fromList, fromOrder) && Ranked(cards, toList, toOrder)
    requires 0 <= i < |fromOrder|
    requires 1 <= q <= |toOrder| + 1
    ensures var joined := InsertAt(toOrder, q - 1, fromOrder[i]);
            var r := Moved(cards, fromOrder[i], toList, q);
            forall k :: 0 <= k < |joined| ==>
              joined[k] in r && r[joined[k]].listId == toList && r[joined[k]].position == k + 1
  {
    var cardId := fromOrder[i];
    var r := Moved(cards, cardId, toList, q);
    var joined := InsertAt(toOrder, q - 1, cardId);
    forall k | 0 <= k < |joined|
      ensures joined[k] in r && r[joined[k]].listId == toList && r[joined[k]].position == k + 1
    {
      if k != q - 1 {
        var m := if k < q - 1 then k else k - 1;
        assert joined[k] == toOrder[m];
        MovedOther(cards, cardId, toList, q, toOrder[m]);
      }
    }
  }

  lemma EnteringComplete(cards: map<int, CardRow>, fromList: int, fromOrder: seq<int>,
                         toList: int, toOrder: seq<int>, i: int, q: int)
    requires fromList != toList
    requires Ranked(cards, fromList, fromOrder) && Ranked(cards, toList, toOrder)
    requires 0 <= i < |fromOrder|
    requires 1 <= q <= |toOrder| + 1
    ensures var joined := InsertAt(toOrder, q - 1, fromOrder[i]);
            var r := Moved(cards, fromOrder[i], toList, q);
            forall id :: id in r && r[id].listId == toList ==> id in joined
  {
    var cardId := fromOrder[i];
    var r := Moved(cards, cardId, toList, q);
    var joined := InsertAt(toOrder, q - 1, cardId);
    forall id | id in r && r[id].listId == toList
      ensures id in joined
    {
      if id != cardId {
        MovedOther(cards, cardId, toList, q, id);
        var m := IndexOf(toOrder, id);
        var k := if m < q - 1 then m else m + 1;
        assert joined[k] == id;
      } else {
        assert joined[q - 1] == id;
      }
    }
  }
}
