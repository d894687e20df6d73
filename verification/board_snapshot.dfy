/**
  The nested board snapshot that the read path of `boardService.GetByID`
  assembles on a cache miss (internal/service/board_service.go), what it
  depends on, and the freshness of a cache that holds such snapshots.
 */
module BoardSnapshot {
  import opened Models
  import opened Keys
  import opened Ordering
  import opened BoardCache
  import ListRepository
  import CardRepository

  /** The `listIDs` slice built from the lists read. */
  function ListIds(lists: seq<List>): (ids: seq<int>)
    ensures |ids| == |lists|
    ensures forall i :: 0 <= i < |lists| ==> ids[i] == lists[i].id
  {
    seq(|lists|, i requires 0 <= i < |lists| => lists[i].id)
  }

  /** The lists of a snapshot, without their cards. */
  function ViewLists(v: BoardView): (r: seq<List>)
    ensures |r| == |v.lists|
    ensures forall i :: 0 <= i < |r| ==> r[i] == v.lists[i].list
  {
    seq(|v.lists|, i requires 0 <= i < |v.lists| => v.lists[i].list)
  }

  /**
    The attaching loop: every list keeps its place and takes the cards grouped
    under its id, or none when the grouping has no entry for it.
   */
  function AttachCards(lists: seq<List>, byList: map<int, seq<Card>>): (r: seq<ListView>)
    ensures |r| == |lists|
    ensures forall i :: 0 <= i < |r| ==> r[i].list == lists[i]
    ensures forall i :: 0 <= i < |r| ==> lists[i].id !in byList ==> r[i].cards == []
    ensures forall i :: 0 <= i < |r| ==> lists[i].id in byList ==> r[i].cards == byList[lists[i].id]
  {
    if |lists| == 0 then []
    else
      var cards := if lists[0].id in byList then byList[lists[0].id] else [];
      [ListView(lists[0], cards)] + AttachCards(lists[1..], byList)
  }

  /**
    The snapshot of an existing board: the board row, its lists in ascending
    position, and on each list exactly that list's cards in ascending position,
    or no cards.
   */
  function Assemble(st: Store, boardId: int): (v: BoardView)
    requires boardId in st.boards
    ensures v.board == BoardAt(st.boards, boardId)
    ensures ViewLists(v) == ListRepository.GetAllByBoardID(st.lists, boardId)
    ensures forall i, c :: 0 <= i < |v.lists| ==>
              (c in v.lists[i].cards <==> c.id in st.cards && c == CardAt(st.cards, c.id) && c.listId == v.lists[i].list.id)
    ensures forall i :: 0 <= i < |v.lists| ==>
              SortedBy(v.lists[i].cards, CardPosition) && Distinct(v.lists[i].cards)
  {
    var lists := ListRepository.GetAllByBoardID(st.lists, boardId);
    var byList := CardRepository.GetAllByListIDs(st.cards, ListIds(lists));
    AttachedCardsExact(st.cards, lists);
    AttachedListsInOrder(BoardAt(st.boards, boardId), lists, byList);
    BoardView(BoardAt(st.boards, boardId), AttachCards(lists, byList))
  }

  /** Attaching cards leaves the lists, and their order, as read. */
  lemma AttachedListsInOrder(board: Board, lists: seq<List>, byList: map<int, seq<Card>>)
    ensures ViewLists(BoardView(board, AttachCards(lists, byList))) == lists
  {
  }

  /** Each list of the read receives exactly its own cards, sorted. */
  lemma AttachedCardsExact(cards: map<int, CardRow>, lists: seq<List>)
    ensures var r := AttachCards(lists, CardRepository.GetAllByListIDs(cards, ListIds(lists)));
            && (forall i, c :: 0 <= i < |r| ==>
                  (c in r[i].cards <==> c.id in cards && c == CardAt(cards, c.id) && c.listId == r[i].list.id))
            && (forall i :: 0 <= i < |r| ==> SortedBy(r[i].cards, CardPosition) && Distinct(r[i].cards))
  {
    var byList := CardRepository.GetAllByListIDs(cards, ListIds(lists));
    var r := AttachCards(lists, byList);
    forall i, c | 0 <= i < |r|
      ensures c in r[i].cards <==> c.id in cards && c == CardAt(cards, c.id) && c.listId == r[i].list.id
    {
      var l := lists[i];
      assert l.id == ListIds(lists)[i];
      if l.id !in byList && c.id in cards && c == CardAt(cards, c.id) && c.listId == l.id {
        assert false;
      }
    }
  }

  /** A card hangs, through its list, on board `boardId`. */
  predicate CardOnBoard(st: Store, cardId: int, boardId: int) {
    cardId in st.cards && st.cards[cardId].listId in st.lists && st.lists[st.cards[cardId].listId].boardId == boardId
  }

  predicate ListOnBoard(st: Store, listId: int, boardId: int) {
    listId in st.lists && st.lists[listId].boardId == boardId
  }

  /** Two stores agree on everything a snapshot of `boardId` is made of. */
  ghost predicate SameBoardData(s: Store, t: Store, boardId: int) {
    && (boardId in s.boards <==> boardId in t.boards)
    && (boardId in s.boards ==> s.boards[boardId] == t.boards[boardId])
    && (forall id :: ListOnBoard(s, id, boardId) <==> ListOnBoard(t, id, boardId))
    && (forall id :: ListOnBoard(s, id, boardId) ==> s.lists[id] == t.lists[id])
    && (forall id :: CardOnBoard(s, id, boardId) <==> CardOnBoard(t, id, boardId))
    && (forall id :: CardOnBoard(s, id, boardId) ==> s.cards[id] == t.cards[id])
  }

  /**
    A snapshot depends only on the board's own row, lists and cards: stores that
    agree on those assemble the same snapshot.
   */
  lemma AssembleFrame(s: Store, t: Store, boardId: int)
    requires boardId in s.boards
    requires SameBoardData(s, t, boardId)
    ensures Assemble(s, boardId) == Assemble(t, boardId)
  {
    ListsFrame(s, t, boardId);
    var lists := ListRepository.GetAllByBoardID(s.lists, boardId);
    forall l | l in ListIds(lists)
      ensures ListOnBoard(s, l, boardId)
    {
      var i :| 0 <= i < |lists| && ListIds(lists)[i] == l;
      assert lists[i] in lists;
    }
    CardsFrame(s, t, boardId, ListIds(lists));
  }

  /** The lists read for a board depend only on that board's lists. */
  lemma ListsFrame(s: Store, t: Store, boardId: int)
    requires SameBoardData(s, t, boardId)
    ensures ListRepository.GetAllByBoardID(s.lists, boardId) == ListRepository.GetAllByBoardID(t.lists, boardId)
  {
    var ls := ListRepository.BoardLists(s.lists, boardId);
    var lt := ListRepository.BoardLists(t.lists, boardId);
    forall l
      ensures l in ls <==> l in lt
    {
      if l in ls {
        assert ListOnBoard(s, l.id, boardId);
      }
      if l in lt {
        assert ListOnBoard(t, l.id, boardId);
      }
    }
    IncreasingUnique(ls, lt, ListId);
  }

  /** The cards read for lists of a board depend only on that board's cards. */
  lemma CardsFrame(s: Store, t: Store, boardId: int, ids: seq<int>)
    requires SameBoardData(s, t, boardId)
    requires forall l :: l in ids ==> ListOnBoard(s, l, boardId)
    ensures CardRepository.GetAllByListIDs(s.cards, ids) == CardRepository.GetAllByListIDs(t.cards, ids)
  {
    var cs := CardRepository.CardsOfLists(s.cards, ids);
    var ct := CardRepository.CardsOfLists(t.cards, ids);
    forall c
      ensures c in cs <==> c in ct
    {
      if c in cs {
        assert CardOnBoard(s, c.id, boardId);
      }
      if c in ct {
        assert ListOnBoard(t, c.listId, boardId);
        assert CardOnBoard(t, c.id, boardId);
      }
    }
    IncreasingUnique(cs, ct, CardId);
  }

  /**
    Every decodable snapshot cached under a board's key is the snapshot the
    store would assemble for that board now.
   */
  ghost predicate CacheFresh(st: Store, cache: Cache) {
    forall b :: CacheKey(b) in cache && cache[CacheKey(b)].payload.Snapshot? ==>
      b in st.boards && cache[CacheKey(b)].payload.view == Assemble(st, b)
  }

  /**
    The invalidation argument: after a store change that touches only the
    boards in `changed`, a cache from which those boards' keys were removed
    (and nothing was added) holds no snapshot for them and is fresh again.
   */
  lemma FreshAfterInvalidation(s: Store, t: Store, before: Cache, after: Cache, changed: set<int>)
    requires CacheFresh(s, before)
    requires forall k :: k in after ==> k in before && after[k] == before[k]
    requires forall b :: b in changed && CacheKey(b) in after ==> !after[CacheKey(b)].payload.Snapshot?
    requires forall b :: b !in changed ==> SameBoardData(s, t, b)
    ensures CacheFresh(t, after)
  {
    forall b | CacheKey(b) in after && after[CacheKey(b)].payload.Snapshot?
      ensures b in t.boards && after[CacheKey(b)].payload.view == Assemble(t, b)
    {
      assert b !in changed;
      AssembleFrame(s, t, b);
    }
  }

  /** A change to board rows alone leaves every board whose row it keeps alone. */
  lemma BoardRowFrame(s: Store, t: Store, boardId: int)
    requires t.lists == s.lists && t.cards == s.cards
    requires boardId in s.boards <==> boardId in t.boards
    requires boardId in s.boards ==> t.boards[boardId] == s.boards[boardId]
    ensures SameBoardData(s, t, boardId)
  {
  }

  /**
    The invalidation argument for one board: when only `changed` may differ
    and its key is gone from the cache, freshness carries over.
   */
  lemma FreshAfterOneInvalidation(s: Store, t: Store, before: Cache, after: Cache, changed: int)
    requires CacheFresh(s, before)
    requires forall k :: k in after ==> k in before && after[k] == before[k]
    requires CacheKey(changed) !in after
    requires forall b :: b != changed ==> SameBoardData(s, t, b)
    ensures CacheFresh(t, after)
  {
    FreshAfterInvalidation(s, t, before, after, {changed});
  }
}
