/**
  internal/service/card_service.go: card creation and the card move, each
  followed by the invalidation of the boards it touched.
 */
module CardService {
  import opened Wrappers
  import opened Models
  import opened Effects
  import opened BoardCache
  import opened BoardSnapshot
  import opened BoardService
  import ListRepository
  import CardRepository

  /** The card the request body supplies; its `id` is ignored and assigned by the insert. */
  function Stored(input: Card, listId: int): CardRow {
    CardRow(input.title, input.description, input.position, listId)
  }

  /**
    `Create` as the source writes it: the path's list is looked up only to find
    the board to invalidate and to broadcast to; the card is inserted with the
    list id and position of the request body. No permission check is made.
   */
  function CreateAsWritten(st: Store, cache: Cache, f: Faults, input: Card, listId: int, userId: int): (r: Outcome<Card>)
    ensures r.result.Ok? <==> SelectList(listId) !in f.calls && listId in st.lists && InsertCard(input.listId) !in f.calls
    ensures SelectList(listId) in f.calls || listId !in st.lists ==>
              r.result == Err(ListNotFound(listId)) && r.trace == [SelectList(listId)]
    ensures r.result.Err? ==> r.store == st && r.cache == cache && Quiet(r.trace)
    ensures r.result.Ok? ==>
              var card := r.result.value;
              var boardId := st.lists[listId].boardId;
              && CardRowOf(card) == Stored(input, input.listId)
              && CardRepository.GetByID(r.store, card.id) == Ok(card)
              && r.cache == InvalidateBoardCache(cache, f, boardId).0
              && r.trace == [SelectList(listId), InsertCard(input.listId), CacheDel(CacheKey(boardId)),
                             Publish(boardId, Message(CardCreatedEvent, CardPayload(card)))]
    ensures Valid(st) ==> Valid(r.store)
  {
    var lookup := SelectList(listId);
    assert Quiet([lookup]) && Quiet([lookup, InsertCard(input.listId)]);
    if lookup in f.calls then Outcome(Err(ListNotFound(listId)), st, cache, [lookup])
    else match ListRepository.GetByID(st, listId)
      case Err(_) => Outcome(Err(ListNotFound(listId)), st, cache, [lookup])
      case Ok(list) =>
        var insert := InsertCard(input.listId);
        if insert in f.calls then Outcome(Err(StoreError(insert)), st, cache, [lookup, insert])
        else
          var (stored, card) := CardRepository.Create(st, Stored(input, input.listId));
          var (invalidated, calls) := InvalidateBoardCache(cache, f, list.boardId);
          var publish := Publish(list.boardId, Message(CardCreatedEvent, CardPayload(card)));
          Outcome(Ok(card), stored, invalidated, [lookup, insert, calls[0], publish])
  }

  /**
    The finding: a body naming a list of another board than the path's list
    puts the card on that other board, but invalidates (and notifies) the
    path's board. A snapshot of the card's real board that was cached before
    is still cached afterwards and no longer matches the store.
   */
  lemma CreateAsWrittenLeavesStaleSnapshot(st: Store, cache: Cache, input: Card, listId: int, userId: int)
    requires Valid(st) && CacheFresh(st, cache)
    requires listId in st.lists && input.listId in st.lists
    requires st.lists[input.listId].boardId != st.lists[listId].boardId
    requires CacheKey(st.lists[input.listId].boardId) in cache
    requires cache[CacheKey(st.lists[input.listId].boardId)].payload.Snapshot?
    ensures var r := CreateAsWritten(st, cache, Faults({}, {}), input, listId, userId);
            r.result.Ok? && !CacheFresh(r.store, r.cache)
  {
    var f := Faults({}, {});
    var r := CreateAsWritten(st, cache, f, input, listId, userId);
    var realBoard := st.lists[input.listId].boardId;
    var key := CacheKey(realBoard);
    CacheKeyInjective(realBoard, st.lists[listId].boardId);
    assert key in r.cache && r.cache[key] == cache[key];
    var card := r.result.value;
    NewCardShowsOnItsBoard(st, r.store, realBoard, card);
  }

  /** Boards 1 and 2 of user 10; list 3 on board 1, list 7 on board 2; no cards yet. */
  function ExampleStore(): Store {
    Store(map[1 := BoardRow("a", 10), 2 := BoardRow("b", 10)], {},
          map[3 := ListRow("todo", 1, 1), 7 := ListRow("done", 1, 2)], map[], map[], 3, 8, 1)
  }

  /** Board 2's snapshot, as the read path caches it. */
  function ExampleCache(): Cache {
    map[CacheKey(2) := Entry(Snapshot(Assemble(ExampleStore(), 2)), SnapshotTtlSeconds)]
  }

  lemma ExampleCacheFresh()
    ensures CacheFresh(ExampleStore(), ExampleCache())
  {
    forall b | CacheKey(b) in ExampleCache() && ExampleCache()[CacheKey(b)].payload.Snapshot?
      ensures b in ExampleStore().boards && ExampleCache()[CacheKey(b)].payload.view == Assemble(ExampleStore(), b)
    {
      CacheKeyInjective(b, 2);
    }
  }

  /**
    The finding on concrete input: a card posted to list 3 with a body naming
    list 7 lands on board 2, board 1 is the one notified, and board 2's cached
    snapshot is left stale.
   */
  lemma CreateAsWrittenCounterexample()
    ensures CacheFresh(ExampleStore(), ExampleCache())
    ensures var r := CreateAsWritten(ExampleStore(), ExampleCache(), Faults({}, {}), Card(0, "card", "", 1, 7), 3, 10);
            && r.result.Ok? && r.result.value.listId == 7
            && r.trace[3] == Publish(1, Message(CardCreatedEvent, CardPayload(r.result.value)))
            && !CacheFresh(r.store, r.cache)
  {
    var st := ExampleStore();
    assert Valid(st) && st.lists[3].boardId == 1 && st.lists[7].boardId == 2;
    ExampleCacheFresh();
    CreateAsWrittenLeavesStaleSnapshot(st, ExampleCache(), Card(0, "card", "", 1, 7), 3, 10);
  }

  /**
    After a card is added to a list of board `boardId` under a new id, the
    board's snapshot differs from the one before: the card appears on its list.
   */
  lemma NewCardShowsOnItsBoard(s: Store, t: Store, boardId: int, card: Card)
    requires boardId in s.boards && Valid(s)
    requires card.listId in s.lists && s.lists[card.listId].boardId == boardId
    requires t.boards == s.boards && t.lists == s.lists
    requires card.id == s.nextCardId && t.cards == s.cards[card.id := CardRowOf(card)]
    ensures Assemble(s, boardId) != Assemble(t, boardId)
  {
    var before := Assemble(s, boardId);
    var after := Assemble(t, boardId);
    var lists := ListRepository.GetAllByBoardID(s.lists, boardId);
    assert ListAt(s.lists, card.listId) in lists;
    var i :| 0 <= i < |lists| && lists[i] == ListAt(s.lists, card.listId);
    assert ViewLists(before)[i] == lists[i] && ViewLists(after)[i] == lists[i];
    assert card.id !in s.cards;
    assert card == CardAt(t.cards, card.id);
    assert card in after.lists[i].cards;
    assert card !in before.lists[i].cards;
  }

  /**
    `Create` as evidently intended: the card is stored on the path's list, so
    the board that is invalidated and notified is the board the card is on.
   */
  function CreateCard(st: Store, cache: Cache, f: Faults, input: Card, listId: int, userId: int): (r: Outcome<Card>)
    ensures r.result.Ok? <==> SelectList(listId) !in f.calls && listId in st.lists && InsertCard(listId) !in f.calls
    ensures SelectList(listId) in f.calls || listId !in st.lists ==>
              r.result == Err(ListNotFound(listId)) && r.trace == [SelectList(listId)]
    ensures r.result.Err? ==> r.store == st && r.cache == cache && Quiet(r.trace)
    ensures r.result.Ok? ==>
              var card := r.result.value;
              var boardId := st.lists[listId].boardId;
              && CardRowOf(card) == Stored(input, listId)
              && card.listId == listId && r.store.lists == st.lists
              && CardRepository.GetByID(r.store, card.id) == Ok(card)
              && r.cache == InvalidateBoardCache(cache, f, boardId).0
              && r.trace == [SelectList(listId), InsertCard(listId), CacheDel(CacheKey(boardId)),
                             Publish(boardId, Message(CardCreatedEvent, CardPayload(card)))]
    ensures Valid(st) ==> Valid(r.store)
  {
    var lookup := SelectList(listId);
    assert Quiet([lookup]) && Quiet([lookup, InsertCard(listId)]);
    if lookup in f.calls then Outcome(Err(ListNotFound(listId)), st, cache, [lookup])
    else match ListRepository.GetByID(st, listId)
      case Err(_) => Outcome(Err(ListNotFound(listId)), st, cache, [lookup])
      case Ok(list) =>
        var insert := InsertCard(listId);
        if insert in f.calls then Outcome(Err(StoreError(insert)), st, cache, [lookup, insert])
        else
          var (stored, card) := CardRepository.Create(st, Stored(input, listId));
          var (invalidated, calls) := InvalidateBoardCache(cache, f, list.boardId);
          var publish := Publish(list.boardId, Message(CardCreatedEvent, CardPayload(card)));
          Outcome(Ok(card), stored, invalidated, [lookup, insert, calls[0], publish])
  }

  /** The corrected creation keeps a fresh cache fresh when its invalidation goes through. */
  lemma CreateCardKeepsFresh(st: Store, cache: Cache, f: Faults, input: Card, listId: int, userId: int)
    requires Valid(st) && CacheFresh(st, cache)
    requires listId in st.lists ==> CacheDel(CacheKey(st.lists[listId].boardId)) !in f.calls
    ensures CacheFresh(CreateCard(st, cache, f, input, listId, userId).store,
                       CreateCard(st, cache, f, input, listId, userId).cache)
  {
    var r := CreateCard(st, cache, f, input, listId, userId);
    if r.result.Ok? {
      var boardId := st.lists[listId].boardId;
      var card := r.result.value;
      forall b | b != boardId
        ensures SameBoardData(st, r.store, b)
      {
        NewCardFrame(st, r.store, card.id, CardRowOf(card), b);
      }
      FreshAfterInvalidation(st, r.store, cache, r.cache, {boardId});
    }
  }

  /** A card added under a new id to a list of another board does not touch board `boardId`. */
  lemma NewCardFrame(s: Store, t: Store, id: int, row: CardRow, boardId: int)
    requires id !in s.cards
    requires row.listId in s.lists && s.lists[row.listId].boardId != boardId
    requires t.boards == s.boards && t.lists == s.lists && t.cards == s.cards[id := row]
    ensures SameBoardData(s, t, boardId)
  {
  }

  /**
    What `Move` needs to exist: its lookups ignore their errors and dereference
    the results, so a missing card or list, or a failed lookup, is a crash in
    the source rather than an error.
   */
  predicate MoveLookupsSucceed(st: Store, f: Faults, cardId: int, newListId: int) {
    && cardId in st.cards && st.cards[cardId].listId in st.lists && newListId in st.lists
    && SelectCard(cardId) !in f.calls && SelectList(st.cards[cardId].listId) !in f.calls
    && SelectList(newListId) !in f.calls
  }

  /**
    `Move`: the card, its list and the target list are read, the move
    transaction runs with the arguments forwarded unchanged, and on success the
    old list's board is invalidated, then the new list's board if it is a
    different one. A failed move is returned with nothing invalidated. No access
    check and no broadcast happen.
   */
  function MoveCard(st: Store, cache: Cache, f: Faults, cardId: int, newListId: int, newPosition: int, userId: int)
    : (r: Outcome<()>)
    requires MoveLookupsSucceed(st, f, cardId, newListId)
    ensures r.result.Ok? <==> f.tx == {}
    ensures r.result.Err? ==>
              r.store == st && r.cache == cache && r.trace == MoveLookups(st, cardId, newListId, newPosition)
    ensures r.result.Ok? ==>
              var oldBoard := st.lists[st.cards[cardId].listId].boardId;
              var newBoard := st.lists[newListId].boardId;
              var lookups := MoveLookups(st, cardId, newListId, newPosition);
              && r.store == st.(cards := CardRepository.Moved(st.cards, cardId, newListId, newPosition))
              && r.cache == InvalidateMoveBoards(cache, f, oldBoard, newBoard).0
              && (oldBoard == newBoard ==> r.trace == lookups + [CacheDel(CacheKey(oldBoard))])
              && (oldBoard != newBoard ==> r.trace == lookups + [CacheDel(CacheKey(oldBoard)), CacheDel(CacheKey(newBoard))])
  {
    var oldList := ListRepository.GetByID(st, st.cards[cardId].listId).value;
    var newList := ListRepository.GetByID(st, newListId).value;
    var lookups := [SelectCard(cardId), SelectList(oldList.id), SelectList(newListId), RunMove(cardId, newListId, newPosition)];
    match CardRepository.Move(st.cards, cardId, newListId, newPosition, f.tx)
    case Err(e) => Outcome(Err(e), st, cache, lookups)
    case Ok(moved) =>
      var (invalidated, calls) := InvalidateMoveBoards(cache, f, oldList.boardId, newList.boardId);
      Outcome(Ok(()), st.(cards := moved), invalidated, lookups + calls)
  }

  /** The reads `Move` makes before anything is written, and the move transaction. */
  function MoveLookups(st: Store, cardId: int, newListId: int, newPosition: int): seq<Call>
    requires cardId in st.cards
  {
    [SelectCard(cardId), SelectList(st.cards[cardId].listId), SelectList(newListId), RunMove(cardId, newListId, newPosition)]
  }

  /** No call in the trace is an access check or a broadcast. */
  predicate Unchecked(trace: seq<Call>) {
    forall i :: 0 <= i < |trace| ==> !trace[i].Publish? && !trace[i].CheckAccess?
  }

  lemma UncheckedConcat(a: seq<Call>, b: seq<Call>)
    requires Unchecked(a) && Unchecked(b)
    ensures Unchecked(a + b)
  {
    forall i | 0 <= i < |a + b|
      ensures !(a + b)[i].Publish? && !(a + b)[i].CheckAccess?
    {
      if i >= |a| {
        assert (a + b)[i] == b[i - |a|];
      }
    }
  }

  /** A move neither checks the caller's access to either board nor broadcasts anything. */
  lemma MoveNeverChecksOrPublishes(st: Store, cache: Cache, f: Faults, cardId: int, newListId: int, newPosition: int, userId: int)
    requires MoveLookupsSucceed(st, f, cardId, newListId)
    ensures Unchecked(MoveCard(st, cache, f, cardId, newListId, newPosition, userId).trace)
  {
    var r := MoveCard(st, cache, f, cardId, newListId, newPosition, userId);
    var lookups := MoveLookups(st, cardId, newListId, newPosition);
    assert Unchecked(lookups);
    if r.result.Ok? {
      var oldBoard := st.lists[st.cards[cardId].listId].boardId;
      var newBoard := st.lists[newListId].boardId;
      var dels := if oldBoard == newBoard then [CacheDel(CacheKey(oldBoard))]
                  else [CacheDel(CacheKey(oldBoard)), CacheDel(CacheKey(newBoard))];
      assert Unchecked(dels);
      UncheckedConcat(lookups, dels);
    }
  }

  /** The old list's board is invalidated, then the new list's board when it is another one. */
  function InvalidateMoveBoards(cache: Cache, f: Faults, oldBoard: int, newBoard: int): (r: (Cache, seq<Call>))
    ensures var first := InvalidateBoardCache(cache, f, oldBoard).0;
            && (oldBoard == newBoard ==> r.0 == first && r.1 == [CacheDel(CacheKey(oldBoard))])
            && (oldBoard != newBoard ==> r.0 == InvalidateBoardCache(first, f, newBoard).0
                                         && r.1 == [CacheDel(CacheKey(oldBoard)), CacheDel(CacheKey(newBoard))])
    ensures forall k :: k in r.0 ==> k in cache && r.0[k] == cache[k]
    ensures CacheDel(CacheKey(oldBoard)) !in f.calls ==> CacheKey(oldBoard) !in r.0
    ensures CacheDel(CacheKey(newBoard)) !in f.calls ==> CacheKey(newBoard) !in r.0
  {
    var (first, calls) := InvalidateBoardCache(cache, f, oldBoard);
    if oldBoard != newBoard then
      var (second, more) := InvalidateBoardCache(first, f, newBoard);
      (second, calls + more)
    else (first, calls)
  }

  /**
    A move whose invalidations go through keeps a fresh cache fresh: only the
    old and the new list's boards change, and both are invalidated.
   */
  lemma MoveCardKeepsFresh(st: Store, cache: Cache, f: Faults, cardId: int, newListId: int, newPosition: int, userId: int)
    requires MoveLookupsSucceed(st, f, cardId, newListId)
    requires CacheFresh(st, cache)
    requires CacheDel(CacheKey(st.lists[st.cards[cardId].listId].boardId)) !in f.calls
    requires CacheDel(CacheKey(st.lists[newListId].boardId)) !in f.calls
    ensures var r := MoveCard(st, cache, f, cardId, newListId, newPosition, userId);
            CacheFresh(r.store, r.cache)
  {
    var r := MoveCard(st, cache, f, cardId, newListId, newPosition, userId);
    if r.result.Ok? {
      var oldBoard := st.lists[st.cards[cardId].listId].boardId;
      var newBoard := st.lists[newListId].boardId;
      forall b | b != oldBoard && b != newBoard
        ensures SameBoardData(st, r.store, b)
      {
        MoveFrame(st, r.store, cardId, newListId, newPosition, b);
      }
      assert CacheKey(oldBoard) !in r.cache && CacheKey(newBoard) !in r.cache;
      FreshAfterTwoInvalidations(st, r.store, cache, r.cache, oldBoard, newBoard);
    }
  }

  /** Freshness survives when the only two boards that changed are both gone from the cache. */
  lemma FreshAfterTwoInvalidations(s: Store, t: Store, before: Cache, after: Cache, b1: int, b2: int)
    requires CacheFresh(s, before)
    requires forall k :: k in after ==> k in before && after[k] == before[k]
    requires CacheKey(b1) !in after && CacheKey(b2) !in after
    requires forall b :: b != b1 && b != b2 ==> SameBoardData(s, t, b)
    ensures CacheFresh(t, after)
  {
    FreshAfterInvalidation(s, t, before, after, {b1, b2});
  }

  /** A move between lists of other boards does not touch board `boardId`. */
  lemma MoveFrame(s: Store, t: Store, cardId: int, newListId: int, newPosition: int, boardId: int)
    requires cardId in s.cards && s.cards[cardId].listId in s.lists && newListId in s.lists
    requires s.lists[s.cards[cardId].listId].boardId != boardId && s.lists[newListId].boardId != boardId
    requires t == s.(cards := CardRepository.Moved(s.cards, cardId, newListId, newPosition))
    ensures SameBoardData(s, t, boardId)
  {
    forall id
      ensures CardOnBoard(s, id, boardId) <==> CardOnBoard(t, id, boardId)
      ensures CardOnBoard(s, id, boardId) ==> s.cards[id] == t.cards[id]
    {
      if id in s.cards && id != cardId {
        assert t.cards[id].listId == s.cards[id].listId;
      }
    }
  }
}
