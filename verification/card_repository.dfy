/** The `cards` table: internal/repository/card_repository.go. */
module CardRepository {
  import opened Wrappers
  import opened Models
  import opened Keys
  import opened Effects
  import opened Ordering

  /** The rows among `keys` whose list is in `listIds`, in key order. */
  function CardsOf(cards: map<int, CardRow>, keys: seq<int>, listIds: seq<int>): (r: seq<Card>)
    requires forall k :: k in keys ==> k in cards
    requires StrictlyIncreasing(keys)
    ensures forall c :: c in r <==> c.id in keys && c == CardAt(cards, c.id) && c.listId in listIds
    ensures IncreasingBy(r, CardId)
  {
    if |keys| == 0 then []
    else
      IncreasingKeysTail(keys);
      var rest := CardsOf(cards, keys[1..], listIds);
      var here := CardAt(cards, keys[0]);
      ConsIncreasing(here, rest, CardId);
      if here.listId in listIds then [here] + rest else rest
  }

  /** Every card of the given lists, in primary-key order. */
  function CardsOfLists(cards: map<int, CardRow>, listIds: seq<int>): (r: seq<Card>)
    ensures forall c :: c in r <==> c.id in cards && c == CardAt(cards, c.id) && c.listId in listIds
    ensures IncreasingBy(r, CardId)
  {
    CardsOf(cards, SortedKeys(cards.Keys), listIds)
  }

  /**
    `SELECT COALESCE(MAX(position), 0) FROM cards WHERE list_id = $1`: zero when
    the list has no cards, otherwise the largest position among its cards. A
    failed query is returned as the error.
   */
  function GetMaxPositionForList(st: Store, f: Faults, listId: int): (r: Result<int, Error>)
    ensures r.Ok? <==> MaxCardPosition(listId) !in f.calls
    ensures r.Err? ==> r.error == StoreError(MaxCardPosition(listId))
    ensures r.Ok? ==> forall id :: id in st.cards && st.cards[id].listId == listId ==> st.cards[id].position <= r.value
    ensures r.Ok? && (exists id :: id in st.cards && st.cards[id].listId == listId) ==>
              exists id :: id in st.cards && st.cards[id].listId == listId && st.cards[id].position == r.value
    ensures r.Ok? && (forall id :: id in st.cards ==> st.cards[id].listId != listId) ==> r.value == 0
  {
    var lookup := MaxCardPosition(listId);
    if lookup in f.calls then Err(StoreError(lookup))
    else
      MaxPositionForListFacts(st.cards, listId);
      Ok(MaxOr0(CardsOfLists(st.cards, [listId]), CardPosition))
  }

  lemma MaxPositionForListFacts(cards: map<int, CardRow>, listId: int)
    ensures var r := MaxOr0(CardsOfLists(cards, [listId]), CardPosition);
            && (forall id :: id in cards && cards[id].listId == listId ==> cards[id].position <= r)
            && ((exists id :: id in cards && cards[id].listId == listId) ==>
                  exists id :: id in cards && cards[id].listId == listId && cards[id].position == r)
  {
    var on := CardsOfLists(cards, [listId]);
    var r := MaxOr0(on, CardPosition);
    forall id | id in cards && cards[id].listId == listId
      ensures CardAt(cards, id) in on
    {
    }
    if exists id :: id in cards && cards[id].listId == listId {
      var id :| id in cards && cards[id].listId == listId;
      assert CardAt(cards, id) in on;
      var i :| 0 <= i < |on| && CardPosition(on[i]) == r;
      assert on[i] in on;
    }
  }

  /**
    `INSERT ... RETURNING id`: stores title, description, position and list id
    exactly as given, under the next id of the sequence.
   */
  function Create(st: Store, row: CardRow): (r: (Store, Card))
    ensures CardRowOf(r.1) == row && r.1.id == st.nextCardId
    ensures GetByID(r.0, r.1.id) == Ok(r.1)
    ensures Valid(st) ==> r.1.id !in st.cards && Valid(r.0)
    ensures forall id :: id in st.cards && id != r.1.id ==> id in r.0.cards && r.0.cards[id] == st.cards[id]
    ensures r.0.cards.Keys == st.cards.Keys + {r.1.id}
    ensures r.0.boards == st.boards && r.0.lists == st.lists && r.0.members == st.members
  {
    var id := st.nextCardId;
    (st.(cards := st.cards[id := row], nextCardId := id + 1),
     Card(id, row.title, row.description, row.position, row.listId))
  }

  /** `SELECT * FROM cards WHERE id = $1`; no row is an error. */
  function GetByID(st: Store, cardId: int): (r: Result<Card, Error>)
    ensures r.Ok? <==> cardId in st.cards
    ensures r.Ok? ==> r.value.id == cardId && CardRowOf(r.value) == st.cards[cardId]
    ensures r.Err? ==> r.error == NoRows(SelectCard(cardId))
  {
    if cardId in st.cards then Ok(CardAt(st.cards, cardId)) else Err(NoRows(SelectCard(cardId)))
  }

  /** The cards of one list, keeping their order in `cs`. */
  function CardsInList(cs: seq<Card>, listId: int): seq<Card>
    decreases |cs|
  {
    if |cs| == 0 then []
    else
      var r0 := CardsInList(cs[..|cs| - 1], listId);
      if cs[|cs| - 1].listId == listId then r0 + [cs[|cs| - 1]] else r0
  }

  /** Filtering keeps exactly the list's cards, and keeps them sorted and distinct. */
  lemma {:induction false} CardsInListFacts(cs: seq<Card>, listId: int)
    ensures forall c :: c in CardsInList(cs, listId) <==> c in cs && c.listId == listId
    ensures SortedBy(cs, CardPosition) ==> SortedBy(CardsInList(cs, listId), CardPosition)
    ensures Distinct(cs) ==> Distinct(CardsInList(cs, listId))
    decreases |cs|
  {
    if |cs| > 0 {
      var init := cs[..|cs| - 1];
      var last := cs[|cs| - 1];
      var r0 := CardsInList(init, listId);
      CardsInListFacts(init, listId);
      SnocParts(cs, CardPosition);
      forall c
        ensures c in cs <==> c in init || c == last
      {
        SnocMember(cs, c);
      }
      if last.listId == listId {
        SnocSorted(r0, last, CardPosition);
        SnocDistinct(r0, last);
      }
    }
  }

  /**
    The grouping loop of `GetAllByListIDs`: each card is appended to the entry
    of its list, creating the entry on first use.
   */
  function GroupByList(cs: seq<Card>): (g: map<int, seq<Card>>)
    ensures forall c :: c in cs ==> c.listId in g
    ensures forall l :: l in g ==> g[l] == CardsInList(cs, l) && |g[l]| > 0
    decreases |cs|
  {
    if |cs| == 0 then map[]
    else
      var init := cs[..|cs| - 1];
      var last := cs[|cs| - 1];
      var g0 := GroupByList(init);
      GroupStep(cs, g0);
      g0[last.listId := (if last.listId in g0 then g0[last.listId] else []) + [last]]
  }

  /** Appending the last card to its list's entry extends the grouping of the front to all of `cs`. */
  lemma GroupStep(cs: seq<Card>, g0: map<int, seq<Card>>)
    requires |cs| > 0
    requires forall c :: c in cs[..|cs| - 1] ==> c.listId in g0
    requires forall l :: l in g0 ==> g0[l] == CardsInList(cs[..|cs| - 1], l) && |g0[l]| > 0
    ensures var last := cs[|cs| - 1];
            var g := g0[last.listId := (if last.listId in g0 then g0[last.listId] else []) + [last]];
            && (forall c :: c in cs ==> c.listId in g)
            && (forall l :: l in g ==> g[l] == CardsInList(cs, l) && |g[l]| > 0)
  {
    var last := cs[|cs| - 1];
    var g := g0[last.listId := (if last.listId in g0 then g0[last.listId] else []) + [last]];
    forall l | l in g
      ensures g[l] == CardsInList(cs, l) && |g[l]| > 0
    {
      if l == last.listId && l !in g0 {
        CardsInListFacts(cs[..|cs| - 1], l);
        HeadIsMember(CardsInList(cs[..|cs| - 1], l));
      }
    }
    forall c | c in cs
      ensures c.listId in g
    {
      SnocMember(cs, c);
    }
  }

  /**
    `GetAllByListIDs`: an empty map for no list ids; otherwise every list that
    has cards is mapped to exactly its cards in ascending position, and lists
    without cards are absent.
   */
  function GetAllByListIDs(cards: map<int, CardRow>, listIds: seq<int>): (r: map<int, seq<Card>>)
    ensures |listIds| == 0 ==> r == map[]
    ensures forall l :: l in r <==> l in listIds && exists id :: id in cards && cards[id].listId == l
    ensures forall l, c :: l in r ==> (c in r[l] <==> c.id in cards && c == CardAt(cards, c.id) && c.listId == l)
    ensures forall l :: l in r ==> SortedBy(r[l], CardPosition) && Distinct(r[l])
  {
    if |listIds| == 0 then map[]
    else
      GroupedExact(cards, listIds);
      GroupByList(SortBy(CardsOfLists(cards, listIds), CardPosition))
  }

  /** The grouping of the sorted read holds exactly each list's cards. */
  lemma GroupedExact(cards: map<int, CardRow>, listIds: seq<int>)
    ensures var g := GroupByList(SortBy(CardsOfLists(cards, listIds), CardPosition));
            && (forall l :: l in g <==> l in listIds && exists id :: id in cards && cards[id].listId == l)
            && (forall l, c :: l in g ==> (c in g[l] <==> c.id in cards && c == CardAt(cards, c.id) && c.listId == l))
            && (forall l :: l in g ==> SortedBy(g[l], CardPosition) && Distinct(g[l]))
  {
    var found := CardsOfLists(cards, listIds);
    assert Distinct(found) by {
      forall i, j | 0 <= i < j < |found|
        ensures found[i] != found[j]
      {
        assert CardId(found[i]) < CardId(found[j]);
      }
    }
    var sorted := SortBy(found, CardPosition);
    var g := GroupByList(sorted);
    forall l | l in g
      ensures l in listIds && exists id :: id in cards && cards[id].listId == l
      ensures forall c: Card :: c in g[l] <==> c.id in cards && c == CardAt(cards, c.id) && c.listId == l
      ensures SortedBy(g[l], CardPosition) && Distinct(g[l])
    {
      CardsInListFacts(sorted, l);
      assert g[l][0] in g[l];
    }
    forall l | l in listIds && exists id :: id in cards && cards[id].listId == l
      ensures l in g
    {
      var id :| id in cards && cards[id].listId == l;
      assert CardAt(cards, id) in sorted;
    }
  }

  /** Step 2 of the move: close the gap above `above` in list `listId`. */
  function ShiftDown(cards: map<int, CardRow>, listId: int, above: int): map<int, CardRow> {
    map id | id in cards ::
      if cards[id].listId == listId && cards[id].position > above
      then cards[id].(position := cards[id].position - 1)
      else cards[id]
  }

  /** Step 3 of the move: open a slot at `from` in list `listId`. */
  function ShiftUp(cards: map<int, CardRow>, listId: int, from: int): map<int, CardRow> {
    map id | id in cards ::
      if cards[id].listId == listId && cards[id].position >= from
      then cards[id].(position := cards[id].position + 1)
      else cards[id]
  }

  /**
    The committed effect of moving `cardId`: the card lands exactly at
    (`newListId`, `newPosition`); in its old list the cards above its old
    position drop by one; in the new list the cards at or above the new
    position rise by one; in one list both shifts compose into a reorder;
    every card of every other list is untouched.
   */
  function Moved(cards: map<int, CardRow>, cardId: int, newListId: int, newPosition: int): (r: map<int, CardRow>)
    requires cardId in cards
    ensures r.Keys == cards.Keys
    ensures r[cardId] == cards[cardId].(listId := newListId, position := newPosition)
    ensures forall id :: id in cards && id != cardId ==>
              r[id].listId == cards[id].listId && r[id].title == cards[id].title
              && r[id].description == cards[id].description
    // lists other than the old and the new one
    ensures forall id :: id in cards && cards[id].listId != cards[cardId].listId && cards[id].listId != newListId ==>
              r[id] == cards[id]
    // move between two lists
    ensures cards[cardId].listId != newListId ==>
              forall id :: id in cards && id != cardId && cards[id].listId == cards[cardId].listId ==>
                r[id].position == (if cards[id].position > cards[cardId].position
                                   then cards[id].position - 1 else cards[id].position)
    ensures cards[cardId].listId != newListId ==>
              forall id :: id in cards && cards[id].listId == newListId ==>
                r[id].position == (if cards[id].position >= newPosition
                                   then cards[id].position + 1 else cards[id].position)
    // move within one list, towards the front: [new, old) rise by one
    ensures cards[cardId].listId == newListId && newPosition < cards[cardId].position ==>
              forall id :: (id in cards && id != cardId && cards[id].listId == newListId
                && cards[id].position != cards[cardId].position) ==>
                r[id].position == (if newPosition <= cards[id].position < cards[cardId].position
                                   then cards[id].position + 1 else cards[id].position)
    // move within one list, towards the back: (old, new] drop by one
    ensures cards[cardId].listId == newListId && newPosition > cards[cardId].position ==>
              forall id :: (id in cards && id != cardId && cards[id].listId == newListId
                && cards[id].position != cards[cardId].position) ==>
                r[id].position == (if cards[cardId].position < cards[id].position <= newPosition
                                   then cards[id].position - 1 else cards[id].position)
  {
    var before := cards[cardId];
    var afterOld := ShiftDown(cards, before.listId, before.position);
    var afterNew := ShiftUp(afterOld, newListId, newPosition);
    afterNew[cardId := afterNew[cardId].(listId := newListId, position := newPosition)]
  }

  /**
    The move transaction. A failing statement, or a card that does not exist,
    aborts it; the deferred rollback then discards every shift already made, so
    the caller keeps the cards it had. Only a run in which every statement
    succeeds commits `Moved`.
   */
  function Move(cards: map<int, CardRow>, cardId: int, newListId: int, newPosition: int, failing: set<TxStep>)
    : (r: Result<map<int, CardRow>, Error>)
    ensures r.Ok? <==> cardId in cards && failing == {}
    ensures r.Ok? ==> r.value == Moved(cards, cardId, newListId, newPosition)
    ensures cardId !in cards && Begin !in failing && LockCard !in failing ==> r == Err(CardNotFound(cardId))
    ensures r.Err? && r.error.TxFailed? ==> r.error.step in failing
  {
    if Begin in failing then Err(TxFailed(Begin))
    else if LockCard in failing then Err(TxFailed(LockCard))
    else if cardId !in cards then Err(CardNotFound(cardId))
    else if ShiftOld in failing then Err(TxFailed(ShiftOld))
    else if ShiftNew in failing then Err(TxFailed(ShiftNew))
    else if PlaceCard in failing then Err(TxFailed(PlaceCard))
    else if Commit in failing then Err(TxFailed(Commit))
    else
      NoStepFails(failing);
      Ok(Moved(cards, cardId, newListId, newPosition))
  }

  /** A set of statements none of which is named is empty. */
  lemma NoStepFails(failing: set<TxStep>)
    requires Begin !in failing && LockCard !in failing && ShiftOld !in failing
    requires ShiftNew !in failing && PlaceCard !in failing && Commit !in failing
    ensures failing == {}
  {
    if s :| s in failing {
      match s {
        case Begin => assert false;
        case LockCard => assert false;
        case ShiftOld => assert false;
        case ShiftNew => assert false;
        case PlaceCard => assert false;
        case Commit => assert false;
      }
    }
  }
}
