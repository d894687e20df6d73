/**
  The entities of the board application and the relational store that holds
  them. Table rows are kept in maps keyed by their primary key, so a row has no
  id field of its own; the values a query returns (`Board`, `List`, `Card`)
  carry the id they were read under. Positions are integers: every position
  the code itself computes is `max + 1` or a shift by one.
 */
module Models {

  datatype BoardRow = BoardRow(name: string, ownerId: int)
  datatype ListRow = ListRow(title: string, position: int, boardId: int)
  datatype CardRow = CardRow(title: string, description: string, position: int, listId: int)

  datatype Board = Board(id: int, name: string, ownerId: int)
  datatype List = List(id: int, title: string, position: int, boardId: int)
  datatype Card = Card(id: int, title: string, description: string, position: int, listId: int)

  /** A list as the board read returns it: the list with its cards. */
  datatype ListView = ListView(list: List, cards: seq<Card>)
  /** The nested board snapshot that is cached and served to clients. */
  datatype BoardView = BoardView(board: Board, lists: seq<ListView>)

  /** The `{event, payload}` envelope pushed to websocket subscribers. */
  datatype Payload = ListPayload(list: List) | CardPayload(card: Card)
  datatype Message = Message(event: string, payload: Payload)

  const ListCreatedEvent: string := "LIST_CREATED"
  const CardCreatedEvent: string := "CARD_CREATED"

  /**
    The tables `boards`, `board_members`, `lists`, `cards` and the part of
    `users` the core reads (email to id). The `next…Id` counters stand for the
    SERIAL sequences that hand out primary keys.
   */
  datatype Store = Store(
    boards: map<int, BoardRow>,
    members: set<(int, int)>,
    lists: map<int, ListRow>,
    cards: map<int, CardRow>,
    users: map<string, int>,
    nextBoardId: int,
    nextListId: int,
    nextCardId: int)

  /** Every primary key was handed out by its sequence, so the next one is unused. */
  predicate Valid(st: Store) {
    && (forall id :: id in st.boards ==> id < st.nextBoardId)
    && (forall id :: id in st.lists ==> id < st.nextListId)
    && (forall id :: id in st.cards ==> id < st.nextCardId)
  }

  function BoardAt(boards: map<int, BoardRow>, id: int): Board
    requires id in boards
  {
    Board(id, boards[id].name, boards[id].ownerId)
  }

  function ListAt(lists: map<int, ListRow>, id: int): List
    requires id in lists
  {
    List(id, lists[id].title, lists[id].position, lists[id].boardId)
  }

  function CardAt(cards: map<int, CardRow>, id: int): Card
    requires id in cards
  {
    Card(id, cards[id].title, cards[id].description, cards[id].position, cards[id].listId)
  }

  function CardRowOf(c: Card): CardRow {
    CardRow(c.title, c.description, c.position, c.listId)
  }
}

/** Field accessors used as ordering keys. */
module Keys {
  import opened Models

  function ListId(l: List): int { l.id }
  function ListPosition(l: List): int { l.position }
  function CardId(c: Card): int { c.id }
  function CardPosition(c: Card): int { c.position }
  function BoardId(b: Board): int { b.id }
}
