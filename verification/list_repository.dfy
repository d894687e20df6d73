/** The `lists` table: internal/repository/list_repository.go. */
module ListRepository {
  import opened Wrappers
  import opened Models
  import opened Keys
  import opened Effects
  import opened Ordering

  /** The rows of board `boardId` among `keys`, in key order. */
  function ListsOn(lists: map<int, ListRow>, keys: seq<int>, boardId: int): (r: seq<List>)
    requires forall k :: k in keys ==> k in lists
    requires StrictlyIncreasing(keys)
    ensures forall l :: l in r <==> l.id in keys && l == ListAt(lists, l.id) && l.boardId == boardId
    ensures IncreasingBy(r, ListId)
  {
    if |keys| == 0 then []
    else
      IncreasingKeysTail(keys);
      var rest := ListsOn(lists, keys[1..], boardId);
      var here := ListAt(lists, keys[0]);
      ConsIncreasing(here, rest, ListId);
      if here.boardId == boardId then [here] + rest else rest
  }

  /** Every list of board `boardId`, in primary-key order. */
  function BoardLists(lists: map<int, ListRow>, boardId: int): (r: seq<List>)
    ensures forall l :: l in r <==> l.id in lists && l == ListAt(lists, l.id) && l.boardId == boardId
    ensures IncreasingBy(r, ListId)
  {
    ListsOn(lists, SortedKeys(lists.Keys), boardId)
  }

  /**
    `SELECT COALESCE(MAX(position), 0) FROM lists WHERE board_id = $1`: zero when
    the board has no lists, otherwise the largest position among its lists.
   */
  function GetMaxPositionForBoard(lists: map<int, ListRow>, boardId: int): (r: int)
    ensures forall id :: id in lists && lists[id].boardId == boardId ==> lists[id].position <= r
    ensures (exists id :: id in lists && lists[id].boardId == boardId) ==>
              exists id :: id in lists && lists[id].boardId == boardId && lists[id].position == r
    ensures (forall id :: id in lists ==> lists[id].boardId != boardId) ==> r == 0
  {
    MaxPositionForBoardFacts(lists, boardId);
    MaxOr0(BoardLists(lists, boardId), ListPosition)
  }

  lemma MaxPositionForBoardFacts(lists: map<int, ListRow>, boardId: int)
    ensures var r := MaxOr0(BoardLists(lists, boardId), ListPosition);
            && (forall id :: id in lists && lists[id].boardId == boardId ==> lists[id].position <= r)
            && ((exists id :: id in lists && lists[id].boardId == boardId) ==>
                  exists id :: id in lists && lists[id].boardId == boardId && lists[id].position == r)
  {
    var on := BoardLists(lists, boardId);
    var r := MaxOr0(on, ListPosition);
    forall id | id in lists && lists[id].boardId == boardId
      ensures ListAt(lists, id) in on
    {
    }
    if exists id :: id in lists && lists[id].boardId == boardId {
      var id :| id in lists && lists[id].boardId == boardId;
      assert ListAt(lists, id) in on;
      var i :| 0 <= i < |on| && ListPosition(on[i]) == r;
      assert on[i] in on;
    }
  }

  /**
    `INSERT ... RETURNING id`: stores the title, position and board id it is
    given under the next id of the sequence.
   */
  function Create(st: Store, title: string, position: int, boardId: int): (r: (Store, List))
    ensures r.1 == List(st.nextListId, title, position, boardId)
    ensures GetByID(r.0, r.1.id) == Ok(r.1)
    ensures Valid(st) ==> r.1.id !in st.lists && Valid(r.0)
    ensures forall id :: id in st.lists && id != r.1.id ==> id in r.0.lists && r.0.lists[id] == st.lists[id]
    ensures r.0.lists.Keys == st.lists.Keys + {r.1.id}
    ensures r.0.boards == st.boards && r.0.cards == st.cards && r.0.members == st.members
  {
    var id := st.nextListId;
    (st.(lists := st.lists[id := ListRow(title, position, boardId)], nextListId := id + 1),
     List(id, title, position, boardId))
  }

  /** `SELECT * FROM lists WHERE id = $1`; no row is an error. */
  function GetByID(st: Store, listId: int): (r: Result<List, Error>)
    ensures r.Ok? <==> listId in st.lists
    ensures r.Ok? ==> r.value == List(listId, st.lists[listId].title, st.lists[listId].position, st.lists[listId].boardId)
    ensures r.Err? ==> r.error == NoRows(SelectList(listId))
  {
    if listId in st.lists then Ok(ListAt(st.lists, listId)) else Err(NoRows(SelectList(listId)))
  }

  /**
    `SELECT * FROM lists WHERE board_id = $1 ORDER BY position ASC`: exactly the
    lists of the board, each once, in ascending position.
   */
  function GetAllByBoardID(lists: map<int, ListRow>, boardId: int): (r: seq<List>)
    ensures forall l :: l in r <==> l.id in lists && l == ListAt(lists, l.id) && l.boardId == boardId
    ensures SortedBy(r, ListPosition)
    ensures Distinct(r)
  {
    var on := BoardLists(lists, boardId);
    assert Distinct(on) by {
      forall i, j | 0 <= i < j < |on| ensures on[i] != on[j] {
        assert ListId(on[i]) < ListId(on[j]);
      }
    }
    SortBy(on, ListPosition)
  }

  /**
    `UPDATE lists SET title, position WHERE id = $3`: overwrites the title and
    position of that row, keeps its board, and is a silent no-op when no row
    has the id. Neither existence nor ownership is checked. A failed statement
    is returned as it is, with nothing written.
   */
  function Update(st: Store, f: Faults, list: List): (r: Result<Store, Error>)
    ensures r.Ok? <==> UpdateList(list.id) !in f.calls
    ensures r.Err? ==> r.error == StoreError(UpdateList(list.id))
    ensures r.Ok? && list.id !in st.lists ==> r.value == st
    ensures r.Ok? ==>
              && r.value.lists.Keys == st.lists.Keys
              && (forall id :: id in st.lists && id != list.id ==> r.value.lists[id] == st.lists[id])
              && r.value.boards == st.boards && r.value.cards == st.cards && r.value.members == st.members
              && Valid(st) == Valid(r.value)
  {
    var update := UpdateList(list.id);
    if update in f.calls then Err(StoreError(update))
    else if list.id in st.lists then
      Ok(st.(lists := st.lists[list.id := st.lists[list.id].(title := list.title, position := list.position)]))
    else Ok(st)
  }

  /**
    An update that goes through is read back with the title and position it
    wrote and the board the list already had.
   */
  lemma UpdateThenGet(st: Store, f: Faults, list: List)
    requires list.id in st.lists && UpdateList(list.id) !in f.calls
    ensures var r := Update(st, f, list);
            r.Ok? && GetByID(r.value, list.id) == Ok(List(list.id, list.title, list.position, st.lists[list.id].boardId))
  {
  }

  /**
    `DELETE FROM lists WHERE id = $1`: deleting an absent id is not an error;
    a failed statement is returned as it is, with nothing deleted.
   */
  function Delete(st: Store, f: Faults, listId: int): (r: Result<Store, Error>)
    ensures r.Ok? <==> DeleteList(listId) !in f.calls
    ensures r.Err? ==> r.error == StoreError(DeleteList(listId))
    ensures r.Ok? ==>
              && GetByID(r.value, listId) == Err(NoRows(SelectList(listId)))
              && (forall id :: id != listId ==> (id in r.value.lists <==> id in st.lists))
              && (forall id :: id in r.value.lists ==> r.value.lists[id] == st.lists[id])
              && (listId !in st.lists ==> r.value == st)
              && r.value.boards == st.boards && r.value.cards == st.cards && r.value.members == st.members
              && (Valid(st) ==> Valid(r.value))
  {
    var delete := DeleteList(listId);
    if delete in f.calls then Err(StoreError(delete)) else Ok(st.(lists := st.lists - {listId}))
  }

  /** Deleting a list just created gives back the lists there were before. */
  lemma DeleteUndoesCreate(st: Store, f: Faults, title: string, position: int, boardId: int)
    requires Valid(st)
    requires DeleteList(st.nextListId) !in f.calls
    ensures var (created, list) := Create(st, title, position, boardId);
            var r := Delete(created, f, list.id);
            r.Ok? && r.value.lists == st.lists
  {
  }
}
