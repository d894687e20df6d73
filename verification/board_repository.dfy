/** The `boards` and `board_members` tables: internal/repository/board_repository.go. */
module BoardRepository {
  import opened Wrappers
  import opened Models
  import opened Keys
  import opened Effects
  import opened Ordering

  /** The access rule: the user owns the board, or is recorded as one of its members. */
  predicate MemberOrOwner(st: Store, boardId: int, userId: int) {
    (boardId in st.boards && st.boards[boardId].ownerId == userId) || (boardId, userId) in st.members
  }

  /**
    `INSERT INTO boards (name, owner_id) ... RETURNING id`: the board is stored
    with the name and owner it is given, under the next id of the sequence.
    Nothing else changes; in particular the owner is not yet a member.
   */
  function Create(st: Store, name: string, ownerId: int): (r: (Store, Board))
    ensures r.1 == Board(st.nextBoardId, name, ownerId)
    ensures GetByID(r.0, r.1.id) == Ok(r.1)
    ensures Valid(st) ==> r.1.id !in st.boards && Valid(r.0)
    ensures r.0.boards.Keys == st.boards.Keys + {r.1.id}
    ensures forall id :: id in st.boards && id != r.1.id ==> r.0.boards[id] == st.boards[id]
    ensures r.0.lists == st.lists && r.0.cards == st.cards && r.0.members == st.members
  {
    var id := st.nextBoardId;
    (st.(boards := st.boards[id := BoardRow(name, ownerId)], nextBoardId := id + 1),
     Board(id, name, ownerId))
  }

  /** `SELECT * FROM boards WHERE id = $1`; no row is an error. */
  function GetByID(st: Store, boardId: int): (r: Result<Board, Error>)
    ensures r.Ok? <==> boardId in st.boards
    ensures r.Ok? ==> r.value.id == boardId && r.value.ownerId == st.boards[boardId].ownerId
                      && r.value.name == st.boards[boardId].name
    ensures r.Err? ==> r.error == NoRows(SelectBoard(boardId))
  {
    if boardId in st.boards then Ok(BoardAt(st.boards, boardId)) else Err(NoRows(SelectBoard(boardId)))
  }

  /** The boards among `keys` that `userId` owns or belongs to, in key order. */
  function BoardsFor(st: Store, keys: seq<int>, userId: int): (r: seq<Board>)
    requires forall k :: k in keys ==> k in st.boards
    requires StrictlyIncreasing(keys)
    ensures forall b :: b in r <==> b.id in keys && b == BoardAt(st.boards, b.id) && MemberOrOwner(st, b.id, userId)
    ensures IncreasingBy(r, BoardId)
  {
    if |keys| == 0 then []
    else
      IncreasingKeysTail(keys);
      var rest := BoardsFor(st, keys[1..], userId);
      var here := BoardAt(st.boards, keys[0]);
      ConsIncreasing(here, rest, BoardId);
      if IsMemberOrOwner(st, keys[0], userId) then [here] + rest else rest
  }

  /**
    `SELECT DISTINCT b.* ... WHERE b.owner_id = $1 OR bm.user_id = $1`: every
    board the user owns or is a member of, each exactly once. A failed query
    is returned as an error and no boards.
   */
  function GetAllForUser(st: Store, f: Faults, userId: int): (r: Result<seq<Board>, Error>)
    ensures r.Ok? <==> SelectBoardsForUser(userId) !in f.calls
    ensures r.Err? ==> r.error == StoreError(SelectBoardsForUser(userId))
    ensures r.Ok? ==> forall b :: b in r.value <==> b.id in st.boards && b == BoardAt(st.boards, b.id) && MemberOrOwner(st, b.id, userId)
    ensures r.Ok? ==> Distinct(r.value)
  {
    var select := SelectBoardsForUser(userId);
    if select in f.calls then Err(StoreError(select))
    else
      var r := BoardsFor(st, SortedKeys(st.boards.Keys), userId);
      assert Distinct(r) by {
        forall i, j | 0 <= i < j < |r| ensures r[i] != r[j] {
          assert BoardId(r[i]) < BoardId(r[j]);
        }
      }
      Ok(r)
  }

  /**
    `UPDATE boards SET name WHERE id = $2 AND owner_id = $3`: renames the board
    when it exists and belongs to the user; when no row matched, the error
    "board not found or user is not the owner" and no change.
   */
  function Update(st: Store, boardId: int, userId: int, name: string): (r: Result<Store, Error>)
    ensures r.Ok? <==> boardId in st.boards && st.boards[boardId].ownerId == userId
    ensures r.Err? ==> r.error == NotFoundOrNotOwner
    ensures r.Ok? ==> GetByID(r.value, boardId) == Ok(Board(boardId, name, userId))
    ensures r.Ok? ==> r.value.boards.Keys == st.boards.Keys
                      && (forall id :: id in st.boards && id != boardId ==> r.value.boards[id] == st.boards[id])
                      && r.value.lists == st.lists && r.value.cards == st.cards
                      && r.value.members == st.members && Valid(st) == Valid(r.value)
  {
    if boardId in st.boards && st.boards[boardId].ownerId == userId then
      Ok(st.(boards := st.boards[boardId := st.boards[boardId].(name := name)]))
    else Err(NotFoundOrNotOwner)
  }

  /**
    `DELETE FROM boards WHERE id = $1 AND owner_id = $2`: removes the board when
    it exists and belongs to the user; otherwise the same error as `Update` and
    no change.
   */
  function Delete(st: Store, boardId: int, userId: int): (r: Result<Store, Error>)
    ensures r.Ok? <==> boardId in st.boards && st.boards[boardId].ownerId == userId
    ensures r.Err? ==> r.error == NotFoundOrNotOwner
    ensures r.Ok? ==> GetByID(r.value, boardId) == Err(NoRows(SelectBoard(boardId)))
    ensures r.Ok? ==> r.value.boards.Keys == st.boards.Keys - {boardId}
                      && (forall id :: id in r.value.boards ==> r.value.boards[id] == st.boards[id])
                      && r.value.lists == st.lists && r.value.cards == st.cards
                      && r.value.members == st.members && (Valid(st) ==> Valid(r.value))
  {
    if boardId in st.boards && st.boards[boardId].ownerId == userId then
      Ok(st.(boards := st.boards - {boardId}))
    else Err(NotFoundOrNotOwner)
  }

  /**
    `INSERT INTO board_members ... ON CONFLICT DO NOTHING`: afterwards the pair
    is recorded, and the membership relation gained at most that pair.
   */
  function AddMember(st: Store, boardId: int, userId: int): (r: Store)
    ensures (boardId, userId) in r.members
    ensures forall m :: m in r.members <==> m in st.members || m == (boardId, userId)
    ensures MemberOrOwner(r, boardId, userId)
    ensures r.boards == st.boards && r.lists == st.lists && r.cards == st.cards && Valid(st) == Valid(r)
  {
    st.(members := st.members + {(boardId, userId)})
  }

  /**
    `DELETE FROM board_members WHERE board_id AND user_id`: no row is not an
    error; a failed statement is returned as the error, with nothing deleted.
   */
  function RemoveMember(st: Store, f: Faults, boardId: int, userId: int): (r: Result<Store, Error>)
    ensures r.Ok? <==> DeleteMember(boardId, userId) !in f.calls
    ensures r.Err? ==> r.error == StoreError(DeleteMember(boardId, userId))
    ensures r.Ok? ==>
              && (boardId, userId) !in r.value.members
              && (forall m :: m in r.value.members <==> m in st.members && m != (boardId, userId))
              && (MemberOrOwner(r.value, boardId, userId) <==> boardId in st.boards && st.boards[boardId].ownerId == userId)
              && r.value.boards == st.boards && r.value.lists == st.lists && r.value.cards == st.cards
              && Valid(st) == Valid(r.value)
  {
    var delete := DeleteMember(boardId, userId);
    if delete in f.calls then Err(StoreError(delete)) else Ok(st.(members := st.members - {(boardId, userId)}))
  }

  /**
    `SELECT EXISTS (owner row UNION ALL member row)`: the query collects the
    matching rows of both tables and asks whether there is at least one.
   */
  function IsMemberOrOwner(st: Store, boardId: int, userId: int): (r: bool)
    ensures r <==> MemberOrOwner(st, boardId, userId)
  {
    var ownerRows := multiset(set id | id in st.boards && id == boardId && st.boards[id].ownerId == userId);
    var memberRows := multiset(set m | m in st.members && m == (boardId, userId) :: m.0);
    assert boardId in st.boards && st.boards[boardId].ownerId == userId ==> boardId in ownerRows;
    assert (boardId, userId) in st.members ==> boardId in memberRows;
    |ownerRows + memberRows| > 0
  }

  /** Adding a pair that is already recorded changes nothing (ON CONFLICT DO NOTHING). */
  lemma AddMemberIdempotent(st: Store, boardId: int, userId: int)
    ensures AddMember(AddMember(st, boardId, userId), boardId, userId) == AddMember(st, boardId, userId)
    ensures (boardId, userId) in st.members ==> AddMember(st, boardId, userId) == st
  {
  }

  /** Removing a pair that was just added restores the store it was added to. */
  lemma RemoveUndoesAdd(st: Store, f: Faults, boardId: int, userId: int)
    requires (boardId, userId) !in st.members
    ensures var r := RemoveMember(AddMember(st, boardId, userId), f, boardId, userId);
            r.Ok? ==> r.value == st
  {
    assert AddMember(st, boardId, userId).members - {(boardId, userId)} == st.members;
  }

  /** Removing an absent pair is a no-op, not an error, unless the statement itself fails. */
  lemma RemoveAbsentIsNoOp(st: Store, f: Faults, boardId: int, userId: int)
    requires (boardId, userId) !in st.members
    ensures RemoveMember(st, f, boardId, userId) ==
              if DeleteMember(boardId, userId) in f.calls then Err(StoreError(DeleteMember(boardId, userId))) else Ok(st)
  {
    assert st.members - {(boardId, userId)} == st.members;
  }

  /** Only the owner can rename or delete; for anyone else both fail alike. */
  lemma NonOwnerCannotModify(st: Store, boardId: int, userId: int, name: string)
    requires boardId in st.boards ==> st.boards[boardId].ownerId != userId
    ensures Update(st, boardId, userId, name) == Err(NotFoundOrNotOwner)
    ensures Delete(st, boardId, userId) == Err(NotFoundOrNotOwner)
  {
  }

  /** A successful delete ends the owner's access unless a membership row remains. */
  lemma DeleteRevokesOwnership(st: Store, boardId: int, userId: int)
    requires Delete(st, boardId, userId).Ok?
    ensures IsMemberOrOwner(Delete(st, boardId, userId).value, boardId, userId) <==> (boardId, userId) in st.members
  {
  }
}
