/**
  internal/service/list_service.go: creating a list is a short protocol —
  permission check, position lookup, insert, invalidation, broadcast — that
  stops at the first failure with nothing written.
 */
module ListService {
  import opened Wrappers
  import opened Models
  import opened Effects
  import opened BoardCache
  import opened BoardSnapshot
  import opened BoardService
  import BoardRepository
  import ListRepository

  /** `checkBoardPermissions`: a failed check and a denial are different errors. */
  function CheckBoardPermissions(st: Store, f: Faults, boardId: int, userId: int): (r: Result<(), Error>)
    ensures r.Ok? <==> CheckAccess(boardId, userId) !in f.calls && BoardRepository.MemberOrOwner(st, boardId, userId)
    ensures CheckAccess(boardId, userId) in f.calls ==> r == Err(PermissionCheckFailed(CheckAccess(boardId, userId)))
    ensures CheckAccess(boardId, userId) !in f.calls && !BoardRepository.MemberOrOwner(st, boardId, userId) ==>
              r == Err(BoardAccessDenied)
  {
    var check := CheckAccess(boardId, userId);
    if check in f.calls then Err(PermissionCheckFailed(check))
    else if !BoardRepository.IsMemberOrOwner(st, boardId, userId) then Err(BoardAccessDenied)
    else Ok(())
  }

  /** Within each board no two lists share a position. */
  ghost predicate ListPositionsDistinct(st: Store) {
    forall a, b :: a in st.lists && b in st.lists && a != b && st.lists[a].boardId == st.lists[b].boardId ==>
      st.lists[a].position != st.lists[b].position
  }

  /**
    `Create`: the list is appended after the board's last list and stored
    under the requested board; the board is then invalidated and exactly one
    `LIST_CREATED` event carrying the new list goes to that board. Any failure
    before the insert completes leaves store and cache as they were and
    publishes nothing.
   */
  function Create(st: Store, cache: Cache, f: Faults, title: string, boardId: int, userId: int): (r: Outcome<List>)
    ensures r.result.Ok? <==>
              && CheckBoardPermissions(st, f, boardId, userId).Ok?
              && MaxListPosition(boardId) !in f.calls && InsertList(boardId) !in f.calls
    ensures r.result.Err? ==> r.store == st && r.cache == cache && Quiet(r.trace)
    ensures CheckBoardPermissions(st, f, boardId, userId).Err? ==>
              r.result == Err(CheckBoardPermissions(st, f, boardId, userId).error) && r.trace == [CheckAccess(boardId, userId)]
    ensures CheckBoardPermissions(st, f, boardId, userId).Ok? && MaxListPosition(boardId) in f.calls ==>
              r.result == Err(PositionLookupFailed(MaxListPosition(boardId)))
    ensures r.result.Ok? ==>
              var list := r.result.value;
              && list.title == title && list.boardId == boardId
              && list.position == ListRepository.GetMaxPositionForBoard(st.lists, boardId) + 1
              && ListRepository.GetByID(r.store, list.id) == Ok(list)
              && r.cache == InvalidateBoardCache(cache, f, boardId).0
              && r.trace == [CheckAccess(boardId, userId), MaxListPosition(boardId), InsertList(boardId),
                             CacheDel(CacheKey(boardId)), Publish(boardId, Message(ListCreatedEvent, ListPayload(list)))]
    ensures Valid(st) ==> Valid(r.store)
  {
    match CheckBoardPermissions(st, f, boardId, userId)
    case Err(e) =>
      assert Quiet([CheckAccess(boardId, userId)]);
      Outcome(Err(e), st, cache, [CheckAccess(boardId, userId)])
    case Ok(_) =>
      var check := CheckAccess(boardId, userId);
      var lookup := MaxListPosition(boardId);
      assert Quiet([check, lookup]) && Quiet([check, lookup, InsertList(boardId)]);
      if lookup in f.calls then Outcome(Err(PositionLookupFailed(lookup)), st, cache, [check, lookup])
      else
        var position := ListRepository.GetMaxPositionForBoard(st.lists, boardId) + 1;
        var insert := InsertList(boardId);
        if insert in f.calls then Outcome(Err(StoreError(insert)), st, cache, [check, lookup, insert])
        else
          var (stored, list) := ListRepository.Create(st, title, position, boardId);
          var (invalidated, calls) := InvalidateBoardCache(cache, f, boardId);
          var publish := Publish(boardId, Message(ListCreatedEvent, ListPayload(list)));
          Outcome(Ok(list), stored, invalidated, [check, lookup, insert, calls[0], publish])
  }

  /**
    A created list comes after every list already on its board, and is the
    first position, 1, on a board without lists.
   */
  lemma CreateAppendsAfterLast(st: Store, cache: Cache, f: Faults, title: string, boardId: int, userId: int)
    requires Create(st, cache, f, title, boardId, userId).result.Ok?
    ensures var list := Create(st, cache, f, title, boardId, userId).result.value;
            && (forall id :: id in st.lists && st.lists[id].boardId == boardId ==> st.lists[id].position < list.position)
            && ((forall id :: id in st.lists ==> st.lists[id].boardId != boardId) ==> list.position == 1)
  {
  }

  /** Appending after the maximum keeps list positions distinct within every board. */
  lemma CreateKeepsPositionsDistinct(st: Store, cache: Cache, f: Faults, title: string, boardId: int, userId: int)
    requires Valid(st) && ListPositionsDistinct(st)
    ensures ListPositionsDistinct(Create(st, cache, f, title, boardId, userId).store)
  {
    var r := Create(st, cache, f, title, boardId, userId);
    if r.result.Ok? {
      var list := r.result.value;
      CreateAppendsAfterLast(st, cache, f, title, boardId, userId);
      forall a, b | a in r.store.lists && b in r.store.lists && a != b && r.store.lists[a].boardId == r.store.lists[b].boardId
        ensures r.store.lists[a].position != r.store.lists[b].position
      {
        if a == list.id {
          assert st.lists[b].position < list.position;
        } else if b == list.id {
          assert st.lists[a].position < list.position;
        }
      }
    }
  }

  /** A creation whose invalidation goes through leaves a fresh cache fresh. */
  lemma CreateKeepsFresh(st: Store, cache: Cache, f: Faults, title: string, boardId: int, userId: int)
    requires Valid(st) && CacheFresh(st, cache)
    requires CacheDel(CacheKey(boardId)) !in f.calls
    ensures CacheFresh(Create(st, cache, f, title, boardId, userId).store, Create(st, cache, f, title, boardId, userId).cache)
  {
    var r := Create(st, cache, f, title, boardId, userId);
    if r.result.Ok? {
      var id := r.result.value.id;
      assert r.store.lists == st.lists[id := st.lists[id := ListRow(title, r.result.value.position, boardId)][id]];
      forall b | b != boardId
        ensures SameBoardData(st, r.store, b)
      {
        NewListFrame(st, r.store, id, r.store.lists[id], b);
      }
      FreshAfterInvalidation(st, r.store, cache, r.cache, {boardId});
    }
  }

  /** A list added under a new id on another board does not touch board `boardId`. */
  lemma NewListFrame(s: Store, t: Store, id: int, row: ListRow, boardId: int)
    requires id !in s.lists && row.boardId != boardId
    requires t.boards == s.boards && t.cards == s.cards && t.lists == s.lists[id := row]
    ensures SameBoardData(s, t, boardId)
  {
  }
}
