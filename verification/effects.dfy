/**
  What a service call does besides computing its answer: the external calls it
  makes, in order, and the ways they can fail.
 */
module Effects {
  import opened Models

  /**
    Every call the core makes to the relational store, the cache, the websocket
    upgrade or the hub. A call that appears in `Faults.calls` fails.
   */
  datatype Call =
    | CheckAccess(boardId: int, userId: int)
    | SelectBoard(boardId: int)
    | SelectLists(boardId: int)
    | SelectCards(listIds: seq<int>)
    | SelectList(listId: int)
    | SelectCard(cardId: int)
    | SelectUserByEmail(email: string)
    | MaxListPosition(boardId: int)
    | InsertBoard(ownerId: int)
    | InsertMember(boardId: int, userId: int)
    | InsertList(boardId: int)
    | InsertCard(listId: int)
    | UpdateBoard(boardId: int, userId: int)
    | DeleteBoard(boardId: int, userId: int)
    | SelectBoardsForUser(userId: int)
    | DeleteMember(boardId: int, userId: int)
    | MaxCardPosition(listId: int)
    | UpdateList(listId: int)
    | DeleteList(listId: int)
    | RunMove(cardId: int, newListId: int, newPosition: int)
    | CacheGet(key: string)
    | CacheSet(key: string)
    | CacheDel(key: string)
    | EncodeSnapshot(boardId: int)
    | UpgradeConnection(boardId: int)
    | Publish(boardId: int, message: Message)

  /** The statements of the card-move transaction, in execution order. */
  datatype TxStep = Begin | LockCard | ShiftOld | ShiftNew | PlaceCard | Commit

  /** Which calls fail in one run; `tx` names the failing statements of a move. */
  datatype Faults = Faults(calls: set<Call>, tx: set<TxStep>)

  /** The error values the core returns, one per distinct message in the source. */
  datatype Error =
    | StoreError(call: Call)
    | NoRows(call: Call)
    | TxFailed(step: TxStep)
    | CardNotFound(cardId: int)
    | NotFoundOrNotOwner
    | AccessDenied
    | BoardAccessDenied
    | PermissionCheckFailed(call: Call)
    | BoardNotFound
    | NotBoardOwner
    | UserNotFound(email: string)
    | ListNotFound(listId: int)
    | PositionLookupFailed(call: Call)
    | ListsFetchFailed(call: Call)
    | CardsFetchFailed(call: Call)

  /** A run that neither invalidated a cache entry nor published an event. */
  predicate Quiet(trace: seq<Call>) {
    forall i :: 0 <= i < |trace| ==> !trace[i].CacheDel? && !trace[i].Publish?
  }
}
