# Board, list and card core of a Trello-style board service

This project is a Dafny model of the core of a Go service for kanban boards. The service has three kinds of records:

- **boards**, each owned by a user and shared with members;
- **lists** on a board;
- **cards** on a list.

Lists and cards are ordered by position. A board is read as one nested snapshot: the board, its lists in position order, and each list's cards in position order. The read path keeps that snapshot in Redis under `board:<id>` for ten minutes. Every write invalidates the snapshots it affects. Clients watching a board hold a websocket connection. A hub fans events out to every subscriber of that board through a send queue of capacity 256.

The model follows the program's structure:

| module | file | models |
|---|---|---|
| `Models`, `Keys` | models.dfy | the rows of `boards`, `board_members`, `lists`, `cards` and the email-to-id part of `users`, the values queries return, the websocket envelope |
| `Effects` | effects.dfy | every external call (SQL, cache, upgrade, publish) and which of them fail in a run |
| `Ordering`, `Text` | ordering.dfy, text.dfy | primary-key scans, `ORDER BY position ASC`, `COALESCE(MAX(..), 0)`, `%d` formatting and its inverse `strconv.Atoi`, `strings.Split` |
| `BoardRepository`, `ListRepository`, `CardRepository` | board_repository.dfy, list_repository.dfy, card_repository.dfy | the three repositories, including the card-move transaction |
| `MoveProperties` | move_properties.dfy | the move read as an edit of a list's display order |
| `BoardCache`, `BoardSnapshot` | board_cache.dfy, board_snapshot.dfy | the cache, the snapshot, and cache freshness |
| `BoardService`, `ListService`, `CardService` | board_service.dfy, list_service.dfy, card_service.dfy | the service protocols: check, write, invalidate, broadcast |
| `Hub`, `Connection` | hub.dfy, connection.dfy | the hub loop as a state machine, websocket admission, and the two pumps |
| `Middleware` | middleware.dfy | where the bearer token is taken from |

Each service call is a pure function. It takes the store, the cache and a `Faults` value naming the calls that fail in this run. It returns an `Outcome`: the result or error, the new store, the new cache, and the trace of external calls in order. The trace records invalidations (`CacheDel`) and broadcasts (`Publish`), so the protocol order is part of each contract.

A failing database statement is modelled in the layer that first calls it. For a repository function that a service calls, the service checks the fault (`UpdateBoard`, `InsertList`, `RunMove`, …), and the repository function states the query's own semantics; "succeeds exactly when the board exists and the user owns it" describes the query, not a failing connection. A repository function that no modelled service calls takes the `Faults` itself and returns the error. These are `ListRepository.Update` and `Delete`, `BoardRepository.RemoveMember` and `GetAllForUser`, and `CardRepository.GetMaxPositionForList`.

The central invariant is `CacheFresh`: every snapshot held in the cache equals the snapshot the database would assemble now. The `…KeepsFresh` lemmas show that each write keeps a fresh cache fresh once its invalidations go through. `CacheIsTransparent` shows that a fresh cache answers reads exactly as the database alone would.

## Model

| member | source | states |
|---|---|---|
| BoardCache.CacheKey | internal/service/board_service.go:51-53 | the cache key of a board is `board:` followed by its id in decimal |
| BoardCache.CacheKeyInjective | internal/service/board_service.go:52 | two boards share a cache key only if they are the same board, so invalidating one board never drops another board's snapshot |
| Text.JoinSplit | internal/handlers/middleware.go:21 | splitting on a one-character separator loses nothing: joining the pieces with the separator restores the string |
| Text.Atoi | internal/ws/handler.go:44 | `strconv.Atoi` rejects the empty string, a first character that is neither a digit nor a sign, and any later character that is not a digit; a negative value needs a leading minus |
| Text.AtoiDecimal | internal/ws/handler.go:44 | `Atoi` reads back every integer as `%d` prints it, negative ones included |
| Ordering.SortBy | internal/repository/list_repository.go:53 | `ORDER BY position ASC`: the result is sorted by the key, is a permutation of the input, and keeps distinct rows distinct |
| Ordering.MaxOr0 | internal/repository/list_repository.go:30 | `COALESCE(MAX(position), 0)`: 0 when there are no rows; otherwise a bound on every row that some row attains |
| ListRepository.GetMaxPositionForBoard | internal/repository/list_repository.go:28-33 | 0 for a board without lists; otherwise the largest position among the board's lists, which one of them holds |
| ListRepository.Create | internal/repository/list_repository.go:35-40 | stores the given title, position and board under a fresh id that reads back by `GetByID`; no other row changes |
| ListRepository.GetByID | internal/repository/list_repository.go:42-49 | succeeds exactly when the row exists, with its id, title, position and board; otherwise a no-rows error |
| ListRepository.GetAllByBoardID | internal/repository/list_repository.go:51-58 | exactly the lists whose board is the given one, each once, in ascending position |
| ListRepository.Update | internal/repository/list_repository.go:60-64 | a failed statement is returned as the error with nothing written; otherwise only that row changes, an absent id changes nothing, and there is no existence or ownership check |
| ListRepository.UpdateThenGet | internal/repository/list_repository.go:60-64 | an update that goes through reads back with the new title and position and the list's old board |
| ListRepository.Delete | internal/repository/list_repository.go:66-70 | a failed statement is returned as the error; otherwise the row is gone and no other row changes, and deleting an absent id is a no-op, not an error |
| ListRepository.DeleteUndoesCreate | internal/repository/list_repository.go:66-70 | deleting a list just created restores the lists there were before |
| CardRepository.GetByID | internal/repository/card_repository.go:28-35 | succeeds exactly when the card exists, returning its row; otherwise a no-rows error |
| CardRepository.Move | internal/repository/card_repository.go:37-72 | commits exactly when the card exists and no statement fails, and then yields `Moved`; a missing card is "not found"; every failure leaves the caller's cards as they were (rollback) |
| CardRepository.Moved | internal/repository/card_repository.go:56-69 | the card lands exactly at the new list and position; in the old list, cards above the old position drop by one; in the new list, cards at or above the new position rise by one; within one list, `[new, old)` rises or `(old, new]` drops; cards of other lists are untouched |
| CardRepository.GetMaxPositionForList | internal/repository/card_repository.go:74-79 | a failed query is returned as the error; otherwise 0 for a list without cards, and else the largest position among its cards, which one of them holds |
| CardRepository.Create | internal/repository/card_repository.go:81-86 | stores title, description, position and list id as given, under a fresh id that reads back by `GetByID` |
| CardRepository.GetAllByListIDs | internal/repository/card_repository.go:88-110 | empty map for no ids; otherwise each requested list that has cards maps to exactly its cards, sorted by position and without repeats; lists without cards are absent |
| MoveProperties.MovePreservesDistinctPositions | internal/repository/card_repository.go:56-69 | with integer positions, positions that are distinct within every list stay distinct after any move |
| MoveProperties.MoveToOwnPositionIsNoOp | internal/repository/card_repository.go:56-69 | moving a card to its own list and position changes no card, when no other card of that list shares its position |
| MoveProperties.SameListMoveReorders | internal/repository/card_repository.go:56-69 | on positions 1..n, a same-list move takes the card out of the display order and reinserts it at the target index; the others keep their relative order |
| MoveProperties.CrossListMoveTransfers | internal/repository/card_repository.go:56-69 | on positions 1..n, a cross-list move removes the card from the old list's order (closing the gap) and inserts it into the new list's order at the target index |
| BoardRepository.Create | internal/repository/board_repository.go:31-39 | stores the board with its name and owner under a fresh id; memberships, lists and cards are unchanged |
| BoardRepository.GetByID | internal/repository/board_repository.go:41-48 | succeeds exactly when the board exists, with its id, name and owner; otherwise a no-rows error |
| BoardRepository.GetAllForUser | internal/repository/board_repository.go:50-61 | a failed query is returned as the error; otherwise exactly the boards the user owns or is a member of, each once |
| BoardRepository.Update | internal/repository/board_repository.go:63-78 | succeeds exactly when the board exists and the user owns it, renaming only that board; otherwise "not found or not the owner" and no change |
| BoardRepository.Delete | internal/repository/board_repository.go:80-94 | succeeds exactly when the board exists and the user owns it, removing only that board; otherwise the same error and no change |
| BoardRepository.AddMember | internal/repository/board_repository.go:96-101 | afterwards the pair is a membership, and no other pair was added |
| BoardRepository.RemoveMember | internal/repository/board_repository.go:103-107 | a failed statement is returned as the error; otherwise the pair is not a membership afterwards, and no other pair was removed |
| BoardRepository.IsMemberOrOwner | internal/repository/board_repository.go:109-121 | true exactly when the user owns the board or the pair is a membership |
| BoardRepository.AddMemberIdempotent | internal/repository/board_repository.go:96-101 | adding a pair twice equals adding it once, and adding a recorded pair changes nothing |
| BoardRepository.RemoveUndoesAdd | internal/repository/board_repository.go:96-107 | a removal that goes through, of a pair that was just added, restores the store |
| BoardRepository.RemoveAbsentIsNoOp | internal/repository/board_repository.go:103-107 | removing an absent pair changes nothing and is not an error; only a failed statement is |
| BoardRepository.NonOwnerCannotModify | internal/repository/board_repository.go:63-94 | for anyone but the owner, or a missing board, both update and delete fail with "not found or not the owner" |
| BoardRepository.DeleteRevokesOwnership | internal/repository/board_repository.go:80-94 | after a successful delete the former owner has access exactly when a membership row remains |
| BoardSnapshot.AttachCards | internal/service/board_service.go:109-115 | each list keeps its place and takes its grouped cards, or an empty sequence when the grouping has no entry for it |
| BoardSnapshot.AttachedCardsExact | internal/service/board_service.go:101-115 | after attaching, each list holds exactly its own cards, sorted by position and without repeats |
| BoardSnapshot.Assemble | internal/service/board_service.go:93-116 | the snapshot is the board row, its lists in ascending position, and on each list exactly that list's cards in ascending position |
| BoardSnapshot.AssembleFrame | internal/service/board_service.go:93-116 | two stores that agree on a board's row, lists and cards assemble the same snapshot for it |
| BoardSnapshot.FreshAfterInvalidation | internal/service/board_service.go:51-58 | when a write changes only boards whose snapshots are gone from the cache, a fresh cache stays fresh |
| BoardService.InvalidateBoardCache | internal/service/board_service.go:51-58 | removes exactly the key `board:<id>` when the delete goes through; a failed delete leaves the cache as it was and is not reported |
| BoardService.Hit | internal/service/board_service.go:73-83 | a decodable hit returns the cached snapshot unchanged when the decoded board's owner or member asks; otherwise, or when the check fails, "access denied"; nothing is written |
| BoardService.Miss | internal/service/board_service.go:85-121 | a check error is returned and a denial is "access denied", both after one call with the cache unwritten; success requires every read and yields the assembled snapshot; it is written back with a 600-second expiry unless encoding or the write fails, which does not fail the read |
| BoardService.GetByID | internal/service/board_service.go:71-122 | a decodable hit goes to `Hit`; a failed cache read or an undecodable value takes the miss path; any answer is a board the user may see |
| BoardService.CacheIsTransparent | internal/service/board_service.go:71-122 | with a fresh cache and no failing reads, the answer equals the answer from the database alone with an empty cache |
| BoardService.MissAnswersFromDatabase | internal/service/board_service.go:85-121 | what a miss answers depends neither on the cache contents nor on a failed encoding or write-back |
| BoardService.GetByIDKeepsFresh | internal/service/board_service.go:117-120 | the read only ever writes the current snapshot, so a fresh cache stays fresh |
| BoardService.MissThenHit | internal/service/board_service.go:71-122 | after a successful miss that wrote its snapshot, the next read is a hit with the same answer, one check and no database read |
| BoardService.Create | internal/service/board_service.go:60-69 | the board is stored with the caller as owner; the owner is then added as a member; a failure of that add is not returned; the cache is untouched |
| BoardService.GetAllForUser | internal/service/board_service.go:124-126 | the repository's error is passed on; otherwise exactly the boards the user owns or is a member of |
| BoardService.Update | internal/service/board_service.go:128-134 | the board is invalidated only after the rename succeeds; a failed rename leaves store and cache as they were |
| BoardService.Delete | internal/service/board_service.go:136-139 | the board is invalidated first, whether or not the owner-guarded delete then succeeds |
| BoardService.AddMember | internal/service/board_service.go:141-163 | a missing board or an inviter who is not the owner is rejected before the invitee lookup; an unknown email or failed insert changes nothing; success records the membership and invalidates the board |
| BoardService.CreateKeepsFresh | internal/service/board_service.go:60-69 | creating a board keeps a fresh cache fresh |
| BoardService.UpdateKeepsFresh | internal/service/board_service.go:128-134 | a rename whose invalidation goes through keeps a fresh cache fresh |
| BoardService.DeleteKeepsFresh | internal/service/board_service.go:136-139 | a delete whose invalidation goes through keeps a fresh cache fresh, whether or not the delete succeeds |
| BoardService.AddMemberKeepsFresh | internal/service/board_service.go:141-163 | memberships are not part of the snapshot, so adding a member keeps a fresh cache fresh even when the invalidation fails |
| ListService.CheckBoardPermissions | internal/service/list_service.go:36-45 | passes exactly when the check succeeds and the user owns or belongs to the board; a failed check and a denial are different errors |
| ListService.Create | internal/service/list_service.go:47-67 | the protocol is check, position lookup, insert, invalidation, broadcast; a failure at any step before the insert completes changes nothing and publishes nothing; success stores the list on the requested board and publishes one `LIST_CREATED` carrying it, to that board |
| ListService.CreateAppendsAfterLast | internal/service/list_service.go:51-56 | the new list's position is above every list already on the board, and is 1 on a board without lists |
| ListService.CreateKeepsPositionsDistinct | internal/service/list_service.go:51-57 | creating a list keeps list positions distinct within every board |
| ListService.CreateKeepsFresh | internal/service/list_service.go:57-61 | a creation whose invalidation goes through keeps a fresh cache fresh |
| CardService.CreateAsWritten | internal/service/card_service.go:38-54 | the path's list must exist; the card is stored with the list id and position of the request body; the path list's board is invalidated and gets one `CARD_CREATED`; no permission check |
| CardService.CreateAsWrittenLeavesStaleSnapshot | internal/service/card_service.go:44-48 | when the body names a list on another board, and that board has a cached snapshot, the cache is no longer fresh afterwards |
| CardService.CreateAsWrittenCounterexample | internal/service/card_service.go:44-48 | on boards 1 and 2 with list 3 on board 1, list 7 on board 2 and board 2's snapshot cached, a card posted to list 3 naming list 7 lands on list 7, the `CARD_CREATED` goes to board 1, and the fresh cache becomes stale |
| CardService.CreateCard | internal/service/card_service.go:38-54 | corrected creation: the card is stored on the path's list, so the board invalidated and notified is the card's own board |
| CardService.CreateCardKeepsFresh | internal/service/card_service.go:38-54 | the corrected creation keeps a fresh cache fresh when its invalidation goes through |
| CardService.MoveCard | internal/service/card_service.go:56-71 | the three lookups, then the move with its arguments forwarded unchanged; a failed move is returned with nothing invalidated; success invalidates the old list's board, and the new list's board only when it differs |
| CardService.InvalidateMoveBoards | internal/service/card_service.go:65-68 | one invalidation when both lists share a board, two otherwise; only those keys leave the cache |
| CardService.MoveNeverChecksOrPublishes | internal/service/card_service.go:56-71 | a move makes no access check and broadcasts nothing |
| CardService.MoveCardKeepsFresh | internal/service/card_service.go:56-71 | a move whose invalidations go through keeps a fresh cache fresh |
| Hub.RegisterClient | internal/ws/hub.go:44-50 | the board's subscriber set, created if absent, gains the client; other boards and all queues are unchanged |
| Hub.RegisterIdempotent | internal/ws/hub.go:44-50 | registering twice equals registering once |
| Hub.UnregisterClient | internal/ws/hub.go:53-65 | a present client is removed and its queue closed, and the board entry goes when it empties; an absent client or board changes nothing |
| Hub.BroadcastMessage | internal/ws/hub.go:67-80 | no entry: no change; each subscriber with room gets the message at the tail of its queue; a full one has its queue closed and is removed; the entry is kept; other boards and clients are untouched |
| Hub.PublishReachesSubscribers | internal/ws/hub.go:67-89 | the loop's turn on what `BroadcastToBoard` sends is the broadcast of that message to that board: every subscriber with room stays subscribed and gets it at the tail of its queue, and no client of another board receives it |
| Hub.ReceiveOne | internal/ws/handler.go:78-84 | a write loop's receive takes the oldest buffered message, also from a closed queue, and changes nothing else; an empty queue blocks, so nothing changes |
| Hub.StepKeepsInv | internal/ws/hub.go:41-82 | every turn of the loop, and every receive by a write loop, keeps registered queues open and within capacity 256, with each client under one board |
| Hub.ReceiveMakesRoom | internal/ws/hub.go:70-76 | a subscriber is dropped only when it is a full queue behind: after its write loop takes one message, the next broadcast to its board reaches it and it stays subscribed |
| Hub.ClosedQueueUntouched | internal/ws/hub.go:53-80 | a closed queue is never sent on or closed again: hub turns leave it unchanged, and a receive only takes buffered messages from its front |
| Hub.DroppedThenUnregisterIsNoOp | internal/ws/hub.go:53-80 | after a broadcast drops a client with a full queue, its later unregister changes nothing |
| Hub.BroadcastsArriveInOrder | internal/ws/hub.go:67-80 | two broadcasts reach a subscriber with room in the order they were made |
| Connection.PathBoardIdReadsDecimal | internal/ws/handler.go:44-46 | the path segment of board `n` selects board `n`, for every integer `n` |
| Connection.NonNumericPathSelectsBoardZero | internal/ws/handler.go:44-46 | the conversion error is discarded: an empty segment, a lone sign or a segment with a non-digit selects board 0 |
| Connection.AddClient | internal/ws/handler.go:60-66 | a new client with an empty open queue joins exactly the requested board |
| Connection.ServeWs | internal/ws/handler.go:39-72 | the board id is read from the path text; admitted exactly when the board read succeeds and the upgrade does not fail; a failed read answers 403; nothing is registered unless admitted |
| Connection.AdmittedOnlyMembers | internal/ws/handler.go:48-52 | with a fresh cache, only an owner or member of the board is admitted |
| Connection.WritePump | internal/ws/handler.go:74-86 | every queued message is written as a text frame in queue order; a closed queue then gets a close frame and the connection is closed |
| Connection.ReadPump | internal/ws/handler.go:88-98 | reading stops at the first failed read, after which an unregister for the same client and board is sent and the connection is closed; while reads succeed nothing is sent and nothing closed |
| Connection.DisconnectClosesQueue | internal/ws/handler.go:88-98 | the unregister sent on disconnect removes the client from its board and closes its queue, keeping what was queued |
| Middleware.ExtractToken | internal/handlers/middleware.go:17-33 | a non-empty header decides alone and never gives "token not provided"; an empty header takes the `auth` query parameter, and an empty one gives "token not provided" |
| Middleware.BearerHeaderExact | internal/handlers/middleware.go:20-26 | a non-empty header yields token t exactly when it is `Bearer`, one space, then t without spaces |
| Middleware.HeaderTakesPrecedence | internal/handlers/middleware.go:20-28 | with a non-empty header the query parameter plays no part |
| Middleware.TrailingSpaceGivesEmptyToken | internal/handlers/middleware.go:21-26 | `Bearer ` passes the format check with the empty token |
| Middleware.DoubleSpaceRejected | internal/handlers/middleware.go:21-25 | `Bearer  abc` is rejected as an invalid header format |
| Middleware.SchemeIsCaseSensitive | internal/handlers/middleware.go:22 | a lower-case `bearer` scheme is rejected |

## Left out

- SQL, Redis, JSON and gin are not modelled. Tables and the cache are maps. A cached value either decodes to a snapshot or is `Undecodable`. Encoding failure is a fault named `EncodeSnapshot`.
- Cache expiry is not modelled. The ten-minute TTL is stored on each entry (`SnapshotTtlSeconds`) and never counts down.
- Goroutines, channels and the hub's mutex are not modelled. The hub is one sequential step per request. A client's `send` channel is a queue of messages plus a closed flag. The pumps are sequential loops over a given queue or a given sequence of read outcomes. Inside the hub's state machine, each receive by a write loop is one more turn (`Receive`), interleaved with the hub's turns in any order, so a queue drains as its client reads it.
- Timestamps (`created_at`, `updated_at`) are not modelled.
- `GetAllForUser` returns boards in primary-key order rather than `ORDER BY updated_at DESC`, because timestamps are left out.
- Service calls are modelled as atomic: each runs alone against one store. The cache-aside race is not modelled. In that race, a miss assembles a snapshot (internal/service/board_service.go:93-115), a concurrent write commits and invalidates, and then the miss's `Set` (line 119) caches the old snapshot for ten minutes. `CacheFresh` and the `…KeepsFresh` lemmas hold only for calls that do not interleave.
- Rows with equal positions: `ORDER BY position` ties are broken by primary-key order. SQL leaves that order unspecified.
- Positions are `int`, not `float64`. Every position the code computes is a maximum plus one or a shift by one. Requests that supply a position are assumed to supply an integer.
- JWT parsing and the signing check (internal/handlers/middleware.go:35-59) are not modelled; the model stops at the extracted token.
- HTTP handlers, user registration and login, bcrypt, metrics and logging are not modelled. Log lines are not part of any trace.
- `ServeWs` takes the user id as a parameter. The source's empty branch for a missing user id would panic on the type assertion.
- The path board id follows `strconv.Atoi` (`Text.Atoi`): a syntax error gives 0. Range errors, which saturate in Go, are not modelled; an integer of any size is read exactly.
- Message encoding (`json.Marshal` of the event envelope) is left out. The published `Message` carries the event name and the record itself.
- Foreign keys and cascading deletes are not modelled. Deleting a board or list leaves rows that refer to it. Such rows are simply not reached by any read of an existing board.
- CardService.MoveCard: requires that the card and both lists exist and that their lookups succeed. The source discards those errors, with three different results:
  - A missing card, or a failed card lookup, dereferences nil at internal/service/card_service.go:58, before anything is written.
  - A missing old list, or a failed old-list lookup, lets the move commit at line 61. The call then panics on `oldList.BoardID` at line 65. The move stays committed and no cache entry is invalidated, so both boards' snapshots can be stale.
  - A missing new list, or a failed new-list lookup, also lets the move commit, and nothing checks that the list exists. The card then sits on a list id with no row. The old board is invalidated at line 65 before `newList.BoardID` panics at line 66.
  - The model covers only the path where all three lookups succeed.
- The unit test's expectation that `Move` checks access and broadcasts is not modelled. The code does neither, and `MoveNeverChecksOrPublishes` states that.
- Hub.UnregisterClient and Hub.BroadcastMessage: require the hub invariant (registered clients have open queues). The source would panic on closing a closed channel. The invariant is shown to hold on every step for clients registered as `ServeWs` registers them.
- Hub.Step: requires a registered client to come with an open queue and not to be registered under another board. `ServeWs` always registers a fresh client once.

## Findings

| source | as written | input that shows it | evidently intended | confidence | as-written member | corrected member |
|---|---|---|---|---|---|---|
| internal/service/card_service.go:38-54 | the card is inserted with the `ListID` of the request body, while the board invalidated and notified is the one of the path's list | POST to `/lists/3/cards` with body `{"list_id": 7, ...}`, where lists 3 and 7 are on different boards and the board of list 7 has a cached snapshot: the card lands on list 7 and that board's stale snapshot stays cached | the card is stored on the path's list, so the invalidated board is the card's board | not executed | CardService.CreateAsWritten, CardService.CreateAsWrittenLeavesStaleSnapshot, CardService.CreateAsWrittenCounterexample | CardService.CreateCard, CardService.CreateCardKeepsFresh |
