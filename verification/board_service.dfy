/**
  internal/service/board_service.go: the cache-aside board read, the cache
  invalidator shared by all services, and the board mutations that call it.
  Each operation takes the store, the cache and the faults of the run, and
  returns its answer together with the new store, the new cache and the
  external calls it made, in order.
 */
module BoardService {
  import opened Wrappers
  import opened Models
  import opened Effects
  import opened BoardCache
  import opened BoardSnapshot
  import BoardRepository
  import ListRepository
  import CardRepository

  datatype Outcome<T> = Outcome(result: Result<T, Error>, store: Store, cache: Cache, trace: seq<Call>)

  /**
    `InvalidateBoardCache`: deletes the board's key. A failed delete is only
    logged, so the caller never learns of it and the entry stays.
   */
  function InvalidateBoardCache(cache: Cache, f: Faults, boardId: int): (r: (Cache, seq<Call>))
    ensures r.1 == [CacheDel(CacheKey(boardId))]
    ensures CacheDel(CacheKey(boardId)) !in f.calls ==> CacheKey(boardId) !in r.0
    ensures CacheDel(CacheKey(boardId)) in f.calls ==> r.0 == cache
    ensures forall k :: k in r.0 ==> k in cache && r.0[k] == cache[k]
    ensures forall k :: k != CacheKey(boardId) && k in cache ==> k in r.0
  {
    var key := CacheKey(boardId);
    (if CacheDel(key) in f.calls then cache else cache - {key}, [CacheDel(key)])
  }

  /** The calls that must not fail for a miss to succeed. */
  predicate ReadsSucceed(st: Store, f: Faults, boardId: int, userId: int) {
    var ids := ListIds(ListRepository.GetAllByBoardID(st.lists, boardId));
    && CheckAccess(boardId, userId) !in f.calls
    && SelectBoard(boardId) !in f.calls
    && SelectLists(boardId) !in f.calls
    && (|ids| > 0 ==> SelectCards(ids) !in f.calls)
  }

  /**
    The miss path of `GetByID`: the access check, then the board, its lists and
    their cards, then the write-back. The write-back is skipped when encoding
    fails; a failed cache write is ignored.
   */
  function Miss(st: Store, cache: Cache, f: Faults, boardId: int, userId: int): (r: Outcome<BoardView>)
    ensures r.store == st
    ensures CheckAccess(boardId, userId) in f.calls ==>
              r.result == Err(StoreError(CheckAccess(boardId, userId))) && r.trace == [CheckAccess(boardId, userId)]
    ensures CheckAccess(boardId, userId) !in f.calls && !BoardRepository.MemberOrOwner(st, boardId, userId) ==>
              r.result == Err(AccessDenied) && r.trace == [CheckAccess(boardId, userId)]
    ensures r.result.Ok? <==>
              ReadsSucceed(st, f, boardId, userId) && BoardRepository.MemberOrOwner(st, boardId, userId)
              && boardId in st.boards
    ensures r.result.Ok? ==> boardId in st.boards && r.result.value == Assemble(st, boardId)
    ensures r.result.Err? ==> r.cache == cache
    ensures r.result.Ok? && EncodeSnapshot(boardId) !in f.calls && CacheSet(CacheKey(boardId)) !in f.calls ==>
              r.cache == cache[CacheKey(boardId) := Entry(Snapshot(r.result.value), SnapshotTtlSeconds)]
    ensures EncodeSnapshot(boardId) in f.calls || CacheSet(CacheKey(boardId)) in f.calls ==> r.cache == cache
  {
    var key := CacheKey(boardId);
    var check := CheckAccess(boardId, userId);
    if check in f.calls then Outcome(Err(StoreError(check)), st, cache, [check])
    else if !BoardRepository.IsMemberOrOwner(st, boardId, userId) then Outcome(Err(AccessDenied), st, cache, [check])
    else
      var sel := SelectBoard(boardId);
      if sel in f.calls then Outcome(Err(StoreError(sel)), st, cache, [check, sel])
      else match BoardRepository.GetByID(st, boardId)
        case Err(e) => Outcome(Err(e), st, cache, [check, sel])
        case Ok(board) =>
          var selLists := SelectLists(boardId);
          if selLists in f.calls then Outcome(Err(ListsFetchFailed(selLists)), st, cache, [check, sel, selLists])
          else
            var lists := ListRepository.GetAllByBoardID(st.lists, boardId);
            var ids := ListIds(lists);
            if |ids| > 0 && SelectCards(ids) in f.calls then
              Outcome(Err(CardsFetchFailed(SelectCards(ids))), st, cache, [check, sel, selLists, SelectCards(ids)])
            else
              var view := BoardView(board, AttachCards(lists, CardRepository.GetAllByListIDs(st.cards, ids)));
              assert view == Assemble(st, boardId);
              var queries := [check, sel, selLists] + (if |ids| > 0 then [SelectCards(ids)] else []);
              var encode := EncodeSnapshot(boardId);
              if encode in f.calls then Outcome(Ok(view), st, cache, queries + [encode])
              else
                var write := CacheSet(key);
                var written := if write in f.calls then cache else cache[key := Entry(Snapshot(view), SnapshotTtlSeconds)];
                Outcome(Ok(view), st, written, queries + [encode, write])
  }

  /** A cache read that returns a value that decodes to a board. */
  predicate DecodableHit(cache: Cache, f: Faults, boardId: int) {
    var key := CacheKey(boardId);
    CacheGet(key) !in f.calls && key in cache && cache[key].payload.Snapshot?
  }

  /**
    `GetByID`: on a decodable hit, the cached snapshot is returned when the user
    may see the board named inside it, otherwise "access denied"; an error of
    that check counts as a denial. A failed read, a missing key or an
    undecodable value all take the miss path.
   */
  function GetByID(st: Store, cache: Cache, f: Faults, boardId: int, userId: int): (r: Outcome<BoardView>)
    ensures r.store == st
    ensures r.result.Ok? ==> BoardRepository.MemberOrOwner(st, r.result.value.board.id, userId)
    ensures |r.trace| >= 2 && r.trace[0] == CacheGet(CacheKey(boardId))
    ensures DecodableHit(cache, f, boardId) ==> r == Hit(st, cache, f, boardId, userId)
    ensures !DecodableHit(cache, f, boardId) ==>
              var m := Miss(st, cache, f, boardId, userId);
              r.result == m.result && r.cache == m.cache && r.trace == [CacheGet(CacheKey(boardId))] + m.trace
  {
    if DecodableHit(cache, f, boardId) then Hit(st, cache, f, boardId, userId)
    else
      var m := Miss(st, cache, f, boardId, userId);
      MissNamesItsBoard(st, cache, f, boardId, userId);
      Outcome(m.result, st, m.cache, [CacheGet(CacheKey(boardId))] + m.trace)
  }

  /** A successful miss answers the board that was asked for. */
  lemma MissNamesItsBoard(st: Store, cache: Cache, f: Faults, boardId: int, userId: int)
    ensures |Miss(st, cache, f, boardId, userId).trace| >= 1
    ensures var m := Miss(st, cache, f, boardId, userId);
            m.result.Ok? ==> m.result.value.board.id == boardId && BoardRepository.MemberOrOwner(st, boardId, userId)
  {
  }

  /**
    The hit path of `GetByID`: the cached snapshot is returned when the user
    may see the board named inside it; otherwise, or when that check fails,
    the answer is "access denied". Nothing is written.
   */
  function Hit(st: Store, cache: Cache, f: Faults, boardId: int, userId: int): (r: Outcome<BoardView>)
    requires DecodableHit(cache, f, boardId)
    ensures var v := cache[CacheKey(boardId)].payload.view;
            && r.store == st && r.cache == cache
            && r.trace == [CacheGet(CacheKey(boardId)), CheckAccess(v.board.id, userId)]
            && (r.result.Ok? <==> CheckAccess(v.board.id, userId) !in f.calls
                                  && BoardRepository.MemberOrOwner(st, v.board.id, userId))
            && (r.result.Ok? ==> r.result.value == v)
            && (r.result.Err? ==> r.result.error == AccessDenied)
  {
    var key := CacheKey(boardId);
    var v := cache[key].payload.view;
    var check := CheckAccess(v.board.id, userId);
    var granted := check !in f.calls && BoardRepository.IsMemberOrOwner(st, v.board.id, userId);
    Outcome(if granted then Ok(v) else Err(AccessDenied), st, cache, [CacheGet(key), check])
  }

  /** A run in which none of the reads of the board, its lists or cards, or the check fails. */
  predicate NoReadFaults(f: Faults) {
    forall c :: c in f.calls ==> !c.CheckAccess? && !c.SelectBoard? && !c.SelectLists? && !c.SelectCards?
  }

  /**
    A fresh cache is transparent: whatever it holds, the read answers exactly
    what the database alone would answer.
   */
  lemma CacheIsTransparent(st: Store, cache: Cache, f: Faults, boardId: int, userId: int)
    requires CacheFresh(st, cache)
    requires NoReadFaults(f)
    ensures GetByID(st, cache, f, boardId, userId).result == Miss(st, map[], Faults({}, {}), boardId, userId).result
  {
    var key := CacheKey(boardId);
    if DecodableHit(cache, f, boardId) {
      assert boardId in st.boards && cache[key].payload.view == Assemble(st, boardId);
      assert CheckAccess(boardId, userId) !in f.calls;
    } else {
      MissAnswersFromDatabase(st, cache, f, boardId, userId);
    }
  }

  /**
    The answer of a miss depends on the database alone: neither what the cache
    held nor a failed encoding or write-back changes it.
   */
  lemma MissAnswersFromDatabase(st: Store, cache: Cache, f: Faults, boardId: int, userId: int)
    requires NoReadFaults(f)
    ensures Miss(st, cache, f, boardId, userId).result == Miss(st, map[], Faults({}, {}), boardId, userId).result
  {
    assert ReadsSucceed(st, f, boardId, userId);
  }

  /** The read keeps a fresh cache fresh: it only ever writes the current snapshot. */
  lemma GetByIDKeepsFresh(st: Store, cache: Cache, f: Faults, boardId: int, userId: int)
    requires CacheFresh(st, cache)
    ensures CacheFresh(st, GetByID(st, cache, f, boardId, userId).cache)
  {
    var r := GetByID(st, cache, f, boardId, userId);
    forall b | CacheKey(b) in r.cache && r.cache[CacheKey(b)].payload.Snapshot?
      ensures b in st.boards && r.cache[CacheKey(b)].payload.view == Assemble(st, b)
    {
      CacheKeyInjective(b, boardId);
    }
  }

  /**
    Cache-aside round trip: after a successful miss that wrote its snapshot
    back, the next read by the same user is a hit that answers the same board
    without touching the database.
   */
  lemma MissThenHit(st: Store, cache: Cache, f: Faults, boardId: int, userId: int)
    requires !DecodableHit(cache, f, boardId)
    requires GetByID(st, cache, f, boardId, userId).result.Ok?
    requires EncodeSnapshot(boardId) !in f.calls && CacheSet(CacheKey(boardId)) !in f.calls
    requires CacheGet(CacheKey(boardId)) !in f.calls
    ensures var first := GetByID(st, cache, f, boardId, userId);
            var second := GetByID(st, first.cache, f, boardId, userId);
            second.result == first.result && second.cache == first.cache
            && second.trace == [CacheGet(CacheKey(boardId)), CheckAccess(boardId, userId)]
  {
    var first := GetByID(st, cache, f, boardId, userId);
    assert DecodableHit(first.cache, f, boardId);
  }

  /**
    `Create`: the board is stored with the caller as owner, then the owner is
    added as a member; a failure of that second insert is logged, not
    returned. The cache is not touched.
   */
  function Create(st: Store, cache: Cache, f: Faults, name: string, ownerId: int): (r: Outcome<Board>)
    ensures r.cache == cache
    ensures r.result.Ok? <==> InsertBoard(ownerId) !in f.calls
    ensures r.result.Err? ==> r.store == st && r.trace == [InsertBoard(ownerId)]
    ensures r.result.Ok? ==>
              var b := r.result.value;
              && b.name == name && b.ownerId == ownerId
              && BoardRepository.GetByID(r.store, b.id) == Ok(b)
              && r.trace == [InsertBoard(ownerId), InsertMember(b.id, ownerId)]
              && ((b.id, ownerId) in r.store.members <==> (b.id, ownerId) in st.members || InsertMember(b.id, ownerId) !in f.calls)
              && BoardRepository.MemberOrOwner(r.store, b.id, ownerId)
    ensures Valid(st) ==> Valid(r.store)
  {
    var insert := InsertBoard(ownerId);
    if insert in f.calls then Outcome(Err(StoreError(insert)), st, cache, [insert])
    else
      var (created, board) := BoardRepository.Create(st, name, ownerId);
      var member := InsertMember(board.id, ownerId);
      var after := if member in f.calls then created else BoardRepository.AddMember(created, board.id, ownerId);
      Outcome(Ok(board), after, cache, [insert, member])
  }

  /**
    `Update`: the owner-guarded rename; only after it succeeds is the board's
    cache entry invalidated.
   */
  function Update(st: Store, cache: Cache, f: Faults, boardId: int, userId: int, name: string): (r: Outcome<()>)
    ensures r.result.Ok? <==> UpdateBoard(boardId, userId) !in f.calls && BoardRepository.Update(st, boardId, userId, name).Ok?
    ensures r.result.Err? ==> r.store == st && r.cache == cache && r.trace == [UpdateBoard(boardId, userId)]
    ensures UpdateBoard(boardId, userId) !in f.calls && r.result.Err? ==> r.result.error == NotFoundOrNotOwner
    ensures r.result.Ok? ==>
              && r.store == BoardRepository.Update(st, boardId, userId, name).value
              && r.trace == [UpdateBoard(boardId, userId), CacheDel(CacheKey(boardId))]
              && r.cache == InvalidateBoardCache(cache, f, boardId).0
  {
    var update := UpdateBoard(boardId, userId);
    if update in f.calls then Outcome(Err(StoreError(update)), st, cache, [update])
    else match BoardRepository.Update(st, boardId, userId, name)
      case Err(e) => Outcome(Err(e), st, cache, [update])
      case Ok(renamed) =>
        var (invalidated, calls) := InvalidateBoardCache(cache, f, boardId);
        Outcome(Ok(()), renamed, invalidated, [update] + calls)
  }

  /**
    `Delete`: the board's cache entry is invalidated first, whether or not the
    owner-guarded delete that follows succeeds.
   */
  function Delete(st: Store, cache: Cache, f: Faults, boardId: int, userId: int): (r: Outcome<()>)
    ensures r.trace == [CacheDel(CacheKey(boardId)), DeleteBoard(boardId, userId)]
    ensures r.cache == InvalidateBoardCache(cache, f, boardId).0
    ensures r.result.Ok? <==> DeleteBoard(boardId, userId) !in f.calls && BoardRepository.Delete(st, boardId, userId).Ok?
    ensures r.result.Err? ==> r.store == st
    ensures DeleteBoard(boardId, userId) !in f.calls && r.result.Err? ==> r.result.error == NotFoundOrNotOwner
    ensures r.result.Ok? ==> r.store == BoardRepository.Delete(st, boardId, userId).value
  {
    var (invalidated, calls) := InvalidateBoardCache(cache, f, boardId);
    var delete := DeleteBoard(boardId, userId);
    if delete in f.calls then Outcome(Err(StoreError(delete)), st, invalidated, calls + [delete])
    else match BoardRepository.Delete(st, boardId, userId)
      case Err(e) => Outcome(Err(e), st, invalidated, calls + [delete])
      case Ok(removed) => Outcome(Ok(()), removed, invalidated, calls + [delete])
  }

  /**
    `AddMember`: the board must exist and the inviter must own it, both checked
    before the invitee is looked up; an unknown email is rejected; a failed
    insert is returned; only a recorded membership invalidates the board.
   */
  function AddMember(st: Store, cache: Cache, f: Faults, boardId: int, inviterId: int, email: string): (r: Outcome<()>)
    ensures SelectBoard(boardId) in f.calls || boardId !in st.boards ==>
              r.result == Err(BoardNotFound) && r.trace == [SelectBoard(boardId)]
    ensures SelectBoard(boardId) !in f.calls && boardId in st.boards && st.boards[boardId].ownerId != inviterId ==>
              r.result == Err(NotBoardOwner) && r.trace == [SelectBoard(boardId)]
    ensures r.result.Err? ==> r.store == st && r.cache == cache && CacheDel(CacheKey(boardId)) !in r.trace
    ensures r.result.Ok? <==>
              && SelectBoard(boardId) !in f.calls && boardId in st.boards && st.boards[boardId].ownerId == inviterId
              && SelectUserByEmail(email) !in f.calls && email in st.users
              && InsertMember(boardId, st.users[email]) !in f.calls
    ensures r.result.Ok? ==>
              && r.store == BoardRepository.AddMember(st, boardId, st.users[email])
              && BoardRepository.MemberOrOwner(r.store, boardId, st.users[email])
              && r.cache == InvalidateBoardCache(cache, f, boardId).0
              && r.trace == [SelectBoard(boardId), SelectUserByEmail(email), InsertMember(boardId, st.users[email]),
                             CacheDel(CacheKey(boardId))]
  {
    var select := SelectBoard(boardId);
    if select in f.calls then Outcome(Err(BoardNotFound), st, cache, [select])
    else match BoardRepository.GetByID(st, boardId)
      case Err(_) => Outcome(Err(BoardNotFound), st, cache, [select])
      case Ok(board) =>
        if board.ownerId != inviterId then Outcome(Err(NotBoardOwner), st, cache, [select])
        else
          var lookup := SelectUserByEmail(email);
          if lookup in f.calls || email !in st.users then Outcome(Err(UserNotFound(email)), st, cache, [select, lookup])
          else
            var insert := InsertMember(boardId, st.users[email]);
            if insert in f.calls then Outcome(Err(StoreError(insert)), st, cache, [select, lookup, insert])
            else
              var (invalidated, calls) := InvalidateBoardCache(cache, f, boardId);
              Outcome(Ok(()), BoardRepository.AddMember(st, boardId, st.users[email]), invalidated,
                      [select, lookup, insert] + calls)
  }

  /** `GetAllForUser` forwards to the repository, error included. */
  function GetAllForUser(st: Store, f: Faults, userId: int): (r: Result<seq<Board>, Error>)
    ensures r.Ok? <==> SelectBoardsForUser(userId) !in f.calls
    ensures r.Err? ==> r.error == StoreError(SelectBoardsForUser(userId))
    ensures r.Ok? ==> forall b :: b in r.value <==>
                        b.id in st.boards && b == BoardAt(st.boards, b.id) && BoardRepository.MemberOrOwner(st, b.id, userId)
  {
    BoardRepository.GetAllForUser(st, f, userId)
  }

  /** Creating a board leaves a fresh cache fresh: no snapshot can exist for a new id. */
  lemma CreateKeepsFresh(st: Store, cache: Cache, f: Faults, name: string, ownerId: int)
    requires Valid(st) && CacheFresh(st, cache)
    ensures CacheFresh(Create(st, cache, f, name, ownerId).store, Create(st, cache, f, name, ownerId).cache)
  {
    var r := Create(st, cache, f, name, ownerId);
    var newId := st.nextBoardId;
    forall b | b != newId
      ensures SameBoardData(st, r.store, b)
    {
      NewBoardFrame(st, r.store, newId, b);
    }
    forall b | b == newId && CacheKey(b) in cache
      ensures !cache[CacheKey(b)].payload.Snapshot?
    {
      assert b !in st.boards;
    }
    FreshAfterInvalidation(st, r.store, cache, cache, {newId});
  }

  /** Adding a board row under another id, and memberships, leave board `boardId`'s data alone. */
  lemma NewBoardFrame(s: Store, t: Store, newId: int, boardId: int)
    requires boardId != newId
    requires t.lists == s.lists && t.cards == s.cards
    requires t.boards.Keys <= s.boards.Keys + {newId}
    requires forall b :: b in s.boards ==> b in t.boards && t.boards[b] == s.boards[b]
    ensures SameBoardData(s, t, boardId)
  {
  }

  /** A rename whose invalidation goes through leaves the cache fresh. */
  lemma UpdateKeepsFresh(st: Store, cache: Cache, f: Faults, boardId: int, userId: int, name: string)
    requires CacheFresh(st, cache)
    requires CacheDel(CacheKey(boardId)) !in f.calls
    ensures CacheFresh(Update(st, cache, f, boardId, userId, name).store, Update(st, cache, f, boardId, userId, name).cache)
  {
    var r := Update(st, cache, f, boardId, userId, name);
    if r.result.Ok? {
      forall b | b != boardId
        ensures SameBoardData(st, r.store, b)
      {
        BoardRowFrame(st, r.store, b);
      }
      FreshAfterOneInvalidation(st, r.store, cache, r.cache, boardId);
    }
  }

  /**
    A delete whose invalidation goes through leaves the cache fresh, whether
    the delete itself succeeds or not.
   */
  lemma DeleteKeepsFresh(st: Store, cache: Cache, f: Faults, boardId: int, userId: int)
    requires CacheFresh(st, cache)
    requires CacheDel(CacheKey(boardId)) !in f.calls
    ensures CacheFresh(Delete(st, cache, f, boardId, userId).store, Delete(st, cache, f, boardId, userId).cache)
  {
    var r := Delete(st, cache, f, boardId, userId);
    forall b | b != boardId
      ensures SameBoardData(st, r.store, b)
    {
      BoardRowFrame(st, r.store, b);
    }
    FreshAfterOneInvalidation(st, r.store, cache, r.cache, boardId);
  }

  /**
    Memberships are not part of the snapshot, so adding a member leaves the
    cache fresh even when its invalidation fails.
   */
  lemma AddMemberKeepsFresh(st: Store, cache: Cache, f: Faults, boardId: int, inviterId: int, email: string)
    requires CacheFresh(st, cache)
    ensures CacheFresh(AddMember(st, cache, f, boardId, inviterId, email).store,
                       AddMember(st, cache, f, boardId, inviterId, email).cache)
  {
    var r := AddMember(st, cache, f, boardId, inviterId, email);
    assert r.store.boards == st.boards && r.store.lists == st.lists && r.store.cards == st.cards;
    forall b
      ensures SameBoardData(st, r.store, b)
    {
      BoardRowFrame(st, r.store, b);
    }
    FreshAfterInvalidation(st, r.store, cache, r.cache, {});
  }
}
