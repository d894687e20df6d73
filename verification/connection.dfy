/**
  internal/ws/handler.go: admitting a websocket connection to a board, and the
  two loops every admitted client runs — one writing its queue to the
  connection, one reading until the connection fails.
 */
module Connection {
  import opened Wrappers
  import opened Models
  import opened Effects
  import opened BoardCache
  import opened BoardSnapshot
  import opened Hub
  import opened Text
  import BoardService
  import BoardRepository

  /** How `ServeWs` ends: 403, a failed upgrade (logged only), or a registered client. */
  datatype Admission = Forbidden | UpgradeFailed | Admitted(client: ClientId)

  datatype Connect = Connect(admission: Admission, hub: HubState, cache: Cache, trace: seq<Call>)

  /**
    The board id taken from the path with `strconv.Atoi`. The conversion error
    is discarded, so a path segment that is not a number selects board 0, the
    value `Atoi` returns with a syntax error.
   */
  function PathBoardId(path: string): (boardId: int)
    ensures Atoi(path).Some? ==> boardId == Atoi(path).value
    ensures Atoi(path).None? ==> boardId == 0
  {
    match Atoi(path)
    case Some(id) => id
    case None => 0
  }

  /** The path the router builds for board `boardId` selects that board. */
  lemma PathBoardIdReadsDecimal(boardId: int)
    ensures PathBoardId(Decimal(boardId)) == boardId
  {
    AtoiDecimal(boardId);
  }

  /**
    An empty segment, a lone sign and a segment with a character that is not a
    digit all select board 0.
   */
  lemma NonNumericPathSelectsBoardZero(path: string)
    requires path == [] || path == "-" || path == "+" || exists i :: 0 < i < |path| && !IsDigit(path[i])
    ensures PathBoardId(path) == 0
  {
  }

  /** A new client with an empty open queue, registered under `boardId`. */
  function AddClient(h: HubState, client: ClientId, boardId: int): (r: HubState)
    requires Inv(h) && client !in h.queues
    ensures Inv(r)
    ensures Subscribers(r, boardId) == Subscribers(h, boardId) + {client}
    ensures r.queues == h.queues[client := Queue([], false)]
    ensures forall b :: b != boardId ==> Subscribers(r, b) == Subscribers(h, b)
  {
    var withQueue := h.(queues := h.queues[client := Queue([], false)]);
    assert Inv(withQueue);
    RegisterKeepsInv(withQueue, client, boardId);
    RegisterClient(withQueue, client, boardId)
  }

  /**
    `ServeWs`: the board id is read from the path text and the board through
    the board service with the caller's id; any error answers 403 and nothing is registered. A failed upgrade
    registers nothing either. Otherwise the new client, with an empty open
    queue, is registered under the board. `client` is the fresh `*Client`.
   */
  function ServeWs(st: Store, cache: Cache, f: Faults, h: HubState, path: string, userId: int, client: ClientId): (r: Connect)
    requires Inv(h) && client !in h.queues
    ensures var boardId := PathBoardId(path);
            var read := BoardService.GetByID(st, cache, f, boardId, userId);
            && (r.admission.Admitted? <==> read.result.Ok? && UpgradeConnection(boardId) !in f.calls)
            && (read.result.Err? ==> r.admission == Forbidden && r.hub == h && r.cache == cache)
            && (!r.admission.Admitted? ==> r.hub == h)
            && (r.admission.Admitted? ==> r.admission.client == client && r.hub == AddClient(h, client, boardId))
  {
    var boardId := PathBoardId(path);
    var read := BoardService.GetByID(st, cache, f, boardId, userId);
    if read.result.Err? then
      assert read.cache == cache;
      Connect(Forbidden, h, read.cache, read.trace)
    else
      var upgrade := UpgradeConnection(boardId);
      if upgrade in f.calls then Connect(UpgradeFailed, h, read.cache, read.trace + [upgrade])
      else Connect(Admitted(client), AddClient(h, client, boardId), read.cache, read.trace + [upgrade])
  }

  /**
    With a fresh cache, a connection is admitted only for a user who owns or
    is a member of the board named in the path.
   */
  lemma AdmittedOnlyMembers(st: Store, cache: Cache, f: Faults, h: HubState, path: string, userId: int, client: ClientId)
    requires Inv(h) && client !in h.queues
    requires CacheFresh(st, cache)
    requires ServeWs(st, cache, f, h, path, userId, client).admission.Admitted?
    ensures BoardRepository.MemberOrOwner(st, PathBoardId(path), userId)
  {
    var boardId := PathBoardId(path);
    if BoardService.DecodableHit(cache, f, boardId) {
      assert cache[CacheKey(boardId)].payload.view == Assemble(st, boardId);
    }
  }

  /** What `writePump` writes to the connection. */
  datatype Frame = TextFrame(message: Message) | CloseFrame

  function TextFrames(items: seq<Message>): (r: seq<Frame>)
    ensures |r| == |items|
    ensures forall i :: 0 <= i < |items| ==> r[i] == TextFrame(items[i])
  {
    seq(|items|, i requires 0 <= i < |items| => TextFrame(items[i]))
  }

  /**
    `writePump`: receives from the queue until it would block. Every queued
    message is written as a text frame, in queue order, and only once the queue
    is closed and drained is a close frame written and the connection closed.
   */
  method WritePump(q: Queue) returns (frames: seq<Frame>, connClosed: bool)
    ensures |frames| == |q.items| + (if q.closed then 1 else 0)
    ensures forall i :: 0 <= i < |q.items| ==> frames[i] == TextFrame(q.items[i])
    ensures q.closed ==> frames[|q.items|] == CloseFrame
    ensures connClosed == q.closed
  {
    var i := 0;
    frames := [];
    while i < |q.items|
      invariant 0 <= i <= |q.items|
      invariant frames == TextFrames(q.items[..i])
    {
      frames := frames + [TextFrame(q.items[i])];
      i := i + 1;
    }
    connClosed := false;
    if q.closed {
      frames := frames + [CloseFrame];
      connClosed := true;
    }
  }

  /**
    `readPump`: reads until the first failed read (`outcomes[i]` is whether the
    i-th read succeeded); its deferred cleanup then asks the hub to unregister
    the client from its board and closes the connection. While every read
    succeeds it keeps going, asks nothing and closes nothing.
   */
  method ReadPump(outcomes: seq<bool>, client: ClientId, boardId: int) returns (consumed: nat, request: Option<Request>, connClosed: bool)
    ensures consumed <= |outcomes|
    ensures request.Some? <==> false in outcomes
    ensures connClosed <==> false in outcomes
    ensures request.Some? ==>
              && request.value == Unregister(client, boardId)
              && consumed >= 1 && !outcomes[consumed - 1]
              && (forall i :: 0 <= i < consumed - 1 ==> outcomes[i])
    ensures request.None? ==> consumed == |outcomes|
  {
    consumed := 0;
    while consumed < |outcomes| && outcomes[consumed]
      invariant consumed <= |outcomes|
      invariant forall i :: 0 <= i < consumed ==> outcomes[i]
    {
      consumed := consumed + 1;
    }
    if consumed < |outcomes| {
      consumed := consumed + 1;
      request := Some(Unregister(client, boardId));
      connClosed := true;
    } else {
      request := None;
      connClosed := false;
    }
  }

  /**
    A disconnect ends the subscription: the unregister sent by the read loop
    removes the client from its board, and its write loop then drains what was
    queued and writes the close frame.
   */
  lemma DisconnectClosesQueue(h: HubState, client: ClientId, boardId: int)
    requires Inv(h) && client in Subscribers(h, boardId)
    ensures var after := Step(h, Unregister(client, boardId));
            && client !in Subscribers(after, boardId)
            && client in after.queues && after.queues[client] == Queue(h.queues[client].items, true)
            && Inv(after)
  {
    StepKeepsInv(h, Unregister(client, boardId));
  }
}
