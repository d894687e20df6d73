/**
  internal/ws/hub.go: the hub is a single loop that takes one request at a
  time — register, unregister or broadcast — and updates the board-to-clients
  registry and the clients' send queues. Each request is a transition here.
 */
module Hub {
  import opened Models

  /** A client stands for the `*Client` pointer the registry is keyed by. */
  type ClientId = int

  /** The capacity of a client's `send` channel (internal/ws/handler.go). */
  const SendCapacity: nat := 256

  /** A buffered `send` channel: the messages waiting, and whether it was closed. */
  datatype Queue = Queue(items: seq<Message>, closed: bool)

  datatype HubState = HubState(clients: map<int, set<ClientId>>, queues: map<ClientId, Queue>)

  /**
    The turns of the system: the three requests the hub loop selects on, and
    `Receive`, one receive by a client's `writePump` from its `send` channel,
    which runs concurrently with the loop and is interleaved with its turns.
   */
  datatype Request =
    | Register(client: ClientId, boardId: int)
    | Unregister(client: ClientId, boardId: int)
    | Broadcast(boardId: int, message: Message)
    | Receive(client: ClientId)

  /**
    What the loop relies on: every registered client has an open queue within
    capacity, and sits under one board only (each connection registers once).
    Closing a closed channel or sending on one would panic in the source.
   */
  ghost predicate Inv(h: HubState) {
    && (forall b, c :: b in h.clients && c in h.clients[b] ==> c in h.queues && !h.queues[c].closed)
    && (forall c :: c in h.queues ==> |h.queues[c].items| <= SendCapacity)
    && (forall b1, b2, c :: b1 in h.clients && b2 in h.clients && c in h.clients[b1] && c in h.clients[b2] ==> b1 == b2)
  }

  predicate RegisteredElsewhere(h: HubState, c: ClientId, boardId: int) {
    exists b :: b in h.clients && b != boardId && c in h.clients[b]
  }

  /** The subscribers of a board; no entry means none. */
  function Subscribers(h: HubState, boardId: int): set<ClientId> {
    if boardId in h.clients then h.clients[boardId] else {}
  }

  /** Register: the board's set is created on first use and the client added to it. */
  function RegisterClient(h: HubState, c: ClientId, boardId: int): (r: HubState)
    ensures boardId in r.clients && r.clients[boardId] == Subscribers(h, boardId) + {c}
    ensures forall b :: b != boardId ==> (b in r.clients <==> b in h.clients) && (b in h.clients ==> r.clients[b] == h.clients[b])
    ensures r.queues == h.queues
  {
    h.(clients := h.clients[boardId := Subscribers(h, boardId) + {c}])
  }

  /**
    Unregister: a registered client is removed and its queue closed, and the
    board's entry goes when its set becomes empty. Anything else is a no-op.
   */
  function UnregisterClient(h: HubState, c: ClientId, boardId: int): (r: HubState)
    requires Inv(h)
    ensures c !in Subscribers(h, boardId) ==> r == h
    ensures c in Subscribers(h, boardId) ==>
              && c !in Subscribers(r, boardId)
              && Subscribers(r, boardId) == Subscribers(h, boardId) - {c}
              && (boardId in r.clients <==> Subscribers(h, boardId) != {c})
              && r.queues == h.queues[c := Queue(h.queues[c].items, true)]
    ensures forall b :: b != boardId ==> (b in r.clients <==> b in h.clients) && (b in h.clients ==> r.clients[b] == h.clients[b])
  {
    if boardId in h.clients && c in h.clients[boardId] then
      var rest := h.clients[boardId] - {c};
      var clients := if |rest| == 0 then h.clients - {boardId} else h.clients[boardId := rest];
      HubState(clients, h.queues[c := h.queues[c].(closed := true)])
    else h
  }

  /** The subscribers of `boardId` whose queue has no room left. */
  function Full(h: HubState, boardId: int): (r: set<ClientId>)
    requires Inv(h)
    ensures forall c :: c in r <==> c in Subscribers(h, boardId) && |h.queues[c].items| >= SendCapacity
  {
    set c | c in Subscribers(h, boardId) && |h.queues[c].items| >= SendCapacity
  }

  /**
    Broadcast: every subscriber of the board with room gets the message at the
    tail of its queue; a subscriber whose queue is full has it closed and is
    removed, while the others still receive. The board's entry is kept even if
    it empties. Other boards and other clients are not touched.
   */
  function BroadcastMessage(h: HubState, boardId: int, m: Message): (r: HubState)
    requires Inv(h)
    ensures boardId !in h.clients ==> r == h
    ensures boardId in h.clients ==> boardId in r.clients && r.clients[boardId] == h.clients[boardId] - Full(h, boardId)
    ensures forall b :: b != boardId ==> (b in r.clients <==> b in h.clients) && (b in h.clients ==> r.clients[b] == h.clients[b])
    ensures r.queues.Keys == h.queues.Keys
    ensures forall c :: c in h.queues && c !in Subscribers(h, boardId) ==> r.queues[c] == h.queues[c]
    ensures forall c :: c in Subscribers(h, boardId) && c !in Full(h, boardId) ==>
              r.queues[c] == Queue(h.queues[c].items + [m], false)
    ensures forall c :: c in Full(h, boardId) ==> r.queues[c] == Queue(h.queues[c].items, true)
  {
    if boardId !in h.clients then h
    else
      var subs := h.clients[boardId];
      var full := Full(h, boardId);
      var queues := map c | c in h.queues ::
        if c !in subs then h.queues[c]
        else if c in full then h.queues[c].(closed := true)
        else h.queues[c].(items := h.queues[c].items + [m]);
      HubState(h.clients[boardId := subs - full], queues)
  }

  /** `BroadcastToBoard`: hands the pair to the loop unchanged. */
  function BroadcastToBoard(boardId: int, m: Message): Request {
    Broadcast(boardId, m)
  }

  /**
    `writePump`'s `<-c.send`: the oldest buffered message leaves the queue.
    A closed channel still yields what is buffered; the closed flag stays. On
    an empty queue the receive blocks, so the turn is not taken.
   */
  function ReceiveOne(h: HubState, c: ClientId): (r: HubState)
    ensures r.clients == h.clients && r.queues.Keys == h.queues.Keys
    ensures c in h.queues && |h.queues[c].items| > 0 ==>
              r.queues[c] == Queue(h.queues[c].items[1..], h.queues[c].closed)
    ensures !(c in h.queues && |h.queues[c].items| > 0) ==> r == h
    ensures forall x :: x in h.queues && x != c ==> r.queues[x] == h.queues[x]
  {
    if c in h.queues && |h.queues[c].items| > 0 then
      h.(queues := h.queues[c := h.queues[c].(items := h.queues[c].items[1..])])
    else h
  }

  /** One turn of `Run`, or one receive by a write loop. */
  function Step(h: HubState, req: Request): HubState
    requires Inv(h)
    requires req.Register? ==> req.client in h.queues && !h.queues[req.client].closed
                               && !RegisteredElsewhere(h, req.client, req.boardId)
  {
    match req
    case Register(c, b) => RegisterClient(h, c, b)
    case Unregister(c, b) => UnregisterClient(h, c, b)
    case Broadcast(b, m) => BroadcastMessage(h, b, m)
    case Receive(c) => ReceiveOne(h, c)
  }

  /** Every turn of the loop keeps the invariant. */
  lemma StepKeepsInv(h: HubState, req: Request)
    requires Inv(h)
    requires req.Register? ==> req.client in h.queues && !h.queues[req.client].closed
                               && !RegisteredElsewhere(h, req.client, req.boardId)
    ensures Inv(Step(h, req))
  {
    match req
    case Register(c, b) => RegisterKeepsInv(h, c, b);
    case Unregister(c, b) => UnregisterKeepsInv(h, c, b);
    case Broadcast(b, m) => BroadcastKeepsInv(h, b, m);
    case Receive(c) =>
  }

  lemma RegisterKeepsInv(h: HubState, c: ClientId, boardId: int)
    requires Inv(h)
    requires c in h.queues && !h.queues[c].closed && !RegisteredElsewhere(h, c, boardId)
    ensures Inv(RegisterClient(h, c, boardId))
  {
    var r := RegisterClient(h, c, boardId);
    forall b1, b2, x | b1 in r.clients && b2 in r.clients && x in r.clients[b1] && x in r.clients[b2]
      ensures b1 == b2
    {
      if x == c && b1 != b2 {
        assert RegisteredElsewhere(h, c, boardId);
      }
    }
  }

  lemma UnregisterKeepsInv(h: HubState, c: ClientId, boardId: int)
    requires Inv(h)
    ensures Inv(UnregisterClient(h, c, boardId))
  {
    var r := UnregisterClient(h, c, boardId);
    if c in Subscribers(h, boardId) {
      forall b1, x | b1 in r.clients && x in r.clients[b1]
        ensures x in r.queues && !r.queues[x].closed
      {
        assert x in h.clients[b1];

      }
    }
  }

  lemma BroadcastKeepsInv(h: HubState, boardId: int, m: Message)
    requires Inv(h)
    ensures Inv(BroadcastMessage(h, boardId, m))
  {
    var r := BroadcastMessage(h, boardId, m);
    forall b1, x | b1 in r.clients && x in r.clients[b1]
      ensures x in r.queues && !r.queues[x].closed
    {
      assert x in h.clients[b1];
    }
    forall x | x in r.queues
      ensures |r.queues[x].items| <= SendCapacity
    {
      if x in Subscribers(h, boardId) && x !in Full(h, boardId) {
        assert |h.queues[x].items| < SendCapacity;
      }
    }
  }

  /** Registering twice is the same as registering once. */
  lemma RegisterIdempotent(h: HubState, c: ClientId, boardId: int)
    ensures RegisterClient(RegisterClient(h, c, boardId), c, boardId) == RegisterClient(h, c, boardId)
  {
    var once := RegisterClient(h, c, boardId);
    assert Subscribers(once, boardId) + {c} == Subscribers(once, boardId);
    assert once.clients[boardId := Subscribers(once, boardId)] == once.clients;
  }

  /**
    A queue that is closed is never sent on or closed again: hub turns leave it
    as it is, and a receive only takes what was buffered from its front.
   */
  lemma ClosedQueueUntouched(h: HubState, req: Request, c: ClientId)
    requires Inv(h)
    requires req.Register? ==> req.client in h.queues && !h.queues[req.client].closed
                               && !RegisteredElsewhere(h, req.client, req.boardId)
    requires c in h.queues && h.queues[c].closed
    ensures var after := Step(h, req);
            && c in after.queues && after.queues[c].closed
            && |after.queues[c].items| <= |h.queues[c].items|
            && after.queues[c].items == h.queues[c].items[|h.queues[c].items| - |after.queues[c].items|..]
    ensures !req.Receive? ==> Step(h, req).queues[c] == h.queues[c]
  {
  }

  /**
    A client dropped by a broadcast because its queue was full is gone from the
    registry, so the unregister its read loop sends later changes nothing.
   */
  lemma DroppedThenUnregisterIsNoOp(h: HubState, boardId: int, m: Message, c: ClientId)
    requires Inv(h)
    requires c in Full(h, boardId)
    ensures var dropped := BroadcastMessage(h, boardId, m);
            Inv(dropped) && dropped.queues[c].closed && UnregisterClient(dropped, c, boardId) == dropped
  {
    StepKeepsInv(h, Broadcast(boardId, m));
  }

  /**
    Per-subscriber FIFO: two broadcasts to a board reach a subscriber with room
    for both in the order they were made.
   */
  lemma BroadcastsArriveInOrder(h: HubState, boardId: int, m1: Message, m2: Message, c: ClientId)
    requires Inv(h)
    requires c in Subscribers(h, boardId) && |h.queues[c].items| + 2 <= SendCapacity
    ensures var h1 := BroadcastMessage(h, boardId, m1);
            Inv(h1) && c in h1.queues
            && BroadcastMessage(h1, boardId, m2).queues[c] == Queue(h.queues[c].items + [m1, m2], false)
  {
    var h1 := BroadcastMessage(h, boardId, m1);
    StepKeepsInv(h, Broadcast(boardId, m1));
    assert c !in Full(h, boardId);
    assert c in Subscribers(h1, boardId) && c !in Full(h1, boardId);
    assert h.queues[c].items + [m1] + [m2] == h.queues[c].items + [m1, m2];
  }

  /**
    What a service publishes reaches the board: the loop's turn on the request
    `BroadcastToBoard` sends is the broadcast of that message to that board,
    every subscriber with room stays subscribed with the message at the tail
    of its queue, and nobody else receives it.
   */
  lemma PublishReachesSubscribers(h: HubState, boardId: int, m: Message)
    requires Inv(h)
    ensures Step(h, BroadcastToBoard(boardId, m)) == BroadcastMessage(h, boardId, m)
    ensures var after := Step(h, BroadcastToBoard(boardId, m));
            && (forall c :: c in Subscribers(h, boardId) && |h.queues[c].items| < SendCapacity ==>
                  c in Subscribers(after, boardId) && after.queues[c] == Queue(h.queues[c].items + [m], false))
            && (forall c :: c in h.queues && c !in Subscribers(h, boardId) ==> after.queues[c] == h.queues[c])
  {
  }

  /**
    A subscriber is dropped only when it is a full queue behind: once its
    write loop has taken one message, the next broadcast to its board reaches
    it at the tail and it stays subscribed.
   */
  lemma ReceiveMakesRoom(h: HubState, c: ClientId, boardId: int, m: Message)
    requires Inv(h)
    requires c in Subscribers(h, boardId) && |h.queues[c].items| > 0
    ensures var drained := Step(h, Receive(c));
            && Inv(drained)
            && |drained.queues[c].items| == |h.queues[c].items| - 1
            && var after := Step(drained, Broadcast(boardId, m));
               c in Subscribers(after, boardId) && after.queues[c] == Queue(h.queues[c].items[1..] + [m], false)
  {
    var drained := Step(h, Receive(c));
    StepKeepsInv(h, Receive(c));
    assert c in Subscribers(drained, boardId) && c !in Full(drained, boardId);
  }
}
