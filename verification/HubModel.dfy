/** The WebSocket hub on values: which client listens to which topic, and what each atomic
    section of the hub and of a client does to that. `C` stands for the client handles. */
module HubModel {

  /** A broker message. Ids are fresh; they are named here after the broker's accept order. */
  datatype Envelope = Envelope(id: nat, topic: string, data: string)

  /** What a client's send channel carries. */
  datatype Frame = Data(envelope: Envelope) | Error(code: string)

  /** One client. `wire` is what its write pump has taken from the channel so far, and
      `closings` counts how often the channel was closed (twice would panic). */
  datatype Conn = Conn(
    userId: string, capacity: nat, queue: seq<Frame>, wire: seq<Frame>,
    topics: set<string>, closed: bool, closings: nat)

  datatype HubState<C> = HubState(
    clients: set<C>, topics: map<string, set<C>>, closed: bool, conns: map<C, Conn>,
    gauge: int, delivered: nat, dropped: nat)

  function NewConn(userId: string, capacity: nat, topics: set<string>): Conn {
    Conn(userId, capacity, [], [], topics, false, 0)
  }

  predicate Accepts(conn: Conn) {
    !conn.closed && |conn.queue| < conn.capacity
  }

  function Enqueue(conn: Conn, frame: Frame): Conn {
    if Accepts(conn) then conn.(queue := conn.queue + [frame]) else conn
  }

  function CloseConn(conn: Conn): Conn {
    if conn.closed then conn else conn.(closed := true, closings := conn.closings + 1)
  }

  /** The write pump takes one frame; a closed channel still yields what it holds. */
  function Drain(conn: Conn): Conn {
    if conn.queue == [] then conn
    else conn.(queue := conn.queue[1..], wire := conn.wire + [conn.queue[0]])
  }

  function Subscribers<C>(topics: map<string, set<C>>, topic: string): set<C> {
    if topic in topics then topics[topic] else {}
  }

  function AddToTopics<C>(topics: map<string, set<C>>, client: C, added: set<string>): map<string, set<C>> {
    map t | t in topics.Keys + added ::
      if t in added then Subscribers(topics, t) + {client} else topics[t]
  }

  function RemoveFromTopics<C>(topics: map<string, set<C>>, gone: set<C>, from: set<string>): map<string, set<C>> {
    map t | t in topics && !(t in from && topics[t] - gone == {}) ::
      if t in from then topics[t] - gone else topics[t]
  }

  lemma AddToTopicsStepwise<C>(topics: map<string, set<C>>, client: C, done: set<string>, topic: string)
    ensures AddToTopics(topics, client, {}) == topics
    ensures AddToTopics(AddToTopics(topics, client, done), client, {topic})
            == AddToTopics(topics, client, done + {topic})
  {
  }

  lemma RemoveFromTopicsStepwise<C>(topics: map<string, set<C>>, gone: set<C>, done: set<string>, topic: string)
    ensures RemoveFromTopics(topics, gone, {}) == topics
    ensures RemoveFromTopics(RemoveFromTopics(topics, gone, done), gone, {topic})
         == RemoveFromTopics(topics, gone, done + {topic})
  {
    var once := RemoveFromTopics(topics, gone, done);
    var twice := RemoveFromTopics(once, gone, {topic});
    var both := RemoveFromTopics(topics, gone, done + {topic});
    forall t | t in topics ensures t in twice <==> t in both {
      assert topics[t] - gone - gone == topics[t] - gone;
    }
    assert twice.Keys == both.Keys;
    forall t | t in both ensures twice[t] == both[t] {
      assert topics[t] - gone - gone == topics[t] - gone;
    }
  }

  function Register<C>(h: HubState<C>, client: C, conn: Conn): HubState<C> {
    if h.closed then h.(conns := h.conns[client := CloseConn(conn)])
    else h.(clients := h.clients + {client}, conns := h.conns[client := conn],
            topics := AddToTopics(h.topics, client, conn.topics), gauge := h.gauge + 1)
  }

  function Unregister<C>(h: HubState<C>, client: C): HubState<C> {
    if client !in h.clients || client !in h.conns then h
    else h.(clients := h.clients - {client}, conns := h.conns[client := CloseConn(h.conns[client])],
            topics := RemoveFromTopics(h.topics, {client}, h.conns[client].topics), gauge := h.gauge - 1)
  }

  function Subscribe<C>(h: HubState<C>, client: C, topic: string): HubState<C> {
    if client !in h.clients || client !in h.conns then h
    else h.(conns := h.conns[client := h.conns[client].(topics := h.conns[client].topics + {topic})],
            topics := AddToTopics(h.topics, client, {topic}))
  }

  function Unsubscribe<C>(h: HubState<C>, client: C, topic: string): HubState<C> {
    if client !in h.clients || client !in h.conns then h
    else h.(conns := h.conns[client := h.conns[client].(topics := h.conns[client].topics - {topic})],
            topics := RemoveFromTopics(h.topics, {client}, {topic}))
  }

  function Close<C>(h: HubState<C>): HubState<C> {
    h.(clients := {}, topics := map[], closed := true,
       conns := map c | c in h.conns :: if c in h.clients then CloseConn(h.conns[c]) else h.conns[c])
  }

  /** One send of the deliverer: counted as delivered or as dropped. */
  function Send<C>(h: HubState<C>, client: C, frame: Frame): HubState<C> {
    if client !in h.conns then h
    else if Accepts(h.conns[client])
    then h.(conns := h.conns[client := Enqueue(h.conns[client], frame)], delivered := h.delivered + 1)
    else h.(dropped := h.dropped + 1)
  }

  /** What must hold between any two atomic sections. */
  ghost predicate Inv<C>(h: HubState<C>) {
    && h.clients <= h.conns.Keys
    && Indexed(h)
    && (forall c | c in h.conns :: ConnInv(h.conns[c], c in h.clients))
    && (h.closed ==> h.clients == {} && h.topics == map[])
    && (!h.closed ==> h.gauge == |h.clients|)
  }

  /** The two directions of the index agree, and no topic is kept without subscribers. */
  ghost predicate Indexed<C>(h: HubState<C>)
    requires h.clients <= h.conns.Keys
  {
    && (forall t | t in h.topics :: h.topics[t] != {})
    && (forall t, c | t in h.topics && c in h.topics[t] :: c in h.clients && t in h.conns[c].topics)
    && (forall c, t | c in h.clients && t in h.conns[c].topics :: t in h.topics && c in h.topics[t])
  }

  predicate ConnInv(conn: Conn, registered: bool) {
    && registered == !conn.closed
    && |conn.queue| <= conn.capacity
    && conn.closings == if conn.closed then 1 else 0
  }

  function Init<C>(): (h: HubState<C>)
    ensures Inv(h)
  {
    HubState({}, map[], false, map[], 0, 0, 0)
  }

  /** The index is exact in both directions. */
  lemma IndexIsExact<C>(h: HubState<C>, topic: string, client: C)
    requires Inv(h)
    ensures client in Subscribers(h.topics, topic)
       <==> client in h.clients && topic in h.conns[client].topics
  {
  }

  lemma SubscribersAreOpen<C>(h: HubState<C>, topic: string)
    requires Inv(h)
    ensures Subscribers(h.topics, topic) <= h.conns.Keys
    ensures forall c | c in Subscribers(h.topics, topic) :: !h.conns[c].closed
  {
  }

  lemma SubscribersAre<C>(h: HubState<C>, topic: string)
    requires Inv(h)
    ensures Subscribers(h.topics, topic) == set c | c in h.clients && c in h.conns && topic in h.conns[c].topics
  {
  }

  lemma RegisterKeepsIndex<C>(h: HubState<C>, client: C, conn: Conn)
    requires h.clients <= h.conns.Keys && Indexed(h) && client !in h.conns && !h.closed
    ensures Indexed(Register(h, client, conn))
  {
    var r := Register(h, client, conn);
    forall t, c | t in r.topics && c in r.topics[t] ensures c in r.clients && t in r.conns[c].topics {
      if c != client { assert t in h.topics && c in h.topics[t]; }
    }
  }

  lemma RegisterKeepsInv<C>(h: HubState<C>, client: C, userId: string, capacity: nat, topics: set<string>)
    requires Inv(h) && client !in h.conns
    ensures Inv(Register(h, client, NewConn(userId, capacity, topics)))
  {
    if h.closed {
      hide AddToTopics;
    } else {
      RegisterKeepsIndex(h, client, NewConn(userId, capacity, topics));
      hide Indexed, AddToTopics;
    }
  }

  lemma UnregisterKeepsInv<C>(h: HubState<C>, client: C)
    requires Inv(h)
    ensures Inv(Unregister(h, client))
    ensures client in h.conns ==> Unregister(h, client).conns[client].closed
  {
  }

  lemma SubscribeKeepsIndex<C>(h: HubState<C>, client: C, topic: string)
    requires h.clients <= h.conns.Keys && Indexed(h)
    ensures Indexed(Subscribe(h, client, topic))
  {
    var s := Subscribe(h, client, topic);
    forall t, c | t in s.topics && c in s.topics[t] ensures c in s.clients && t in s.conns[c].topics {
      if c != client { assert t in h.topics && c in h.topics[t]; }
    }
  }

  lemma SubscribeKeepsInv<C>(h: HubState<C>, client: C, topic: string)
    requires Inv(h)
    ensures Inv(Subscribe(h, client, topic))
  {
    SubscribeKeepsIndex(h, client, topic);
    hide Indexed, AddToTopics;
  }

  lemma UnsubscribeKeepsIndex<C>(h: HubState<C>, client: C, topic: string)
    requires h.clients <= h.conns.Keys && Indexed(h)
    ensures Indexed(Unsubscribe(h, client, topic))
  {
    var u := Unsubscribe(h, client, topic);
    forall c, t | c in u.clients && t in u.conns[c].topics ensures t in u.topics && c in u.topics[t] {
      assert t in h.conns[c].topics;
      assert t == topic ==> c in h.topics[t] - {client};
    }
  }

  lemma UnsubscribeKeepsInv<C>(h: HubState<C>, client: C, topic: string)
    requires Inv(h)
    ensures Inv(Unsubscribe(h, client, topic))
  {
    UnsubscribeKeepsIndex(h, client, topic);
    hide Indexed, RemoveFromTopics;
  }

  lemma CloseKeepsInv<C>(h: HubState<C>)
    requires Inv(h)
    ensures Inv(Close(h))
  {
  }

  /** Sending an error frame or draining touches only the frames of one client. */
  lemma FramesKeepInv<C>(h: HubState<C>, client: C, conn: Conn)
    requires Inv(h) && client in h.conns
    requires conn == h.conns[client].(queue := conn.queue, wire := conn.wire)
    requires |h.conns[client].queue| <= conn.capacity ==> |conn.queue| <= conn.capacity
    ensures Inv(h.(conns := h.conns[client := conn]))
  {
  }

  lemma SendKeepsInv<C>(h: HubState<C>, client: C, frame: Frame)
    requires Inv(h)
    ensures Inv(Send(h, client, frame))
  {
  }

  lemma ClosedFacts<C>(h: HubState<C>, client: C)
    requires Inv(h)
    ensures h.closed ==> h.clients == {} && h.topics == map[]
    ensures client in h.conns && h.conns[client].closed ==> h.conns[client].closings == 1
  {
  }

  // ---- A whole delivery that nothing interrupts, without its order ----

  function Lost<C>(h: HubState<C>, reached: set<C>): set<C>
    requires reached <= h.conns.Keys
  {
    set c | c in reached && !Accepts(h.conns[c])
  }

  /** What a delivery does to one subscriber. */
  function After(conn: Conn, frame: Frame): Conn {
    if Accepts(conn) then Enqueue(conn, frame) else CloseConn(conn)
  }

  function ConnsAfter<C>(conns: map<C, Conn>, frame: Frame, reached: set<C>): map<C, Conn> {
    map c | c in conns :: if c in reached then After(conns[c], frame) else conns[c]
  }

  function DeliverTo<C>(h: HubState<C>, frame: Frame, reached: set<C>): HubState<C>
    requires reached <= h.conns.Keys
  {
    var lost := Lost(h, reached);
    h.(clients := h.clients - lost,
       topics := RemoveFromTopics(h.topics, lost, h.topics.Keys),
       conns := ConnsAfter(h.conns, frame, reached),
       gauge := h.gauge - |lost|, delivered := h.delivered + |reached - lost|, dropped := h.dropped + |lost|)
  }

  /** What the loop of `Deliver` does to one subscriber: sent the frame, or dropped. */
  function SendOrDrop<C>(h: HubState<C>, frame: Frame, client: C): HubState<C> {
    if client in h.conns && !Accepts(h.conns[client]) then Unregister(Send(h, client, frame), client)
    else Send(h, client, frame)
  }

  lemma DeliverToOneMore<C>(h: HubState<C>, frame: Frame, reached: set<C>, client: C)
    requires Inv(h) && reached <= h.clients && client in h.clients && client !in reached
    ensures DeliverTo(h, frame, reached + {client}) == SendOrDrop(DeliverTo(h, frame, reached), frame, client)
  {
    if Accepts(h.conns[client]) {
      DeliverToOneWithRoom(h, frame, reached, client);
    } else {
      RemoveOneMore(h, Lost(h, reached), client);
      DeliverToOneWithoutRoom(h, frame, reached, client);
    }
  }

  lemma ConnsAfterOneMore<C>(conns: map<C, Conn>, frame: Frame, reached: set<C>, client: C)
    requires client in conns && client !in reached
    ensures ConnsAfter(conns, frame, reached).Keys == conns.Keys
    ensures ConnsAfter(conns, frame, reached)[client] == conns[client]
    ensures ConnsAfter(conns, frame, reached + {client})
         == ConnsAfter(conns, frame, reached)[client := After(conns[client], frame)]
  {
    hide After;
  }

  lemma DeliverToOneWithRoom<C>(h: HubState<C>, frame: Frame, reached: set<C>, client: C)
    requires reached <= h.conns.Keys && client in h.conns && client !in reached && Accepts(h.conns[client])
    ensures DeliverTo(h, frame, reached + {client}) == Send(DeliverTo(h, frame, reached), client, frame)
    ensures DeliverTo(h, frame, reached).conns[client] == h.conns[client]
  {
    hide RemoveFromTopics, Lost, ConnsAfter;
    ConnsAfterOneMore(h.conns, frame, reached, client);
    LostOneMore(h, reached, client);
    assert reached + {client} - Lost(h, reached) == reached - Lost(h, reached) + {client};
  }

  lemma LostOneMore<C>(h: HubState<C>, reached: set<C>, client: C)
    requires reached <= h.conns.Keys && client in h.conns && client !in reached
    ensures Lost(h, reached + {client}) == Lost(h, reached) + if Accepts(h.conns[client]) then {} else {client}
    ensures client !in Lost(h, reached)
  {
  }

  lemma DeliverToOneWithoutRoom<C>(h: HubState<C>, frame: Frame, reached: set<C>, client: C)
    requires reached <= h.conns.Keys && client in h.conns && client in h.clients
    requires client !in reached && !Accepts(h.conns[client])
    requires RemoveFromTopics(RemoveFromTopics(h.topics, Lost(h, reached), h.topics.Keys), {client},
                              h.conns[client].topics)
          == RemoveFromTopics(h.topics, Lost(h, reached) + {client}, h.topics.Keys)
    ensures DeliverTo(h, frame, reached + {client})
         == Unregister(Send(DeliverTo(h, frame, reached), client, frame), client)
    ensures DeliverTo(h, frame, reached).conns[client] == h.conns[client]
  {
    hide RemoveFromTopics, Lost, ConnsAfter;
    ConnsAfterOneMore(h.conns, frame, reached, client);
    LostOneMore(h, reached, client);
    var lost := Lost(h, reached);
    assert reached + {client} - (lost + {client}) == reached - lost;
    assert h.clients - (lost + {client}) == h.clients - lost - {client};
  }

  lemma RemoveOneMore<C>(h: HubState<C>, lost: set<C>, client: C)
    requires Inv(h) && client in h.clients
    ensures RemoveFromTopics(RemoveFromTopics(h.topics, lost, h.topics.Keys), {client}, h.conns[client].topics)
         == RemoveFromTopics(h.topics, lost + {client}, h.topics.Keys)
  {
    forall t | t in h.topics
      ensures h.topics[t] - lost - {client} == h.topics[t] - (lost + {client})
      ensures t !in h.conns[client].topics ==> h.topics[t] - (lost + {client}) == h.topics[t] - lost
    {
    }
  }

  lemma DeliverToNobody<C>(h: HubState<C>, frame: Frame, topic: string)
    requires Inv(h)
    ensures Subscribers(h.topics, topic) <= h.clients <= h.conns.Keys
    ensures DeliverTo(h, frame, {}) == h
  {
    assert Lost(h, {}) == {};
    NobodyRemoved(h);
    hide Inv, RemoveFromTopics;
    assert ConnsAfter(h.conns, frame, {}) == h.conns;
    assert h.clients - {} == h.clients;
  }

  lemma NobodyRemoved<C>(h: HubState<C>)
    requires Inv(h)
    ensures RemoveFromTopics(h.topics, {}, h.topics.Keys) == h.topics
  {
    assert forall t | t in h.topics :: h.topics[t] - {} == h.topics[t];
  }

  /** Subscribing and then unsubscribing a topic the client did not hold changes nothing. */
  lemma UnsubscribeUndoesSubscribe<C>(h: HubState<C>, client: C, topic: string)
    requires Inv(h)
    requires client in h.clients ==> topic !in h.conns[client].topics
    ensures Unsubscribe(Subscribe(h, client, topic), client, topic) == h
  {
  }
}
