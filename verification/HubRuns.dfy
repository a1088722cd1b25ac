/** Every interleaving of publishers, connections, the write pumps, shutdown and the one
    deliverer that the server starts. */
module HubRuns {
  import opened HubModel

  const BROKER_CAPACITY := 4096

  /** Where the deliverer stands: it holds a message it took from the broker, sends to the
      clients of its snapshot, or has failed to send to one and is about to unregister it. */
  datatype Deliverer<C> =
    | Idle
    | Holding(envelope: Envelope)
    | Sending(pending: set<C>)
    | Dropping(victim: C, pending: set<C>)

  datatype System<C> = System(
    hub: HubState<C>,
    published: seq<Envelope>,   // accepted by the broker, in order
    updates: seq<Envelope>,     // the broker's channel
    brokerClosed: bool,
    snapshots: seq<set<C>>,     // subscribers found for published[0], published[1], ...
    deliverer: Deliverer<C>)

  datatype Event<C> =
    | Publish(topic: string, data: string)
    | CloseBroker
    | Connect(client: C, userId: string, capacity: nat, topics: set<string>)
    | Disconnect(client: C)
    | AddTopic(client: C, topic: string)
    | DropTopic(client: C, topic: string)
    | SendError(client: C, code: string)
    | Pump(client: C)
    | CloseHub
    | Take
    | Snapshot
    | SendTo(client: C)
    | UnregisterVictim

  function Init<C>(): System<C> {
    System(HubModel.Init(), [], [], false, [], Idle)
  }

  function Pending<C>(d: Deliverer<C>): set<C> {
    match d
    case Idle => {}
    case Holding(_) => {}
    case Sending(pending) => pending
    case Dropping(_, pending) => pending
  }

  function SendRest<C>(pending: set<C>): Deliverer<C> {
    if pending == {} then Idle else Sending(pending)
  }

  /** One atomic step. An event that cannot happen in `s` changes nothing. */
  function Step<C>(s: System<C>, e: Event<C>): System<C> {
    match e
    case Publish(topic, data) =>
      if s.brokerClosed || |s.updates| >= BROKER_CAPACITY then s
      else
        var envelope := Envelope(|s.published|, topic, data);
        s.(published := s.published + [envelope], updates := s.updates + [envelope])
    case CloseBroker => s.(brokerClosed := true)
    case Connect(c, userId, capacity, topics) =>
      if c in s.hub.conns then s
      else s.(hub := Register(s.hub, c, NewConn(userId, capacity, topics)))
    case Disconnect(c) => s.(hub := Unregister(s.hub, c))
    case AddTopic(c, topic) => s.(hub := Subscribe(s.hub, c, topic))
    case DropTopic(c, topic) => s.(hub := Unsubscribe(s.hub, c, topic))
    case SendError(c, code) =>
      if c !in s.hub.conns then s
      else s.(hub := s.hub.(conns := s.hub.conns[c := Enqueue(s.hub.conns[c], Error(code))]))
    case Pump(c) =>
      if c !in s.hub.conns then s
      else s.(hub := s.hub.(conns := s.hub.conns[c := Drain(s.hub.conns[c])]))
    case CloseHub => s.(hub := Close(s.hub))
    case Take =>
      if !s.deliverer.Idle? || s.updates == [] then s
      else s.(updates := s.updates[1..], deliverer := Holding(s.updates[0]))
    case Snapshot =>
      if !s.deliverer.Holding? then s
      else
        var found := Subscribers(s.hub.topics, s.deliverer.envelope.topic);
        s.(snapshots := s.snapshots + [found], deliverer := SendRest(found))
    case SendTo(c) =>
      if !s.deliverer.Sending? || c !in s.deliverer.pending || c !in s.hub.conns
         || !(0 < |s.snapshots| <= |s.published|) then s
      else
        var frame := Data(s.published[|s.snapshots| - 1]);
        var rest := s.deliverer.pending - {c};
        s.(hub := Send(s.hub, c, frame),
           deliverer := if Accepts(s.hub.conns[c]) then SendRest(rest) else Dropping(c, rest))
    case UnregisterVictim =>
      if !s.deliverer.Dropping? then s
      else s.(hub := Unregister(s.hub, s.deliverer.victim), deliverer := SendRest(s.deliverer.pending))
  }

  function Run<C>(es: seq<Event<C>>): System<C> {
    if es == [] then Init() else Step(Run(es[..|es| - 1]), es[|es| - 1])
  }

  // ---- What a client got and what it should have got ----

  /** The envelopes among the frames. */
  function Envelopes(frames: seq<Frame>): seq<Envelope> {
    if frames == [] then []
    else Envelopes(frames[..|frames| - 1]) + EnvelopeOf(frames[|frames| - 1])
  }

  function EnvelopeOf(frame: Frame): seq<Envelope> {
    match frame
    case Data(envelope) => [envelope]
    case Error(_) => []
  }

  /** Everything ever enqueued to a client, in order. */
  function Enqueued(conn: Conn): seq<Frame> {
    conn.wire + conn.queue
  }

  /** The messages whose snapshot contained the client, in publish order. */
  function Included<C>(published: seq<Envelope>, snapshots: seq<set<C>>, client: C): seq<Envelope>
    requires |snapshots| <= |published|
  {
    if snapshots == [] then []
    else
      var n := |snapshots| - 1;
      Included(published, snapshots[..n], client) + if client in snapshots[n] then [published[n]] else []
  }

  function TotalSize<C>(snapshots: seq<set<C>>): nat {
    if snapshots == [] then 0
    else TotalSize(snapshots[..|snapshots| - 1]) + |snapshots[|snapshots| - 1]|
  }

  ghost predicate Ascending(envelopes: seq<Envelope>) {
    forall i, j | 0 <= i < j < |envelopes| :: envelopes[i].id < envelopes[j].id
  }

  lemma EnvelopesOfAppend(frames: seq<Frame>, frame: Frame)
    ensures Envelopes(frames + [frame]) == Envelopes(frames) + EnvelopeOf(frame)
  {
    assert (frames + [frame])[..|frames|] == frames;
  }

  lemma Associates<T>(a: seq<T>, b: seq<T>, c: seq<T>)
    ensures (a + b) + c == a + (b + c)
  {
  }

  lemma {:induction false} EnvelopesOfConcat(a: seq<Frame>, b: seq<Frame>)
    ensures Envelopes(a + b) == Envelopes(a) + Envelopes(b)
  {
    if b == [] {
      assert a + b == a;
    } else {
      hide Envelopes, EnvelopeOf;
      var rest, last := b[..|b| - 1], b[|b| - 1];
      EnvelopesOfConcat(a, rest);
      EnvelopesOfAppend(a + rest, last);
      EnvelopesOfAppend(rest, last);
      assert b == rest + [last];
      Associates(a, rest, [last]);
      Associates(Envelopes(a), Envelopes(rest), EnvelopeOf(last));
    }
  }

  lemma {:induction false} IncludedIgnoresLaterPublishes<C>(
      published: seq<Envelope>, more: seq<Envelope>, snapshots: seq<set<C>>, client: C)
    requires |snapshots| <= |published|
    ensures Included(published + more, snapshots, client) == Included(published, snapshots, client)
  {
    if snapshots != [] {
      IncludedIgnoresLaterPublishes(published, more, snapshots[..|snapshots| - 1], client);
    }
  }

  lemma IncludedOfAppend<C>(published: seq<Envelope>, snapshots: seq<set<C>>, found: set<C>, client: C)
    requires |snapshots| < |published|
    ensures Included(published, snapshots + [found], client)
         == Included(published, snapshots, client) + if client in found then [published[|snapshots|]] else []
  {
    assert (snapshots + [found])[..|snapshots|] == snapshots;
  }

  lemma {:induction false} IncludedOfStranger<C>(published: seq<Envelope>, snapshots: seq<set<C>>, client: C)
    requires |snapshots| <= |published|
    requires forall k | 0 <= k < |snapshots| :: client !in snapshots[k]
    ensures Included(published, snapshots, client) == []
  {
    if snapshots != [] {
      IncludedOfStranger(published, snapshots[..|snapshots| - 1], client);
    }
  }

  ghost predicate Faithful<C>(due: seq<Envelope>, published: seq<Envelope>, snapshots: seq<set<C>>, client: C) {
    forall m | m in due :: m.id < |snapshots| <= |published| && m == published[m.id] && client in snapshots[m.id]
  }

  lemma FaithfulGrows<C>(due: seq<Envelope>, published: seq<Envelope>, snapshots: seq<set<C>>, client: C)
    requires 0 < |snapshots| <= |published| && published[|snapshots| - 1].id == |snapshots| - 1
    requires Ascending(due) && Faithful(due, published, snapshots[..|snapshots| - 1], client)
    ensures Faithful(due, published, snapshots, client)
    ensures client in snapshots[|snapshots| - 1] ==>
              var more := due + [published[|snapshots| - 1]];
              Ascending(more) && Faithful(more, published, snapshots, client)
  {
    assert forall i | 0 <= i < |due| :: due[i] in due && due[i].id < |snapshots| - 1;
  }

  lemma {:induction false} IncludedIsAscending<C>(published: seq<Envelope>, snapshots: seq<set<C>>, client: C)
    requires |snapshots| <= |published|
    requires forall k | 0 <= k < |published| :: published[k].id == k
    ensures Ascending(Included(published, snapshots, client))
    ensures Faithful(Included(published, snapshots, client), published, snapshots, client)
  {
    if snapshots != [] {
      hide Ascending, Faithful;
      var n := |snapshots| - 1;
      var due := Included(published, snapshots[..n], client);
      IncludedIsAscending(published, snapshots[..n], client);
      FaithfulGrows(due, published, snapshots, client);
      assert due + [] == due;
    }
  }

  // ---- The invariant ----

  /** How many messages the deliverer has taken from the broker. */
  function Taken<C>(s: System<C>): nat {
    |s.snapshots| + if s.deliverer.Holding? then 1 else 0
  }

  /** The broker is first in, first out. */
  ghost predicate BrokerInv<C>(s: System<C>) {
    && |s.published| == Taken(s) + |s.updates|
    && (forall k | 0 <= k < |s.updates| :: s.updates[k] == s.published[Taken(s) + k])
    && |s.updates| <= BROKER_CAPACITY
    && (forall k | 0 <= k < |s.published| :: s.published[k].id == k)
    && (s.deliverer.Holding? ==> s.deliverer.envelope == s.published[|s.snapshots|])
  }

  /** The deliverer only ever names clients that were registered once. */
  ghost predicate KnownInv<C>(s: System<C>) {
    && (forall k, c | 0 <= k < |s.snapshots| && c in s.snapshots[k] :: c in s.hub.conns)
    && Pending(s.deliverer) <= s.hub.conns.Keys
    && (s.deliverer.Dropping? ==> s.deliverer.victim in s.hub.conns && s.deliverer.victim !in s.deliverer.pending)
    && (s.deliverer.Sending? || s.deliverer.Dropping? ==> s.snapshots != [])
  }

  ghost predicate Conserved<C>(s: System<C>) {
    s.hub.delivered + s.hub.dropped + |Pending(s.deliverer)| == TotalSize(s.snapshots)
  }

  /** The message in hand, if the deliverer still has to try this client. */
  function InHand<C>(s: System<C>, c: C): seq<Envelope> {
    if c in Pending(s.deliverer) && 0 < |s.snapshots| <= |s.published|
    then [s.published[|s.snapshots| - 1]] else []
  }

  /** The client is open and the deliverer has not just failed to reach it. */
  predicate InStep<C>(s: System<C>, c: C)
    requires c in s.hub.conns
  {
    !s.hub.conns[c].closed && !(s.deliverer.Dropping? && s.deliverer.victim == c)
  }

  /** A client in step has been sent all it should have got, but for the message in hand;
      any other client has been sent a prefix of it. */
  ghost predicate Tracks(got: seq<Envelope>, due: seq<Envelope>, inHand: seq<Envelope>, inStep: bool) {
    got <= due && (inStep ==> got + inHand == due)
  }

  ghost predicate TracksClient<C>(s: System<C>, c: C)
    requires c in s.hub.conns && |s.snapshots| <= |s.published|
  {
    Tracks(Envelopes(Enqueued(s.hub.conns[c])), Included(s.published, s.snapshots, c), InHand(s, c), InStep(s, c))
  }

  ghost predicate Inv<C>(s: System<C>) {
    && HubModel.Inv(s.hub)
    && BrokerInv(s)
    && KnownInv(s)
    && Conserved(s)
    && forall c | c in s.hub.conns :: TracksClient(s, c)
  }

  lemma StepKeepsHubInv<C>(s: System<C>, e: Event<C>)
    requires HubModel.Inv(s.hub) && KnownInv(s)
    ensures HubModel.Inv(Step(s, e).hub)
  {
    hide HubModel.Inv;
    match e {
      case Connect(c, userId, capacity, topics) =>
        if c !in s.hub.conns { RegisterKeepsInv(s.hub, c, userId, capacity, topics); }
      case Disconnect(c) => UnregisterKeepsInv(s.hub, c);
      case AddTopic(c, topic) => SubscribeKeepsInv(s.hub, c, topic);
      case DropTopic(c, topic) => UnsubscribeKeepsInv(s.hub, c, topic);
      case SendError(c, code) =>
        if c in s.hub.conns { FramesKeepInv(s.hub, c, Enqueue(s.hub.conns[c], Error(code))); }
      case Pump(c) =>
        if c in s.hub.conns { FramesKeepInv(s.hub, c, Drain(s.hub.conns[c])); }
      case CloseHub => CloseKeepsInv(s.hub);
      case SendTo(c) =>
        if Step(s, e) != s { HubModel.SendKeepsInv(s.hub, c, Data(s.published[|s.snapshots| - 1])); }
      case UnregisterVictim =>
        if s.deliverer.Dropping? { UnregisterKeepsInv(s.hub, s.deliverer.victim); }
      case _ =>
    }
  }

  lemma StepKeepsBrokerInv<C>(s: System<C>, e: Event<C>)
    requires BrokerInv(s) && KnownInv(s)
    ensures BrokerInv(Step(s, e))
  {
    hide KnownInv;
  }

  lemma StepKeepsKnownInv<C>(s: System<C>, e: Event<C>)
    requires HubModel.Inv(s.hub) && KnownInv(s)
    ensures KnownInv(Step(s, e))
  {
    if e.Snapshot? && s.deliverer.Holding? {
      SubscribersAreOpen(s.hub, s.deliverer.envelope.topic);
    }
    hide HubModel.Inv;
  }

  lemma StepConserves<C>(s: System<C>, e: Event<C>)
    requires KnownInv(s) && Conserved(s)
    ensures Conserved(Step(s, e))
  {
    if e.Snapshot? {
      assert Step(s, e).snapshots[..|s.snapshots|] == s.snapshots || Step(s, e) == s;
    } else {
      hide TotalSize;
      assert Conserved(Step(s, e));
    }
  }

  lemma PublishKeepsTracks<C>(s: System<C>, e: Event<C>, c: C)
    requires e.Publish? && c in s.hub.conns
    requires |s.snapshots| <= |s.published| && TracksClient(s, c)
    requires Pending(s.deliverer) == {} || s.snapshots != []
    ensures TracksClient(Step(s, e), c)
  {
    hide Envelopes, Included, AddToTopics, RemoveFromTopics;
    var t := Step(s, e);
    var more := t.published[|s.published|..];
    assert t.published == s.published + more;
    IncludedIgnoresLaterPublishes(s.published, more, s.snapshots, c);
  }

  lemma ConnectKeepsTracks<C>(s: System<C>, e: Event<C>, c: C)
    requires e.Connect? && KnownInv(s) && |s.snapshots| <= |s.published|
    requires c in s.hub.conns ==> TracksClient(s, c)
    requires c in Step(s, e).hub.conns
    ensures TracksClient(Step(s, e), c)
  {
    hide Included, Envelopes, KnownInv, AddToTopics;
    if c !in s.hub.conns { NewcomerTracks(s, e, c); }
  }

  lemma NewcomerTracks<C>(s: System<C>, e: Event<C>, c: C)
    requires e.Connect? && KnownInv(s) && |s.snapshots| <= |s.published|
    requires c !in s.hub.conns && c in Step(s, e).hub.conns
    ensures TracksClient(Step(s, e), c)
  {
    IncludedOfStranger(s.published, s.snapshots, c);
    var t := Step(s, e);
    assert Enqueued(t.hub.conns[c]) == [] && InHand(t, c) == [];
    assert t.published == s.published && t.snapshots == s.snapshots;
    hide Step, Included, KnownInv, AddToTopics, Enqueued, InHand, InStep;
  }

  lemma SnapshotKeepsTracks<C>(s: System<C>, c: C, found: set<C>)
    requires s.deliverer.Holding? && found == Subscribers(s.hub.topics, s.deliverer.envelope.topic)
    requires c in s.hub.conns && |s.snapshots| < |s.published| && TracksClient(s, c)
    requires c in found ==> !s.hub.conns[c].closed
    ensures TracksClient(Step(s, Snapshot), c)
  {
    hide Envelopes, Included, AddToTopics, RemoveFromTopics;
    IncludedOfAppend(s.published, s.snapshots, found, c);
    assert InHand(Step(s, Snapshot), c) == if c in found then [s.published[|s.snapshots|]] else [];
  }

  lemma SendKeepsTracks<C>(s: System<C>, e: Event<C>, c: C)
    requires e.SendTo? && c in s.hub.conns
    requires |s.snapshots| <= |s.published| && TracksClient(s, c)
    ensures TracksClient(Step(s, e), c)
  {
    hide Envelopes, Included, AddToTopics, RemoveFromTopics;
    var t := Step(s, e);
    if t != s {
      SentFrame(s.hub.conns[e.client], Data(s.published[|s.snapshots| - 1]));
      assert InHand(t, c) == if c == e.client then [] else InHand(s, c);
    }
  }

  lemma DropKeepsTracks<C>(s: System<C>, c: C)
    requires s.deliverer.Dropping? && c in s.hub.conns
    requires |s.snapshots| <= |s.published| && TracksClient(s, c)
    requires Step(s, UnregisterVictim).hub.conns.Keys == s.hub.conns.Keys
    requires s.deliverer.victim in s.hub.conns ==> Step(s, UnregisterVictim).hub.conns[s.deliverer.victim].closed
    ensures TracksClient(Step(s, UnregisterVictim), c)
  {
    hide Envelopes, Included, AddToTopics, RemoveFromTopics;
    assert InHand(Step(s, UnregisterVictim), c) == InHand(s, c);
  }

  lemma ClientStepKeepsTracks<C>(s: System<C>, e: Event<C>, c: C)
    requires e.Disconnect? || e.AddTopic? || e.DropTopic? || e.SendError? || e.Pump? || e.CloseHub?
    requires c in s.hub.conns && |s.snapshots| <= |s.published| && TracksClient(s, c)
    ensures TracksClient(Step(s, e), c)
  {
    hide Envelopes, Included, AddToTopics, RemoveFromTopics;
    var t := Step(s, e);
    if e.SendError? && t != s {
      SentFrame(s.hub.conns[e.client], Error(e.code));
    }
    if e.Pump? && t != s {
      assert Enqueued(t.hub.conns[e.client]) == Enqueued(s.hub.conns[e.client]);
    }
  }

  lemma StepKeepsTracks<C>(s: System<C>, e: Event<C>, c: C)
    requires Inv(s)
    requires c in Step(s, e).hub.conns && |Step(s, e).snapshots| <= |Step(s, e).published|
    ensures TracksClient(Step(s, e), c)
  {
    hide HubModel.Inv, Conserved, Tracks, Envelopes, Included, AddToTopics, RemoveFromTopics;
    match e {
      case Publish(_, _) => PublishKeepsTracks(s, e, c);
      case Connect(_, _, _, _) => ConnectKeepsTracks(s, e, c);
      case Snapshot =>
        if s.deliverer.Holding? {
          SubscribersAreOpen(s.hub, s.deliverer.envelope.topic);
          SnapshotKeepsTracks(s, c, Subscribers(s.hub.topics, s.deliverer.envelope.topic));
        }
      case SendTo(_) => SendKeepsTracks(s, e, c);
      case UnregisterVictim =>
        if s.deliverer.Dropping? {
          UnregisterKeepsInv(s.hub, s.deliverer.victim);
          DropKeepsTracks(s, c);
        }
      case CloseBroker =>
      case Take =>
      case _ => ClientStepKeepsTracks(s, e, c);
    }
  }

  lemma SentFrame(conn: Conn, frame: Frame)
    ensures Envelopes(Enqueued(Enqueue(conn, frame)))
         == Envelopes(Enqueued(conn)) + if Accepts(conn) then EnvelopeOf(frame) else []
  {
    EnvelopesOfAppend(Enqueued(conn), frame);
    assert Accepts(conn) ==> Enqueued(Enqueue(conn, frame)) == Enqueued(conn) + [frame];
  }

  lemma StepKeepsInv<C>(s: System<C>, e: Event<C>)
    requires Inv(s)
    ensures Inv(Step(s, e))
  {
    hide Step, HubModel.Inv, BrokerInv, KnownInv, Conserved, TracksClient;
    StepKeepsHubInv(s, e);
    StepKeepsBrokerInv(s, e);
    StepKeepsKnownInv(s, e);
    StepConserves(s, e);
    SnapshotsAreOfPublished(Step(s, e));
    forall c | c in Step(s, e).hub.conns ensures TracksClient(Step(s, e), c) {
      StepKeepsTracks(s, e, c);
    }
  }

  lemma SnapshotsAreOfPublished<C>(s: System<C>)
    requires BrokerInv(s)
    ensures |s.snapshots| <= |s.published|
  {
  }

  lemma InitInv<C>()
    ensures Inv(Init<C>())
  {
  }

  lemma {:induction false} RunKeepsInv<C>(es: seq<Event<C>>)
    ensures Inv(Run(es))
  {
    hide Step, Inv;
    InitInv<C>();
    if es != [] {
      RunKeepsInv(es[..|es| - 1]);
      StepKeepsInv(Run(es[..|es| - 1]), es[|es| - 1]);
    }
  }

  // ---- The promises ----

  /** No client ever sees a gap. What reached its socket, and what waits in its channel, is a
      prefix of the messages whose snapshot contained it, in publish order and without
      duplicates; an open client outside a delivery has been sent every one of them. */
  lemma NoClientSeesAGap<C>(es: seq<Event<C>>, c: C)
    requires c in Run(es).hub.conns
    ensures var s := Run(es);
            var conn := s.hub.conns[c];
            && |s.snapshots| <= |s.published|
            && var due := Included(s.published, s.snapshots, c);
            && Envelopes(conn.wire) <= Envelopes(Enqueued(conn)) <= due
            && Ascending(due)
            && (!conn.closed && (s.deliverer.Idle? || s.deliverer.Holding?) ==> Envelopes(Enqueued(conn)) == due)
  {
    RunKeepsInv(es);
    var s := Run(es);
    var conn := s.hub.conns[c];
    assert TracksClient(s, c);
    EnvelopesOfConcat(conn.wire, conn.queue);
    IncludedIsAscending(s.published, s.snapshots, c);
  }

  lemma PrefixKeepsOrder(got: seq<Envelope>, due: seq<Envelope>, x: Envelope, y: Envelope)
    requires got <= due && Ascending(due) && x in due && y in got && x.id < y.id
    ensures exists a, b :: 0 <= a < b < |got| && got[a] == x && got[b] == y
  {
    var a :| 0 <= a < |due| && due[a] == x;
    var b :| 0 <= b < |got| && got[b] == y;
    assert due[b] == y;
    assert a < b;
    assert got[a] == x;
  }

  /** The same promise said of two messages: a client that was in both snapshots and was sent
      the later message was sent the earlier one, and before it. */
  lemma EarlierArrivesFirst<C>(es: seq<Event<C>>, c: C, i: nat, j: nat)
    requires c in Run(es).hub.conns
    requires i < j < |Run(es).snapshots| <= |Run(es).published|
    requires c in Run(es).snapshots[i]
    requires Run(es).published[j] in Envelopes(Enqueued(Run(es).hub.conns[c]))
    ensures var got := Envelopes(Enqueued(Run(es).hub.conns[c]));
            exists a, b :: 0 <= a < b < |got| && got[a] == Run(es).published[i] && got[b] == Run(es).published[j]
  {
    var s := Run(es);
    NoClientSeesAGap(es, c);
    RunKeepsInv(es);
    IncludedHolds(s.published, s.snapshots, c, i);
    hide HubModel.Inv, KnownInv, Conserved, TracksClient, Envelopes, Included, Run, Ascending;
    PrefixKeepsOrder(Envelopes(Enqueued(s.hub.conns[c])), Included(s.published, s.snapshots, c),
                     s.published[i], s.published[j]);
  }

  lemma {:induction false} IncludedHolds<C>(published: seq<Envelope>, snapshots: seq<set<C>>, client: C, k: nat)
    requires k < |snapshots| <= |published| && client in snapshots[k]
    ensures published[k] in Included(published, snapshots, client)
  {
    var n := |snapshots| - 1;
    if k < n {
      IncludedHolds(published, snapshots[..n], client, k);
    }
  }

  /** A snapshot is exactly the registered clients that hold the message's topic. */
  lemma SnapshotFindsTheSubscribers<C>(es: seq<Event<C>>)
    requires Run(es).deliverer.Holding?
    ensures var s := Run(es);
            && |s.snapshots| < |s.published|
            && Step(s, Snapshot).snapshots
            == s.snapshots + [set c | c in s.hub.clients && c in s.hub.conns
                                      && s.published[|s.snapshots|].topic in s.hub.conns[c].topics]
  {
    RunKeepsInv(es);
    var s := Run(es);
    SubscribersAre(s.hub, s.deliverer.envelope.topic);
    hide Run, HubModel.Inv, KnownInv, Conserved, TracksClient;
  }

  /** After any run a client is found under a topic exactly if it is registered and holds the topic
      itself; no topic is kept without clients, no registered client is closed, and no channel
      holds more than its buffer. */
  lemma IndexHoldsInEveryRun<C>(es: seq<Event<C>>, topic: string, c: C)
    ensures var h := Run(es).hub;
            && (c in Subscribers(h.topics, topic) <==> c in h.clients && c in h.conns && topic in h.conns[c].topics)
            && (topic in h.topics ==> h.topics[topic] != {})
            && (c in h.clients ==> c in h.conns && !h.conns[c].closed)
            && (c in h.conns ==> |h.conns[c].queue| <= h.conns[c].capacity)
  {
    RunKeepsInv(es);
    hide Run, KnownInv, Conserved, TracksClient;
    IndexIsExact(Run(es).hub, topic, c);
  }

  /** Fan-out conservation, bounded queues, one close per channel, and the gauge. */
  lemma FanOutIsConserved<C>(es: seq<Event<C>>)
    ensures var s := Run(es);
            && HubModel.Inv(s.hub)
            && (s.deliverer.Idle? ==> s.hub.delivered + s.hub.dropped == TotalSize(s.snapshots))
            && Taken(s) <= |s.published| && s.published[..Taken(s)] + s.updates == s.published
            && (!s.hub.closed ==> s.hub.gauge == |s.hub.clients|)
  {
    RunKeepsInv(es);
    hide Run, KnownInv, TotalSize, TracksClient, HubModel.Indexed;
  }

  /** From `s` to `t`, a closed client's channel was neither sent to nor closed again: only the
      pump moved its frames. A closed hub stayed closed. */
  ghost predicate StaysClosed<C>(s: System<C>, t: System<C>, c: C) {
    && (s.hub.closed ==> t.hub.closed)
    && (c in s.hub.conns && s.hub.conns[c].closed ==>
          && c in t.hub.conns
          && t.hub.conns[c].closed
          && t.hub.conns[c].closings == s.hub.conns[c].closings
          && Enqueued(t.hub.conns[c]) == Enqueued(s.hub.conns[c]))
  }

  lemma StepKeepsClosed<C>(s: System<C>, e: Event<C>, c: C)
    ensures StaysClosed(s, Step(s, e), c)
  {
    hide AddToTopics, RemoveFromTopics;
  }

  lemma ClosedOneMore<C>(s: System<C>, t: System<C>, e: Event<C>, c: C)
    requires StaysClosed(s, t, c)
    ensures StaysClosed(s, Step(t, e), c)
  {
    hide Step;
    StepKeepsClosed(t, e, c);
  }

  lemma {:induction false} RunKeepsClosed<C>(es: seq<Event<C>>, more: seq<Event<C>>, c: C)
    ensures StaysClosed(Run(es), Run(es + more), c)
  {
    if more == [] {
      assert es + more == es;
    } else {
      hide Step, StaysClosed;
      var n := |more| - 1;
      RunKeepsClosed(es, more[..n], c);
      assert (es + more)[..|es| + n] == es + more[..n] && (es + more)[|es| + n] == more[n];
      assert Run(es + more) == Step(Run(es + more[..n]), more[n]);
      hide Run;
      ClosedOneMore(Run(es), Run(es + more[..n]), more[n], c);
    }
  }

  /** Closing is final for a client and for the hub, over any further run; a closed hub is empty
      and a closed channel was closed once. */
  lemma ClosedIsFinal<C>(es: seq<Event<C>>, more: seq<Event<C>>, c: C)
    ensures StaysClosed(Run(es), Run(es + more), c)
    ensures Run(es).hub.closed ==> Run(es + more).hub.clients == {} && Run(es + more).hub.topics == map[]
    ensures c in Run(es).hub.conns && Run(es).hub.conns[c].closed ==> Run(es).hub.conns[c].closings == 1
  {
    RunKeepsInv(es);
    RunKeepsInv(es + more);
    hide Run, HubModel.Inv, BrokerInv, KnownInv, Conserved, TracksClient;
    ClosedFacts(Run(es).hub, c);
    ClosedFacts(Run(es + more).hub, c);
    RunKeepsClosed(es, more, c);
  }

  /** The client is closed, or the deliverer has failed to send to it and has not moved since. */
  predicate Severed<C(==)>(s: System<C>, c: C) {
    && c in s.hub.conns
    && (s.hub.conns[c].closed || (s.deliverer.Dropping? && s.deliverer.victim == c))
  }

  function Reached<C>(s: System<C>, c: C): seq<Envelope>
    requires c in s.hub.conns
  {
    Envelopes(Enqueued(s.hub.conns[c]))
  }

  lemma DrainingKeepsEnqueued(conn: Conn)
    ensures Enqueued(Drain(conn)) == Enqueued(conn)
  {
  }

  lemma ErrorReachesVictim<C>(s: System<C>, e: Event<C>, c: C)
    requires e.SendError? && Severed(s, c)
    ensures Severed(Step(s, e), c) && Reached(Step(s, e), c) == Reached(s, c)
  {
    if e.client == c { SentFrame(s.hub.conns[c], Error(e.code)); }
    hide Envelopes, Enqueued;
  }

  /** While the deliverer stands, only its own pump and an error touch the frames of its open victim. */
  lemma VictimKeepsFrames<C>(s: System<C>, e: Event<C>, c: C)
    requires HubModel.Inv(s.hub) && Severed(s, c) && !s.hub.conns[c].closed && !e.SendError?
    ensures Severed(Step(s, e), c)
    ensures var before, after := s.hub.conns[c], Step(s, e).hub.conns[c];
            (after.wire == before.wire && after.queue == before.queue) || after == Drain(before)
  {
    hide HubModel.Indexed, AddToTopics, RemoveFromTopics, Drain, Send, Enqueue;
  }

  lemma OpenVictimStays<C>(s: System<C>, e: Event<C>, c: C)
    requires HubModel.Inv(s.hub) && Severed(s, c) && !s.hub.conns[c].closed
    ensures Severed(Step(s, e), c) && Reached(Step(s, e), c) == Reached(s, c)
  {
    hide Step, HubModel.Inv, Envelopes, Drain;
    if e.SendError? {
      ErrorReachesVictim(s, e, c);
    } else {
      VictimKeepsFrames(s, e, c);
      DrainingKeepsEnqueued(s.hub.conns[c]);
    }
  }

  lemma StepKeepsSevered<C>(s: System<C>, e: Event<C>, c: C)
    requires HubModel.Inv(s.hub) && Severed(s, c)
    ensures Severed(Step(s, e), c) && Reached(Step(s, e), c) == Reached(s, c)
  {
    if s.hub.conns[c].closed { StepKeepsClosed(s, e, c); } else { OpenVictimStays(s, e, c); }
    hide Step, HubModel.Inv, Enqueued, Envelopes;
  }

  lemma {:induction false} RunKeepsSevered<C>(es: seq<Event<C>>, more: seq<Event<C>>, c: C)
    requires Severed(Run(es), c)
    ensures Severed(Run(es + more), c) && Reached(Run(es + more), c) == Reached(Run(es), c)
  {
    hide Step, Severed, Reached, HubModel.Inv, BrokerInv, KnownInv, Conserved, TracksClient;
    if more == [] {
      assert es + more == es;
    } else {
      var n := |more| - 1;
      var t := Run(es + more[..n]);
      RunKeepsSevered(es, more[..n], c);
      RunKeepsInv(es + more[..n]);
      assert (es + more)[..|es| + n] == es + more[..n];
      assert Run(es + more) == Step(t, more[n]);
      hide Run;
      StepKeepsSevered(t, more[n], c);
    }
  }

  /** From the first failed send to a client on, no topic message reaches it, whatever happens: the
      messages enqueued to it are the same after any further run. */
  lemma FirstFailureIsTheLast<C>(es: seq<Event<C>>, more: seq<Event<C>>, c: C)
    requires Run(es).deliverer.Dropping? && Run(es).deliverer.victim == c
    ensures c in Run(es).hub.conns && c in Run(es + more).hub.conns
    ensures Reached(Run(es + more), c) == Reached(Run(es), c)
  {
    hide Run, Reached, HubModel.Inv, BrokerInv, Conserved, TracksClient;
    RunKeepsInv(es);
    RunKeepsSevered(es, more, c);
  }

  /** And it is closed as soon as the deliverer moves on. */
  lemma VictimIsClosed<C>(es: seq<Event<C>>)
    requires Run(es).deliverer.Dropping?
    ensures var victim := Run(es).deliverer.victim;
            var next := Run(es + [UnregisterVictim]);
            victim in next.hub.conns && next.hub.conns[victim].closed && victim !in next.hub.clients
  {
    hide HubModel.Inv, BrokerInv, Conserved, TracksClient;
    RunKeepsInv(es);
    var s := Run(es);
    assert (es + [UnregisterVictim])[..|es|] == es;
    UnregisterKeepsInv(s.hub, s.deliverer.victim);
  }
}
