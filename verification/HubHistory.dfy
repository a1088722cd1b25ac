/** What the calls so far say of one client of the hub, and that every message published can be
    brought to the clients that were found for it. */
module HubHistory {
  import opened Common
  import opened HubModel
  import opened HubRuns

  // ---- What one call does ----

  /** Between two states of the hub only this client and the topics of `moved` have changed. */
  ghost predicate OnlyClient<C>(h: HubState<C>, s: HubState<C>, client: C, moved: set<string>) {
    && s.closed == h.closed && s.delivered == h.delivered && s.dropped == h.dropped
    && s.conns - {client} == h.conns - {client} && s.clients - {client} == h.clients - {client}
    && (forall t :: Subscribers(s.topics, t) - {client} == Subscribers(h.topics, t) - {client})
    && (forall t | t !in moved :: Subscribers(s.topics, t) == Subscribers(h.topics, t))
  }

  /** A registered client holds the topic afterwards and is found under it; nothing else changes. */
  lemma SubscribeSubscribes<C>(h: HubState<C>, client: C, topic: string)
    requires HubModel.Inv(h)
    ensures var s := Subscribe(h, client, topic);
            && (client !in h.clients ==> s == h)
            && (client in h.clients ==>
                  && OnlyClient(h, s, client, {topic}) && client in s.conns
                  && s.conns[client] == h.conns[client].(topics := h.conns[client].topics + {topic})
                  && s.clients == h.clients && s.gauge == h.gauge
                  && client in Subscribers(s.topics, topic))
  {
  }

  lemma UnsubscribeUnsubscribes<C>(h: HubState<C>, client: C, topic: string)
    requires HubModel.Inv(h)
    ensures var s := Unsubscribe(h, client, topic);
            && (client !in h.clients ==> s == h)
            && (client in h.clients ==>
                  && OnlyClient(h, s, client, {topic}) && client in s.conns
                  && s.conns[client] == h.conns[client].(topics := h.conns[client].topics - {topic})
                  && s.clients == h.clients && s.gauge == h.gauge
                  && client !in Subscribers(s.topics, topic))
  {
  }

  /** A new client is found under each of its topics, unless the hub is closed: then it is closed. */
  lemma RegisterRegisters<C>(h: HubState<C>, client: C, conn: Conn)
    requires HubModel.Inv(h) && client !in h.conns && !conn.closed
    ensures var s := Register(h, client, conn);
            && OnlyClient(h, s, client, conn.topics) && client in s.conns
            && (client in s.clients <==> !h.closed)
            && (!h.closed ==> s.conns[client] == conn && s.gauge == h.gauge + 1)
            && (h.closed ==> s.conns[client] == conn.(closed := true, closings := conn.closings + 1))
            && (forall t :: client in Subscribers(s.topics, t) <==> !h.closed && t in conn.topics)
  {
    forall t ensures client !in Subscribers(h.topics, t) { IndexIsExact(h, t, client); }
    assert h.closed ==> h.clients == {};
    hide HubModel.Indexed, ConnInv;
    AddingAdds(h.topics, client, conn.topics);
    hide AddToTopics, Subscribers;
  }

  lemma AddingAdds<C>(topics: map<string, set<C>>, client: C, added: set<string>)
    requires forall t :: client !in Subscribers(topics, t)
    ensures var after := AddToTopics(topics, client, added);
            && (forall t :: client in Subscribers(after, t) <==> t in added)
            && (forall t :: Subscribers(after, t) - {client} == Subscribers(topics, t) - {client})
            && (forall t | t !in added :: Subscribers(after, t) == Subscribers(topics, t))
  {
    var after := AddToTopics(topics, client, added);
    forall t ensures Subscribers(after, t) == Subscribers(topics, t) + if t in added then {client} else {} {
    }
    hide AddToTopics, Subscribers;
    forall t ensures Subscribers(after, t) - {client} == Subscribers(topics, t) - {client} {
    }
  }

  /** A registered client is gone from all its topics and closed; what waits for it still does. */
  lemma UnregisterUnregisters<C>(h: HubState<C>, client: C)
    requires HubModel.Inv(h)
    ensures var s := Unregister(h, client);
            && (client !in h.clients ==> s == h)
            && (client in h.clients ==>
                  && OnlyClient(h, s, client, h.conns[client].topics)
                  && client !in s.clients && client in s.conns && s.gauge == h.gauge - 1
                  && s.conns[client] == h.conns[client].(closed := true, closings := h.conns[client].closings + 1)
                  && forall t :: client !in Subscribers(s.topics, t))
  {
  }

  /** Everybody registered is closed, with what waits for him, and nobody is found any more. */
  lemma CloseCloses<C>(h: HubState<C>)
    requires HubModel.Inv(h)
    ensures var s := Close(h);
            && s.closed && s.clients == {} && s.topics == map[] && s.conns.Keys == h.conns.Keys
            && s.gauge == h.gauge && s.delivered == h.delivered && s.dropped == h.dropped
            && forall c | c in h.conns ::
                 s.conns[c] == if c in h.clients
                               then h.conns[c].(closed := true, closings := h.conns[c].closings + 1)
                               else h.conns[c]
  {
  }

  // ---- What the calls so far say of one client ----

  datatype Member = Member(userId: string, capacity: nat, topics: set<string>)

  ghost predicate Connected<C>(es: seq<Event<C>>, c: C) {
    exists e :: e in es && e.Connect? && e.client == c
  }

  /** What ends a registration: the connection, the hub, or a send that failed. */
  ghost predicate Leaves<C>(s: System<C>, e: Event<C>, c: C) {
    || e.CloseHub?
    || (e.Disconnect? && e.client == c)
    || (e.UnregisterVictim? && s.deliverer.Dropping? && s.deliverer.victim == c)
  }

  /** The registration of a client, from its own calls only. */
  ghost function MemberAfter<C>(es: seq<Event<C>>, c: C): Option<Member> {
    if es == [] then None
    else
      var n := |es| - 1;
      var e, before := es[n], MemberAfter(es[..n], c);
      if Leaves(Run(es[..n]), e, c) then None
      else match e
        case Connect(client, userId, capacity, topics) =>
          if client != c || Connected(es[..n], c) then before
          else if CloseHub in es[..n] then None
          else Some(Member(userId, capacity, topics))
        case AddTopic(client, topic) =>
          if client == c && before.Some? then Some(before.value.(topics := before.value.topics + {topic})) else before
        case DropTopic(client, topic) =>
          if client == c && before.Some? then Some(before.value.(topics := before.value.topics - {topic})) else before
        case _ => before
  }

  ghost predicate Follows<C>(h: HubState<C>, c: C, m: Option<Member>) {
    && (c in h.clients <==> m.Some?)
    && (m.Some? ==>
          && c in h.conns && h.conns[c].userId == m.value.userId && h.conns[c].capacity == m.value.capacity
          && h.conns[c].topics == m.value.topics)
    && (forall t :: c in Subscribers(h.topics, t) <==> m.Some? && t in m.value.topics)
  }

  lemma StepKnows<C>(s: System<C>, e: Event<C>, c: C)
    requires HubModel.Inv(s.hub)
    ensures c in Step(s, e).hub.conns <==> c in s.hub.conns || (e.Connect? && e.client == c)
    ensures Step(s, e).hub.closed <==> s.hub.closed || e.CloseHub?
  {
    hide HubModel.Inv, AddToTopics, RemoveFromTopics;
  }

  lemma OthersFollow<C>(h: HubState<C>, s: HubState<C>, client: C, moved: set<string>, c: C, m: Option<Member>)
    requires OnlyClient(h, s, client, moved) && c != client && Follows(h, c, m)
    ensures Follows(s, c, m)
  {
    assert c in s.clients <==> c in s.clients - {client};
    assert c in h.clients <==> c in h.clients - {client};
    if m.Some? { assert c in h.conns - {client} && (s.conns - {client})[c] == h.conns[c]; }
    hide Subscribers;
    forall t ensures c in Subscribers(s.topics, t) <==> c in Subscribers(h.topics, t) {
      assert c in Subscribers(s.topics, t) <==> c in Subscribers(s.topics, t) - {client};
      assert c in Subscribers(h.topics, t) <==> c in Subscribers(h.topics, t) - {client};
    }
  }

  /** Only frames have moved. */
  ghost predicate SameMembers<C>(h: HubState<C>, s: HubState<C>) {
    && s.clients == h.clients && s.topics == h.topics && s.conns.Keys == h.conns.Keys
    && forall d | d in h.conns ::
         && s.conns[d].userId == h.conns[d].userId && s.conns[d].capacity == h.conns[d].capacity
         && s.conns[d].topics == h.conns[d].topics
  }

  predicate MovesFrames<C>(e: Event<C>) {
    e.Publish? || e.CloseBroker? || e.SendError? || e.Pump? || e.Take? || e.Snapshot? || e.SendTo?
  }

  lemma FramesMove<C>(s: System<C>, e: Event<C>)
    requires MovesFrames(e)
    ensures SameMembers(s.hub, Step(s, e).hub)
  {
    hide Register, Unregister, Subscribe, Unsubscribe, Close, Subscribers;
  }

  lemma SameMembersFollow<C>(h: HubState<C>, s: HubState<C>, c: C, m: Option<Member>)
    requires SameMembers(h, s) && Follows(h, c, m)
    ensures Follows(s, c, m)
  {
    hide Subscribers;
  }

  lemma UnregisteringFollows<C>(h: HubState<C>, client: C, c: C, m: Option<Member>)
    requires HubModel.Inv(h) && Follows(h, c, m)
    ensures Follows(Unregister(h, client), c, if client == c then None else m)
  {
    UnregisterUnregisters(h, client);
    hide HubModel.Inv, Unregister, Subscribers;
    if client != c && client in h.clients {
      OthersFollow(h, Unregister(h, client), client, h.conns[client].topics, c, m);
    }
    hide OnlyClient;
  }

  lemma SubscribingFollows<C>(h: HubState<C>, client: C, topic: string, c: C, m: Option<Member>)
    requires HubModel.Inv(h) && Follows(h, c, m)
    ensures Follows(Subscribe(h, client, topic), c,
                    if client == c && m.Some? then Some(m.value.(topics := m.value.topics + {topic})) else m)
  {
    SubscribeSubscribes(h, client, topic);
    hide HubModel.Inv, Subscribe, Subscribers;
    if client != c && client in h.clients { OthersFollow(h, Subscribe(h, client, topic), client, {topic}, c, m); }
  }

  lemma UnsubscribingFollows<C>(h: HubState<C>, client: C, topic: string, c: C, m: Option<Member>)
    requires HubModel.Inv(h) && Follows(h, c, m)
    ensures Follows(Unsubscribe(h, client, topic), c,
                    if client == c && m.Some? then Some(m.value.(topics := m.value.topics - {topic})) else m)
  {
    UnsubscribeUnsubscribes(h, client, topic);
    hide HubModel.Inv, Unsubscribe, Subscribers;
    if client != c && client in h.clients { OthersFollow(h, Unsubscribe(h, client, topic), client, {topic}, c, m); }
  }

  lemma RegisteringFollows<C>(h: HubState<C>, client: C, conn: Conn, c: C, m: Option<Member>)
    requires HubModel.Inv(h) && client !in h.conns && !conn.closed
    requires Follows(h, c, m)
    ensures Follows(Register(h, client, conn), c,
                    if client != c then m
                    else if h.closed then None else Some(Member(conn.userId, conn.capacity, conn.topics)))
  {
    RegisterRegisters(h, client, conn);
    hide HubModel.Inv, Register, Subscribers;
    if client != c { OthersFollow(h, Register(h, client, conn), client, conn.topics, c, m); }
    hide OnlyClient;
  }

  lemma StepFollows<C>(s: System<C>, e: Event<C>, c: C, m: Option<Member>)
    requires HubModel.Inv(s.hub) && Follows(s.hub, c, m)
    requires !(e.Connect? && e.client == c)
    ensures var h := Step(s, e).hub;
            if Leaves(s, e, c) then Follows(h, c, None)
            else if e.AddTopic? && e.client == c && m.Some?
            then Follows(h, c, Some(m.value.(topics := m.value.topics + {e.topic})))
            else if e.DropTopic? && e.client == c && m.Some?
            then Follows(h, c, Some(m.value.(topics := m.value.topics - {e.topic})))
            else Follows(h, c, m)
  {
    hide HubModel.Inv, Follows, Register, Unregister, Subscribe, Unsubscribe, Close, SameMembers;
    if MovesFrames(e) {
      FramesMove(s, e);
      SameMembersFollow(s.hub, Step(s, e).hub, c, m);
      hide Step;
    } else {
      match e {
        case Connect(client, userId, capacity, topics) =>
          if client !in s.hub.conns { RegisteringFollows(s.hub, client, NewConn(userId, capacity, topics), c, m); }
        case Disconnect(client) => UnregisteringFollows(s.hub, client, c, m);
        case AddTopic(client, topic) => SubscribingFollows(s.hub, client, topic, c, m);
        case DropTopic(client, topic) => UnsubscribingFollows(s.hub, client, topic, c, m);
        case UnregisterVictim =>
          if s.deliverer.Dropping? { UnregisteringFollows(s.hub, s.deliverer.victim, c, m); }
        case CloseHub => ClosedFollows(s.hub, c);
        case _ =>
      }
    }
  }

  lemma ClosedFollows<C>(h: HubState<C>, c: C)
    requires HubModel.Inv(h)
    ensures Follows(Close(h), c, None)
  {
  }

  lemma JoinFollows<C>(s: System<C>, e: Event<C>, c: C)
    requires HubModel.Inv(s.hub) && e.Connect? && e.client == c && c !in s.hub.conns
    ensures Follows(Step(s, e).hub, c,
                    if s.hub.closed then None else Some(Member(e.userId, e.capacity, e.topics)))
  {
    UnknownFollows(s.hub, c);
    hide HubModel.Inv, Follows, Register;
    RegisteringFollows(s.hub, c, NewConn(e.userId, e.capacity, e.topics), c, None);
  }

  lemma UnknownFollows<C>(h: HubState<C>, c: C)
    requires HubModel.Inv(h) && c !in h.conns
    ensures Follows(h, c, None)
  {
    forall t ensures c !in Subscribers(h.topics, t) { IndexIsExact(h, t, c); }
    hide HubModel.Indexed;
  }

  lemma RunOneMore<C>(es: seq<Event<C>>, e: Event<C>)
    ensures Run(es + [e]) == Step(Run(es), e)
  {
    hide Step;
    assert (es + [e])[..|es|] == es;
  }

  lemma NothingKnown<C>(c: C)
    ensures c !in Run<C>([]).hub.conns && !Run<C>([]).hub.closed && !Connected([], c)
  {
  }

  lemma {:induction false} KnownByCalls<C>(es: seq<Event<C>>, c: C)
    ensures c in Run(es).hub.conns <==> Connected(es, c)
    ensures Run(es).hub.closed <==> CloseHub in es
  {
    hide Run, Step, HubModel.Inv, BrokerInv, KnownInv, Conserved, TracksClient, Connected;
    if es == [] {
      NothingKnown(c);
    } else {
      var rest, e := es[..|es| - 1], es[|es| - 1];
      KnownByCalls(rest, c);
      RunOneMore(rest, e);
      RunKeepsInv(rest);
      StepKnows(Run(rest), e, c);
      ConnectedOneMore(rest, e, c);
      assert rest + [e] == es;
    }
  }

  lemma ConnectedOneMore<C>(es: seq<Event<C>>, e: Event<C>, c: C)
    ensures Connected(es + [e], c) <==> Connected(es, c) || (e.Connect? && e.client == c)
    ensures CloseHub in es + [e] <==> CloseHub in es || e.CloseHub?
  {
    assert e in es + [e];
    if x :| x in es && x.Connect? && x.client == c { assert x in es + [e]; }
  }

  /** In every run the hub knows of each client exactly what its own calls say: it is registered, with
      its user and its buffer, from its first connection to an open hub until it leaves, and is found
      under exactly the topics it came with or added and has not dropped since. */
  lemma {:induction false} HubFollowsTheCalls<C>(es: seq<Event<C>>, c: C)
    ensures Follows(Run(es).hub, c, MemberAfter(es, c))
  {
    hide Step, HubModel.Inv, BrokerInv, KnownInv, Conserved, TracksClient, Follows, Connected;
    if es == [] {
      NobodyFollows(c);
    } else {
      var n := |es| - 1;
      var s, e := Run(es[..n]), es[n];
      HubFollowsTheCalls(es[..n], c);
      KnownByCalls(es[..n], c);
      RunKeepsInv(es[..n]);
      if e.Connect? && e.client == c {
        if c in s.hub.conns { AgainChangesNothing(s, e); } else { JoinFollows(s, e, c); }
        hide Leaves;
      } else {
        StepFollows(s, e, c, MemberAfter(es[..n], c));
        hide Leaves;
      }
    }
  }

  lemma NobodyFollows<C>(c: C)
    ensures Follows(HubRuns.Init<C>().hub, c, None)
  {
  }

  lemma AgainChangesNothing<C>(s: System<C>, e: Event<C>)
    requires e.Connect? && e.client in s.hub.conns
    ensures Step(s, e) == s
  {
  }

  // ---- A subscription over a run ----

  /** Nothing in these further calls ends the client's registration or drops the topic. */
  ghost predicate Undisturbed<C>(es: seq<Event<C>>, more: seq<Event<C>>, c: C, topic: string) {
    forall k: nat | k < |more| :: !Leaves(Run(es + more[..k]), more[k], c) && more[k] != DropTopic(c, topic)
  }

  lemma {:induction false} MemberKeepsTopic<C>(es: seq<Event<C>>, more: seq<Event<C>>, c: C, topic: string)
    requires Undisturbed(es, more, c, topic)
    requires MemberAfter(es, c).Some? && topic in MemberAfter(es, c).value.topics
    requires Connected(es, c)
    ensures MemberAfter(es + more, c).Some? && topic in MemberAfter(es + more, c).value.topics
    ensures Connected(es + more, c)
  {
    if more == [] {
      assert es + more == es;
    } else {
      hide Undisturbed, Leaves, Connected, MemberAfter, Run;
      var rest, e := more[..|more| - 1], more[|more| - 1];
      assert more == rest + [e];
      UndisturbedBefore(es, rest, e, c, topic);
      MemberKeepsTopic(es, rest, c, topic);
      MemberStays(es + rest, e, c, topic);
      Associates(es, rest, [e]);
    }
  }

  lemma UndisturbedBefore<C>(es: seq<Event<C>>, rest: seq<Event<C>>, e: Event<C>, c: C, topic: string)
    requires Undisturbed(es, rest + [e], c, topic)
    ensures Undisturbed(es, rest, c, topic)
    ensures !Leaves(Run(es + rest), e, c) && e != DropTopic(c, topic)
  {
    hide Leaves, Run;
    var more := rest + [e];
    assert more[..|rest|] == rest && more[|rest|] == e;
    forall k: nat | k < |rest| ensures !Leaves(Run(es + rest[..k]), rest[k], c) && rest[k] != DropTopic(c, topic) {
      assert more[..k] == rest[..k] && more[k] == rest[k];
    }
  }

  lemma MemberStays<C>(es: seq<Event<C>>, e: Event<C>, c: C, topic: string)
    requires Connected(es, c) && !Leaves(Run(es), e, c) && e != DropTopic(c, topic)
    requires MemberAfter(es, c).Some? && topic in MemberAfter(es, c).value.topics
    ensures var m := MemberAfter(es + [e], c); m.Some? && topic in m.value.topics
    ensures Connected(es + [e], c)
  {
    hide Leaves, Run, Connected;
    ConnectedOneMore(es, e, c);
    var all := es + [e];
    assert all[..|all| - 1] == es;
  }

  /** After a registered client has subscribed, every snapshot for the topic holds it, until it drops
      the topic, disconnects, is dropped for want of room, or the hub closes. */
  lemma SubscriberIsInEverySnapshot<C>(es: seq<Event<C>>, more: seq<Event<C>>, c: C, topic: string)
    requires c in Run(es).hub.clients && Undisturbed(es + [AddTopic(c, topic)], more, c, topic)
    ensures var s := Run(es + [AddTopic(c, topic)] + more);
            && c in s.hub.clients && c in Subscribers(s.hub.topics, topic)
            && (s.deliverer.Holding? ==>
                  && |s.snapshots| < |s.published|
                  && (s.published[|s.snapshots|].topic == topic ==>
                        var found := Step(s, Snapshot).snapshots;
                        |found| == |s.snapshots| + 1 && c in found[|s.snapshots|]))
  {
    var added := es + [AddTopic(c, topic)];
    HubFollowsTheCalls(es, c);
    KnownByCalls(es, c);
    assert added[..|es|] == es;
    ConnectedOneMore(es, AddTopic(c, topic), c);
    hide Connected, Leaves;
    assert MemberAfter(added, c).Some? && topic in MemberAfter(added, c).value.topics by { MemberAdds(es, c, topic); }
    hide MemberAfter, Undisturbed;
    MemberKeepsTopic(added, more, c, topic);
    HubFollowsTheCalls(added + more, c);
    HolderIsFound(added + more, c, topic);
  }

  lemma MemberAdds<C>(es: seq<Event<C>>, c: C, topic: string)
    requires MemberAfter(es, c).Some?
    ensures var m := MemberAfter(es + [AddTopic(c, topic)], c); m.Some? && topic in m.value.topics
  {
    var added := es + [AddTopic(c, topic)];
    assert added[..|added| - 1] == es;
  }

  lemma HolderIsFound<C>(es: seq<Event<C>>, c: C, topic: string)
    requires var h := Run(es).hub; c in h.clients && c in h.conns && topic in h.conns[c].topics
    ensures var s := Run(es);
            s.deliverer.Holding? ==>
              && |s.snapshots| < |s.published|
              && (s.published[|s.snapshots|].topic == topic ==>
                    var found := Step(s, Snapshot).snapshots;
                    |found| == |s.snapshots| + 1 && c in found[|s.snapshots|])
  {
    hide Run, Step;
    if Run(es).deliverer.Holding? { SnapshotFindsTheSubscribers(es); }
  }
}
