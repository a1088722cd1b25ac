/** Messages move: what is published is accepted, the deliverer never gets stuck, and the write pumps
    bring everything to the sockets. */
module HubProgress {
  import opened Common
  import opened HubModel
  import opened HubRuns
  import opened HubHistory

  // ---- Accepting ----

  lemma {:induction false} BrokerClosedByCall<C>(es: seq<Event<C>>)
    ensures Run(es).brokerClosed <==> CloseBroker in es
  {
    if es != [] {
      var rest, e := es[..|es| - 1], es[|es| - 1];
      BrokerClosedByCall(rest);
      assert rest + [e] == es;
      assert Run(es) == Step(Run(rest), e);
      hide Run;
      BrokerMoves(Run(rest), e);
      hide Step;
    }
  }

  lemma BrokerMoves<C>(s: System<C>, e: Event<C>)
    ensures Step(s, e).brokerClosed <==> s.brokerClosed || e.CloseBroker?
  {
  }

  /** A message is published exactly while the broker is open and has room, as it was given and behind
      all before it; nothing else changes. */
  lemma PublishedIsAccepted<C>(es: seq<Event<C>>, topic: string, data: string)
    ensures var s, t := Run(es), Run(es + [Publish(topic, data)]);
            && (if CloseBroker !in es && |s.updates| < 4096
                then && t.published == s.published + [Envelope(|s.published|, topic, data)]
                     && t.updates == s.updates + [Envelope(|s.published|, topic, data)]
                else t == s)
            && t.hub == s.hub && t.snapshots == s.snapshots && t.deliverer == s.deliverer
  {
    BrokerClosedByCall(es);
    RunOneMore(es, Publish(topic, data));
    hide Run;
  }

  /** An error frame waits behind all that waits for the client, if it is open and has room. */
  lemma ErrorIsQueued<C>(es: seq<Event<C>>, c: C, code: string)
    requires c in Run(es).hub.conns
    ensures var s, t := Run(es), Run(es + [SendError(c, code)]);
            var conn := s.hub.conns[c];
            if conn.closed || |conn.queue| >= conn.capacity then t == s
            else t == s.(hub := s.hub.(conns := s.hub.conns[c := conn.(queue := conn.queue + [Error(code)])]))
  {
    RunOneMore(es, SendError(c, code));
    var s := Run(es);
    assert s.hub.conns[c := s.hub.conns[c]] == s.hub.conns;
    hide Run;
  }

  // ---- Delivering ----

  predicate Moves<C>(e: Event<C>) {
    e.Take? || e.Snapshot? || e.SendTo? || e.UnregisterVictim? || e.Pump?
  }

  lemma {:induction false} SendsToSomebody<C>(es: seq<Event<C>>)
    ensures Run(es).deliverer.Sending? ==> Run(es).deliverer.pending != {}
  {
    if es != [] {
      var rest, e := es[..|es| - 1], es[|es| - 1];
      SendsToSomebody(rest);
      assert Run(es) == Step(Run(rest), e);
      hide Run;
      StillSomebody(Run(rest), e);
      hide Step;
    }
  }

  lemma StillSomebody<C>(s: System<C>, e: Event<C>)
    requires s.deliverer.Sending? ==> s.deliverer.pending != {}
    ensures Step(s, e).deliverer.Sending? ==> Step(s, e).deliverer.pending != {}
  {
    hide Register, Unregister, Subscribe, Unsubscribe, Close, Send;
  }

  /** A send to an open client with room reaches it, behind all that waits; any other makes it the victim. */
  lemma SendReachesTheOpen<C>(es: seq<Event<C>>, c: C)
    requires var d := Run(es).deliverer; d.Sending? && c in d.pending
    ensures var s, t := Run(es), Run(es + [SendTo(c)]);
            && c in s.hub.conns && 0 < |s.snapshots| <= |s.published|
            && var conn := s.hub.conns[c];
            if !conn.closed && |conn.queue| < conn.capacity
            then && t.hub == s.hub.(conns := s.hub.conns[c := conn.(
                                      queue := conn.queue + [Data(s.published[|s.snapshots| - 1])])],
                                    delivered := s.hub.delivered + 1)
                 && t.deliverer == SendRest(s.deliverer.pending - {c})
            else && t.hub == s.hub.(dropped := s.hub.dropped + 1)
                 && t.deliverer == Dropping(c, s.deliverer.pending - {c})
  {
    RunKeepsInv(es);
    RunOneMore(es, SendTo(c));
    hide Run, HubModel.Inv, Conserved, TracksClient;
  }

  predicate Done<C>(s: System<C>) {
    s.deliverer.Idle? && s.updates == []
  }

  function Phase<C>(d: Deliverer<C>): nat {
    match d
    case Idle => 0
    case Holding(_) => 3
    case Sending(_) => 1
    case Dropping(_, _) => 2
  }

  /** Fewer messages in the broker, or as many and the one in hand found its clients, or fewer clients
      to go, or as many and the last failure dealt with. */
  ghost predicate Nearer<C>(s: System<C>, t: System<C>) {
    var before, after := |Pending(s.deliverer)|, |Pending(t.deliverer)|;
    || |t.updates| < |s.updates|
    || (&& |t.updates| == |s.updates| && !t.deliverer.Holding?
        && (|| s.deliverer.Holding? || after < before
            || (after == before && Phase(t.deliverer) < Phase(s.deliverer))))
  }

  /** Nobody who is open, and has not just failed to be reached, is closed, unless he has no buffer. */
  ghost predicate Spares<C>(s: System<C>, t: System<C>) {
    forall c | c in s.hub.conns ::
      && c in t.hub.conns && t.hub.conns[c].capacity == s.hub.conns[c].capacity
      && (InStep(s, c) && s.hub.conns[c].capacity > 0 ==> InStep(t, c))
  }

  ghost predicate Proceeds<C>(s: System<C>, t: System<C>) {
    Nearer(s, t) && Spares(s, t) && t.published == s.published
  }

  lemma OneMoveProceeds<C>(s: System<C>, e: Event<C>)
    requires BrokerInv(s) && KnownInv(s) && !Done(s)
    requires match s.deliverer
             case Idle => e == Take
             case Holding(_) => e == Snapshot
             case Sending(_) => false
             case Dropping(_, _) => e == UnregisterVictim
    ensures Proceeds(s, Step(s, e))
  {
    hide RemoveFromTopics;
  }

  function Pumped(conn: Conn): Conn {
    conn.(queue := [], wire := conn.wire + conn.queue)
  }

  function PumpedState<C>(s: System<C>, c: C): System<C>
    requires c in s.hub.conns
  {
    s.(hub := s.hub.(conns := s.hub.conns[c := Pumped(s.hub.conns[c])]))
  }

  lemma SendProceeds<C>(s: System<C>, c: C)
    requires BrokerInv(s) && KnownInv(s) && s.deliverer.Sending? && c in s.deliverer.pending && c in s.hub.conns
    ensures Proceeds(s, Step(PumpedState(s, c), SendTo(c)))
  {
    assert |s.deliverer.pending - {c}| < |s.deliverer.pending|;
  }

  lemma PumpedOnce<C>(s: System<C>, c: C)
    requires c in s.hub.conns && s.hub.conns[c].queue != []
    ensures var t := Step(s, Pump(c));
            && c in t.hub.conns && |t.hub.conns[c].queue| == |s.hub.conns[c].queue| - 1
            && PumpedState(t, c) == PumpedState(s, c)
  {
    var conn := s.hub.conns[c];
    assert conn.wire + [conn.queue[0]] + conn.queue[1..] == conn.wire + conn.queue;
    assert Pumped(Drain(conn)) == Pumped(conn);
  }

  /** The pump alone empties a channel, first in, first out. */
  lemma {:induction false} PumpsEmpty<C>(es: seq<Event<C>>, c: C, n: nat) returns (more: seq<Event<C>>)
    requires c in Run(es).hub.conns && n == |Run(es).hub.conns[c].queue|
    ensures forall k | 0 <= k < |more| :: more[k] == Pump(c)
    ensures Run(es + more) == PumpedState(Run(es), c)
    decreases n
  {
    var s := Run(es);
    var conn := s.hub.conns[c];
    if n == 0 {
      more := [];
      assert es + more == es;
      assert Pumped(conn) == conn && s.hub.conns[c := conn] == s.hub.conns;
      hide Run;
    } else {
      RunOneMore(es, Pump(c));
      hide Run;
      PumpedOnce(s, c);
      hide Step, PumpedState;
      var rest := PumpsEmpty(es + [Pump(c)], c, n - 1);
      more := [Pump(c)] + rest;
      assert es + more == es + [Pump(c)] + rest;
    }
  }

  /** As long as something is left to do, the deliverer can go on; before it sends to a client, that
      client's pump may run. */
  lemma NextMoves<C>(es: seq<Event<C>>) returns (moves: seq<Event<C>>)
    requires !Done(Run(es))
    ensures (forall k | 0 <= k < |moves| :: Moves(moves[k])) && Proceeds(Run(es), Run(es + moves))
  {
    RunKeepsInv(es);
    SendsToSomebody(es);
    hide Run, HubModel.Inv, BrokerInv, Conserved, TracksClient, Proceeds, Step;
    var s := Run(es);
    if s.deliverer.Sending? {
      var c :| c in s.deliverer.pending;
      var pumps := PumpsEmpty(es, c, |s.hub.conns[c].queue|);
      moves := pumps + [SendTo(c)];
      RunOneMore(es + pumps, SendTo(c));
      assert es + moves == es + pumps + [SendTo(c)];
      SendProceeds(s, c);
    } else {
      var e := if s.deliverer.Idle? then Take else if s.deliverer.Holding? then Snapshot else UnregisterVictim;
      moves := [e];
      RunOneMore(es, e);
      OneMoveProceeds(s, e);
    }
  }

  lemma SparesTwice<C>(s: System<C>, t: System<C>, u: System<C>)
    requires Spares(s, t) && Spares(t, u)
    ensures Spares(s, u)
  {
  }

  lemma NothingToDo<C>(es: seq<Event<C>>)
    requires Done(Run(es))
    ensures |Run(es).snapshots| == |Run(es).published| && Spares(Run(es), Run(es))
  {
    RunKeepsInv(es);
    hide Run, HubModel.Inv, Conserved, TracksClient;
  }

  /** After any run the deliverer can go on until every message published has found its clients and has
      been handed to them, and none of them need be dropped. */
  lemma DelivererFinishes<C>(es: seq<Event<C>>) returns (more: seq<Event<C>>)
    ensures forall k | 0 <= k < |more| :: Moves(more[k])
    ensures var s, t := Run(es), Run(es + more);
            Done(t) && t.published == s.published && |t.snapshots| == |t.published| && Spares(s, t)
    decreases |Run(es).updates|, Run(es).deliverer.Holding?, |Pending(Run(es).deliverer)|, Phase(Run(es).deliverer)
  {
    hide Run, Spares, Done, Moves;
    if Done(Run(es)) {
      more := [];
      assert es + more == es;
      NothingToDo(es);
    } else {
      var moves := NextMoves(es);
      assert Nearer(Run(es), Run(es + moves));
      var rest := DelivererFinishes(es + moves);
      more := moves + rest;
      assert es + more == es + moves + rest;
      SparesTwice(Run(es), Run(es + moves), Run(es + more));
    }
  }

  /** After any run, deliverer and pumps alone can bring to an open client with a buffer every message
      published so far whose snapshot holds it, in order and once, and leave it open. */
  lemma EverythingCanArrive<C>(es: seq<Event<C>>, c: C) returns (more: seq<Event<C>>)
    requires c in Run(es).hub.conns && InStep(Run(es), c) && Run(es).hub.conns[c].capacity > 0
    ensures forall k | 0 <= k < |more| :: Moves(more[k])
    ensures var s, t := Run(es), Run(es + more);
            && Done(t) && t.published == s.published && |t.snapshots| == |t.published|
            && c in t.hub.conns && !t.hub.conns[c].closed
            && Envelopes(t.hub.conns[c].wire) == Included(t.published, t.snapshots, c)
  {
    var moves := DelivererFinishes(es);
    hide Run;
    var delivered := es + moves;
    var pumps := PumpsEmpty(delivered, c, |Run(delivered).hub.conns[c].queue|);
    more := moves + pumps;
    assert es + more == delivered + pumps;
    NoClientSeesAGap(es + more, c);
    hide Envelopes, Included, Spares;
    var conn := Run(es + more).hub.conns[c];
    assert conn.wire + conn.queue == conn.wire;
  }
}
