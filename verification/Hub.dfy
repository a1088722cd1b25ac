/** The hub, its clients and the in-memory broker as the objects the server runs. Every method
    is one critical section (or, for `Deliver`, a run of them) and is proved to do to the
    abstract value what `HubModel` says. */
module Hub {
  import opened HubModel
  import HubRuns
  import opened Ordering

  function Elements<T>(s: seq<T>): set<T> {
    set x | x in s
  }

  lemma ElementsOfPrefix<T>(s: seq<T>, i: nat)
    requires Distinct(s) && i <= |s|
    ensures Elements(s[..0]) == {}
    ensures i < |s| ==>
              && Elements(s[..i + 1]) == Elements(s[..i]) + {s[i]}
              && s[i] !in Elements(s[..i]) && s[i] in Elements(s)
  {
  }

  class Client {
    const userId: string
    const capacity: nat
    var queue: seq<Frame>
    var topics: set<string>
    var closed: bool
    ghost var wire: seq<Frame>
    ghost var closings: nat

    ghost function View(): Conn
      reads this
    {
      Conn(userId, capacity, queue, wire, topics, closed, closings)
    }

    constructor (capacity: nat, userId: string, initialTopics: seq<string>)
      ensures View() == NewConn(userId, capacity, set t | t in initialTopics)
    {
      this.userId, this.capacity := userId, capacity;
      queue, topics, closed, wire, closings := [], {}, false, [], 0;
      new;
      for i := 0 to |initialTopics|
        invariant View() == NewConn(userId, capacity, set t | t in initialTopics[..i])
      {
        topics := topics + {initialTopics[i]};
      }
      assert initialTopics[..|initialTopics|] == initialTopics;
    }

    method SendPayload(frame: Frame) returns (ok: bool)
      modifies this
      ensures ok == Accepts(old(View())) && View() == Enqueue(old(View()), frame)
    {
      if closed { return false; }
      if |queue| < capacity {
        queue := queue + [frame];
        return true;
      }
      return false;
    }

    method AddTopic(topic: string)
      modifies this
      ensures View() == old(View()).(topics := old(topics) + {topic})
    {
      topics := topics + {topic};
    }

    method RemoveTopic(topic: string)
      modifies this
      ensures View() == old(View()).(topics := old(topics) - {topic})
    {
      topics := topics - {topic};
    }

    method Topics() returns (copy: set<string>)
      ensures copy == topics
    {
      copy := {};
      var todo := topics;
      while todo != {}
        invariant copy + todo == topics
        decreases todo
      {
        var topic :| topic in todo;
        copy, todo := copy + {topic}, todo - {topic};
      }
    }

    method Close()
      modifies this
      ensures View() == CloseConn(old(View()))
    {
      if closed { return; }
      closed := true;
      closings := closings + 1;
    }

    /** The write pump receives one frame, if there is one. */
    method Receive()
      modifies this
      ensures View() == Drain(old(View()))
    {
      if queue != [] {
        wire := wire + [queue[0]];
        queue := queue[1..];
      }
    }
  }

  class Hub {
    var clients: set<Client>
    var topics: map<string, set<Client>>
    var closed: bool
    var gauge: int
    var delivered: nat
    var dropped: nat
    ghost var conns: map<Client, Conn>   // what every client ever registered looks like

    ghost function View(): HubState<Client>
      reads this
    {
      HubState(clients, topics, closed, conns, gauge, delivered, dropped)
    }

    ghost predicate Synced()
      reads this, conns.Keys
    {
      forall c | c in conns :: c.View() == conns[c]
    }

    ghost predicate Valid()
      reads this, conns.Keys
    {
      Inv(View()) && Synced()
    }

    constructor ()
      ensures Valid() && View() == HubModel.Init()
    {
      clients, topics, closed, conns := {}, map[], false, map[];
      gauge, delivered, dropped := 0, 0, 0;
    }

    method Register(client: Client)
      requires Valid() && client !in conns
      requires client.View() == NewConn(client.userId, client.capacity, client.topics)
      modifies this, client
      ensures View() == HubModel.Register(old(View()), client, old(client.View()))
      ensures Valid()
    {
      hide HubModel.Inv, AddToTopics;
      RegisterKeepsInv(View(), client, client.userId, client.capacity, client.topics);
      if closed {
        client.Close();
      } else {
        clients := clients + {client};
        var initial := client.Topics();
        SubscribeAll(client, initial);
        gauge := gauge + 1;
      }
      conns := conns[client := client.View()];
    }

    method Unregister(client: Client)
      requires Valid() && client in conns
      modifies this, client
      ensures View() == HubModel.Unregister(old(View()), client)
      ensures Valid()
    {
      hide HubModel.Inv, RemoveFromTopics;
      UnregisterKeepsInv(View(), client);
      if client !in clients { return; }
      clients := clients - {client};
      var held := client.Topics();
      UnsubscribeAll(client, held);
      client.Close();
      gauge := gauge - 1;
      conns := conns[client := client.View()];
    }

    method Subscribe(client: Client, topic: string)
      requires Valid() && client in conns
      modifies this, client
      ensures View() == HubModel.Subscribe(old(View()), client, topic)
      ensures Valid()
    {
      hide HubModel.Inv, AddToTopics;
      SubscribeKeepsInv(View(), client, topic);
      if client !in clients { return; }
      client.AddTopic(topic);
      SubscribeLocked(client, topic);
      conns := conns[client := client.View()];
    }

    method Unsubscribe(client: Client, topic: string)
      requires Valid() && client in conns
      modifies this, client
      ensures View() == HubModel.Unsubscribe(old(View()), client, topic)
      ensures Valid()
    {
      hide HubModel.Inv, RemoveFromTopics;
      UnsubscribeKeepsInv(View(), client, topic);
      if client !in clients { return; }
      client.RemoveTopic(topic);
      UnsubscribeLocked(client, topic);
      conns := conns[client := client.View()];
    }

    /** The read loop reports an error to its own client, outside the hub's lock. */
    method SendError(client: Client, code: string) returns (ok: bool)
      requires Valid() && client in conns
      modifies this`conns, client
      ensures ok == Accepts(old(conns)[client])
      ensures View() == old(View()).(conns := old(conns)[client := Enqueue(old(conns)[client], Error(code))])
      ensures Valid()
    {
      FramesKeepInv(View(), client, Enqueue(client.View(), Error(code)));
      hide HubModel.Inv;
      ok := client.SendPayload(Error(code));
      conns := conns[client := client.View()];
    }

    /** The write pump takes one frame of its client. */
    method Pump(client: Client)
      requires Valid() && client in conns
      modifies this`conns, client
      ensures View() == old(View()).(conns := old(conns)[client := Drain(old(conns)[client])])
      ensures Valid()
    {
      FramesKeepInv(View(), client, Drain(client.View()));
      hide HubModel.Inv;
      client.Receive();
      conns := conns[client := client.View()];
    }

    /** The loop of `Register` over the client's initial topics. */
    method SubscribeAll(client: Client, all: set<string>)
      modifies this`topics
      ensures topics == AddToTopics(old(topics), client, all)
    {
      AddToTopicsStepwise(topics, client, {}, "");
      hide AddToTopics;
      var todo := all;
      assert all - all == {};
      while todo != {}
        invariant todo <= all && topics == AddToTopics(old(topics), client, all - todo)
        decreases todo
      {
        var topic :| topic in todo;
        AddToTopicsStepwise(old(topics), client, all - todo, topic);
        SubscribeLocked(client, topic);
        assert all - (todo - {topic}) == all - todo + {topic};
        todo := todo - {topic};
      }
      assert all - {} == all;
    }

    /** The loop of `Unregister` over the topics the client holds. */
    method UnsubscribeAll(client: Client, all: set<string>)
      modifies this`topics
      ensures topics == RemoveFromTopics(old(topics), {client}, all)
    {
      RemoveFromTopicsStepwise(topics, {client}, {}, "");
      hide RemoveFromTopics;
      var todo := all;
      assert all - all == {};
      while todo != {}
        invariant todo <= all && topics == RemoveFromTopics(old(topics), {client}, all - todo)
        decreases todo
      {
        var topic :| topic in todo;
        RemoveFromTopicsStepwise(old(topics), {client}, all - todo, topic);
        UnsubscribeLocked(client, topic);
        assert all - (todo - {topic}) == all - todo + {topic};
        todo := todo - {topic};
      }
      assert all - {} == all;
    }

    method SubscribeLocked(client: Client, topic: string)
      modifies this`topics
      ensures topics == AddToTopics(old(topics), client, {topic})
    {
      if topic !in topics {
        topics := topics[topic := {}];
      }
      topics := topics[topic := topics[topic] + {client}];
    }

    method UnsubscribeLocked(client: Client, topic: string)
      modifies this`topics
      ensures topics == RemoveFromTopics(old(topics), {client}, {topic})
    {
      if topic !in topics { return; }
      var subscribers := topics[topic] - {client};
      topics := topics[topic := subscribers];
      if subscribers == {} {
        topics := topics - {topic};
      }
    }

    method Close()
      requires Valid()
      modifies this, clients
      ensures View() == HubModel.Close(old(View()))
      ensures Valid()
    {
      CloseKeepsInv(View());
      assert clients <= conns.Keys;
      hide HubModel.Inv;
      closed := true;
      CloseAll(clients);
      conns := HubModel.Close(View()).conns;
      clients := {};
      topics := map[];
    }

    /** The loop of `Close` over the registered clients. */
    static method CloseAll(all: set<Client>)
      modifies all
      ensures forall c | c in all :: c.View() == CloseConn(old(c.View()))
    {
      var todo := all;
      while todo != {}
        invariant todo <= all
        invariant forall c | c in all ::
                    c.View() == if c in todo then old(c.View()) else CloseConn(old(c.View()))
        decreases todo
      {
        var client :| client in todo;
        client.Close();
        todo := todo - {client};
      }
    }

    /** The snapshot taken under the read lock, a slice in no particular order. */
    method Snapshot(topic: string) returns (found: seq<Client>)
      ensures Distinct(found) && Elements(found) == Subscribers(topics, topic)
    {
      found := [];
      var todo := if topic in topics then topics[topic] else {};
      while todo != {}
        invariant Distinct(found) && Elements(found) !! todo
        invariant Elements(found) + todo == Subscribers(topics, topic)
        decreases todo
      {
        var client :| client in todo;
        assert Elements(found + [client]) == Elements(found) + {client};
        found, todo := found + [client], todo - {client};
      }
    }

    /** One send of the deliverer, with the metric it counts. */
    method SendTo(client: Client, envelope: Envelope) returns (ok: bool)
      requires Valid() && client in conns
      modifies this`conns, this`delivered, this`dropped, client
      ensures ok == Accepts(old(conns)[client])
      ensures View() == Send(old(View()), client, Data(envelope))
      ensures Valid()
    {
      hide HubModel.Inv;
      HubModel.SendKeepsInv(View(), client, Data(envelope));
      ok := client.SendPayload(Data(envelope));
      conns := conns[client := client.View()];
      if ok { delivered := delivered + 1; } else { dropped := dropped + 1; }
    }

    /** A delivery that began in `h` has served the subscribers `done`. */
    ghost predicate Delivering(h: HubState<Client>, frame: Frame, done: set<Client>)
      reads this, conns.Keys
    {
      && Valid() && Inv(h) && done <= h.clients <= h.conns.Keys
      && conns.Keys == h.conns.Keys && View() == DeliverTo(h, frame, done)
    }

    lemma DeliveryBegins(h: HubState<Client>, frame: Frame, topic: string)
      requires Valid() && h == View()
      ensures Delivering(h, frame, {}) && Subscribers(topics, topic) <= h.clients <= h.conns.Keys
    {
      DeliverToNobody(h, frame, topic);
      hide HubModel.Inv;
    }

    lemma DeliveryEnds(h: HubState<Client>, frame: Frame, done: set<Client>)
      requires Delivering(h, frame, done)
      ensures Valid() && done <= h.conns.Keys && View() == DeliverTo(h, frame, done)
    {
    }

    /** The body of the loop of `Deliver`. */
    method SendOrDrop(client: Client, envelope: Envelope, ghost h: HubState<Client>, ghost done: set<Client>)
      requires Delivering(h, Data(envelope), done) && client in h.clients && client !in done
      modifies this, client
      ensures Delivering(h, Data(envelope), done + {client})
    {
      DeliverToOneMore(h, Data(envelope), done, client);
      hide HubModel.Inv, DeliverTo;
      var ok := SendTo(client, envelope);
      if !ok { Unregister(client); }
    }

    /** A delivery that no other call interrupts: the subscribers with room get the message,
        all others are closed and leave the hub, and everybody else is untouched. */
    method Deliver(envelope: Envelope)
      requires Valid()
      modifies this, clients
      ensures Subscribers(old(topics), envelope.topic) <= old(View()).conns.Keys
      ensures View() == DeliverTo(old(View()), Data(envelope), Subscribers(old(topics), envelope.topic))
      ensures Valid()
    {
      ghost var h := View();
      DeliveryBegins(h, Data(envelope), envelope.topic);
      assert h.clients == clients;
      hide *;
      var subscribers := Snapshot(envelope.topic);
      assert Elements(subscribers) <= h.clients;
      ElementsOfPrefix(subscribers, 0);
      for i := 0 to |subscribers|
        invariant Delivering(h, Data(envelope), Elements(subscribers[..i]))
      {
        ElementsOfPrefix(subscribers, i);
        SendOrDrop(subscribers[i], envelope, h, Elements(subscribers[..i]));
      }
      assert subscribers[..|subscribers|] == subscribers;
      DeliveryEnds(h, Data(envelope), Elements(subscribers));
    }

    method HasUserSubscription(topic: string, userId: string) returns (has: bool)
      requires Valid()
      ensures has <==> userId != "" && exists c ::
                c in clients && c in conns && c.userId == userId && topic in c.topics
    {
      if userId == "" { return false; }
      forall c | c in conns ensures c in Subscribers(topics, topic) <==> c in clients && topic in c.topics {
        IndexIsExact(View(), topic, c);
      }
      SubscribersAreOpen(View(), topic);
      var todo := if topic in topics then topics[topic] else {};
      while todo != {}
        invariant todo <= Subscribers(topics, topic)
        invariant forall c | c in Subscribers(topics, topic) - todo :: c.userId != userId
        decreases todo
      {
        var client :| client in todo;
        if client.userId == userId { return true; }
        todo := todo - {client};
      }
      return false;
    }
  }

  datatype PublishResult = Accepted | Canceled | ContextDone | Blocked

  class Memory {
    const capacity: nat := HubRuns.BROKER_CAPACITY
    var updates: seq<Envelope>
    var closed: bool

    constructor ()
      ensures updates == [] && !closed
    {
      updates, closed := [], false;
    }

    /** `Blocked` is a call that neither the channel nor its context lets go on. */
    method Publish(envelope: Envelope, contextDone: bool) returns (r: PublishResult)
      modifies this`updates
      ensures r.Accepted? ==> !closed && |old(updates)| < capacity && updates == old(updates) + [envelope]
      ensures !r.Accepted? ==> updates == old(updates)
      ensures r.Canceled? <==> closed
      ensures r.ContextDone? ==> contextDone
      ensures r.Blocked? <==> !closed && |old(updates)| >= capacity && !contextDone
    {
      if closed { return Canceled; }
      if
      case |updates| < capacity =>
        updates := updates + [envelope];
        return Accepted;
      case contextDone => return ContextDone;
      case |updates| >= capacity && !contextDone => return Blocked;
    }

    /** The subscriber takes the oldest message; a closed channel still yields what it holds. */
    method Take() returns (taken: seq<Envelope>)
      modifies this`updates
      ensures taken + updates == old(updates)
      ensures |taken| == if old(updates) == [] then 0 else 1
    {
      if updates == [] { return []; }
      taken := [updates[0]];
      updates := updates[1..];
    }

    method Close()
      modifies this`closed
      ensures closed
    {
      if !closed { closed := true; }
    }
  }
}
