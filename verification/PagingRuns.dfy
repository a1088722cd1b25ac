/** Paging through a room while the store goes on running. */
module PagingRuns {
  import opened Common
  import opened MessageStore
  import opened StoreRuns
  import opened Paging

  /** The room's log after the first `n` events of a run. */
  function LogAt(es: seq<Event>, n: nat, roomId: string): seq<Message> {
    MessagesOf(Run(es[..if n < |es| then n else |es|]).db, roomId)
  }

  lemma ReplaceExtends(db: Db, roomId: string, i: nat, msg: Message, room: string)
    requires i < |MessagesOf(db, roomId)|
    requires Place(msg) == Place(MessagesOf(db, roomId)[i])
    ensures Extends(MessagesOf(db, room), MessagesOf(Replace(db, roomId, i, msg), room))
  {
  }

  /** Whatever happens, a room's log only grows at its end, and its messages keep id and time. */
  lemma StepExtends(s: State, e: Event, room: string)
    ensures Extends(MessagesOf(s.db, room), MessagesOf(Step(s, e).db, room))
  {
    match e {
      case Append(_, _, _, _, _) =>
      case Update(roomId, id, userId, payload) =>
        var r := UpdateMessage(s.db, roomId, id, userId, payload, s.now);
        if r.Ok? { ReplaceExtends(s.db, roomId, Find(MessagesOf(s.db, roomId), id), r.value.1, room); }
        hide Extends, Find;
      case Delete(roomId, id, userId) =>
        var r := DeleteMessageForAll(s.db, roomId, id, userId, s.now);
        if r.Ok? { ReplaceExtends(s.db, roomId, Find(MessagesOf(s.db, roomId), id), r.value.1, room); }
        hide Extends, Find;
      case MarkRead(_, _) => hide MarkMessages;
      case _ => SameLog(s, e);
    }
  }

  lemma ExtendsTwice(a: seq<Message>, b: seq<Message>, c: seq<Message>)
    requires Extends(a, b) && Extends(b, c)
    ensures Extends(a, c)
  {
  }

  lemma {:induction false} RunExtends(es: seq<Event>, m: nat, n: nat, room: string)
    requires m <= n <= |es|
    ensures Extends(LogAt(es, m, room), LogAt(es, n, room))
    decreases n
  {
    hide Step, Extends, Place;
    if m < n {
      RunExtends(es, m, n - 1, room);
      assert es[..n][..n - 1] == es[..n - 1];
      StepExtends(Run(es[..n - 1]), es[n - 1], room);
      ExtendsTwice(LogAt(es, m, room), LogAt(es, n - 1, room), LogAt(es, n, room));
    } else {
      SameExtends(LogAt(es, m, room));
    }
  }

  lemma SameExtends(log: seq<Message>)
    ensures Extends(log, log)
  {
  }

  lemma IncreasingBefore(earlier: seq<Message>, later: seq<Message>)
    requires Extends(earlier, later) && Increasing(later)
    ensures Increasing(earlier)
  {
    assert forall i | 0 <= i < |earlier| :: Place(later[i]) == Place(earlier[i]);
  }

  /** The room's log at each fetch, the k-th after the first `at(k)` events. */
  function Logs(es: seq<Event>, at: nat -> nat, room: string): nat -> seq<Message> {
    (k: nat) => LogAt(es, at(k), room)
  }

  ghost predicate GoesOn(at: nat -> nat) {
    forall j, k | j <= k :: at(j) <= at(k)
  }

  lemma CutExtends(es: seq<Event>, m: nat, n: nat, room: string)
    requires m <= n
    ensures Extends(LogAt(es, m, room), LogAt(es, n, room))
  {
    RunExtends(es, if m < |es| then m else |es|, if n < |es| then n else |es|, room);
    hide Run, Extends;
  }

  lemma CutEnds(es: seq<Event>, n: nat, room: string)
    ensures n >= |es| ==> LogAt(es, n, room) == LogAt(es, |es|, room)
  {
  }

  lemma LogAtIsUnique(es: seq<Event>, n: nat, room: string)
    ensures UniqueIds(LogAt(es, n, room))
  {
    LogIsDistinct(es[..if n < |es| then n else |es|], room);
    hide Run;
  }

  /** The logs that the fetches of a client find in any run of the store grow. */
  lemma FetchesFindGrowingLogs(es: seq<Event>, at: nat -> nat, room: string)
    requires GoesOn(at)
    ensures Growing(Logs(es, at, room))
  {
    hide LogAt, UniqueIds, Extends;
    forall j, k | j <= k ensures Extends(Logs(es, at, room)(j), Logs(es, at, room)(k)) {
      CutExtends(es, at(j), at(k), room);
    }
    forall k: nat ensures UniqueIds(Logs(es, at, room)(k)) {
      LogAtIsUnique(es, at(k), room);
    }
  }

  lemma FetchesFindIncreasingLogs(es: seq<Event>, at: nat -> nat, room: string)
    requires Increasing(LogAt(es, |es|, room))
    ensures forall k :: Increasing(Logs(es, at, room)(k))
  {
    hide LogAt, Increasing, Extends;
    forall k: nat ensures Increasing(Logs(es, at, room)(k)) {
      CutExtends(es, at(k), if at(k) < |es| then |es| else at(k), room);
      CutEnds(es, at(k), room);
      IncreasingBefore(LogAt(es, at(k), room), LogAt(es, |es|, room));
    }
  }

  /** A client that pages while other calls go on, in any order and number between its fetches, gets
      every message of the room as of its first fetch exactly once and in order, exactly if each
      fetch finds its cursor at a boundary; so it does if creation times grow strictly. */
  lemma PagingThroughARun(es: seq<Event>, at: nat -> nat, room: string)
    requires GoesOn(at)
    ensures PagesAreTheRoom(Logs(es, at, room)) <==> FitsAtEachFetch(Logs(es, at, room))
    ensures Increasing(LogAt(es, |es|, room)) ==> PagesAreTheRoom(Logs(es, at, room))
  {
    hide LogAt, Growing, PagesAreTheRoom, FitsAtEachFetch, Increasing, Logs, GoesOn;
    FetchesFindGrowingLogs(es, at, room);
    PagingIsCompleteExactlyIfItFits(Logs(es, at, room));
    if Increasing(LogAt(es, |es|, room)) {
      FetchesFindIncreasingLogs(es, at, room);
      PagingIsComplete(Logs(es, at, room));
    }
  }
}
