/** Paging, live events and the store's log in one: what a client shows that has loaded a whole room
    while others went on writing, editing and deleting. */
module EndToEnd {
  import opened Common
  import opened MessageStore
  import opened StoreRuns
  import opened Paging
  import opened PagingRuns
  import opened ClientMerge
  import opened ClientPaging
  import opened History
  import opened Convergence

  // ---- A message ages along a run ----

  ghost predicate Ages(earlier: seq<Message>, later: seq<Message>) {
    && |earlier| <= |later|
    && forall i | 0 <= i < |earlier| :: later[i].id == earlier[i].id && Stamp(earlier[i]) <= Stamp(later[i])
  }

  lemma ReplaceAges(db: Db, roomId: string, i: nat, msg: Message, room: string)
    requires i < |MessagesOf(db, roomId)|
    requires msg.id == MessagesOf(db, roomId)[i].id && Stamp(MessagesOf(db, roomId)[i]) <= Stamp(msg)
    ensures Ages(MessagesOf(db, room), MessagesOf(Replace(db, roomId, i, msg), room))
  {
    hide Stamp;
  }

  lemma StepAges(s: State, e: Event, room: string)
    requires HistoryInv(s)
    ensures Ages(MessagesOf(s.db, room), MessagesOf(Step(s, e).db, room))
  {
    match e {
      case Append(_, _, _, _, _) => hide HistoryInv, Stamp;
      case Update(roomId, id, userId, payload) =>
        var r := UpdateMessage(s.db, roomId, id, userId, payload, s.now);
        if r.Ok? {
          var i := Find(MessagesOf(s.db, roomId), id);
          TargetIsOld(s, roomId, i);
          ReplaceAges(s.db, roomId, i, r.value.1, room);
        }
        hide Ages, Find, HistoryInv;
      case Delete(roomId, id, userId) =>
        var r := DeleteMessageForAll(s.db, roomId, id, userId, s.now);
        if r.Ok? {
          var i := Find(MessagesOf(s.db, roomId), id);
          TargetIsOld(s, roomId, i);
          ReplaceAges(s.db, roomId, i, r.value.1, room);
        }
        hide Ages, Find, HistoryInv;
      case MarkRead(_, _) => hide MarkMessages, HistoryInv;
      case _ =>
        SameLog(s, e);
        hide HistoryInv;
    }
  }

  lemma AgesTwice(a: seq<Message>, b: seq<Message>, c: seq<Message>)
    requires Ages(a, b) && Ages(b, c)
    ensures Ages(a, c)
  {
    hide Stamp;
  }

  lemma SameAges(log: seq<Message>)
    ensures Ages(log, log)
  {
  }

  lemma {:induction false} RunAges(es: seq<Event>, m: nat, n: nat, room: string)
    requires m <= n
    ensures Ages(LogAt(es, m, room), LogAt(es, n, room))
    decreases n
  {
    hide Step, Ages;
    if m < n && n <= |es| {
      RunAges(es, m, n - 1, room);
      assert es[..n][..n - 1] == es[..n - 1];
      RunKeepsHistory(es[..n - 1]);
      hide HistoryInv;
      StepAges(Run(es[..n - 1]), es[n - 1], room);
      AgesTwice(LogAt(es, m, room), LogAt(es, n - 1, room), LogAt(es, n, room));
    } else if m < n {
      RunAges(es, m, n - 1, room);
    } else {
      SameAges(LogAt(es, m, room));
    }
  }

  // ---- What a fetch finds is recorded ----

  lemma StepRecords(s: State, e: Event)
    ensures s.history <= Step(s, e).history
  {
  }

  lemma {:induction false} RunRecords(es: seq<Event>, n: nat)
    requires n <= |es|
    ensures Run(es[..n]).history <= Run(es).history
    decreases |es| - n
  {
    hide Step;
    if n < |es| {
      RunRecords(es, n + 1);
      assert es[..n + 1][..n] == es[..n];
      StepRecords(Run(es[..n]), es[n]);
    } else {
      assert es[..n] == es;
    }
  }

  lemma FoundIsRecorded(es: seq<Event>, n: nat, room: string, i: nat)
    requires i < |LogAt(es, n, room)|
    ensures LogAt(es, n, room)[i] in Run(es).history
  {
    var cut := if n < |es| then n else |es|;
    var s, m := Run(es[..cut]), LogAt(es, n, room)[i];
    RunKeepsHistory(es[..cut]);
    RunRecords(es, cut);
    hide Run, LogInv;
    assert LastOf(s.history, m.id) == Some(m);
    LastOfIs(s.history, m.id);
    hide LastOf, HistoryInv;
    var p: nat :| LastAt(s.history, m.id, p) && s.history[p] == m;
    assert Run(es).history[p] == m;
  }

  lemma OneVersionOneContent(history: seq<Message>, a: Message, b: Message)
    requires Rising(history) && a in history && b in history && a.id == b.id && Stamp(a) == Stamp(b)
    ensures a == b
  {
    var i :| 0 <= i < |history| && history[i] == a;
    var j :| 0 <= j < |history| && history[j] == b;
    assert i < j ==> Raises(history[i], history[j]);
    assert j < i ==> Raises(history[j], history[i]);
    hide Stamp;
  }

  /** A message that is at the end what it was at first was so all the time. */
  lemma UnchangedAllAlong(es: seq<Event>, m: nat, n: nat, room: string, i: nat)
    requires Spaced(es) && m <= n
    requires i < |LogAt(es, m, room)| && i < |LogAt(es, |es|, room)|
    requires LogAt(es, m, room)[i] == LogAt(es, |es|, room)[i]
    ensures i < |LogAt(es, n, room)| && LogAt(es, n, room)[i] == LogAt(es, m, room)[i]
  {
    RunAges(es, m, n, room);
    CutEnds(es, n, room);
    RunAges(es, n, if n < |es| then |es| else n, room);
    FoundIsRecorded(es, m, room, i);
    FoundIsRecorded(es, n, room, i);
    RunKeepsHistory(es);
    hide Run, LogAt, Spaced, Rising, Stamp, HistoryInv, LogInv;
    OneVersionOneContent(Run(es).history, LogAt(es, n, room)[i], LogAt(es, m, room)[i]);
  }

  // ---- The theorem ----

  /** Written, edited or deleted after the first fetch. */
  ghost predicate Missed(first: seq<Message>, last: seq<Message>, i: nat)
    requires i < |last|
  {
    i >= |first| || first[i] != last[i]
  }

  ghost predicate Faithful(decorate: (nat, Message) -> Copy) {
    forall k, m :: decorate(k, m).message == m
  }

  lemma LogsAreOneRoom(es: seq<Event>, at: nat -> nat, decorate: (nat, Message) -> Copy, room: string)
    requires GoesOn(at) && Faithful(decorate)
    ensures OneRoom(Logs(es, at, room), decorate)
  {
    FetchesFindGrowingLogs(es, at, room);
    hide Growing, Logs;
  }

  lemma FetchedIsRecorded(es: seq<Event>, at: nat -> nat, room: string, place: nat, m: Message)
    requires Fetched(Logs(es, at, room), place, m)
    ensures m in Run(es).history
  {
    hide LogAt, Run;
    var k: nat :| place < |Logs(es, at, room)(k)| && Logs(es, at, room)(k)[place] == m;
    FoundIsRecorded(es, at(k), room, place);
  }

  lemma LoadedIsRecorded(es: seq<Event>, at: nat -> nat, room: string, paged: seq<Copy>)
    requires Holds(Logs(es, at, room), paged, 0)
    ensures FromRun(Run(es).history, paged)
  {
    hide LogAt, Logs, Run, Fetched, HasPlace;
    forall c | c in paged ensures c.message in Run(es).history {
      assert OfPlace(Logs(es, at, room), c, 0);
      var j: nat :| j < |Logs(es, at, room)(0)| && Fetched(Logs(es, at, room), j, c.message);
      FetchedIsRecorded(es, at, room, j, c.message);
    }
  }

  lemma UnchangedIsLoaded(es: seq<Event>, at: nat -> nat, room: string, paged: seq<Copy>, i: nat)
    requires Spaced(es) && GoesOn(at) && Holds(Logs(es, at, room), paged, 0)
    requires i < |LogAt(es, |es|, room)| && !Missed(LogAt(es, at(0), room), LogAt(es, |es|, room), i)
    ensures exists c :: c in paged && c.message == LogAt(es, |es|, room)[i]
  {
    hide LogAt, Spaced, OfPlace, Run;
    assert HasPlace(Logs(es, at, room), paged, i);
    var c :| c in paged && Fetched(Logs(es, at, room), i, c.message);
    var k: nat :| i < |Logs(es, at, room)(k)| && Logs(es, at, room)(k)[i] == c.message;
    UnchangedAllAlong(es, at(0), at(k), room, i);
  }

  lemma EverythingIsCarried(es: seq<Event>, at: nat -> nat, live: seq<Copy>, room: string, paged: seq<Copy>)
    requires Spaced(es) && GoesOn(at) && Holds(Logs(es, at, room), paged, 0)
    requires MissedIsLive(es, at, live, room)
    ensures forall m | m in LogAt(es, |es|, room) :: Carried(m, paged, live)
  {
    hide LogAt, Spaced, Holds, GoesOn, Logs, Run;
    var last := LogAt(es, |es|, room);
    forall m | m in last ensures Carried(m, paged, live) {
      var i: nat :| i < |last| && last[i] == m;
      if Missed(LogAt(es, at(0), room), last, i) {
        var c :| (c in [] || c in live) && c.message == m;
        assert c in live;
      } else {
        UnchangedIsLoaded(es, at, room, paged, i);
      }
    }
  }

  /** The current content of each message written, edited or deleted since the first fetch has come
      as a live event. */
  ghost predicate MissedIsLive(es: seq<Event>, at: nat -> nat, live: seq<Copy>, room: string) {
    forall i: nat | i < |LogAt(es, |es|, room)| && Missed(LogAt(es, at(0), room), LogAt(es, |es|, room), i) ::
      Carried(LogAt(es, |es|, room)[i], [], live)
  }

  /** A client loads a room while others go on, its fetches falling anywhere between their calls, and
      gets the current content of each message it missed as a live event, among any others, older ones
      and in any order. If each fetch finds its cursor at a boundary, loading ends, and then the list
      is a permutation of the room's log, and the log itself exactly if messages of one millisecond
      first arrived in order. */
  lemma PagesAndLiveMakeTheLog(es: seq<Event>, at: nat -> nat, decorate: (nat, Message) -> Copy,
                               live: seq<Copy>, room: string, n: nat)
    requires Spaced(es) && GoesOn(at) && Faithful(decorate) && FitsAtEachFetch(Logs(es, at, room))
    requires FromRun(Run(es).history, live) && MissedIsLive(es, at, live, room)
    ensures OneRoom(Logs(es, at, room), decorate)
    ensures !Loaded(Logs(es, at, room), decorate, |LogAt(es, at(0), room)|).1
    ensures !Loaded(Logs(es, at, room), decorate, n).1 ==>
              var paged := Held(Logs(es, at, room), decorate, n);
              var log, list := MessagesOf(Run(es).db, room), MessagesIn(Merge(paged, live, room));
              var arrivals := InRoom(paged, room) + InRoom(live, room);
              && multiset(list) == multiset(log)
              && InOrder(arrivals, list)
              && (list == log <==> InOrder(arrivals, log))
  {
    hide Spaced, GoesOn, Faithful, FitsAtEachFetch, OneRoom, Holds, MissedIsLive, Merge, InOrder, InRoom, Loaded, Held;
    hide LogAt, Carried;
    assert LogAt(es, |es|, room) == MessagesOf(Run(es).db, room) by { LastLog(es, room); }
    assert Logs(es, at, room)(0) == LogAt(es, at(0), room);
    hide Run, FromRun, Logs;
    LogsAreOneRoom(es, at, decorate, room);
    ClientEndsWithTheRoom(Logs(es, at, room), decorate, n);
    if !Loaded(Logs(es, at, room), decorate, n).1 {
      var paged := Held(Logs(es, at, room), decorate, n);
      LoadedIsRecorded(es, at, room, paged);
      EverythingIsCarried(es, at, live, room, paged);
      ClientShowsTheLog(es, paged, live, room);
    }
  }

  lemma LastLog(es: seq<Event>, room: string)
    ensures LogAt(es, |es|, room) == MessagesOf(Run(es).db, room)
  {
    assert es[..|es|] == es;
  }

  /** Each fetch finds its cursor at a boundary if creation times grow strictly along the log. */
  lemma IncreasingFits(es: seq<Event>, at: nat -> nat, room: string)
    requires GoesOn(at) && Increasing(LogAt(es, |es|, room))
    ensures FitsAtEachFetch(Logs(es, at, room))
  {
    hide LogAt, Growing, PagesAreTheRoom, FitsAtEachFetch, Increasing, Logs, GoesOn;
    FetchesFindGrowingLogs(es, at, room);
    FetchesFindIncreasingLogs(es, at, room);
    PagingIsComplete(Logs(es, at, room));
  }
}
