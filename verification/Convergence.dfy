/** From the store to the screen: whatever copies of a room's messages reach a client, in whatever
    order and how often, it ends up with the newest content of each message among them. */
module Convergence {
  import opened Keyed
  import opened Ordering
  import opened MessageStore
  import opened StoreRuns
  import opened ClientMerge
  import opened History

  // ---- What the client makes of copies of them ----

  ghost predicate FromRun(history: seq<Message>, copies: seq<Copy>) {
    forall c | c in copies :: c.message in history
  }

  /** The last time `b` was recorded comes after the last time `a` was. */
  ghost predicate Later(history: seq<Message>, a: Message, b: Message) {
    exists j :: 0 <= j < |history| && history[j] == b && forall i | j <= i < |history| :: history[i] != a
  }

  lemma LaterOneWay(history: seq<Message>, a: Message, b: Message)
    ensures Later(history, a, b) ==> !Later(history, b, a)
  {
  }

  /** What is shown is at least as new as every copy of its id among the arrivals. */
  ghost predicate NewestShown(history: seq<Message>, pages: seq<Copy>, live: seq<Copy>, roomId: string) {
    forall e, c | e in Merge(pages, live, roomId) && (c in pages || c in live) && Id(c) == Id(e) ::
      c.message == e.message || Later(history, c.message, e.message)
  }

  /** The promise of the merge, for all copies there can be of the recorded contents. */
  ghost predicate NewestWins(history: seq<Message>) {
    forall pages, live, roomId | FromRun(history, pages) && FromRun(history, live) ::
      NewestShown(history, pages, live, roomId)
  }

  /** Of two contents of a message the one of the greater version is the later one. */
  lemma VersionTellsOrder(history: seq<Message>, a: Message, b: Message)
    requires Rising(history) && a in history && b in history && a.id == b.id && Version(a) <= Version(b)
    ensures a == b || Later(history, a, b)
  {
    hide Version;
    var j :| 0 <= j < |history| && history[j] == b;
    if a != b {
      forall i | j <= i < |history| ensures history[i] != a {
        assert i > j && history[i].id == history[j].id ==> Raises(history[j], history[i]);
      }
    }
  }

  /** For copies taken from one run, in any order and with repetitions, the merge keeps exactly
      one entry for each id that arrived, one of the copies, and no copy of that id holds a later
      content. */
  lemma NewestCopyWins(es: seq<Event>, pages: seq<Copy>, live: seq<Copy>, roomId: string)
    requires FromRun(Run(es).history, pages) && FromRun(Run(es).history, live)
    ensures var shown := Merge(pages, live, roomId);
            && DistinctKeys(shown, Id)
            && (forall c | (c in pages || c in live) && c.message.roomId == roomId :: Present(Id(c), shown))
            && (forall e | e in shown :: (e in pages || e in live) && e.message.roomId == roomId)
            && (Spaced(es) ==> NewestShown(Run(es).history, pages, live, roomId))
  {
    var history := Run(es).history;
    RunKeepsHistory(es);
    MergeIsNewest(pages, live, roomId);
    InRoomIs(pages, roomId);
    InRoomIs(live, roomId);
    hide Merge, InRoom, Run, Spaced, Rising, Later, Version;
    if Rising(history) { RisingShowsNewest(history, pages, live, roomId); }
    hide NewestShown;
  }

  lemma RisingShowsNewest(history: seq<Message>, pages: seq<Copy>, live: seq<Copy>, roomId: string)
    requires AllFollow(history) && Rising(history) && FromRun(history, pages) && FromRun(history, live)
    ensures NewestShown(history, pages, live, roomId)
  {
    hide Merge, Later, Version;
    ShownIsOfRoom(pages, live, roomId);
    forall e, c | e in Merge(pages, live, roomId) && (c in pages || c in live) && Id(c) == Id(e)
      ensures c.message == e.message || Later(history, c.message, e.message)
    {
      SameRoom(history, c.message, e.message);
      ShownIsNewest(pages, live, roomId, e, c);
      hide Rising, AllFollow;
      VersionTellsOrder(history, c.message, e.message);
    }
  }

  lemma ShownIsOfRoom(pages: seq<Copy>, live: seq<Copy>, roomId: string)
    ensures forall e | e in Merge(pages, live, roomId) :: (e in pages || e in live) && e.message.roomId == roomId
  {
    MergeIsNewest(pages, live, roomId);
    InRoomIs(pages, roomId);
    InRoomIs(live, roomId);
    hide Merge, InRoom, Version;
  }

  // ---- The condition is exact ----

  function Plain(m: Message): Copy {
    Copy(m, [], [], false, [])
  }

  function Reacted(m: Message): Copy {
    Copy(m, [], [], false, [Reaction("x", 1)])
  }

  /** Of two copies of one version with different reactions the last one put is kept, whichever
      content it holds. */
  lemma LastOfOneVersionStays(a: Message, b: Message)
    requires a.id == b.id && a.roomId == b.roomId && Version(a) == Version(b)
    ensures Merge([Plain(b)], [Reacted(a)], a.roomId) == [Reacted(a)]
  {
    hide InRoom, Put, PutAll, Sort, Version, OlderOrSame;
    var x, y := Plain(b), Reacted(a);
    OlderOverwrites(a, b);
    OneInRoom(x);
    OneInRoom(y);
    PutAllOfOne(x);
    PutAllOneMore([x], y);
    SortOfOne(y);
    assert PutAll([x] + [y]) == [y];
  }

  lemma OneInRoom(c: Copy)
    ensures InRoom([c], c.message.roomId) == [c]
  {
    assert [c][..0] == [] && InRoom([], c.message.roomId) == [];
  }

  lemma PutAllOfOne(c: Copy)
    ensures PutAll([c]) == [c]
  {
    hide Version, ReactionSignature;
    assert [c][..0] == [] && PutAll([]) == [] && Put([], c) == [c];
    hide Put;
  }

  lemma SortOfOne(c: Copy)
    ensures Sort([c], OlderOrSame) == [c]
  {
    assert Sort([c][1..], OlderOrSame) == [];
  }

  lemma OneVersionLetsOldWin(history: seq<Message>, a: Message, b: Message)
    requires a in history && b in history && a.id == b.id && a.roomId == b.roomId
    requires a != b && Version(a) == Version(b)
    ensures !NewestWins(history)
  {
    LastOfOneVersionStays(a, b);
    LastOfOneVersionStays(b, a);
    LaterOneWay(history, a, b);
    hide Merge, Version, Later;
    assert FromRun(history, [Plain(b)]) && FromRun(history, [Reacted(a)]);
    assert FromRun(history, [Plain(a)]) && FromRun(history, [Reacted(b)]);
    assert NewestShown(history, [Plain(b)], [Reacted(a)], a.roomId) ==> Later(history, b, a) by {
      assert Plain(b) in [Plain(b)] && Reacted(a) in [Reacted(a)];
    }
    assert NewestShown(history, [Plain(a)], [Reacted(b)], b.roomId) ==> Later(history, a, b) by {
      assert Plain(a) in [Plain(a)] && Reacted(b) in [Reacted(b)];
    }
    hide NewestShown;
  }

  /** If the newest wins for all copies there can be, versions rise with every new content. */
  lemma WinningNeedsRising(history: seq<Message>)
    requires AllFollow(history)
    ensures NewestWins(history) ==> Rising(history)
  {
    hide NewestWins;
    forall i, j | 0 <= i < j < |history| && history[i].id == history[j].id
      ensures NewestWins(history) ==> Raises(history[i], history[j])
    {
      var a, b := history[i], history[j];
      assert Follows(a, b) && Version(a) <= Version(b);
      if a != b && Version(a) == Version(b) { OneVersionLetsOldWin(history, a, b); }
    }
  }

  /** In every run, the newest of any copies wins, in any order and with any reactions and read
      flags, exactly if each edit and deletion that changed anything came in a millisecond later
      than the message's last change. */
  lemma NewestWinsExactlyIfSpaced(es: seq<Event>)
    ensures NewestWins(Run(es).history) <==> Spaced(es)
  {
    RunKeepsHistory(es);
    var history := Run(es).history;
    WinningNeedsRising(history);
    hide Run, Spaced, Rising, AllFollow, NewestShown;
    if Spaced(es) {
      forall pages, live, roomId | FromRun(history, pages) && FromRun(history, live)
        ensures NewestShown(history, pages, live, roomId)
      {
        RisingShowsNewest(history, pages, live, roomId);
      }
    }
  }

  lemma SameRoom(history: seq<Message>, a: Message, b: Message)
    requires AllFollow(history) && a in history && b in history && a.id == b.id
    ensures a.roomId == b.roomId
  {
    var i :| 0 <= i < |history| && history[i] == a;
    var j :| 0 <= j < |history| && history[j] == b;
  }

  ghost predicate Carried(m: Message, pages: seq<Copy>, live: seq<Copy>) {
    exists c :: (c in pages || c in live) && c.message == m
  }

  lemma NothingAfterCurrent(es: seq<Event>, roomId: string, k: nat, later: Message)
    requires k < |MessagesOf(Run(es).db, roomId)|
    requires later.id == MessagesOf(Run(es).db, roomId)[k].id
    ensures !Later(Run(es).history, MessagesOf(Run(es).db, roomId)[k], later)
  {
    RunKeepsHistory(es);
    var history, m := Run(es).history, MessagesOf(Run(es).db, roomId)[k];
    LastOfIs(history, m.id);
    hide Run, Spaced, LastOf, AllFollow, Rising;
    var p: nat :| LastAt(history, m.id, p) && history[p] == m;
  }

  /** An entry shown is the log's own message as soon as the current content is among the copies. */
  lemma ShownIsCurrent(es: seq<Event>, pages: seq<Copy>, live: seq<Copy>, roomId: string, e: Copy, k: nat)
    requires Spaced(es) && FromRun(Run(es).history, pages) && FromRun(Run(es).history, live)
    requires e in Merge(pages, live, roomId) && k < |MessagesOf(Run(es).db, roomId)|
    requires Id(e) == MessagesOf(Run(es).db, roomId)[k].id
    requires Carried(MessagesOf(Run(es).db, roomId)[k], pages, live)
    ensures e.message == MessagesOf(Run(es).db, roomId)[k]
  {
    NewestCopyWins(es, pages, live, roomId);
    NothingAfterCurrent(es, roomId, k, e.message);
    hide Run, Spaced, Merge, Later, FromRun, DistinctKeys, Present;
  }

  ghost predicate StandsIn(log: seq<Message>, id: string) {
    exists k: nat :: k < |log| && log[k].id == id
  }

  lemma ShownIsKnown(es: seq<Event>, pages: seq<Copy>, live: seq<Copy>, roomId: string, e: Copy)
    requires Spaced(es) && FromRun(Run(es).history, pages) && FromRun(Run(es).history, live)
    requires e in Merge(pages, live, roomId)
    ensures StandsIn(MessagesOf(Run(es).db, roomId), Id(e))
  {
    NewestCopyWins(es, pages, live, roomId);
    RunKeepsHistory(es);
    assert Known(Run(es), e.message);
    hide Run, Spaced, Merge, Later, DistinctKeys, Present, NewestShown;
  }

  // ---- The order of the list ----

  ghost predicate SameElements(a: seq<Message>, b: seq<Message>) {
    forall m :: m in a <==> m in b
  }

  /** Created in an earlier millisecond, or in the same one and the first to arrive. */
  predicate GoesBefore(arrivals: seq<Copy>, a: Message, b: Message) {
    || Millis(a.createdAt) < Millis(b.createdAt)
    || (Millis(a.createdAt) == Millis(b.createdAt) && ArrivedFirst(arrivals, a.id, b.id))
  }

  ghost predicate InOrder(arrivals: seq<Copy>, log: seq<Message>) {
    forall i, j | 0 <= i < j < |log| :: GoesBefore(arrivals, log[i], log[j])
  }

  lemma LastIsLatest(arrivals: seq<Copy>, log: seq<Message>, m: Message)
    requires InOrder(arrivals, log) && m in log
    ensures var last := log[|log| - 1];
            && (m in log[..|log| - 1] <==> m != last)
            && (m == last || GoesBefore(arrivals, m, last)) && !GoesBefore(arrivals, last, m)
  {
    hide Millis, Slot;
    var i :| 0 <= i < |log| && log[i] == m;
    if i < |log| - 1 { assert log[..|log| - 1][i] == m; }
  }

  lemma {:induction false} SortedTheSame(arrivals: seq<Copy>, a: seq<Message>, b: seq<Message>)
    requires InOrder(arrivals, a) && InOrder(arrivals, b) && SameElements(a, b)
    ensures a == b
  {
    hide GoesBefore;
    assert |b| == 0 || b[0] in a;
    if a != [] {
      assert a[0] in b;
      var m, n := |a| - 1, |b| - 1;
      assert a[m] in b && b[n] in a;
      LastIsLatest(arrivals, a, b[n]);
      LastIsLatest(arrivals, b, a[m]);
      assert a[m] == b[n];
      SameBefore(arrivals, a, b);
      assert InOrder(arrivals, a[..m]) && InOrder(arrivals, b[..n]);
      hide InOrder;
      SortedTheSame(arrivals, a[..m], b[..n]);
      assert a == a[..m] + [a[m]] && b == b[..n] + [b[n]];
    }
  }

  lemma SameBefore(arrivals: seq<Copy>, a: seq<Message>, b: seq<Message>)
    requires InOrder(arrivals, a) && InOrder(arrivals, b) && a != [] && b != [] && a[|a| - 1] == b[|b| - 1]
    requires SameElements(a, b)
    ensures SameElements(a[..|a| - 1], b[..|b| - 1])
  {
    var c, d := a[..|a| - 1], b[..|b| - 1];
    hide GoesBefore;
    forall m ensures m in c <==> m in d {
      if m in a {
        LastIsLatest(arrivals, a, m);
        LastIsLatest(arrivals, b, m);
      }
      hide InOrder;
    }
  }

  /** The list shown is in order of creation by milliseconds, and within one in that of arrival. */
  lemma ShownIsInOrder(pages: seq<Copy>, live: seq<Copy>, roomId: string)
    ensures InOrder(InRoom(pages, roomId) + InRoom(live, roomId), MessagesIn(Merge(pages, live, roomId)))
    ensures Distinct(MessagesIn(Merge(pages, live, roomId)))
  {
    hide Merge, Millis, ArrivedFirst, InRoom;
    MergeIsNewest(pages, live, roomId);
    MergeKeepsArrival(pages, live, roomId);
    var shown := Merge(pages, live, roomId);
    var arrivals := InRoom(pages, roomId) + InRoom(live, roomId);
    forall i, j | 0 <= i < j < |shown|
      ensures GoesBefore(arrivals, shown[i].message, shown[j].message) && shown[i].message != shown[j].message
    {
      assert OlderOrSame(shown[i], shown[j]) && Id(shown[i]) != Id(shown[j]);
      hide Newest;
    }
  }

  /** End to end: once a copy of every message's current content has arrived, whatever else has,
      the client's list is a permutation of the room's log. It is the log itself exactly if the log
      is ordered by the millisecond of creation, and messages of one millisecond first arrived in
      the order of the log. */
  lemma ClientShowsTheLog(es: seq<Event>, pages: seq<Copy>, live: seq<Copy>, roomId: string)
    requires Spaced(es) && FromRun(Run(es).history, pages) && FromRun(Run(es).history, live)
    requires forall m | m in MessagesOf(Run(es).db, roomId) :: Carried(m, pages, live)
    ensures var log, list := MessagesOf(Run(es).db, roomId), MessagesIn(Merge(pages, live, roomId));
            var arrivals := InRoom(pages, roomId) + InRoom(live, roomId);
            && multiset(list) == multiset(log)
            && InOrder(arrivals, list)
            && (list == log <==> InOrder(arrivals, log))
  {
    hide Run, Spaced, Merge, FromRun, Carried, InOrder, InRoom, Distinct;
    var log, list := MessagesOf(Run(es).db, roomId), MessagesIn(Merge(pages, live, roomId));
    var arrivals := InRoom(pages, roomId) + InRoom(live, roomId);
    ShownIsInOrder(pages, live, roomId);
    SameMessages(es, pages, live, roomId);
    LogIsDistinct(es, roomId);
    SameDistinctElements(list, log);
    hide MessagesIn;
    if InOrder(arrivals, log) { SortedTheSame(arrivals, list, log); }
  }

  lemma SameMessages(es: seq<Event>, pages: seq<Copy>, live: seq<Copy>, roomId: string)
    requires Spaced(es) && FromRun(Run(es).history, pages) && FromRun(Run(es).history, live)
    requires forall m | m in MessagesOf(Run(es).db, roomId) :: Carried(m, pages, live)
    ensures SameElements(MessagesIn(Merge(pages, live, roomId)), MessagesOf(Run(es).db, roomId))
    ensures forall e | e in Merge(pages, live, roomId) :: e.message in MessagesOf(Run(es).db, roomId)
  {
    hide Run, Spaced, Merge, FromRun, Carried;
    var log, shown := MessagesOf(Run(es).db, roomId), Merge(pages, live, roomId);
    forall m | m in log ensures m in MessagesIn(shown) { LogIsShown(es, pages, live, roomId, m); }
    forall e | e in shown ensures e.message in log { ShownIsInLog(es, pages, live, roomId, e); }
  }

  lemma LogIsShown(es: seq<Event>, pages: seq<Copy>, live: seq<Copy>, roomId: string, m: Message)
    requires Spaced(es) && FromRun(Run(es).history, pages) && FromRun(Run(es).history, live)
    requires m in MessagesOf(Run(es).db, roomId) && Carried(m, pages, live)
    ensures m in MessagesIn(Merge(pages, live, roomId))
  {
    hide Run, Spaced, Merge, FromRun, Carried;
    var log, shown := MessagesOf(Run(es).db, roomId), Merge(pages, live, roomId);
    var k: nat :| k < |log| && log[k] == m;
    InItsRoom(es, roomId, k);
    CarriedIsPresent(pages, live, roomId, m);
    var e :| e in shown && Id(e) == m.id;
    ShownIsCurrent(es, pages, live, roomId, e, k);
    var j :| 0 <= j < |shown| && shown[j] == e;
    assert MessagesIn(shown)[j] == m;
  }

  lemma InItsRoom(es: seq<Event>, roomId: string, k: nat)
    requires k < |MessagesOf(Run(es).db, roomId)|
    ensures MessagesOf(Run(es).db, roomId)[k].roomId == roomId
  {
    RunKeepsHistory(es);
    hide Run, HistoryInv;
    assert MessageInv(Run(es), roomId, k, MessagesOf(Run(es).db, roomId)[k]);
  }

  lemma CarriedIsPresent(pages: seq<Copy>, live: seq<Copy>, roomId: string, m: Message)
    requires Carried(m, pages, live) && m.roomId == roomId
    ensures Present(m.id, Merge(pages, live, roomId))
  {
    hide Merge, DistinctKeys, SortedBy;
    var c :| (c in pages || c in live) && c.message == m;
    MergeIsNewest(pages, live, roomId);
    InRoomIs(pages, roomId);
    InRoomIs(live, roomId);
    hide InRoom;
    assert c in InRoom(pages, roomId) + InRoom(live, roomId);
  }

  lemma ShownIsInLog(es: seq<Event>, pages: seq<Copy>, live: seq<Copy>, roomId: string, e: Copy)
    requires Spaced(es) && FromRun(Run(es).history, pages) && FromRun(Run(es).history, live)
    requires forall m | m in MessagesOf(Run(es).db, roomId) :: Carried(m, pages, live)
    requires e in Merge(pages, live, roomId)
    ensures e.message in MessagesOf(Run(es).db, roomId)
  {
    hide Run, Spaced, Merge, FromRun, Carried;
    var log := MessagesOf(Run(es).db, roomId);
    ShownIsKnown(es, pages, live, roomId, e);
    var k: nat :| k < |log| && log[k].id == Id(e);
    assert log[k] in log && Carried(log[k], pages, live);
    ShownIsCurrent(es, pages, live, roomId, e, k);
  }

  /** Two clients that have seen the same contents agree, whatever the order. */
  lemma OrderDoesNotMatter(es: seq<Event>, pages: seq<Copy>, live: seq<Copy>, pages': seq<Copy>, live': seq<Copy>,
                           roomId: string, e: Copy, e': Copy)
    requires Spaced(es)
    requires FromRun(Run(es).history, pages) && FromRun(Run(es).history, live)
    requires FromRun(Run(es).history, pages') && FromRun(Run(es).history, live')
    requires forall m :: Carried(m, pages, live) <==> Carried(m, pages', live')
    requires e in Merge(pages, live, roomId) && e' in Merge(pages', live', roomId) && Id(e) == Id(e')
    ensures e.message == e'.message
  {
    hide Run, Spaced, Merge, FromRun, DistinctKeys, Present, Later, HistoryInv, Rising;
    NewestCopyWins(es, pages, live, roomId);
    NewestCopyWins(es, pages', live', roomId);
    RunKeepsHistory(es);
    assert Carried(e.message, pages, live) && Carried(e'.message, pages', live');
    LaterOneWay(Run(es).history, e.message, e'.message);
  }

  // ---- One change ----

  /** Whatever reactions and read flags the two copies have, and whichever comes first, the client
      keeps the content `b` and not `a`. */
  ghost predicate AlwaysReplaces(a: Message, b: Message) {
    forall x: Copy, y: Copy | x.message == a && y.message == b ::
      && (forall e | e in Put([x], y) :: e.message == b)
      && (forall e | e in Put([y], x) :: e.message == b)
  }

  lemma RaisingReplaces(x: Copy, y: Copy)
    requires Id(x) == Id(y) && Raises(x.message, y.message)
    ensures forall e | e in Put([x], y) :: e.message == y.message
    ensures forall e | e in Put([y], x) :: e.message == y.message
  {
    hide Version, ReactionSignature, Put;
    PutOnOne(x, y);
    PutOnOne(y, x);
  }

  lemma OlderOverwrites(a: Message, b: Message)
    requires a.id == b.id && Version(a) == Version(b)
    ensures Put([Plain(b)], Reacted(a)) == [Reacted(a)]
  {
    assert [Reaction("x", 1)][..0] == [];
    assert ReactionSignature(Plain(b).reactions) != ReactionSignature(Reacted(a).reactions);
    hide ReactionSignature, Version, Put;
    PutOnOne(Plain(b), Reacted(a));
  }

  lemma ReplacesExactlyIfLater(a: Message, b: Message)
    requires a.id == b.id && Version(a) <= Version(b)
    ensures AlwaysReplaces(a, b) <==> Raises(a, b)
    ensures !Raises(a, b) ==> Put([Plain(b)], Reacted(a)) == [Reacted(a)]
  {
    hide Version, Put;
    if Raises(a, b) {
      forall x: Copy, y: Copy | x.message == a && y.message == b
        ensures (forall e | e in Put([x], y) :: e.message == b) && (forall e | e in Put([y], x) :: e.message == b)
      {
        RaisingReplaces(x, y);
      }
    } else {
      OlderOverwrites(a, b);
      assert Plain(b).message == b && Reacted(a).message == a;
      assert Reacted(a) in Put([Plain(b)], Reacted(a));
    }
  }

  /** A successful edit takes the place of what clients hold, for all copies in either order, exactly
      if it changes nothing or its millisecond is later than that of the message's last change. If
      not, an older copy with another reaction overwrites it. */
  lemma EditArrivesExactlyIfLater(db: Db, roomId: string, id: string, userId: string, payload: Payload, now: int)
    requires UpdateMessage(db, roomId, id, userId, payload, now).Ok?
    requires Stamp(MessagesOf(db, roomId)[Find(MessagesOf(db, roomId), id)]) <= now
    ensures var old', new' := MessagesOf(db, roomId)[Find(MessagesOf(db, roomId), id)],
                              UpdateMessage(db, roomId, id, userId, payload, now).value.1;
            && (AlwaysReplaces(old', new') <==> new' == old' || Version(old') < Millis(now))
            && (!AlwaysReplaces(old', new') ==> Put([Plain(new')], Reacted(old')) == [Reacted(old')])
  {
    hide Find, ValidPayload, AlwaysReplaces, Put;
    var a := MessagesOf(db, roomId)[Find(MessagesOf(db, roomId), id)];
    ReplacesExactlyIfLater(a, UpdateMessage(db, roomId, id, userId, payload, now).value.1);
  }

  /** So does a deletion. */
  lemma DeletionArrivesExactlyIfLater(db: Db, roomId: string, id: string, userId: string, now: int)
    requires DeleteMessageForAll(db, roomId, id, userId, now).Ok?
    requires Stamp(MessagesOf(db, roomId)[Find(MessagesOf(db, roomId), id)]) <= now
    ensures var old', new' := MessagesOf(db, roomId)[Find(MessagesOf(db, roomId), id)],
                              DeleteMessageForAll(db, roomId, id, userId, now).value.1;
            && (AlwaysReplaces(old', new') <==> new' == old' || Version(old') < Millis(now))
            && (!AlwaysReplaces(old', new') ==> Put([Plain(new')], Reacted(old')) == [Reacted(old')])
  {
    hide Find, AlwaysReplaces, Put;
    var a := MessagesOf(db, roomId)[Find(MessagesOf(db, roomId), id)];
    ReplacesExactlyIfLater(a, DeleteMessageForAll(db, roomId, id, userId, now).value.1);
  }
}
