/** What every run of the message store keeps: who has read what, the unread count, the read
    flag, and the history of every message's content. */
module StoreRuns {
  import opened Common
  import opened Ordering
  import opened MessageStore

  datatype State = State(
    db: Db,
    now: int,
    home: map<string, (string, nat)>,   // where the message with an id stands
    history: seq<Message>)              // every content a message ever had

  datatype Event =
    | Tick(elapsed: nat)
    | Create(roomId: string, room: Room, freshId: string, freshSecret: string)
    | Join(roomId: string, userId: string)
    | Leave(roomId: string, userId: string)
    | Append(roomId: string, senderId: string, payload: Payload, id: string, createdAt: int)
    | Update(roomId: string, id: string, userId: string, payload: Payload)
    | Delete(roomId: string, id: string, userId: string)
    | React(roomId: string, id: string, userId: string, emoji: string)
    | MarkRead(roomId: string, userId: string)

  function Init(): State {
    State(Db(map[], map[], map[], map[], map[]), 0, map[], [])
  }

  function Changed(s: State, r: Result<(Db, Message), StoreError>): State {
    match r
    case Ok((db, msg)) => s.(db := db, history := s.history + [msg])
    case Err(_) => s
  }

  function WithDb(s: State, r: Result<Db, StoreError>): State {
    match r
    case Ok(db) => s.(db := db)
    case Err(_) => s
  }

  /** The creation time of a message is read from the clock before the store is locked. */
  function Step(s: State, e: Event): State {
    match e
    case Tick(elapsed) => s.(now := s.now + elapsed)
    case Create(roomId, room, freshId, freshSecret) =>
      (match CreateRoom(s.db, roomId, room, freshId, freshSecret)
       case Ok((db, _)) => s.(db := db)
       case Err(_) => s)
    case Join(roomId, userId) => WithDb(s, AddRoomMember(s.db, roomId, userId))
    case Leave(roomId, userId) => WithDb(s, LeaveRoom(s.db, roomId, userId))
    case Append(roomId, senderId, payload, id, createdAt) =>
      var r := AppendMessage(s.db, roomId, senderId, payload, id, createdAt);
      if id in s.home || id == "" || createdAt > s.now || r.Err? then s
      else Changed(s, r).(home := s.home[id := (roomId, |MessagesOf(s.db, roomId)|)])
    case Update(roomId, id, userId, payload) => Changed(s, UpdateMessage(s.db, roomId, id, userId, payload, s.now))
    case Delete(roomId, id, userId) => Changed(s, DeleteMessageForAll(s.db, roomId, id, userId, s.now))
    case React(roomId, id, userId, emoji) =>
      (match ToggleMessageReaction(s.db, roomId, id, userId, emoji)
       case Ok((db, _)) => s.(db := db)
       case Err(_) => s)
    case MarkRead(roomId, userId) => WithDb(s, MarkRoomRead(s.db, roomId, userId, s.now))
  }

  function Run(es: seq<Event>): State {
    if es == [] then Init() else Step(Run(es[..|es| - 1]), es[|es| - 1])
  }

  lemma RunOneMore(es: seq<Event>, e: Event)
    ensures Run(es + [e]) == Step(Run(es), e)
  {
    hide Step;
    assert (es + [e])[..|es|] == es;
  }

  // ---- Members ----

  ghost predicate GoodMembers(members: seq<string>) {
    Distinct(members) && "" !in members
  }

  ghost predicate MembersInv(db: Db) {
    forall id | id in db.rooms :: GoodMembers(db.rooms[id].members)
  }

  lemma SortKeepsGood(members: seq<string>)
    requires GoodMembers(members)
    ensures GoodMembers(Sort(members, StrLe))
  {
    SortKeeps(members, StrLe);
    DistinctByMultiset(members, Sort(members, StrLe));
  }

  lemma {:induction false} DedupeIsGood(members: seq<string>)
    ensures GoodMembers(Dedupe(members))
    ensures forall m :: m in Dedupe(members) <==> m in members && m != ""
  {
    if members != [] {
      var n := |members| - 1;
      DedupeIsGood(members[..n]);
      assert members == members[..n] + [members[n]];
    }
  }

  lemma {:induction false} AddMissingIsGood(members: seq<string>, more: seq<string>)
    requires GoodMembers(members) && "" !in more
    ensures GoodMembers(AddMissing(members, more))
    ensures forall m :: m in AddMissing(members, more) <==> m in members || m in more
    decreases |more|
  {
    if more == [] {
    } else if more[0] in members {
      AddMissingIsGood(members, more[1..]);
      assert more == [more[0]] + more[1..];
    } else {
      assert more[0] in more;
      AddMissingIsGood(members + [more[0]], more[1..]);
      assert more == [more[0]] + more[1..];
    }
  }

  lemma {:induction false} WithoutIsGood(members: seq<string>, userId: string)
    requires GoodMembers(members)
    ensures GoodMembers(Without(members, userId))
    ensures forall m :: m in Without(members, userId) <==> m in members && m != userId
  {
    if members != [] {
      var n := |members| - 1;
      WithoutIsGood(members[..n], userId);
      assert members[n] !in members[..n] by { hide Without; }
      assert members == members[..n] + [members[n]];
    }
  }

  /** Normalising keeps exactly the non-empty ids, once each and in order. */
  lemma NormalizeMembersIsGood(members: seq<string>)
    ensures GoodMembers(NormalizeMembers(members)) && SortedBy(NormalizeMembers(members), StrLe)
    ensures forall m :: m in NormalizeMembers(members) <==> m in members && m != ""
  {
    DedupeIsGood(members);
    SortKeepsGood(Dedupe(members));
    SortKeeps(Dedupe(members), StrLe);
    StrLeIsTotal();
    SortSorts(Dedupe(members), StrLe);
  }

  lemma CreateKeepsMembers(db: Db, roomId: string, room: Room, freshId: string, freshSecret: string)
    requires MembersInv(db)
    ensures CreateRoom(db, roomId, room, freshId, freshSecret).Ok? ==>
              MembersInv(CreateRoom(db, roomId, room, freshId, freshSecret).value.0)
  {
    NormalizeMembersIsGood(room.members);
    var id := if roomId == "" then freshId else roomId;
    var members := NormalizeMembers(room.members);
    hide GoodMembers, NormalizeMembers;
    if id in db.rooms && members != [] && room.name != "" {
      var kept := db.rooms[id].members;
      assert GoodMembers(kept) && "" !in members by { assert forall m :: m in members ==> m != ""; }
      AddMissingIsGood(kept, members);
      SortKeepsGood(AddMissing(kept, members));
    }
  }

  lemma StepKeepsMembers(s: State, e: Event)
    requires MembersInv(s.db)
    ensures MembersInv(Step(s, e).db)
  {
    match e {
      case Create(roomId, room, freshId, freshSecret) => CreateKeepsMembers(s.db, roomId, room, freshId, freshSecret);
      case Join(roomId, userId) =>
        if roomId in s.db.rooms && userId !in s.db.rooms[roomId].members && userId != "" {
          var members := s.db.rooms[roomId].members;
          assert GoodMembers(members + [userId]);
          SortKeepsGood(members + [userId]);
        }
      case Leave(roomId, userId) =>
        if roomId in s.db.rooms { WithoutIsGood(s.db.rooms[roomId].members, userId); }
      case _ =>
    }
    hide GoodMembers, MarkMessages;
  }

  // ---- The log and the two records of reads ----

  /** A message knows its room and its place, is not from the future, and its own read records
      lie between its creation and the room's record of the same reader. */
  ghost predicate MessageInv(s: State, roomId: string, k: nat, msg: Message) {
    && msg.roomId == roomId && msg.id != "" && msg.id in s.home && s.home[msg.id] == (roomId, k)
    && msg.createdAt <= s.now
    && MarksInv(s, msg)
  }

  ghost predicate MarksInv(s: State, msg: Message) {
    var marks := Lookup(s.db.messageReads, msg.id);
    forall m | m in marks ::
      m in Lookup(s.db.roomReads, msg.roomId) && msg.createdAt <= marks[m] <= s.db.roomReads[msg.roomId][m]
  }

  ghost predicate LogInv(s: State) {
    && (forall id | id in s.db.messages :: id in s.db.rooms)
    && (forall id, k: nat | id in s.db.messages && k < |s.db.messages[id]| ::
          MessageInv(s, id, k, s.db.messages[id][k]))
    && (forall id | id in s.db.messageReads :: id in s.home)
    && (forall id, m | id in s.db.roomReads && m in s.db.roomReads[id] :: s.db.roomReads[id][m] <= s.now)
  }

  ghost predicate Marked(messages: seq<Message>, userId: string, id: string) {
    exists k ::
      && 0 <= k < |messages| && messages[k].id == id
      && messages[k].senderId != userId && messages[k].deletedAt.None?
  }

  lemma {:induction false} MarkMessagesAt(marks: map<string, map<string, int>>, messages: seq<Message>,
                                          userId: string, now: int, id: string)
    ensures Lookup(MarkMessages(marks, messages, userId, now), id)
         == if Marked(messages, userId, id) then Lookup(marks, id)[userId := now] else Lookup(marks, id)
    ensures id in MarkMessages(marks, messages, userId, now) <==> id in marks || Marked(messages, userId, id)
  {
    if messages != [] {
      var n := |messages| - 1;
      MarkMessagesAt(marks, messages[..n], userId, now, id);
      if Marked(messages[..n], userId, id) {
        var k :| 0 <= k < n && messages[..n][k].id == id && messages[k].senderId != userId
            && messages[k].deletedAt.None?;
        assert messages[k].id == id;
      }
      assert Marked(messages, userId, id) <==>
          || Marked(messages[..n], userId, id)
          || (messages[n].id == id && messages[n].senderId != userId && messages[n].deletedAt.None?)
      by {
        if k :| 0 <= k < n && messages[k].id == id && messages[k].senderId != userId && messages[k].deletedAt.None? {
          assert messages[..n][k] == messages[k];
        }
      }
      hide Marked;
    }
  }

  lemma MarkReadKeepsMarks(s: State, e: Event, roomId: string, k: nat, msg: Message)
    requires LogInv(s) && e.MarkRead? && MessageInv(s, roomId, k, msg)
    requires roomId in s.db.messages && k < |s.db.messages[roomId]| && msg == s.db.messages[roomId][k]
    ensures MarksInv(Step(s, e), msg)
  {
    hide MarkMessages, Find;
    var messages := MessagesOf(s.db, e.roomId);
    MarkMessagesAt(s.db.messageReads, messages, e.userId, s.now, msg.id);
    assert Marked(messages, e.userId, msg.id) ==> msg.roomId == e.roomId by {
      if j :| 0 <= j < |messages| && messages[j].id == msg.id {
        assert MessageInv(s, e.roomId, j, messages[j]);
      }
    }
    hide Marked, MessageInv;
  }

  lemma MarkReadKeepsLog(s: State, e: Event)
    requires LogInv(s) && e.MarkRead?
    ensures LogInv(Step(s, e))
  {
    var t := Step(s, e);
    if t != s {
      var messages := MessagesOf(s.db, e.roomId);
      forall id, k: nat | id in t.db.messages && k < |t.db.messages[id]|
        ensures MessageInv(t, id, k, t.db.messages[id][k])
      {
        assert MessageInv(s, id, k, s.db.messages[id][k]);
        MarkReadKeepsMarks(s, e, id, k, s.db.messages[id][k]);
        hide MarksInv;
      }
      forall id | id in t.db.messageReads ensures id in t.home {
        MarkMessagesAt(s.db.messageReads, messages, e.userId, s.now, id);
        if j :| 0 <= j < |messages| && messages[j].id == id { assert MessageInv(s, e.roomId, j, messages[j]); }
      }
      hide MarkMessages, MessageInv;
    }
  }

  /** Replacing a message's content keeps its id, its room and its creation time. */
  lemma ReplaceKeepsLog(s: State, roomId: string, i: nat, msg: Message, history: seq<Message>)
    requires LogInv(s) && i < |MessagesOf(s.db, roomId)|
    requires var m := MessagesOf(s.db, roomId)[i];
             msg.id == m.id && msg.roomId == m.roomId && msg.createdAt == m.createdAt
    ensures LogInv(s.(db := Replace(s.db, roomId, i, msg), history := history))
  {
    var t := s.(db := Replace(s.db, roomId, i, msg), history := history);
    forall id, k: nat | id in t.db.messages && k < |t.db.messages[id]|
      ensures MessageInv(t, id, k, t.db.messages[id][k])
    {
      assert MessageInv(s, id, k, s.db.messages[id][k]);
    }
  }

  lemma AppendKeepsLog(s: State, e: Event)
    requires LogInv(s) && e.Append?
    ensures LogInv(Step(s, e))
  {
    var t := Step(s, e);
    if t != s {
      var n := |MessagesOf(s.db, e.roomId)|;
      forall id, k: nat | id in t.db.messages && k < |t.db.messages[id]|
        ensures MessageInv(t, id, k, t.db.messages[id][k])
      {
        if !(id == e.roomId && k == n) {
          assert MessageInv(s, id, k, s.db.messages[id][k]);
        }
      }
    }
  }

  lemma StepKeepsLog(s: State, e: Event)
    requires LogInv(s)
    ensures LogInv(Step(s, e))
  {
    match e {
      case Append(_, _, _, _, _) => AppendKeepsLog(s, e);
      case MarkRead(_, _) => MarkReadKeepsLog(s, e);
      case Update(roomId, id, userId, payload) =>
        var r := UpdateMessage(s.db, roomId, id, userId, payload, s.now);
        if r.Ok? { ReplaceKeepsLog(s, roomId, Find(MessagesOf(s.db, roomId), id), r.value.1, Changed(s, r).history); }
        hide LogInv, Find;
      case Delete(roomId, id, userId) =>
        var r := DeleteMessageForAll(s.db, roomId, id, userId, s.now);
        if r.Ok? { ReplaceKeepsLog(s, roomId, Find(MessagesOf(s.db, roomId), id), r.value.1, Changed(s, r).history); }
        hide LogInv, Find;
      case _ => OtherStepsKeepLog(s, e);
    }
  }

  lemma SameLogKeepsLog(s: State, t: State)
    requires LogInv(s)
    requires t.db.messages == s.db.messages
    requires t.db.messageReads == s.db.messageReads && t.db.roomReads == s.db.roomReads
    requires t.home == s.home && s.now <= t.now && s.db.rooms.Keys <= t.db.rooms.Keys
    ensures LogInv(t)
  {
    forall id, k: nat | id in t.db.messages && k < |t.db.messages[id]|
      ensures MessageInv(t, id, k, t.db.messages[id][k])
    {
      assert MessageInv(s, id, k, s.db.messages[id][k]);
    }
  }

  lemma OtherStepsKeepLog(s: State, e: Event)
    requires LogInv(s) && (e.Tick? || e.Create? || e.Join? || e.Leave? || e.React?)
    ensures LogInv(Step(s, e))
  {
    hide *;
    SameLog(s, e);
    SameLogKeepsLog(s, Step(s, e));
  }

  ghost predicate OnlyRooms(a: Db, b: Db) {
    b == a.(rooms := b.rooms) && a.rooms.Keys <= b.rooms.Keys
  }

  lemma RoomCallsOnlyTouchRooms(db: Db, roomId: string, room: Room, freshId: string, freshSecret: string,
                                userId: string)
    ensures CreateRoom(db, roomId, room, freshId, freshSecret).Ok? ==>
              OnlyRooms(db, CreateRoom(db, roomId, room, freshId, freshSecret).value.0)
    ensures AddRoomMember(db, roomId, userId).Ok? ==> OnlyRooms(db, AddRoomMember(db, roomId, userId).value)
    ensures LeaveRoom(db, roomId, userId).Ok? ==> OnlyRooms(db, LeaveRoom(db, roomId, userId).value)
  {
    hide NormalizeMembers, AddMissing, Without, Sort;
  }

  lemma SameLog(s: State, e: Event)
    requires e.Tick? || e.Create? || e.Join? || e.Leave? || e.React?
    ensures var t := Step(s, e);
            && t.db.messages == s.db.messages && t.db.messageReads == s.db.messageReads
            && t.db.roomReads == s.db.roomReads
            && t.home == s.home && s.now <= t.now && s.db.rooms.Keys <= t.db.rooms.Keys
  {
    match e {
      case Create(roomId, room, freshId, freshSecret) =>
        RoomCallsOnlyTouchRooms(s.db, roomId, room, freshId, freshSecret, "");
      case Join(roomId, userId) => RoomCallsOnlyTouchRooms(s.db, roomId, Room("", [], "", 0), "", "", userId);
      case Leave(roomId, userId) => RoomCallsOnlyTouchRooms(s.db, roomId, Room("", [], "", 0), "", "", userId);
      case _ =>
    }
    hide CreateRoom, AddRoomMember, LeaveRoom, Find, Toggle;
  }

  ghost predicate Inv(s: State) {
    MembersInv(s.db) && LogInv(s)
  }

  lemma {:induction false} RunKeepsInv(es: seq<Event>)
    ensures Inv(Run(es))
  {
    if es != [] {
      RunKeepsInv(es[..|es| - 1]);
      hide Step, MembersInv, LogInv;
      StepKeepsMembers(Run(es[..|es| - 1]), es[|es| - 1]);
      StepKeepsLog(Run(es[..|es| - 1]), es[|es| - 1]);
    }
  }

  /** Ids are unique within a room's log. */
  lemma LogIsDistinct(es: seq<Event>, roomId: string)
    ensures Distinct(MessagesOf(Run(es).db, roomId))
    ensures forall i, j | 0 <= i < j < |MessagesOf(Run(es).db, roomId)| ::
              MessagesOf(Run(es).db, roomId)[i].id != MessagesOf(Run(es).db, roomId)[j].id
  {
    RunKeepsInv(es);
    hide Run, MembersInv, MarksInv;
    var log := MessagesOf(Run(es).db, roomId);
    assert forall i | 0 <= i < |log| :: MessageInv(Run(es), roomId, i, log[i]);
    hide LogInv;
  }

  // ---- The promises about reading ----

  predicate AtOrAfter(watermark: Option<int>, t: int) {
    watermark.Some? && watermark.value >= t
  }

  /** Although a message's own read record is consulted first, a member has read a message exactly
      when the member's record for the room is at or after the message's creation. */
  lemma ReadByIsTheWatermark(es: seq<Event>, roomId: string, k: nat, member: string)
    requires k < |MessagesOf(Run(es).db, roomId)|
    ensures var db := Run(es).db;
            var msg := MessagesOf(db, roomId)[k];
            HasRead(db, msg, member)
            <==> member != "" && member != msg.senderId && AtOrAfter(Watermark(db, roomId, member), msg.createdAt)
  {
    RunKeepsInv(es);
    hide Run, MembersInv;
    assert MessageInv(Run(es), roomId, k, MessagesOf(Run(es).db, roomId)[k]);
  }

  lemma {:induction false} ReadersAre(db: Db, msg: Message, members: seq<string>)
    ensures forall m :: m in Readers(db, msg, members) <==> m in members && HasRead(db, msg, m)
  {
    if members != [] {
      var n := |members| - 1;
      ReadersAre(db, msg, members[..n]);
      assert members == members[..n] + [members[n]];
      hide HasRead;
    }
  }

  /** What the room's list of messages shows a member as ReadBy. */
  ghost predicate ShownReadBy(db: Db, msg: Message, member: string) {
    msg.roomId in db.rooms && member in Sort(Readers(db, msg, db.rooms[msg.roomId].members), StrLe)
  }

  lemma ShownReadByMeansHasRead(db: Db, msg: Message, member: string)
    ensures ShownReadBy(db, msg, member)
       <==> msg.roomId in db.rooms && member in db.rooms[msg.roomId].members && HasRead(db, msg, member)
  {
    if msg.roomId in db.rooms {
      var members := db.rooms[msg.roomId].members;
      ReadersAre(db, msg, members);
      SortKeeps(Readers(db, msg, members), StrLe);
    }
  }

  /** Others' messages whose ReadBy omits the member. */
  ghost function Omitting(db: Db, messages: seq<Message>, member: string): nat {
    if messages == [] then 0
    else
      var n := |messages| - 1;
      Omitting(db, messages[..n], member)
      + if messages[n].senderId != member && !ShownReadBy(db, messages[n], member) then 1 else 0
  }

  /** A member's unread count, computed a third way, is the number of others' messages, deleted
      ones included, whose ReadBy omits the member. */
  lemma UnreadCountsOmissions(es: seq<Event>, roomId: string, member: string)
    requires roomId in Run(es).db.rooms && member in Run(es).db.rooms[roomId].members
    ensures var db := Run(es).db;
            UnreadCount(db, roomId, member) == Omitting(db, MessagesOf(db, roomId), member)
  {
    RunKeepsInv(es);
    var db := Run(es).db;
    CountMatchesOmissions(es, roomId, member, |MessagesOf(db, roomId)|);
    assert MessagesOf(db, roomId)[..|MessagesOf(db, roomId)|] == MessagesOf(db, roomId);
    assert member != "" by { hide Run, LogInv; }
    hide Run, Inv;
  }

  lemma {:induction false} CountMatchesOmissions(es: seq<Event>, roomId: string, member: string, n: nat)
    requires roomId in Run(es).db.rooms && member in Run(es).db.rooms[roomId].members
    requires n <= |MessagesOf(Run(es).db, roomId)|
    ensures var db := Run(es).db;
            CountUnread(MessagesOf(db, roomId)[..n], Watermark(db, roomId, member), member)
            == Omitting(db, MessagesOf(db, roomId)[..n], member)
  {
    if n > 0 {
      var db := Run(es).db;
      var msg := MessagesOf(db, roomId)[n - 1];
      CountMatchesOmissions(es, roomId, member, n - 1);
      assert MessagesOf(db, roomId)[..n][..n - 1] == MessagesOf(db, roomId)[..n - 1];
      ReadByIsTheWatermark(es, roomId, n - 1, member);
      ShownReadByMeansHasRead(db, msg, member);
      RunKeepsInv(es);
      assert MessageInv(Run(es), roomId, n - 1, msg) && member != "";
      hide Run, Inv, LogInv, MembersInv, ShownReadBy, HasRead;
    }
  }

  // ---- The read flag ----

  /** How many members other than the sender have not read the message. */
  function Missing(db: Db, msg: Message, members: seq<string>): nat {
    if members == [] then 0
    else
      var n := |members| - 1;
      Missing(db, msg, members[..n]) + if members[n] != msg.senderId && !HasRead(db, msg, members[n]) then 1 else 0
  }

  lemma {:induction false} EveryMemberCounts(db: Db, msg: Message, members: seq<string>)
    requires GoodMembers(members)
    ensures |Readers(db, msg, members)| + Missing(db, msg, members)
            + (if msg.senderId in members then 1 else 0) == |members|
    ensures Missing(db, msg, members) == 0 <==> forall m | m in members && m != msg.senderId :: HasRead(db, msg, m)
  {
    if members != [] {
      var n := |members| - 1;
      assert GoodMembers(members[..n]) && members[n] !in members[..n];
      assert HasRead(db, msg, members[n]) ==> members[n] != msg.senderId;
      hide HasRead, GoodMembers;
      EveryMemberCounts(db, msg, members[..n]);
      InOneMore(members);
    }
  }

  lemma InOneMore(members: seq<string>)
    requires members != []
    ensures var n := |members| - 1; forall m :: m in members <==> m in members[..n] || m == members[n]
  {
    assert members == members[..|members| - 1] + [members[|members| - 1]];
  }

  /** Read means that all others have read while the sender is still a member; once the sender
      has left, one member may be missing. */
  lemma ReadFlagIsExact(es: seq<Event>, roomId: string, k: nat, copy: Copy)
    requires k < |MessagesOf(Run(es).db, roomId)|
    requires Decorates(Run(es).db, MessagesOf(Run(es).db, roomId)[k], copy)
    ensures var db := Run(es).db;
            var msg := MessagesOf(db, roomId)[k];
            && roomId in db.rooms
            && var members := db.rooms[roomId].members;
            && (copy.read <==> Missing(db, msg, members) <= if msg.senderId in members then 0 else 1)
            && (msg.senderId in members ==>
                  (copy.read <==> forall m | m in members && m != msg.senderId :: m in copy.readBy))
  {
    RunKeepsInv(es);
    var db := Run(es).db;
    var msg := MessagesOf(db, roomId)[k];
    assert MessageInv(Run(es), roomId, k, msg);
    hide Run, LogInv, MessageInv;
    var members := db.rooms[roomId].members;
    EveryMemberCounts(db, msg, members);
    ReadersAre(db, msg, members);
    SortKeeps(Readers(db, msg, members), StrLe);
    hide GoodMembers, Readers, Missing, HasRead, Sort, Receipts, Tallies;
  }
}
