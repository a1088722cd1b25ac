/** What the calls so far say of one message, one room, one reader: in every run the store holds just
    that, however the calls for others interleave. */
module StoreCalls {
  import opened Common
  import opened Ordering
  import opened MessageStore
  import opened StoreRuns

  // ---- What one call stores ----

  /** All but the messages of one room is as before. */
  ghost predicate OnlyLog(db: Db, after: Db, roomId: string) {
    && after.rooms == db.rooms && after.reactions == db.reactions
    && after.roomReads == db.roomReads && after.messageReads == db.messageReads
    && forall room | room != roomId :: MessagesOf(after, room) == MessagesOf(db, room)
  }

  /** Neither nonce nor plain text: such a payload, or an empty one, is refused. */
  predicate Sendable(p: Payload) {
    p.ciphertext != "" && p.algorithm != "" && (p.nonce != "" || (|p.algorithm| >= 6 && p.algorithm[..6] == "PLAIN-"))
  }

  /** A message is stored behind all others of its room, as it was sent. */
  lemma AppendStores(db: Db, roomId: string, senderId: string, payload: Payload, id: string, createdAt: int)
    ensures var r := AppendMessage(db, roomId, senderId, payload, id, createdAt);
            && (r.Ok? <==> roomId != "" && senderId != "" && Sendable(payload) && roomId in db.rooms)
            && (r.Ok? ==>
                  var (after, msg) := r.value;
                  && OnlyLog(db, after, roomId) && MessagesOf(after, roomId) == MessagesOf(db, roomId) + [msg]
                  && msg == Message(id, roomId, senderId, payload, createdAt, None, None))
  {
  }

  /** An edit gives the sender's own, undeleted message exactly the new payload and the time of the
      edit; the rest of it stays, and so does every other message. */
  lemma EditStores(db: Db, roomId: string, id: string, userId: string, payload: Payload, now: int)
    ensures var r, messages := UpdateMessage(db, roomId, id, userId, payload, now), MessagesOf(db, roomId);
            var i := Find(messages, id);
            && (r.Ok? <==>
                  && id != "" && roomId != "" && userId != "" && Sendable(payload)
                  && i < |messages| && messages[i].senderId == userId && messages[i].deletedAt.None?)
            && (r.Ok? ==>
                  var (after, msg) := r.value;
                  && OnlyLog(db, after, roomId) && MessagesOf(after, roomId) == messages[i := msg]
                  && msg.payload == payload && msg.editedAt == Some(now)
                  && msg.id == id && msg.roomId == messages[i].roomId && msg.senderId == userId
                  && msg.createdAt == messages[i].createdAt && msg.deletedAt == None)
  {
    hide Find;
  }

  lemma DeletionMarks(db: Db, roomId: string, id: string, userId: string, now: int)
    ensures var r, messages := DeleteMessageForAll(db, roomId, id, userId, now), MessagesOf(db, roomId);
            var i := Find(messages, id);
            && (r.Ok? <==>
                  id != "" && roomId != "" && userId != "" && i < |messages| && messages[i].senderId == userId)
            && (r.Ok? ==>
                  var (after, msg) := r.value;
                  && OnlyLog(db, after, roomId) && MessagesOf(after, roomId) == messages[i := msg]
                  && msg.deletedAt == Some(now) && msg.payload == messages[i].payload
                  && msg.editedAt == messages[i].editedAt && msg.id == id && msg.roomId == messages[i].roomId
                  && msg.senderId == userId && msg.createdAt == messages[i].createdAt)
  {
    hide Find;
  }

  /** The time that has passed since the beginning. */
  function Elapsed(es: seq<Event>): nat {
    if es == [] then 0
    else Elapsed(es[..|es| - 1]) + if es[|es| - 1].Tick? then es[|es| - 1].elapsed else 0
  }

  lemma {:induction false} ClockFollows(es: seq<Event>)
    ensures Run(es).now == Elapsed(es)
  {
    if es != [] {
      ClockFollows(es[..|es| - 1]);
      ClockMoves(Run(es[..|es| - 1]), es[|es| - 1]);
      hide Step;
    }
  }

  lemma ClockMoves(s: State, e: Event)
    ensures Step(s, e).now == s.now + if e.Tick? then e.elapsed else 0
  {
    hide CreateRoom, AddRoomMember, LeaveRoom, MarkRoomRead, UpdateMessage, DeleteMessageForAll, AppendMessage;
    hide ToggleMessageReaction;
  }

  // ---- One message ----

  /** The message with the id, where the run has put it. */
  ghost function At(s: State, id: string): Option<Message> {
    if id in s.home && s.home[id].1 < |MessagesOf(s.db, s.home[id].0)|
    then Some(MessagesOf(s.db, s.home[id].0)[s.home[id].1]) else None
  }

  /** What one call makes of one message. */
  ghost function NextContent(before: Option<Message>, s: State, e: Event, id: string): Option<Message> {
    match e
    case Append(roomId, senderId, payload, newId, createdAt) =>
      if newId == id && id != "" && before.None? && createdAt <= s.now && roomId in s.db.rooms
         && roomId != "" && senderId != "" && Sendable(payload)
      then Some(Message(id, roomId, senderId, payload, createdAt, None, None)) else before
    case Update(roomId, target, userId, payload) =>
      if target == id && before.Some? && before.value.roomId == roomId && before.value.senderId == userId
         && before.value.deletedAt.None? && Sendable(payload)
      then Some(before.value.(payload := payload, editedAt := Some(s.now))) else before
    case Delete(roomId, target, userId) =>
      if target == id && before.Some? && before.value.roomId == roomId && before.value.senderId == userId
      then Some(before.value.(deletedAt := Some(s.now))) else before
    case _ => before
  }

  /** What the calls so far make of it. */
  ghost function ContentOf(es: seq<Event>, id: string): Option<Message> {
    if es == [] then None
    else
      var n := |es| - 1;
      NextContent(ContentOf(es[..n], id), Run(es[..n]), es[n], id)
  }

  /** Every id given stands where the run has put it. */
  ghost predicate HomeInv(s: State) {
    forall id | id in s.home ::
      && id != "" && s.home[id].0 != "" && s.home[id].1 < |MessagesOf(s.db, s.home[id].0)|
      && var m := MessagesOf(s.db, s.home[id].0)[s.home[id].1];
      m.id == id && m.roomId == s.home[id].0 && m.senderId != ""
  }

  lemma FindIsHome(s: State, roomId: string, id: string)
    requires LogInv(s) && HomeInv(s)
    ensures var i := Find(MessagesOf(s.db, roomId), id);
            && (i < |MessagesOf(s.db, roomId)| <==> id in s.home && s.home[id].0 == roomId)
            && (i < |MessagesOf(s.db, roomId)| ==>
                  s.home[id] == (roomId, i) && At(s, id) == Some(MessagesOf(s.db, roomId)[i]))
  {
    var messages := MessagesOf(s.db, roomId);
    var i := Find(messages, id);
    if i < |messages| { assert MessageInv(s, roomId, i, messages[i]); }
    if id in s.home && s.home[id].0 == roomId {
      var k := s.home[id].1;
      assert messages[k].id == id;
      assert i <= k;
    }
    hide MarksInv;
  }

  ghost predicate Advances(s: State, t: State, e: Event) {
    HomeInv(t) && forall id :: At(t, id) == NextContent(At(s, id), s, e, id)
  }

  /** Nothing but one message of the log has changed. */
  lemma ReplacingAdvances(s: State, t: State, e: Event, roomId: string, id: string, msg: Message)
    requires LogInv(s) && HomeInv(s) && (e.Update? || e.Delete?) && t.home == s.home
    requires var messages := MessagesOf(s.db, roomId);
             var i := Find(messages, id);
             && i < |messages| && OnlyLog(s.db, t.db, roomId) && MessagesOf(t.db, roomId) == messages[i := msg]
             && msg.id == messages[i].id && msg.roomId == messages[i].roomId && msg.senderId == messages[i].senderId
    requires NextContent(At(s, id), s, e, id) == Some(msg)
    requires forall other | other != id :: NextContent(At(s, other), s, e, other) == At(s, other)
    ensures Advances(s, t, e)
  {
    FindIsHome(s, roomId, id);
    hide LogInv, NextContent, Find;
  }

  lemma UpdateAdvances(s: State, e: Event)
    requires LogInv(s) && HomeInv(s) && e.Update?
    ensures Advances(s, Step(s, e), e)
  {
    EditStores(s.db, e.roomId, e.id, e.userId, e.payload, s.now);
    FindIsHome(s, e.roomId, e.id);
    hide LogInv, UpdateMessage, Find, OnlyLog;
    var r := UpdateMessage(s.db, e.roomId, e.id, e.userId, e.payload, s.now);
    if r.Ok? { ReplacingAdvances(s, Step(s, e), e, e.roomId, e.id, r.value.1); }
  }

  lemma DeleteAdvances(s: State, e: Event)
    requires LogInv(s) && HomeInv(s) && e.Delete?
    ensures Advances(s, Step(s, e), e)
  {
    DeletionMarks(s.db, e.roomId, e.id, e.userId, s.now);
    FindIsHome(s, e.roomId, e.id);
    hide LogInv, DeleteMessageForAll, Find, OnlyLog;
    var r := DeleteMessageForAll(s.db, e.roomId, e.id, e.userId, s.now);
    if r.Ok? { ReplacingAdvances(s, Step(s, e), e, e.roomId, e.id, r.value.1); }
  }

  lemma AppendAdvances(s: State, e: Event)
    requires LogInv(s) && HomeInv(s) && e.Append?
    ensures Advances(s, Step(s, e), e)
  {
    AppendStores(s.db, e.roomId, e.senderId, e.payload, e.id, e.createdAt);
    hide LogInv, AppendMessage, Sendable;
    var t := Step(s, e);
    assert At(s, e.id).None? <==> e.id !in s.home;
    forall id ensures At(t, id) == NextContent(At(s, id), s, e, id) {
      if t != s && id != e.id && id in s.home { assert t.home[id] == s.home[id]; }
    }
  }

  lemma OthersAdvance(s: State, e: Event)
    requires HomeInv(s) && !e.Append? && !e.Update? && !e.Delete?
    ensures Advances(s, Step(s, e), e)
  {
    SameMessages(s, e);
    hide Step;
  }

  lemma SameMessages(s: State, e: Event)
    requires !e.Append? && !e.Update? && !e.Delete?
    ensures Step(s, e).db.messages == s.db.messages && Step(s, e).home == s.home
  {
    if e.MarkRead? { hide MarkMessages; } else { SameLog(s, e); }
  }

  lemma StepAdvances(s: State, e: Event)
    requires LogInv(s) && HomeInv(s)
    ensures Advances(s, Step(s, e), e)
  {
    hide Step, LogInv, Advances, HomeInv;
    if e.Append? { AppendAdvances(s, e); }
    else if e.Update? { UpdateAdvances(s, e); }
    else if e.Delete? { DeleteAdvances(s, e); }
    else { OthersAdvance(s, e); }
  }

  lemma {:induction false} ContentFollows(es: seq<Event>)
    ensures HomeInv(Run(es)) && forall id :: At(Run(es), id) == ContentOf(es, id)
  {
    if es != [] {
      hide Step, LogInv, MembersInv, NextContent, At;
      var n := |es| - 1;
      ContentFollows(es[..n]);
      RunKeepsInv(es[..n]);
      StepAdvances(Run(es[..n]), es[n]);
    }
  }

  /** In every run a room's log holds exactly the messages that calls for them have left there: each as
      its one append and its own later edits and deletions made it, whatever was called for others. */
  lemma MessageFollowsItsCalls(es: seq<Event>, roomId: string, m: Message)
    ensures m in MessagesOf(Run(es).db, roomId) <==> m.roomId == roomId && ContentOf(es, m.id) == Some(m)
  {
    ContentFollows(es);
    RunKeepsInv(es);
    var s := Run(es);
    hide Run, ContentOf;
    if m in MessagesOf(s.db, roomId) {
      var k :| 0 <= k < |MessagesOf(s.db, roomId)| && MessagesOf(s.db, roomId)[k] == m;
      assert MessageInv(s, roomId, k, m);
    }
    hide LogInv;
  }

  // ---- One room ----

  datatype Club = Club(name: string, secret: string, createdAt: int, members: set<string>)

  function Named(members: seq<string>): set<string> {
    set m | m in members && m != ""
  }

  /** What one call makes of one room. */
  function NextClub(before: Option<Club>, e: Event, roomId: string): Option<Club> {
    match e
    case Create(id, room, freshId, freshSecret) =>
      var presented := if room.secret == "" then freshSecret else room.secret;
      if (if id == "" then freshId else id) != roomId || room.name == "" || Named(room.members) == {} then before
      else if before.None? then Some(Club(room.name, presented, room.createdAt, Named(room.members)))
      else
        var club := before.value;
        if club.secret != "" && presented != club.secret then before
        else if club.secret == "" && room.secret == "" then before
        else Some(club.(secret := presented, members := club.members + Named(room.members)))
    case Join(id, userId) =>
      if id != roomId || roomId == "" || userId == "" || before.None? then before
      else Some(before.value.(members := before.value.members + {userId}))
    case Leave(id, userId) =>
      if id != roomId || roomId == "" || userId == "" || before.None? then before
      else Some(before.value.(members := before.value.members - {userId}))
    case _ => before
  }

  function ClubOf(es: seq<Event>, roomId: string): Option<Club> {
    if es == [] then None else NextClub(ClubOf(es[..|es| - 1], roomId), es[|es| - 1], roomId)
  }

  /** The list of members is the sorted list of the set. */
  ghost predicate Lists(members: seq<string>, set': set<string>) {
    GoodMembers(members) && SortedBy(members, StrLe) && forall m :: m in members <==> m in set'
  }

  ghost predicate IsClub(room: Room, club: Club) {
    && room.name == club.name && room.secret == club.secret && room.createdAt == club.createdAt
    && Lists(room.members, club.members)
  }

  ghost predicate HoldsClub(db: Db, roomId: string, club: Option<Club>) {
    && (roomId in db.rooms <==> club.Some?)
    && (club.Some? ==> IsClub(db.rooms[roomId], club.value))
  }

  lemma SortedLists(members: seq<string>, set': set<string>)
    requires GoodMembers(members) && forall m :: m in members <==> m in set'
    ensures Lists(Sort(members, StrLe), set')
  {
    SortKeepsGood(members);
    SortKeeps(members, StrLe);
    StrLeIsTotal();
    SortSorts(members, StrLe);
    hide Sort, GoodMembers;
  }

  lemma NamedAreListed(members: seq<string>)
    ensures Lists(NormalizeMembers(members), Named(members))
    ensures NormalizeMembers(members) == [] <==> Named(members) == {}
  {
    NormalizeMembersIsGood(members);
    hide NormalizeMembers, GoodMembers, SortedBy;
    var listed := NormalizeMembers(members);
    if listed != [] { assert listed[0] in listed && listed[0] in Named(members); }
    if m :| m in Named(members) { assert m in listed; }
  }

  lemma CreateKeepsClub(db: Db, e: Event, roomId: string, club: Option<Club>)
    requires HoldsClub(db, roomId, club) && e.Create?
    ensures var r := CreateRoom(db, e.roomId, e.room, e.freshId, e.freshSecret);
            HoldsClub(if r.Ok? then r.value.0 else db, roomId, NextClub(club, e, roomId))
  {
    hide Lists, Named, AddMissing, Sort, NormalizeMembers;
    NamedAreListed(e.room.members);
    if (if e.roomId == "" then e.freshId else e.roomId) == roomId && roomId in db.rooms {
      AddingLists(db.rooms[roomId].members, club.value.members,
                  NormalizeMembers(e.room.members), Named(e.room.members));
    }
  }

  lemma AddingLists(kept: seq<string>, old': set<string>, members: seq<string>, new': set<string>)
    requires Lists(kept, old') && Lists(members, new')
    ensures Lists(Sort(AddMissing(kept, members), StrLe), old' + new')
  {
    assert "" !in members;
    AddMissingIsGood(kept, members);
    hide GoodMembers, SortedBy;
    SortedLists(AddMissing(kept, members), old' + new');
  }

  lemma JoinKeepsClub(db: Db, e: Event, roomId: string, club: Option<Club>)
    requires HoldsClub(db, roomId, club) && e.Join?
    ensures var r := AddRoomMember(db, e.roomId, e.userId);
            HoldsClub(if r.Ok? then r.value else db, roomId, NextClub(club, e, roomId))
  {
    if e.roomId == roomId && roomId in db.rooms && e.userId != "" {
      var members := db.rooms[roomId].members;
      if e.userId !in members {
        SortedLists(members + [e.userId], club.value.members + {e.userId});
      } else {
        assert club.value.members + {e.userId} == club.value.members;
      }
    }
    hide Lists, Sort;
  }

  lemma {:induction false} WithoutIsSorted(members: seq<string>, userId: string)
    requires SortedBy(members, StrLe)
    ensures SortedBy(Without(members, userId), StrLe)
    ensures forall m | m in Without(members, userId) :: m in members
  {
    if members != [] {
      var n := |members| - 1;
      WithoutIsSorted(members[..n], userId);
      hide StrLe;
      forall m | m in Without(members[..n], userId) ensures m in members && StrLe(m, members[n]) {
        var i :| 0 <= i < n && members[..n][i] == m;
        assert members[i] == m;
      }
      var rest := Without(members[..n], userId);
      assert forall i | 0 <= i < |rest| :: rest[i] in rest;
    }
  }

  lemma LeaveKeepsClub(db: Db, e: Event, roomId: string, club: Option<Club>)
    requires HoldsClub(db, roomId, club) && e.Leave?
    ensures var r := LeaveRoom(db, e.roomId, e.userId);
            HoldsClub(if r.Ok? then r.value else db, roomId, NextClub(club, e, roomId))
  {
    if e.roomId == roomId && roomId in db.rooms && e.userId != "" {
      WithoutIsGood(db.rooms[roomId].members, e.userId);
      WithoutIsSorted(db.rooms[roomId].members, e.userId);
    }
    hide GoodMembers, SortedBy, Without;
  }

  lemma StepKeepsClub(s: State, e: Event, roomId: string, club: Option<Club>)
    requires HoldsClub(s.db, roomId, club)
    ensures HoldsClub(Step(s, e).db, roomId, NextClub(club, e, roomId))
  {
    hide HoldsClub, NextClub;
    if e.Create? { CreateKeepsClub(s.db, e, roomId, club); }
    else if e.Join? { JoinKeepsClub(s.db, e, roomId, club); }
    else if e.Leave? { LeaveKeepsClub(s.db, e, roomId, club); }
    else { SameRooms(s, e, roomId, club); }
    hide CreateRoom, AddRoomMember, LeaveRoom;
  }

  lemma SameRooms(s: State, e: Event, roomId: string, club: Option<Club>)
    requires HoldsClub(s.db, roomId, club) && !e.Create? && !e.Join? && !e.Leave?
    ensures HoldsClub(Step(s, e).db, roomId, NextClub(club, e, roomId))
  {
    assert Step(s, e).db.rooms == s.db.rooms by { hide MarkMessages, ToggleMessageReaction; RoomsStay(s, e); }
    hide Step, Lists;
  }

  lemma RoomsStay(s: State, e: Event)
    requires !e.Create? && !e.Join? && !e.Leave?
    ensures Step(s, e).db.rooms == s.db.rooms
  {
    hide MarkMessages, Find, ValidPayload;
  }

  /** In every run a room is there exactly if a call created it, under the name, secret and time of the
      first that did, and its members are those that have come and not left since, once each and sorted. */
  lemma {:induction false} RoomFollowsItsCalls(es: seq<Event>, roomId: string)
    ensures HoldsClub(Run(es).db, roomId, ClubOf(es, roomId))
  {
    if es != [] {
      hide Step, HoldsClub, NextClub;
      var n := |es| - 1;
      RoomFollowsItsCalls(es[..n], roomId);
      StepKeepsClub(Run(es[..n]), es[n], roomId, ClubOf(es[..n], roomId));
    }
  }

  /** What is handed back is the room, or the message, as it is stored. */
  lemma StoredIsReturned(db: Db, roomId: string, room: Room, freshId: string, freshSecret: string,
                         id: string, userId: string, emoji: string)
    ensures var r := CreateRoom(db, roomId, room, freshId, freshSecret);
            r.Ok? ==>
              var stored := if roomId == "" then freshId else roomId;
              stored in r.value.0.rooms && r.value.0.rooms[stored] == r.value.1
    ensures var r := ToggleMessageReaction(db, roomId, id, userId, emoji);
            r.Ok? ==> r.value.1 in MessagesOf(r.value.0, roomId) && r.value.1.id == id
  {
    hide NormalizeMembers, AddMissing, Sort, Toggle;
  }

  // ---- One reader ----

  function Get<V>(m: map<string, map<string, V>>, key: string, userId: string): Option<V> {
    if key in m && userId in m[key] then Some(m[key][userId]) else None
  }

  /** When the user last marked the room as read. */
  ghost function WatermarkOf(es: seq<Event>, roomId: string, userId: string): Option<int> {
    if es == [] then None
    else
      var n := |es| - 1;
      if es[n] == MarkRead(roomId, userId) && roomId != "" && userId != "" && ClubOf(es[..n], roomId).Some?
      then Some(Run(es[..n]).now) else WatermarkOf(es[..n], roomId, userId)
  }

  /** When he last marked the room of the message while it was there, not his own and not deleted. */
  ghost function MarkOf(es: seq<Event>, id: string, userId: string): Option<int> {
    if es == [] then None
    else
      var n := |es| - 1;
      var e, msg := es[n], ContentOf(es[..n], id);
      if e.MarkRead? && e.userId == userId && userId != "" && msg.Some? && msg.value.roomId == e.roomId
         && msg.value.senderId != userId && msg.value.deletedAt.None?
      then Some(Run(es[..n]).now) else MarkOf(es[..n], id, userId)
  }

  /** The emoji that he has put on the message and not taken back. */
  ghost function EmojiOf(es: seq<Event>, id: string, userId: string): Option<string> {
    if es == [] then None
    else
      var n := |es| - 1;
      var e, msg, before := es[n], ContentOf(es[..n], id), EmojiOf(es[..n], id, userId);
      if e.React? && e.id == id && e.userId == userId && userId != "" && e.emoji != "" && |e.emoji| <= 8
         && msg.Some? && msg.value.roomId == e.roomId && msg.value.deletedAt.None?
      then if before == Some(e.emoji) then None else Some(e.emoji)
      else before
  }

  lemma MarkedIsThere(s: State, roomId: string, userId: string, id: string)
    requires LogInv(s) && HomeInv(s)
    ensures Marked(MessagesOf(s.db, roomId), userId, id)
       <==> && At(s, id).Some? && At(s, id).value.roomId == roomId
            && At(s, id).value.senderId != userId && At(s, id).value.deletedAt.None?
  {
    var messages := MessagesOf(s.db, roomId);
    FindIsHome(s, roomId, id);
    if k :| 0 <= k < |messages| && messages[k].id == id { assert MessageInv(s, roomId, k, messages[k]); }
    hide LogInv, MarksInv;
  }

  lemma MarkReadMarksRoom(s: State, e: Event, roomId: string, userId: string)
    requires e.MarkRead?
    ensures var t := Step(s, e).db;
            && Get(t.roomReads, roomId, userId)
               == (if e == MarkRead(roomId, userId) && roomId != "" && userId != "" && roomId in s.db.rooms
                   then Some(s.now) else Get(s.db.roomReads, roomId, userId))
            && t.reactions == s.db.reactions
  {
    hide MarkMessages;
  }

  lemma MarkReadMarksMessages(s: State, e: Event, id: string, userId: string)
    requires LogInv(s) && HomeInv(s) && e.MarkRead?
    ensures var t, msg := Step(s, e).db, At(s, id);
            Get(t.messageReads, id, userId)
            == if e.userId == userId && userId != "" && msg.Some? && msg.value.roomId == e.roomId
                  && msg.value.senderId != userId && msg.value.deletedAt.None?
               then Some(s.now) else Get(s.db.messageReads, id, userId)
  {
    hide MarkMessages, Marked;
    MarkMessagesAt(s.db.messageReads, MessagesOf(s.db, e.roomId), e.userId, s.now, id);
    MarkedIsThere(s, e.roomId, e.userId, id);
    assert At(s, id).Some? && At(s, id).value.roomId == e.roomId ==> e.roomId != "" && e.roomId in s.db.rooms;
    hide LogInv, HomeInv, At;
    var marks := MarkMessages(s.db.messageReads, MessagesOf(s.db, e.roomId), e.userId, s.now);
    assert Step(s, e).db.messageReads
        == if e.roomId != "" && e.userId != "" && e.roomId in s.db.rooms then marks else s.db.messageReads;
    hide Step;
    MarksOfOne(s.db.messageReads, marks, id, userId);
  }

  lemma MarksOfOne(before: map<string, map<string, int>>, after: map<string, map<string, int>>, id: string,
                   userId: string)
    ensures Get(before, id, userId) == if userId in Lookup(before, id) then Some(Lookup(before, id)[userId]) else None
    ensures Get(after, id, userId) == if userId in Lookup(after, id) then Some(Lookup(after, id)[userId]) else None
  {
  }

  lemma ReactReacts(s: State, e: Event, id: string, userId: string)
    requires LogInv(s) && HomeInv(s) && e.React?
    ensures var t, msg, before := Step(s, e).db, At(s, id), Get(s.db.reactions, id, userId);
            && t.roomReads == s.db.roomReads && t.messageReads == s.db.messageReads
            && Get(t.reactions, id, userId)
               == if e.id == id && e.userId == userId && userId != "" && e.emoji != "" && |e.emoji| <= 8
                     && msg.Some? && msg.value.roomId == e.roomId && msg.value.deletedAt.None?
                  then (if before == Some(e.emoji) then None else Some(e.emoji)) else before
  {
    FindIsHome(s, e.roomId, e.id);
    assert e.id == id && At(s, id).Some? && At(s, id).value.roomId == e.roomId ==> e.roomId != "" && id != "";
    hide LogInv, HomeInv, At, Find;
  }

  lemma OthersMarkNothing(s: State, e: Event)
    requires !e.MarkRead? && !e.React?
    ensures var t := Step(s, e).db;
            t.roomReads == s.db.roomReads && t.messageReads == s.db.messageReads && t.reactions == s.db.reactions
  {
    match e {
      case Append(_, _, _, _, _) => hide ValidPayload;
      case Update(_, _, _, _) => hide ValidPayload, Find;
      case Delete(_, _, _) => hide Find;
      case Create(roomId, room, freshId, freshSecret) =>
        RoomCallsOnlyTouchRooms(s.db, roomId, room, freshId, freshSecret, "");
        hide CreateRoom;
      case Join(roomId, userId) =>
        RoomCallsOnlyTouchRooms(s.db, roomId, Room("", [], "", 0), "", "", userId);
        hide AddRoomMember;
      case Leave(roomId, userId) =>
        RoomCallsOnlyTouchRooms(s.db, roomId, Room("", [], "", 0), "", "", userId);
        hide LeaveRoom;
      case _ =>
    }
  }

  /** In every run the records of a reader are the times of his own calls, and his reaction to a message
      is the emoji of his own toggles, whatever others did. */
  lemma {:induction false} ReaderFollowsHisCalls(es: seq<Event>, roomId: string, id: string, userId: string)
    ensures var db := Run(es).db;
            && Get(db.roomReads, roomId, userId) == WatermarkOf(es, roomId, userId)
            && Get(db.messageReads, id, userId) == MarkOf(es, id, userId)
            && Get(db.reactions, id, userId) == EmojiOf(es, id, userId)
  {
    if es != [] {
      hide Step, LogInv, MembersInv, HomeInv, HoldsClub, ClubOf, At, ContentOf, Get;
      var n := |es| - 1;
      var s, e := Run(es[..n]), es[n];
      ReaderFollowsHisCalls(es[..n], roomId, id, userId);
      RunKeepsInv(es[..n]);
      ContentFollows(es[..n]);
      RoomFollowsItsCalls(es[..n], roomId);
      ClubIsThere(s.db, roomId, ClubOf(es[..n], roomId));
      if e.MarkRead? {
        MarkReadMarksRoom(s, e, roomId, userId);
        MarkReadMarksMessages(s, e, id, userId);
      }
      else if e.React? { ReactReacts(s, e, id, userId); }
      else { OthersMarkNothing(s, e); }
    }
  }

  lemma ClubIsThere(db: Db, roomId: string, club: Option<Club>)
    requires HoldsClub(db, roomId, club)
    ensures roomId in db.rooms <==> club.Some?
  {
  }

  // ---- What a reader is shown as having read ----

  lemma {:induction false} ReceiptsAre(db: Db, msg: Message, readers: seq<string>)
    requires forall u | u in readers :: ReadTime(db, msg, u).Some?
    ensures forall r :: r in Receipts(db, msg, readers) <==>
              r.userId in readers && Some(r.readAt) == ReadTime(db, msg, r.userId)
  {
    if readers != [] {
      var n := |readers| - 1;
      assert readers == readers[..n] + [readers[n]];
      ReceiptsAre(db, msg, readers[..n]);
      hide ReadTime;
    }
  }

  /** With each reader shown stands the time of his last call for the room that marked this message, or
      else of his last call for the room. */
  lemma ReceiptsFollowTheCalls(es: seq<Event>, roomId: string, m: Message, copy: Copy)
    requires m in MessagesOf(Run(es).db, roomId) && Decorates(Run(es).db, m, copy)
    ensures forall r :: r in copy.receipts <==>
              && r.userId in copy.readBy
              && Some(r.readAt) == if MarkOf(es, m.id, r.userId).Some? then MarkOf(es, m.id, r.userId)
                                   else WatermarkOf(es, roomId, r.userId)
  {
    MessageFollowsItsCalls(es, roomId, m);
    var db := Run(es).db;
    hide Run, ContentOf, MarkOf, WatermarkOf;
    if roomId in db.rooms {
      var members := db.rooms[roomId].members;
      var readers := Readers(db, m, members);
      ReadersAre(db, m, members);
      ReceiptsAre(db, m, readers);
      SortKeeps(Receipts(db, m, readers), ReceiptLe);
      SortKeeps(readers, StrLe);
      hide Readers, Receipts, Sort, Tallies, HasRead;
      forall u ensures ReadTime(db, m, u)
                    == if MarkOf(es, m.id, u).Some? then MarkOf(es, m.id, u) else WatermarkOf(es, roomId, u)
      {
        ReaderFollowsHisCalls(es, roomId, m.id, u);
      }
    }
  }
}
