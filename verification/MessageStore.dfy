/** The in-memory message log: rooms, messages with edits and tombstones, two records of who has
    read what, and reactions. Ids are already normalised; times count nanoseconds. */
module MessageStore {
  import opened Common
  import opened Ordering

  datatype StoreError = NotFound | BadRequest | Forbidden

  datatype Payload = Payload(ciphertext: string, nonce: string, algorithm: string, keyId: string)

  datatype Message = Message(
    id: string, roomId: string, senderId: string, payload: Payload,
    createdAt: int, editedAt: Option<int>, deletedAt: Option<int>)

  datatype Receipt = Receipt(userId: string, readAt: int)

  datatype Reaction = Reaction(emoji: string, count: nat)

  /** A message as it is handed out. */
  datatype Copy = Copy(
    message: Message, readBy: seq<string>, receipts: seq<Receipt>, read: bool, reactions: seq<Reaction>)

  datatype Room = Room(name: string, members: seq<string>, secret: string, createdAt: int)

  datatype Db = Db(
    rooms: map<string, Room>,
    messages: map<string, seq<Message>>,
    reactions: map<string, map<string, string>>,   // message id -> user -> emoji
    roomReads: map<string, map<string, int>>,      // room -> user -> time
    messageReads: map<string, map<string, int>>)   // message id -> user -> time

  function Lookup<K, V>(m: map<string, map<K, V>>, key: string): map<K, V> {
    if key in m then m[key] else map[]
  }

  function MessagesOf(db: Db, roomId: string): seq<Message> {
    if roomId in db.messages then db.messages[roomId] else []
  }

  /** The first message with the id, or the length of the list. */
  function Find(messages: seq<Message>, id: string): (i: nat)
    ensures i <= |messages|
    ensures i < |messages| ==> messages[i].id == id
    ensures forall j | 0 <= j < i :: messages[j].id != id
  {
    if messages == [] || messages[0].id == id then 0 else 1 + Find(messages[1..], id)
  }

  // ---- Rooms ----

  /** Trimmed away: empty ids and repetitions; the rest is sorted. */
  function NormalizeMembers(members: seq<string>): seq<string> {
    Sort(Dedupe(members), StrLe)
  }

  function Dedupe(members: seq<string>): seq<string> {
    if members == [] then []
    else
      var n := |members| - 1;
      var head := Dedupe(members[..n]);
      if members[n] == "" || members[n] in head then head else head + [members[n]]
  }

  function AddMissing(members: seq<string>, more: seq<string>): seq<string>
    decreases |more|
  {
    if more == [] then members
    else if more[0] in members then AddMissing(members, more[1..])
    else AddMissing(members + [more[0]], more[1..])
  }

  /** `freshId` and `freshSecret` are what the generators would give. */
  function CreateRoom(db: Db, roomId: string, room: Room, freshId: string, freshSecret: string)
      : Result<(Db, Room), StoreError>
  {
    var id := if roomId == "" then freshId else roomId;
    var secret := if room.secret == "" then freshSecret else room.secret;
    var members := NormalizeMembers(room.members);
    if room.name == "" || members == [] then Err(BadRequest)
    else if id in db.rooms then
      var existing := db.rooms[id];
      if existing.secret != "" && secret != existing.secret then Err(BadRequest)
      else if existing.secret == "" && room.secret == "" then Err(BadRequest)
      else
        var kept := existing.(secret := if existing.secret == "" then secret else existing.secret,
                              members := Sort(AddMissing(existing.members, members), StrLe));
        Ok((db.(rooms := db.rooms[id := kept]), kept))
    else
      var made := room.(members := members, secret := secret);
      Ok((db.(rooms := db.rooms[id := made]), made))
  }

  function AddRoomMember(db: Db, roomId: string, userId: string): Result<Db, StoreError> {
    if roomId == "" || userId == "" then Err(BadRequest)
    else if roomId !in db.rooms then Err(NotFound)
    else
      var room := db.rooms[roomId];
      if userId in room.members then Ok(db)
      else Ok(db.(rooms := db.rooms[roomId := room.(members := Sort(room.members + [userId], StrLe))]))
  }

  function Without(members: seq<string>, userId: string): seq<string> {
    if members == [] then []
    else if members[|members| - 1] == userId then Without(members[..|members| - 1], userId)
    else Without(members[..|members| - 1], userId) + [members[|members| - 1]]
  }

  function LeaveRoom(db: Db, roomId: string, userId: string): Result<Db, StoreError> {
    if roomId == "" || userId == "" then Err(BadRequest)
    else if roomId !in db.rooms then Err(NotFound)
    else
      var room := db.rooms[roomId];
      Ok(db.(rooms := db.rooms[roomId := room.(members := Without(room.members, userId))]))
  }

  // ---- Messages ----

  predicate PlainAlgorithm(algorithm: string) {
    "PLAIN-" <= algorithm
  }

  predicate ValidPayload(roomId: string, senderId: string, p: Payload) {
    && roomId != "" && senderId != "" && p.ciphertext != "" && p.algorithm != ""
    && (p.nonce == "" ==> PlainAlgorithm(p.algorithm))
  }

  function AppendMessage(db: Db, roomId: string, senderId: string, payload: Payload, id: string, createdAt: int)
      : Result<(Db, Message), StoreError>
  {
    if !ValidPayload(roomId, senderId, payload) then Err(BadRequest)
    else if roomId !in db.rooms then Err(NotFound)
    else
      var msg := Message(id, roomId, senderId, payload, createdAt, None, None);
      Ok((db.(messages := db.messages[roomId := MessagesOf(db, roomId) + [msg]]), msg))
  }

  function Replace(db: Db, roomId: string, i: nat, msg: Message): Db
    requires i < |MessagesOf(db, roomId)|
  {
    db.(messages := db.messages[roomId := MessagesOf(db, roomId)[i := msg]])
  }

  function UpdateMessage(db: Db, roomId: string, id: string, userId: string, payload: Payload, now: int)
      : Result<(Db, Message), StoreError>
  {
    if id == "" || !ValidPayload(roomId, userId, payload) then Err(BadRequest)
    else
      var i := Find(MessagesOf(db, roomId), id);
      if i == |MessagesOf(db, roomId)| then Err(NotFound)
      else
        var current := MessagesOf(db, roomId)[i];
        if current.senderId != userId then Err(Forbidden)
        else if current.deletedAt.Some? then Err(BadRequest)
        else
          var edited := current.(payload := payload, editedAt := Some(now));
          Ok((Replace(db, roomId, i, edited), edited))
  }

  function DeleteMessageForAll(db: Db, roomId: string, id: string, userId: string, now: int)
      : Result<(Db, Message), StoreError>
  {
    if roomId == "" || id == "" || userId == "" then Err(BadRequest)
    else
      var i := Find(MessagesOf(db, roomId), id);
      if i == |MessagesOf(db, roomId)| then Err(NotFound)
      else
        var current := MessagesOf(db, roomId)[i];
        if current.senderId != userId then Err(Forbidden)
        else
          var deleted := current.(deletedAt := Some(now));
          Ok((Replace(db, roomId, i, deleted), deleted))
  }

  // ---- Reactions ----

  /** One user's toggle: the same emoji again takes it back, another one replaces it. */
  function Toggle(holders: map<string, string>, userId: string, emoji: string): map<string, string> {
    if userId in holders && holders[userId] == emoji then holders - {userId} else holders[userId := emoji]
  }

  function ToggleMessageReaction(db: Db, roomId: string, id: string, userId: string, emoji: string)
      : Result<(Db, Message), StoreError>
  {
    if roomId == "" || id == "" || userId == "" || emoji == "" || |emoji| > 8 then Err(BadRequest)
    else
      var i := Find(MessagesOf(db, roomId), id);
      if i == |MessagesOf(db, roomId)| then Err(NotFound)
      else if MessagesOf(db, roomId)[i].deletedAt.Some? then Err(BadRequest)
      else
        Ok((db.(reactions := db.reactions[id := Toggle(Lookup(db.reactions, id), userId, emoji)]),
            MessagesOf(db, roomId)[i]))
  }

  function Holders(holders: map<string, string>, emoji: string): set<string> {
    set u | u in holders && holders[u] == emoji
  }

  /** The reactions shown for the holders: strictly sorted, one entry for each emoji held, with
      the number of its holders. */
  ghost predicate Tallies(shown: seq<Reaction>, holders: map<string, string>) {
    && (forall i, j | 0 <= i < j < |shown| :: StrLess(shown[i].emoji, shown[j].emoji))
    && (forall r | r in shown :: r.count == |Holders(holders, r.emoji)| && r.count > 0)
    && (forall u | u in holders :: exists r | r in shown :: r.emoji == holders[u])
  }

  // ---- Who has read what ----

  /** The time `decorateReadState` finds: the message's own record first, then the room's. */
  function ReadTime(db: Db, msg: Message, member: string): Option<int> {
    if member in Lookup(db.messageReads, msg.id) then Some(db.messageReads[msg.id][member])
    else if member in Lookup(db.roomReads, msg.roomId) then Some(db.roomReads[msg.roomId][member])
    else None
  }

  predicate HasRead(db: Db, msg: Message, member: string) {
    && member != "" && member != msg.senderId
    && ReadTime(db, msg, member).Some? && ReadTime(db, msg, member).value >= msg.createdAt
  }

  function Readers(db: Db, msg: Message, members: seq<string>): seq<string> {
    if members == [] then []
    else
      var n := |members| - 1;
      Readers(db, msg, members[..n]) + if HasRead(db, msg, members[n]) then [members[n]] else []
  }

  function Receipts(db: Db, msg: Message, readers: seq<string>): seq<Receipt> {
    if readers == [] then []
    else
      var n := |readers| - 1;
      var when := ReadTime(db, msg, readers[n]);
      Receipts(db, msg, readers[..n]) + [Receipt(readers[n], if when.Some? then when.value else 0)]
  }

  predicate ReceiptLe(a: Receipt, b: Receipt) {
    a.readAt < b.readAt || (a.readAt == b.readAt && StrLe(a.userId, b.userId))
  }

  /** `copy` is `msg` as the store decorates it. */
  ghost predicate Decorates(db: Db, msg: Message, copy: Copy) {
    && copy.message == msg
    && if msg.roomId !in db.rooms then copy == Copy(msg, [], [], false, [])
       else
         var members := db.rooms[msg.roomId].members;
         var readers := Readers(db, msg, members);
         && copy.readBy == Sort(readers, StrLe)
         && copy.receipts == Sort(Receipts(db, msg, readers), ReceiptLe)
         && copy.read == (|readers| >= |members| - 1)
         && Tallies(copy.reactions, Lookup(db.reactions, msg.id))
  }

  /** The record one reader leaves at `now` on every message of the room that is not his own
      and not deleted. */
  function MarkMessages(marks: map<string, map<string, int>>, messages: seq<Message>, userId: string, now: int)
      : map<string, map<string, int>>
  {
    if messages == [] then marks
    else
      var n := |messages| - 1;
      var before := MarkMessages(marks, messages[..n], userId, now);
      var msg := messages[n];
      if msg.senderId == userId || msg.deletedAt.Some? then before
      else before[msg.id := Lookup(before, msg.id)[userId := now]]
  }

  function MarkRoomRead(db: Db, roomId: string, userId: string, now: int): Result<Db, StoreError> {
    if roomId == "" || userId == "" then Err(BadRequest)
    else if roomId !in db.rooms then Err(NotFound)
    else Ok(db.(roomReads := db.roomReads[roomId := Lookup(db.roomReads, roomId)[userId := now]],
                messageReads := MarkMessages(db.messageReads, MessagesOf(db, roomId), userId, now)))
  }

  predicate Unread(watermark: Option<int>, msg: Message, userId: string) {
    msg.senderId != userId && (watermark.None? || msg.createdAt > watermark.value)
  }

  function Watermark(db: Db, roomId: string, userId: string): Option<int> {
    var marks := Lookup(db.roomReads, roomId);
    if userId in marks then Some(marks[userId]) else None
  }

  function CountUnread(messages: seq<Message>, watermark: Option<int>, userId: string): nat {
    if messages == [] then 0
    else
      var n := |messages| - 1;
      CountUnread(messages[..n], watermark, userId) + if Unread(watermark, messages[n], userId) then 1 else 0
  }

  function UnreadCount(db: Db, roomId: string, userId: string): nat {
    if userId == "" then 0
    else CountUnread(MessagesOf(db, roomId), Watermark(db, roomId, userId), userId)
  }

  // ---- Pages ----

  function EndBefore(messages: seq<Message>, before: Option<int>): (end: nat)
    ensures end <= |messages|
  {
    if before.None? || messages == [] || messages[|messages| - 1].createdAt < before.value then |messages|
    else EndBefore(messages[..|messages| - 1], before)
  }

  function PageOf(messages: seq<Message>, limit: int, before: Option<int>): seq<Message> {
    var size := if limit <= 0 || limit > 500 then 100 else limit;
    var end := EndBefore(messages, before);
    messages[(if end > size then end - size else 0)..end]
  }
}
