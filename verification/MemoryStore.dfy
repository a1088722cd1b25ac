/** The message store as the object the server runs, each method one critical section. */
module MemoryStore {
  import opened Common
  import opened Ordering
  import opened MessageStore

  method HasMember(members: seq<string>, userId: string) returns (has: bool)
    ensures has == (userId in members)
  {
    for i := 0 to |members|
      invariant userId !in members[..i]
    {
      if members[i] == userId { return true; }
    }
    return false;
  }

  method NormalizeMemberList(members: seq<string>) returns (result: seq<string>)
    ensures result == MessageStore.NormalizeMembers(members)
  {
    var seen: set<string> := {};
    result := [];
    for i := 0 to |members|
      invariant result == Dedupe(members[..i]) && seen == set m | m in result
    {
      assert members[..i + 1][..i] == members[..i];
      if members[i] == "" || members[i] in seen { continue; }
      seen := seen + {members[i]};
      result := result + [members[i]];
    }
    assert members[..|members|] == members;
    result := Sort(result, StrLe);
  }

  /** What `MessageStore.Tallies` asks for, by counting, listing and sorting. */
  method DecorateReactions(holders: map<string, string>) returns (shown: seq<Reaction>)
    ensures Tallies(shown, holders)
  {
    var counts := CountEmojis(holders);
    shown := [];
    var todo := counts.Keys;
    while todo != {}
      invariant todo <= counts.Keys
      invariant Lists(shown, counts, counts.Keys - todo)
      decreases todo
    {
      var emoji :| emoji in todo;
      ListOneMore(shown, counts, counts.Keys - todo, emoji);
      assert counts.Keys - (todo - {emoji}) == counts.Keys - todo + {emoji};
      shown := shown + [Reaction(emoji, counts[emoji])];
      todo := todo - {emoji};
    }
    assert counts.Keys - {} == counts.Keys;
    SortedListTallies(shown, counts, holders);
    shown := Sort(shown, ReactionLe);
  }

  method CountEmojis(holders: map<string, string>) returns (counts: map<string, nat>)
    ensures Counted(counts, holders)
  {
    counts := map[];
    var todo := holders.Keys;
    assert holders - todo == map[];
    while todo != {}
      invariant todo <= holders.Keys && Counted(counts, holders - todo)
      decreases todo
    {
      var user :| user in todo;
      var emoji := holders[user];
      ghost var before := holders - todo;
      assert holders - (todo - {user}) == before[user := emoji];
      CountOneMore(counts, before, user, emoji);
      counts := counts[emoji := (if emoji in counts then counts[emoji] else 0) + 1];
      todo := todo - {user};
    }
    assert holders - {} == holders;
  }

  ghost predicate Counted(counts: map<string, nat>, holders: map<string, string>) {
    && (forall emoji | emoji in counts :: counts[emoji] == |Holders(holders, emoji)| && counts[emoji] > 0)
    && (forall u | u in holders :: holders[u] in counts)
  }

  lemma CountOneMore(counts: map<string, nat>, holders: map<string, string>, user: string, emoji: string)
    requires Counted(counts, holders) && user !in holders
    ensures Counted(counts[emoji := (if emoji in counts then counts[emoji] else 0) + 1], holders[user := emoji])
  {
    var more := holders[user := emoji];
    assert Holders(more, emoji) == Holders(holders, emoji) + {user};
    forall other | other != emoji ensures Holders(more, other) == Holders(holders, other) {}
    if emoji !in counts { assert Holders(holders, emoji) == {}; }
    hide Holders;
  }

  predicate ReactionLe(a: Reaction, b: Reaction) {
    StrLe(a.emoji, b.emoji)
  }

  /** The list has one entry for each of these emojis, with its count. */
  ghost predicate Lists(shown: seq<Reaction>, counts: map<string, nat>, emojis: set<string>) {
    && (forall r | r in shown :: r.emoji in emojis && r.emoji in counts && r.count == counts[r.emoji])
    && (forall emoji | emoji in emojis :: exists r | r in shown :: r.emoji == emoji)
    && (forall i, j | 0 <= i < j < |shown| :: shown[i].emoji != shown[j].emoji)
  }

  lemma ListOneMore(shown: seq<Reaction>, counts: map<string, nat>, emojis: set<string>, emoji: string)
    requires Lists(shown, counts, emojis) && emoji in counts && emoji !in emojis
    ensures Lists(shown + [Reaction(emoji, counts[emoji])], counts, emojis + {emoji})
  {
    var more := shown + [Reaction(emoji, counts[emoji])];
    assert more[|shown|] in more;
    forall e | e in emojis ensures exists r | r in more :: r.emoji == e {
      var r :| r in shown && r.emoji == e;
      assert r in more;
    }
    assert forall i | 0 <= i < |shown| :: shown[i] in shown;
  }

  lemma SortedListTallies(shown: seq<Reaction>, counts: map<string, nat>, holders: map<string, string>)
    requires Lists(shown, counts, counts.Keys) && Counted(counts, holders)
    ensures Tallies(Sort(shown, ReactionLe), holders)
  {
    hide Sort, StrLess, Holders, TotalOrder;
    var sorted := Sort(shown, ReactionLe);
    SortKeeps(shown, ReactionLe);
    ReactionLeIsTotal();
    SortSorts(shown, ReactionLe);
    SortedByEmoji(shown, sorted);
    hide SortedBy;
    forall u | u in holders ensures exists r | r in sorted :: r.emoji == holders[u] {
      var r :| r in shown && r.emoji == holders[u];
      assert r in sorted;
    }
  }

  lemma SortedByEmoji(shown: seq<Reaction>, sorted: seq<Reaction>)
    requires multiset(sorted) == multiset(shown) && SortedBy(sorted, ReactionLe)
    requires forall r :: r in sorted <==> r in shown
    requires forall i, j | 0 <= i < j < |shown| :: shown[i].emoji != shown[j].emoji
    ensures forall i, j | 0 <= i < j < |sorted| :: StrLess(sorted[i].emoji, sorted[j].emoji)
  {
    hide StrLess;
    DistinctByMultiset(shown, sorted);
    forall i, j | 0 <= i < j < |sorted| ensures StrLess(sorted[i].emoji, sorted[j].emoji) {
      assert sorted[i] in sorted && sorted[j] in sorted && sorted[i] != sorted[j];
      assert ReactionLe(sorted[i], sorted[j]);
    }
  }

  lemma ReactionLeIsTotal()
    ensures TotalOrder(ReactionLe)
  {
    StrLeIsTotal();
  }

  class MemoryStore {
    var rooms: map<string, Room>
    var messages: map<string, seq<Message>>
    var reactions: map<string, map<string, string>>
    var roomReads: map<string, map<string, int>>
    var messageReads: map<string, map<string, int>>

    ghost function View(): Db
      reads this
    {
      Db(rooms, messages, reactions, roomReads, messageReads)
    }

    constructor ()
      ensures View() == Db(map[], map[], map[], map[], map[])
    {
      rooms, messages, reactions, roomReads, messageReads := map[], map[], map[], map[], map[];
    }

    method CreateRoom(roomId: string, room: Room, freshId: string, freshSecret: string)
        returns (r: Result<Room, StoreError>)
      modifies this`rooms
      ensures match MessageStore.CreateRoom(old(View()), roomId, room, freshId, freshSecret)
              case Ok((db, made)) => View() == db && r == Ok(made)
              case Err(e) => View() == old(View()) && r == Err(e)
    {
      var members := NormalizeMemberList(room.members);
      var id := if roomId == "" then freshId else roomId;
      var secret := if room.secret == "" then freshSecret else room.secret;
      if room.name == "" || |members| == 0 { return Err(BadRequest); }
      if id in rooms {
        var existing := rooms[id];
        if existing.secret != "" && secret != existing.secret { return Err(BadRequest); }
        if existing.secret == "" && room.secret == "" { return Err(BadRequest); }
        if existing.secret == "" { existing := existing.(secret := secret); }
        var all := AddAllMissing(existing.members, members);
        existing := existing.(members := Sort(all, StrLe));
        rooms := rooms[id := existing];
        return Ok(existing);
      }
      var made := room.(members := members, secret := secret);
      rooms := rooms[id := made];
      return Ok(made);
    }

    /** The loop of `CreateRoom` over the new members of an existing room. */
    static method AddAllMissing(members: seq<string>, more: seq<string>) returns (all: seq<string>)
      ensures all == AddMissing(members, more)
    {
      all := members;
      for i := 0 to |more|
        invariant AddMissing(members, more) == AddMissing(all, more[i..])
      {
        assert more[i..][1..] == more[i + 1..];
        var has := HasMember(all, more[i]);
        if !has { all := all + [more[i]]; }
      }
    }

    method AddRoomMember(roomId: string, userId: string) returns (r: Result<(), StoreError>)
      modifies this`rooms
      ensures match MessageStore.AddRoomMember(old(View()), roomId, userId)
              case Ok(db) => View() == db && r == Ok(())
              case Err(e) => View() == old(View()) && r == Err(e)
    {
      if roomId == "" || userId == "" { return Err(BadRequest); }
      if roomId !in rooms { return Err(NotFound); }
      var room := rooms[roomId];
      var has := HasMember(room.members, userId);
      if !has {
        rooms := rooms[roomId := room.(members := Sort(room.members + [userId], StrLe))];
      }
      return Ok(());
    }

    method LeaveRoom(roomId: string, userId: string) returns (r: Result<(), StoreError>)
      modifies this`rooms
      ensures match MessageStore.LeaveRoom(old(View()), roomId, userId)
              case Ok(db) => View() == db && r == Ok(())
              case Err(e) => View() == old(View()) && r == Err(e)
    {
      if roomId == "" || userId == "" { return Err(BadRequest); }
      if roomId !in rooms { return Err(NotFound); }
      var room := rooms[roomId];
      var next := [];
      for i := 0 to |room.members|
        invariant next == Without(room.members[..i], userId)
      {
        assert room.members[..i + 1][..i] == room.members[..i];
        if room.members[i] != userId { next := next + [room.members[i]]; }
      }
      assert room.members[..|room.members|] == room.members;
      rooms := rooms[roomId := room.(members := next)];
      return Ok(());
    }

    method AppendMessage(roomId: string, senderId: string, payload: Payload, freshId: string, now: int)
        returns (r: Result<Message, StoreError>)
      modifies this`messages
      ensures match MessageStore.AppendMessage(old(View()), roomId, senderId, payload, freshId, now)
              case Ok((db, msg)) => View() == db && r == Ok(msg)
              case Err(e) => View() == old(View()) && r == Err(e)
    {
      if !ValidPayload(roomId, senderId, payload) { return Err(BadRequest); }
      var msg := Message(freshId, roomId, senderId, payload, now, None, None);
      if roomId !in rooms { return Err(NotFound); }
      messages := messages[roomId := (if roomId in messages then messages[roomId] else []) + [msg]];
      return Ok(msg);
    }

    /** The search that editing, deleting and reacting begin with. */
    method IndexOf(roomId: string, id: string) returns (i: nat)
      ensures i == Find(MessagesOf(View(), roomId), id)
    {
      var all := if roomId in messages then messages[roomId] else [];
      i := 0;
      while i < |all|
        invariant i <= |all| && Find(all, id) == i + Find(all[i..], id)
      {
        if all[i].id == id { return; }
        assert all[i..][1..] == all[i + 1..];
        i := i + 1;
      }
    }

    method UpdateMessage(roomId: string, id: string, userId: string, payload: Payload, now: int)
        returns (r: Result<Copy, StoreError>)
      modifies this`messages
      ensures match MessageStore.UpdateMessage(old(View()), roomId, id, userId, payload, now)
              case Ok((db, msg)) => View() == db && r.Ok? && Decorates(db, msg, r.value)
              case Err(e) => View() == old(View()) && r == Err(e)
    {
      if id == "" || !ValidPayload(roomId, userId, payload) { return Err(BadRequest); }
      var i := IndexOf(roomId, id);
      if roomId !in messages || i == |messages[roomId]| { return Err(NotFound); }
      var current := messages[roomId][i];
      if current.senderId != userId { return Err(Forbidden); }
      if current.deletedAt.Some? { return Err(BadRequest); }
      current := current.(payload := payload, editedAt := Some(now));
      messages := messages[roomId := messages[roomId][i := current]];
      var copy := DecorateReadState(current);
      return Ok(copy);
    }

    method DeleteMessageForAll(roomId: string, id: string, userId: string, now: int)
        returns (r: Result<Copy, StoreError>)
      modifies this`messages
      ensures match MessageStore.DeleteMessageForAll(old(View()), roomId, id, userId, now)
              case Ok((db, msg)) => View() == db && r.Ok? && Decorates(db, msg, r.value)
              case Err(e) => View() == old(View()) && r == Err(e)
    {
      if roomId == "" || id == "" || userId == "" { return Err(BadRequest); }
      var i := IndexOf(roomId, id);
      if roomId !in messages || i == |messages[roomId]| { return Err(NotFound); }
      var current := messages[roomId][i];
      if current.senderId != userId { return Err(Forbidden); }
      current := current.(deletedAt := Some(now));
      messages := messages[roomId := messages[roomId][i := current]];
      var copy := DecorateReadState(current);
      return Ok(copy);
    }

    method ToggleMessageReaction(roomId: string, id: string, userId: string, emoji: string)
        returns (r: Result<Copy, StoreError>)
      modifies this`reactions
      ensures match MessageStore.ToggleMessageReaction(old(View()), roomId, id, userId, emoji)
              case Ok((db, msg)) => View() == db && r.Ok? && Decorates(db, msg, r.value)
              case Err(e) => View() == old(View()) && r == Err(e)
    {
      hide Decorates, Find;
      if roomId == "" || id == "" || userId == "" || emoji == "" || |emoji| > 8 { return Err(BadRequest); }
      var i := IndexOf(roomId, id);
      if roomId !in messages || i == |messages[roomId]| { return Err(NotFound); }
      var current := messages[roomId][i];
      if current.deletedAt.Some? { return Err(BadRequest); }
      if id !in reactions { reactions := reactions[id := map[]]; }
      if userId in reactions[id] && reactions[id][userId] == emoji {
        reactions := reactions[id := reactions[id] - {userId}];
      } else {
        reactions := reactions[id := reactions[id][userId := emoji]];
      }
      assert reactions == old(reactions)[id := Toggle(Lookup(old(reactions), id), userId, emoji)];
      var copy := DecorateReadState(current);
      return Ok(copy);
    }

    method MarkRoomRead(roomId: string, userId: string, now: int) returns (r: Result<(), StoreError>)
      modifies this`roomReads, this`messageReads
      ensures match MessageStore.MarkRoomRead(old(View()), roomId, userId, now)
              case Ok(db) => View() == db && r == Ok(())
              case Err(e) => View() == old(View()) && r == Err(e)
    {
      hide MarkMessages;
      if roomId == "" || userId == "" { return Err(BadRequest); }
      if roomId !in rooms { return Err(NotFound); }
      if roomId !in roomReads { roomReads := roomReads[roomId := map[]]; }
      roomReads := roomReads[roomId := roomReads[roomId][userId := now]];
      assert roomReads == old(roomReads)[roomId := Lookup(old(roomReads), roomId)[userId := now]];
      MarkAll(if roomId in messages then messages[roomId] else [], userId, now);
      return Ok(());
    }

    /** The loop of `MarkRoomRead` over the room's messages. */
    method MarkAll(all: seq<Message>, userId: string, now: int)
      modifies this`messageReads
      ensures messageReads == MarkMessages(old(messageReads), all, userId, now)
    {
      for i := 0 to |all|
        invariant messageReads == MarkMessages(old(messageReads), all[..i], userId, now)
      {
        assert all[..i + 1][..i] == all[..i];
        var msg := all[i];
        if msg.senderId == userId || msg.deletedAt.Some? { continue; }
        if msg.id !in messageReads { messageReads := messageReads[msg.id := map[]]; }
        messageReads := messageReads[msg.id := messageReads[msg.id][userId := now]];
      }
      assert all[..|all|] == all;
    }

    method DecorateReadState(msg: Message) returns (copy: Copy)
      ensures Decorates(View(), msg, copy)
    {
      if msg.roomId !in rooms { return Copy(msg, [], [], false, []); }
      var members := rooms[msg.roomId].members;
      var readBy, receipts := [], [];
      for i := 0 to |members|
        invariant readBy == Readers(View(), msg, members[..i])
        invariant receipts == Receipts(View(), msg, readBy)
      {
        assert members[..i + 1][..i] == members[..i];
        var memberId := members[i];
        if memberId == "" || memberId == msg.senderId { continue; }
        var readAt: Option<int> := None;
        if msg.id in messageReads && memberId in messageReads[msg.id] {
          readAt := Some(messageReads[msg.id][memberId]);
        } else if msg.roomId in roomReads && memberId in roomReads[msg.roomId] {
          readAt := Some(roomReads[msg.roomId][memberId]);
        }
        if readAt.Some? && readAt.value >= msg.createdAt {
          assert (readBy + [memberId])[..|readBy|] == readBy;
          readBy := readBy + [memberId];
          receipts := receipts + [Receipt(memberId, readAt.value)];
        }
      }
      assert members[..|members|] == members;
      SortKeeps(readBy, StrLe);
      var shown := DecorateReactions(if msg.id in reactions then reactions[msg.id] else map[]);
      var sorted := Sort(readBy, StrLe);
      return Copy(msg, sorted, Sort(receipts, ReceiptLe), |sorted| >= |members| - 1, shown);
    }

    method UnreadCount(roomId: string, userId: string) returns (count: nat)
      ensures count == MessageStore.UnreadCount(View(), roomId, userId)
    {
      if userId == "" { return 0; }
      var readAt :=
        if roomId in roomReads && userId in roomReads[roomId] then Some(roomReads[roomId][userId]) else None;
      var all := if roomId in messages then messages[roomId] else [];
      count := 0;
      for i := 0 to |all|
        invariant count == CountUnread(all[..i], readAt, userId)
      {
        assert all[..i + 1][..i] == all[..i];
        if all[i].senderId != userId && (readAt.None? || all[i].createdAt > readAt.value) { count := count + 1; }
      }
      assert all[..|all|] == all;
    }

    method ListMessages(roomId: string, limit: int, before: Option<int>) returns (result: seq<Copy>)
      ensures var page := PageOf(MessagesOf(View(), roomId), limit, before);
              |result| == |page| && forall i | 0 <= i < |page| :: Decorates(View(), page[i], result[i])
    {
      var page := CutPage(if roomId in messages then messages[roomId] else [], limit, before);
      hide Decorates, PageOf;
      result := [];
      for i := 0 to |page|
        invariant |result| == i && forall j | 0 <= j < i :: Decorates(View(), page[j], result[j])
      {
        var copy := DecorateReadState(page[i]);
        result := result + [copy];
      }
    }

    /** The part of `ListMessages` that reslices the log. */
    static method CutPage(all: seq<Message>, limit: int, before: Option<int>) returns (page: seq<Message>)
      ensures page == PageOf(all, limit, before)
    {
      var size := if limit <= 0 || limit > 500 then 100 else limit;
      page := all;
      if before.Some? {
        var end: nat := |page|;
        assert page[..end] == page;
        while end > 0 && !(page[end - 1].createdAt < before.value)
          invariant end <= |page| && EndBefore(page, before) == EndBefore(page[..end], before)
        {
          assert page[..end][..end - 1] == page[..end - 1];
          end := end - 1;
        }
        page := page[..end];
      }
      assert page == all[..EndBefore(all, before)];
      if |page| > size { page := page[|page| - size..]; }
    }

    method GetMessageCreatedAt(roomId: string, id: string) returns (r: Result<int, StoreError>)
      ensures var all := MessagesOf(View(), roomId);
              r == if Find(all, id) == |all| then Err(NotFound) else Ok(all[Find(all, id)].createdAt)
    {
      var i := IndexOf(roomId, id);
      if roomId !in messages || i == |messages[roomId]| { return Err(NotFound); }
      return Ok(messages[roomId][i].createdAt);
    }
  }
}
