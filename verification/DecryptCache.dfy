/** The cache of decoded messages: which messages an update decodes again, what a run that is
    cancelled or completed leaves behind, and what the list shown has to do with decoding afresh. */
module DecryptCache {
  import opened Common
  import opened Keyed
  import opened MessageStore
  import opened ClientMerge
  import opened Decoded
  import opened Text
  import History
  import StoreRuns

  datatype Entry = Entry(cacheKey: string, decrypted: Shown)

  // ---- The key ----

  function Number(n: int): string {
    if n < 0 then "-" + Decimal(-n) else Decimal(n)
  }

  function UserText(me: Option<string>): string {
    if me.Some? then me.value else "undefined"
  }

  function CacheKey(msg: Copy, me: Option<string>): string {
    Number(Version(msg.message)) + ":" + ReactionSignature(msg.reactions) + ":"
    + (if msg.read then "1" else "0") + ":" + UserText(me)
  }

  /** A user id that the key can tell from the others. */
  predicate PlainUser(me: Option<string>) {
    me.Some? ==> ':' !in me.value && me.value != "undefined"
  }

  lemma NumberIs(n: int)
    ensures ':' !in Number(n) && Number(n) != []
    ensures Number(n)[0] == '-' <==> n < 0
    ensures n < 0 ==> Number(n)[1..] == Decimal(-n)
  {
    var abs := if n < 0 then -n else n;
    DecimalIs(abs);
    assert Decimal(abs)[0] in Decimal(abs);
    hide Decimal, ValueOf;
  }

  lemma NumberTells(a: int, b: int)
    requires Number(a) == Number(b)
    ensures a == b
  {
    NumberIs(a);
    NumberIs(b);
    DecimalIs(if a < 0 then -a else a);
    DecimalIs(if b < 0 then -b else b);
    hide Decimal, ValueOf;
  }

  /** Text up to the first colon, when neither part before it has one. */
  lemma FirstColon(a: string, x: string, b: string, y: string)
    requires ':' !in a && ':' !in b && a + ":" + x == b + ":" + y
    ensures a == b && x == y
  {
    var l, r := a + ":" + x, b + ":" + y;
    assert l[|a|] == ':' && r[|b|] == ':';
    assert forall i | 0 <= i < |a| :: l[i] == a[i] && l[i] != ':';
    assert forall i | 0 <= i < |b| :: r[i] == b[i] && r[i] != ':';
    assert |a| == |b|;
    assert a == l[..|a|] && b == r[..|b|];
    assert x == l[|a| + 1..] && y == r[|b| + 1..];
  }

  lemma SameTail(x: string, y: string, tail: string)
    requires x + ":" + tail == y + ":" + tail
    ensures x == y
  {
    var l, r := x + ":" + tail, y + ":" + tail;
    assert x == l[..|l| - 1 - |tail|] && y == r[..|r| - 1 - |tail|];
  }

  /** Keys made for one user, or for plain ones, tell exactly version, reaction signature, read flag
      and user. */
  lemma KeyTells(a: Copy, me: Option<string>, b: Copy, you: Option<string>)
    requires me == you || (PlainUser(me) && PlainUser(you))
    ensures CacheKey(a, me) == CacheKey(b, you)
       <==> && Version(a.message) == Version(b.message)
            && ReactionSignature(a.reactions) == ReactionSignature(b.reactions)
            && a.read == b.read && me == you
  {
    var v, w := Number(Version(a.message)), Number(Version(b.message));
    var s, t := ReactionSignature(a.reactions), ReactionSignature(b.reactions);
    var p, q := if a.read then "1" else "0", if b.read then "1" else "0";
    NumberIs(Version(a.message));
    NumberIs(Version(b.message));
    if v == w { NumberTells(Version(a.message), Version(b.message)); }
    hide Number, Version, ReactionSignature;
    if CacheKey(a, me) == CacheKey(b, you) {
      if me == you {
        SameTail(v + ":" + s + ":" + p, w + ":" + t + ":" + q, UserText(me));
      } else {
        LastCut(':', v + ":" + s + ":" + p, UserText(me), w + ":" + t + ":" + q, UserText(you));
      }
      LastCut(':', v + ":" + s, p, w + ":" + t, q);
      FirstColon(v, s, w, t);
      assert "1"[0] == '1' && "0"[0] == '0';
    }
  }

  lemma SignatureOfOne(emoji: string)
    ensures ReactionSignature([Reaction(emoji, 1)]) == emoji + ":1"
  {
    var one := [Reaction(emoji, 1)];
    assert one[..0] == [] && Decimal(1) == "1";
    assert "" + "" + emoji + ":" + "1" == emoji + ":1";
  }

  lemma SameText(version: string, user: string)
    ensures version + ":" + ("x" + ":1") + ":" + "0" + ":" + ("1:0:" + user)
         == version + ":" + ("x:1:0" + ":1") + ":" + "0" + ":" + user
  {
    assert "x" + ":1" + ":" + "0" + ":" + "1:0:" == "x:1:0" + ":1" + ":" + "0" + ":";
  }

  /** Without that, an emoji with colons in it could take the place of a user's id. */
  lemma KeysCanMix(msg: Message)
    ensures CacheKey(Copy(msg, [], [], false, [Reaction("x", 1)]), Some("1:0:u"))
         == CacheKey(Copy(msg, [], [], false, [Reaction("x:1:0", 1)]), Some("u"))
  {
    hide Number, Version, ReactionSignature;
    SignatureOfOne("x");
    SignatureOfOne("x:1:0");
    SameText(Number(Version(msg)), "u");
    assert "1:0:" + "u" == "1:0:u";
  }

  // ---- The effect ----

  function EntryOf(msg: Copy, me: Option<string>, decode: Decoder): Entry {
    Entry(CacheKey(msg, me), Fresh(msg, me, decode))
  }

  /** A message decoded now. */
  function Fresh(msg: Copy, me: Option<string>, decode: Decoder): Shown {
    var m := msg.message;
    var body := decode(m.payload);
    Shown(m.id, m.roomId, m.senderId, body, m.createdAt, m.editedAt, m.deletedAt,
          msg.readBy, msg.receipts, msg.read, msg.reactions,
          if me == Some(m.senderId) then Some(if msg.read then ReadByAll else Sent) else None,
          body.None?)
  }

  function ToDecrypt(messages: seq<Copy>, me: Option<string>, cache: map<string, Entry>): seq<Copy> {
    if messages == [] then []
    else
      var n := |messages| - 1;
      var msg := messages[n];
      ToDecrypt(messages[..n], me, cache)
      + if Id(msg) in cache && cache[Id(msg)].cacheKey == CacheKey(msg, me) then [] else [msg]
  }

  function Filled(cache: map<string, Entry>, todo: seq<Copy>, me: Option<string>, decode: Decoder): map<string, Entry>
    decreases |todo|
  {
    if todo == [] then cache
    else
      var msg := todo[|todo| - 1];
      Filled(cache, todo[..|todo| - 1], me, decode)[Id(msg) := EntryOf(msg, me, decode)]
  }

  /** The cached messages in order; what is not cached is filtered out. */
  function Composed(messages: seq<Copy>, cache: map<string, Entry>): seq<Shown> {
    if messages == [] then []
    else
      var n := |messages| - 1;
      Composed(messages[..n], cache)
      + if Id(messages[n]) in cache then [cache[Id(messages[n])].decrypted] else []
  }

  datatype Pass = Pass(messages: seq<Copy>, me: Option<string>)

  datatype State = State(
    cache: map<string, Entry>,
    shown: seq<Shown>,
    running: Option<Pass>,   // the run in flight; an earlier one is cancelled and leaves no trace
    todo: seq<Copy>,         // what it decodes
    settled: Pass)           // the list `shown` was made from

  datatype Event =
    | Update(pass: Pass)     // the list or the user changes
    | Reset(pass: Pass)      // so does the room or the session: the cache is cleared first
    | Finish                 // the run in flight completes

  function Init(): State {
    State(map[], [], None, [], Pass([], None))
  }

  function Begin(s: State, pass: Pass): State {
    if pass.messages == [] then s.(shown := [], running := None, todo := [], settled := pass)
    else
      var todo := ToDecrypt(pass.messages, pass.me, s.cache);
      if todo == [] then s.(shown := Composed(pass.messages, s.cache), running := None, todo := [], settled := pass)
      else s.(running := Some(pass), todo := todo)
  }

  function Complete(s: State, decode: Decoder): State {
    if s.running.None? then s
    else
      var pass := s.running.value;
      var cache := Filled(s.cache, s.todo, pass.me, decode);
      State(cache, Composed(pass.messages, cache), None, [], pass)
  }

  function Step(s: State, e: Event, decode: Decoder): State {
    match e
    case Update(pass) => Begin(s, pass)
    case Reset(pass) => Begin(s.(cache := map[]), pass)
    case Finish => Complete(s, decode)
  }

  function Run(es: seq<Event>, decode: Decoder): State {
    if es == [] then Init() else Step(Run(es[..|es| - 1], decode), es[|es| - 1], decode)
  }

  // ---- What it is compared with ----

  /** What a message is to look like for a user, given the decoder: all but the readers and their
      receipts, and of the reactions their signature. */
  ghost predicate Presents(shown: Shown, msg: Copy, me: Option<string>, decode: Decoder) {
    var m := msg.message;
    && shown.id == m.id && shown.roomId == m.roomId && shown.senderId == m.senderId
    && shown.createdAt == m.createdAt && shown.editedAt == m.editedAt && shown.deletedAt == m.deletedAt
    && shown.body == decode(m.payload) && (shown.failed <==> decode(m.payload).None?)
    && shown.read == msg.read
    && (me == Some(m.senderId) ==> shown.status == Some(if msg.read then ReadByAll else Sent))
    && (me != Some(m.senderId) ==> shown.status == None)
    && ReactionSignature(shown.reactions) == ReactionSignature(msg.reactions)
  }

  ghost predicate HasReaders(shown: Shown, msg: Copy) {
    shown.readBy == msg.readBy && shown.receipts == msg.receipts && shown.reactions == msg.reactions
  }

  /** Readers, receipts and reactions are those of one copy that the key does not tell from this one. */
  ghost predicate ReadersOfOne(shown: Shown, msg: Copy, copies: set<Copy>) {
    exists c :: c in copies && SameKey(c, msg) && HasReaders(shown, c)
  }

  ghost predicate Shows(shown: seq<Shown>, pass: Pass, copies: set<Copy>, decode: Decoder) {
    && |shown| == |pass.messages|
    && forall i | 0 <= i < |shown| ::
         Presents(shown[i], pass.messages[i], pass.me, decode) && ReadersOfOne(shown[i], pass.messages[i], copies)
  }

  lemma FreshPresents(msg: Copy, me: Option<string>, decode: Decoder)
    ensures Presents(Fresh(msg, me, decode), msg, me, decode) && HasReaders(Fresh(msg, me, decode), msg)
  {
  }

  /** What the key tells of a copy is the same of both. */
  ghost predicate SameKey(a: Copy, b: Copy) {
    && Id(a) == Id(b) && Version(a.message) == Version(b.message)
    && ReactionSignature(a.reactions) == ReactionSignature(b.reactions) && a.read == b.read
  }

  ghost predicate DecodedAlike(a: Message, b: Message, decode: Decoder) {
    && a.roomId == b.roomId && a.senderId == b.senderId
    && a.createdAt == b.createdAt && a.editedAt == b.editedAt && a.deletedAt == b.deletedAt
    && decode(a.payload) == decode(b.payload)
  }

  /** Copies that the key does not tell apart are decoded alike. */
  ghost predicate Consistent(copies: set<Copy>, decode: Decoder) {
    forall a, b | a in copies && b in copies && SameKey(a, b) :: DecodedAlike(a.message, b.message, decode)
  }

  /** One user, whatever the id, or several plain ones. */
  ghost predicate TellApart(users: set<Option<string>>) {
    forall u, v | u in users && v in users :: u == v || (PlainUser(u) && PlainUser(v))
  }

  /** What the hook feeds are merged lists. */
  ghost predicate FairPass(pass: Pass, copies: set<Copy>, users: set<Option<string>>) {
    && DistinctKeys(pass.messages, Id) && pass.me in users
    && forall c | c in pass.messages :: c in copies
  }

  ghost predicate Fair(es: seq<Event>, copies: set<Copy>, users: set<Option<string>>) {
    forall e | e in es && !e.Finish? :: FairPass(e.pass, copies, users)
  }

  /** Whatever happens, the list shown is what decoding it now would give. */
  ghost predicate AlwaysAfresh(copies: set<Copy>, users: set<Option<string>>, decode: Decoder) {
    forall es | Fair(es, copies, users) :: Shows(Run(es, decode).shown, Run(es, decode).settled, copies, decode)
  }

  // ---- The invariant ----

  ghost predicate IsFor(entry: Entry, c: Copy, u: Option<string>, decode: Decoder) {
    entry.cacheKey == CacheKey(c, u) && Presents(entry.decrypted, c, u, decode) && HasReaders(entry.decrypted, c)
  }

  ghost predicate FromCopy(entry: Entry, id: string, copies: set<Copy>, users: set<Option<string>>, decode: Decoder) {
    exists c, u :: c in copies && Id(c) == id && u in users && IsFor(entry, c, u, decode)
  }

  ghost predicate Known(cache: map<string, Entry>, copies: set<Copy>, users: set<Option<string>>, decode: Decoder) {
    forall id | id in cache :: FromCopy(cache[id], id, copies, users, decode)
  }

  ghost predicate Holds(cache: map<string, Entry>, msg: Copy, me: Option<string>) {
    Id(msg) in cache && cache[Id(msg)].cacheKey == CacheKey(msg, me)
  }

  ghost predicate RunningInv(s: State, copies: set<Copy>, users: set<Option<string>>) {
    s.running.Some? ==>
      && FairPass(s.running.value, copies, users)
      && s.todo == ToDecrypt(s.running.value.messages, s.running.value.me, s.cache)
  }

  ghost predicate Inv(s: State, copies: set<Copy>, users: set<Option<string>>, decode: Decoder) {
    Known(s.cache, copies, users, decode) && RunningInv(s, copies, users) && Shows(s.shown, s.settled, copies, decode)
  }

  lemma {:induction false} ToDecryptIs(messages: seq<Copy>, me: Option<string>, cache: map<string, Entry>)
    ensures forall c :: c in ToDecrypt(messages, me, cache) <==> c in messages && !Holds(cache, c, me)
  {
    if messages != [] {
      var n := |messages| - 1;
      ToDecryptIs(messages[..n], me, cache);
      assert messages == messages[..n] + [messages[n]];
      hide CacheKey;
    }
  }

  ghost predicate MadeFor(entry: Entry, id: string, todo: seq<Copy>, me: Option<string>, decode: Decoder) {
    exists c :: c in todo && Id(c) == id && entry == EntryOf(c, me, decode)
  }

  /** Ids outside the run keep their entries; each id of the run has the entry of its message. */
  lemma {:induction false} FilledIs(cache: map<string, Entry>, todo: seq<Copy>, me: Option<string>, decode: Decoder,
                                    id: string)
    ensures var filled := Filled(cache, todo, me, decode);
            && (id in filled <==> id in cache || Present(id, todo))
            && (!Present(id, todo) && id in cache ==> filled[id] == cache[id])
            && (Present(id, todo) ==> MadeFor(filled[id], id, todo, me, decode))
    decreases |todo|
  {
    hide EntryOf;
    if todo != [] {
      var n := |todo| - 1;
      FilledIs(cache, todo[..n], me, decode, id);
      assert todo == todo[..n] + [todo[n]];
      PresentOneMore(todo[..n], todo[n], id);
      hide Present;
    }
  }

  lemma PresentOneMore(copies: seq<Copy>, c: Copy, id: string)
    ensures Present(id, copies + [c]) <==> Present(id, copies) || Id(c) == id
  {
    assert c in copies + [c];
  }

  /** A cached message whose key fits looks as it would if it were decoded now. */
  lemma HeldPresents(cache: map<string, Entry>, copies: set<Copy>, users: set<Option<string>>, decode: Decoder,
                     msg: Copy, me: Option<string>)
    requires Known(cache, copies, users, decode) && Consistent(copies, decode) && TellApart(users)
    requires msg in copies && Holds(cache, msg, me) && me in users
    ensures Presents(cache[Id(msg)].decrypted, msg, me, decode)
    ensures ReadersOfOne(cache[Id(msg)].decrypted, msg, copies)
  {
    hide CacheKey, ReactionSignature, Version, Presents, PlainUser;
    var entry := cache[Id(msg)];
    assert FromCopy(entry, Id(msg), copies, users, decode);
    var c, u :| c in copies && Id(c) == Id(msg) && u in users && IsFor(entry, c, u, decode);
    KeyTells(c, u, msg, me);
    assert SameKey(c, msg);
    AlikePresents(entry.decrypted, c, msg, me, decode);
  }

  lemma AlikePresents(shown: Shown, a: Copy, b: Copy, me: Option<string>, decode: Decoder)
    requires SameKey(a, b) && DecodedAlike(a.message, b.message, decode) && Presents(shown, a, me, decode)
    ensures Presents(shown, b, me, decode)
  {
    hide ReactionSignature, Version;
  }

  lemma {:induction false} ComposedIs(messages: seq<Copy>, cache: map<string, Entry>)
    requires forall c | c in messages :: Id(c) in cache
    ensures |Composed(messages, cache)| == |messages|
    ensures forall i | 0 <= i < |messages| :: Composed(messages, cache)[i] == cache[Id(messages[i])].decrypted
  {
    if messages != [] {
      var n := |messages| - 1;
      assert messages[n] in messages && messages == messages[..n] + [messages[n]];
      ComposedIs(messages[..n], cache);
    }
  }

  lemma ComposedShows(messages: seq<Copy>, me: Option<string>, cache: map<string, Entry>,
                      copies: set<Copy>, users: set<Option<string>>, decode: Decoder)
    requires Known(cache, copies, users, decode) && Consistent(copies, decode) && TellApart(users)
    requires FairPass(Pass(messages, me), copies, users) && forall c | c in messages :: Holds(cache, c, me)
    ensures Shows(Composed(messages, cache), Pass(messages, me), copies, decode)
  {
    hide Known, Consistent, TellApart, Presents, ReadersOfOne, CacheKey, Composed;
    ComposedIs(messages, cache);
    forall i | 0 <= i < |messages|
      ensures Presents(cache[Id(messages[i])].decrypted, messages[i], me, decode)
      ensures ReadersOfOne(cache[Id(messages[i])].decrypted, messages[i], copies)
    {
      assert messages[i] in messages;
      HeldPresents(cache, copies, users, decode, messages[i], me);
    }
  }

  lemma FilledIsKnown(cache: map<string, Entry>, todo: seq<Copy>, me: Option<string>,
                      copies: set<Copy>, users: set<Option<string>>, decode: Decoder)
    requires Known(cache, copies, users, decode) && me in users && forall c | c in todo :: c in copies
    ensures Known(Filled(cache, todo, me, decode), copies, users, decode)
  {
    hide Fresh, Filled, Presents, HasReaders, CacheKey;
    var filled := Filled(cache, todo, me, decode);
    forall id | id in filled ensures FromCopy(filled[id], id, copies, users, decode) {
      FilledIs(cache, todo, me, decode, id);
      if Present(id, todo) {
        var c :| c in todo && Id(c) == id && filled[id] == EntryOf(c, me, decode);
        FreshPresents(c, me, decode);
        assert IsFor(filled[id], c, me, decode);
      }
    }
  }

  lemma FilledHolds(cache: map<string, Entry>, messages: seq<Copy>, me: Option<string>, decode: Decoder, msg: Copy)
    requires DistinctKeys(messages, Id) && msg in messages
    ensures Holds(Filled(cache, ToDecrypt(messages, me, cache), me, decode), msg, me)
  {
    var todo := ToDecrypt(messages, me, cache);
    ToDecryptIs(messages, me, cache);
    FilledIs(cache, todo, me, decode, Id(msg));
    hide Filled, CacheKey, ToDecrypt;
    if Present(Id(msg), todo) {
      var c :| c in todo && Id(c) == Id(msg) && Filled(cache, todo, me, decode)[Id(msg)] == EntryOf(c, me, decode);
      assert c == msg;
    }
  }

  lemma BeginKeepsInv(s: State, pass: Pass, copies: set<Copy>, users: set<Option<string>>, decode: Decoder)
    requires Inv(s, copies, users, decode) && FairPass(pass, copies, users)
    requires Consistent(copies, decode) && TellApart(users)
    ensures Inv(Begin(s, pass), copies, users, decode)
  {
    hide Known, Consistent, TellApart, Presents, ToDecrypt, Composed, DistinctKeys;
    ToDecryptIs(pass.messages, pass.me, s.cache);
    if pass.messages != [] && ToDecrypt(pass.messages, pass.me, s.cache) == [] {
      assert forall c | c in pass.messages :: c !in ToDecrypt(pass.messages, pass.me, s.cache);
      hide Holds;
      ComposedShows(pass.messages, pass.me, s.cache, copies, users, decode);
    }
  }

  lemma CompleteKeepsInv(s: State, copies: set<Copy>, users: set<Option<string>>, decode: Decoder)
    requires Inv(s, copies, users, decode) && Consistent(copies, decode) && TellApart(users)
    ensures Inv(Complete(s, decode), copies, users, decode)
  {
    hide Holds, Known, ToDecrypt, Filled, Composed, Shows, Consistent, TellApart, DistinctKeys;
    if s.running.Some? {
      var pass := s.running.value;
      var cache := Filled(s.cache, s.todo, pass.me, decode);
      ToDecryptIs(pass.messages, pass.me, s.cache);
      FilledIsKnown(s.cache, s.todo, pass.me, copies, users, decode);
      forall c | c in pass.messages ensures Holds(cache, c, pass.me) {
        FilledHolds(s.cache, pass.messages, pass.me, decode, c);
      }
      ComposedShows(pass.messages, pass.me, cache, copies, users, decode);
    }
  }

  lemma ResetKeepsInv(s: State, copies: set<Copy>, users: set<Option<string>>, decode: Decoder)
    requires Inv(s, copies, users, decode)
    ensures Inv(s.(cache := map[], running := None), copies, users, decode)
  {
    hide Shows;
  }

  lemma BeginForgetsRun(s: State, pass: Pass)
    ensures Begin(s, pass) == Begin(s.(running := None, todo := []), pass)
  {
  }

  lemma {:induction false} RunKeepsInv(es: seq<Event>, copies: set<Copy>, users: set<Option<string>>, decode: Decoder)
    requires Fair(es, copies, users) && TellApart(users) && Consistent(copies, decode)
    ensures Inv(Run(es, decode), copies, users, decode)
  {
    if es != [] {
      var n := |es| - 1;
      var e, s := es[n], Run(es[..n], decode);
      assert e in es && Fair(es[..n], copies, users);
      hide Inv, Begin, Complete, Consistent, TellApart, FairPass;
      RunKeepsInv(es[..n], copies, users, decode);
      match e {
        case Update(pass) => BeginKeepsInv(s, pass, copies, users, decode);
        case Reset(pass) =>
          ResetKeepsInv(s, copies, users, decode);
          BeginForgetsRun(s.(cache := map[]), pass);
          BeginForgetsRun(s.(cache := map[], running := None), pass);
          BeginKeepsInv(s.(cache := map[], running := None), pass, copies, users, decode);
        case Finish => CompleteKeepsInv(s, copies, users, decode);
      }
    }
  }

  /** Two copies that the key does not tell apart, one after the other: the old one stays. */
  lemma OldOneStays(a: Copy, b: Copy, u: Option<string>, decode: Decoder)
    requires SameKey(a, b)
    ensures var s := Run([Update(Pass([a], u)), Finish, Update(Pass([b], u))], decode);
            && |s.shown| == 1 && Presents(s.shown[0], a, u, decode) && HasReaders(s.shown[0], a)
            && s.settled == Pass([b], u)
  {
    hide ToDecrypt, Filled, Composed, EntryOf, Fresh, SameKey, Run, Presents, HasReaders;
    var first, second, third := Update(Pass([a], u)), Finish, Update(Pass([b], u));
    RunOneMore([], first, decode);
    RunOneMore([first], second, decode);
    RunOneMore([first, second], third, decode);
    assert [] + [first] == [first] && [first] + [second] == [first, second];
    assert [first, second] + [third] == [first, second, third];
    assert Run([], decode) == Init() by { RunOfNothing(decode); }
    OneDecoded(a, b, u, decode);
    FreshPresents(a, u, decode);
  }

  lemma RunOneMore(es: seq<Event>, e: Event, decode: Decoder)
    ensures Run(es + [e], decode) == Step(Run(es, decode), e, decode)
  {
    assert (es + [e])[..|es|] == es;
  }

  lemma RunOfNothing(decode: Decoder)
    ensures Run([], decode) == Init()
  {
  }

  lemma OneDecoded(a: Copy, b: Copy, u: Option<string>, decode: Decoder)
    requires SameKey(a, b)
    ensures var cache := map[Id(a) := EntryOf(a, u, decode)];
            && ToDecrypt([a], u, map[]) == [a] && Filled(map[], [a], u, decode) == cache
            && ToDecrypt([b], u, cache) == [] && Composed([b], cache) == [Fresh(a, u, decode)]
  {
    hide CacheKey, Fresh, ToDecrypt, Filled, Composed, Version, ReactionSignature;
    var cache := map[Id(a) := EntryOf(a, u, decode)];
    KeyTells(a, u, b, u);
    OneToDecrypt(a, u, map[]);
    OneFilled(a, u, map[], decode);
    OneToDecrypt(b, u, cache);
    OneComposed(b, cache);
  }

  lemma OneToDecrypt(c: Copy, me: Option<string>, cache: map<string, Entry>)
    ensures ToDecrypt([c], me, cache) == if Holds(cache, c, me) then [] else [c]
  {
    hide CacheKey;
    assert [c][..0] == [] && ToDecrypt([], me, cache) == [];
  }

  lemma OneFilled(c: Copy, me: Option<string>, cache: map<string, Entry>, decode: Decoder)
    ensures Filled(cache, [c], me, decode) == cache[Id(c) := EntryOf(c, me, decode)]
  {
    hide EntryOf;
    assert [c][..0] == [] && Filled(cache, [], me, decode) == cache;
  }

  lemma OneComposed(c: Copy, cache: map<string, Entry>)
    ensures Composed([c], cache) == if Id(c) in cache then [cache[Id(c)].decrypted] else []
  {
    assert [c][..0] == [] && Composed([], cache) == [];
  }

  lemma PresentingBothIsAlike(shown: Shown, a: Copy, b: Copy, u: Option<string>, decode: Decoder)
    requires Presents(shown, a, u, decode) && Presents(shown, b, u, decode)
    ensures DecodedAlike(a.message, b.message, decode)
  {
    hide ReactionSignature;
  }

  lemma AfreshNeedsConsistent(copies: set<Copy>, users: set<Option<string>>, decode: Decoder)
    requires AlwaysAfresh(copies, users, decode) && users != {}
    ensures Consistent(copies, decode)
  {
    hide Run, Presents, ReadersOfOne, HasReaders, DecodedAlike, SameKey;
    var u :| u in users;
    forall a, b | a in copies && b in copies && SameKey(a, b) ensures DecodedAlike(a.message, b.message, decode) {
      OldOneStays(a, b, u, decode);
      var es := [Update(Pass([a], u)), Finish, Update(Pass([b], u))];
      assert Fair(es, copies, users);
      var shown := Run(es, decode).shown[0];
      assert Presents(shown, [b][0], u, decode);
      PresentingBothIsAlike(shown, a, b, u, decode);
    }
  }

  /** After every sequence of updates with these copies and users, resets and cancelled or completed
      runs, the list shown has one message for each message it was made from, and each looks as its
      message is to look now: exactly if copies that the key does not tell apart are decoded alike. */
  lemma ShownIsDecodedAfresh(copies: set<Copy>, users: set<Option<string>>, decode: Decoder)
    requires TellApart(users) && users != {}
    ensures AlwaysAfresh(copies, users, decode) <==> Consistent(copies, decode)
  {
    hide Run, Shows, TellApart, Consistent, Known, RunningInv, Fair;
    if AlwaysAfresh(copies, users, decode) { AfreshNeedsConsistent(copies, users, decode); }
    if Consistent(copies, decode) {
      forall es | Fair(es, copies, users)
        ensures Shows(Run(es, decode).shown, Run(es, decode).settled, copies, decode)
      {
        RunKeepsInv(es, copies, users, decode);
      }
    }
  }

  /** When the run in flight completes, the list shown is that of the last update; nothing is in flight
      any more, and what was decoded in this run has its own readers, receipts and reactions. */
  lemma FinishSettles(es: seq<Event>, copies: set<Copy>, users: set<Option<string>>, decode: Decoder)
    requires Fair(es, copies, users) && TellApart(users) && Consistent(copies, decode)
    ensures var s, t := Run(es, decode), Run(es + [Finish], decode);
            && t.running == None && t.settled == LastPass(es)
            && Shows(t.shown, LastPass(es), copies, decode)
            && (s.running.Some? ==> forall i | 0 <= i < |t.shown| && LastPass(es).messages[i] in s.todo ::
                  HasReaders(t.shown[i], LastPass(es).messages[i]))
  {
    hide Shows, Known, RunningInv, TellApart, Consistent, Fair, Run, HasReaders;
    SettledIsLatest(es, decode);
    RunOneMore(es, Finish, decode);
    assert Fair(es + [Finish], copies, users) by { FairOneMore(es, copies, users); }
    RunKeepsInv(es, copies, users, decode);
    RunKeepsInv(es + [Finish], copies, users, decode);
    if Run(es, decode).running.Some? {
      FilledShowsTodo(Run(es, decode), copies, users, decode);
    }
    hide Complete;
  }

  lemma FairOneMore(es: seq<Event>, copies: set<Copy>, users: set<Option<string>>)
    requires Fair(es, copies, users)
    ensures Fair(es + [Finish], copies, users)
  {
    hide FairPass;
  }

  lemma FilledShowsTodo(s: State, copies: set<Copy>, users: set<Option<string>>, decode: Decoder)
    requires RunningInv(s, copies, users) && s.running.Some?
    ensures var t, messages := Complete(s, decode), s.running.value.messages;
            && |t.shown| == |messages|
            && forall i | 0 <= i < |messages| && messages[i] in s.todo :: HasReaders(t.shown[i], messages[i])
  {
    hide Fresh, HasReaders, Filled, Composed, ToDecrypt, CacheKey;
    var pass := s.running.value;
    var cache := Filled(s.cache, s.todo, pass.me, decode);
    ToDecryptIs(pass.messages, pass.me, s.cache);
    forall c | c in pass.messages ensures Id(c) in cache {
      FilledHolds(s.cache, pass.messages, pass.me, decode, c);
    }
    ComposedIs(pass.messages, cache);
    forall i | 0 <= i < |pass.messages| && pass.messages[i] in s.todo
      ensures HasReaders(cache[Id(pass.messages[i])].decrypted, pass.messages[i])
    {
      var msg := pass.messages[i];
      FilledIs(s.cache, s.todo, pass.me, decode, Id(msg));
      var c :| c in s.todo && Id(c) == Id(msg) && cache[Id(msg)] == EntryOf(c, pass.me, decode);
      assert c in pass.messages && c == msg;
      FreshPresents(msg, pass.me, decode);
    }
  }

  /** The list the effect last started from. */
  function Target(s: State): Pass {
    if s.running.Some? then s.running.value else s.settled
  }

  lemma StepTargets(s: State, e: Event, decode: Decoder)
    ensures Target(Step(s, e, decode)) == if e.Finish? then Target(s) else e.pass
  {
    hide ToDecrypt, Composed, Filled;
  }

  /** And it was made from the list of the last update, unless a run for that one is in flight. */
  lemma {:induction false} SettledIsLatest(es: seq<Event>, decode: Decoder)
    ensures LastPass(es) == Target(Run(es, decode))
  {
    if es != [] {
      SettledIsLatest(es[..|es| - 1], decode);
      StepTargets(Run(es[..|es| - 1], decode), es[|es| - 1], decode);
      hide Step, Target;
    }
  }

  function LastPass(es: seq<Event>): Pass {
    if es == [] then Pass([], None)
    else if es[|es| - 1].Finish? then LastPass(es[..|es| - 1])
    else es[|es| - 1].pass
  }

  /** Copies taken from a run of the store whose changes are spaced are such. */
  lemma CopiesOfARunAreConsistent(es: seq<StoreRuns.Event>, copies: set<Copy>, decode: Decoder)
    requires History.Spaced(es)
    requires forall c | c in copies :: c.message in StoreRuns.Run(es).history
    ensures Consistent(copies, decode)
  {
    hide Version, StoreRuns.Run, History.Spaced, ReactionSignature;
    History.RunKeepsHistory(es);
    forall a, b | a in copies && b in copies && SameKey(a, b) ensures DecodedAlike(a.message, b.message, decode) {
      OneContentPerVersion(StoreRuns.Run(es).history, a.message, b.message);
    }
  }

  lemma OneContentPerVersion(history: seq<Message>, a: Message, b: Message)
    requires History.Rising(history) && a in history && b in history && a.id == b.id && Version(a) == Version(b)
    ensures a == b
  {
    hide Version;
    var i :| 0 <= i < |history| && history[i] == a;
    var j :| 0 <= j < |history| && history[j] == b;
    assert i < j ==> History.Raises(history[i], history[j]);
    assert j < i ==> History.Raises(history[j], history[i]);
  }

  // ---- The hook's own state ----

  /** The ref with the cache, the list shown and the run in flight. */
  class Decrypted {
    const decode: Decoder
    var cache: map<string, Entry>
    var shown: seq<Shown>
    var running: Option<Pass>
    var todo: seq<Copy>
    ghost var settled: Pass

    ghost function Current(): State
      reads this
    {
      State(cache, shown, running, todo, settled)
    }

    constructor (decode: Decoder)
      ensures Current() == Init() && this.decode == decode
    {
      this.decode := decode;
      cache, shown, running, todo, settled := map[], [], None, [], Pass([], None);
    }

    /** The effect; its clean-up has cancelled the run before it. */
    method Effect(pass: Pass)
      modifies this
      ensures Current() == Begin(old(Current()), pass)
    {
      if |pass.messages| == 0 {
        shown, running, todo, settled := [], None, [], pass;
        return;
      }
      var found := Changed(pass);
      if |found| == 0 {
        var next := Compose(pass.messages);
        shown, running, todo, settled := next, None, [], pass;
      } else {
        running, todo := Some(pass), found;
      }
    }

    /** The room or the session has changed: the cache is cleared before the effect runs. */
    method Restart(pass: Pass)
      modifies this
      ensures Current() == Step(old(Current()), Reset(pass), decode)
    {
      cache := map[];
      Effect(pass);
    }

    method Changed(pass: Pass) returns (found: seq<Copy>)
      ensures found == ToDecrypt(pass.messages, pass.me, cache)
    {
      found := [];
      hide CacheKey;
      for i := 0 to |pass.messages|
        invariant found == ToDecrypt(pass.messages[..i], pass.me, cache)
      {
        var msg := pass.messages[i];
        assert pass.messages[..i + 1][..i] == pass.messages[..i];
        if !(Id(msg) in cache && cache[Id(msg)].cacheKey == CacheKey(msg, pass.me)) { found := found + [msg]; }
      }
      assert pass.messages[..|pass.messages|] == pass.messages;
    }

    method Compose(messages: seq<Copy>) returns (next: seq<Shown>)
      ensures next == Composed(messages, cache)
    {
      next := [];
      for i := 0 to |messages|
        invariant next == Composed(messages[..i], cache)
      {
        assert messages[..i + 1][..i] == messages[..i];
        if Id(messages[i]) in cache { next := next + [cache[Id(messages[i])].decrypted]; }
      }
      assert messages[..|messages|] == messages;
    }

    /** All promises of the run in flight are fulfilled. */
    method CompleteRun()
      modifies this
      ensures Current() == Complete(old(Current()), decode)
    {
      if running.None? { return; }
      var pass := running.value;
      hide EntryOf;
      for i := 0 to |todo|
        invariant todo == old(todo)
        invariant Current() == old(Current()).(cache := Filled(old(cache), todo[..i], pass.me, decode))
      {
        assert todo[..i + 1][..i] == todo[..i];
        cache := cache[Id(todo[i]) := EntryOf(todo[i], pass.me, decode)];
      }
      assert todo[..|todo|] == todo;
      var next := Compose(pass.messages);
      shown, running, todo, settled := next, None, [], pass;
    }
  }
}
