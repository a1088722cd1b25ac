/** The client's merge of fetched pages and live events: one entry per message id, the last
    writer by version winning. A JavaScript `Map` is kept as its values in insertion order. */
module ClientMerge {
  import opened Common
  import opened Keyed
  import opened Ordering
  import opened MessageStore
  import opened Text

  const NANOS_PER_MILLI := 1_000_000

  /** What `Date.parse` makes of a timestamp: whole milliseconds. */
  function Millis(t: int): int {
    t / NANOS_PER_MILLI
  }

  /** The time of the last change of a message. */
  function Stamp(m: Message): int {
    if m.deletedAt.Some? then m.deletedAt.value else if m.editedAt.Some? then m.editedAt.value else m.createdAt
  }

  function Version(m: Message): int {
    Millis(Stamp(m))
  }

  /** The reactions as one string, entries separated by bars. */
  function ReactionSignature(reactions: seq<Reaction>): string {
    if reactions == [] then ""
    else
      var n := |reactions| - 1;
      ReactionSignature(reactions[..n]) + (if n == 0 then "" else "|")
      + reactions[n].emoji + ":" + Decimal(reactions[n].count)
  }

  function MessagesIn(copies: seq<Copy>): seq<Message> {
    seq(|copies|, i requires 0 <= i < |copies| => copies[i].message)
  }

  /** The emoji reads as an entry, a bar and another emoji. */
  ghost predicate Splits(emoji: string) {
    exists u: string, n: nat, v: string :: emoji == u + [':'] + Decimal(n) + ['|'] + v
  }

  ghost predicate NoneSplits(reactions: seq<Reaction>) {
    forall r | r in reactions :: !Splits(r.emoji)
  }

  lemma CountIsPlain(n: nat)
    ensures '|' !in Decimal(n) && ':' !in Decimal(n)
  {
    DecimalIs(n);
    hide Decimal;
  }

  lemma CountTells(m: nat, n: nat)
    requires Decimal(m) == Decimal(n)
    ensures m == n
  {
    DecimalIs(m);
    DecimalIs(n);
  }

  /** All entries but the last, and its separator. */
  function UpToEmoji(reactions: seq<Reaction>): string
    requires reactions != []
  {
    var n := |reactions| - 1;
    if n == 0 then "" else ReactionSignature(reactions[..n]) + ['|']
  }

  lemma LastEntry(reactions: seq<Reaction>)
    requires reactions != []
    ensures var last := reactions[|reactions| - 1];
            ReactionSignature(reactions) == UpToEmoji(reactions) + last.emoji + [':'] + Decimal(last.count)
  {
    var n := |reactions| - 1;
    hide Decimal;
    assert ":" == [':'] && "|" == ['|'];
    assert n == 0 ==> reactions[..n] == [] && ReactionSignature([]) == "";
    assert ReactionSignature(reactions[..n]) + "" == ReactionSignature(reactions[..n]);
  }

  /** Text that ends in a count and is cut at a bar, or not at all, is cut before the count's colon. */
  lemma CutBeforeCount(x: string, n: nat, front: string, w: string) returns (u: string)
    requires front + w == x + [':'] + Decimal(n)
    requires front == "" || front[|front| - 1] == '|'
    ensures w == u + [':'] + Decimal(n)
  {
    CountIsPlain(n);
    var all, d := front + w, Decimal(n);
    hide Decimal;
    assert all[|x|] == ':' && forall i | |x| < i < |all| :: all[i] == d[i - |x| - 1];
    assert front != "" ==> all[|front| - 1] == '|';
    assert |front| <= |x|;
    u := x[|front|..];
    assert all[|front|..] == w && all[|front|..] == u + [':'] + d;
  }

  lemma LongerTail(a: string, x: string, b: string, y: string)
    requires a + x == b + y && |x| < |y|
    ensures |b| < |a| && a == b + y[..|y| - |x|] && y == y[..|y| - |x|] + x
  {
    var all, k := a + x, |y| - |x|;
    assert a == all[..|a|] && (b + y)[..|a|] == b + y[..k];
    assert x == all[|a|..] && (b + y)[|a|..] == y[k..];
  }

  lemma BarComesOff(front: string, y: string, head: string)
    requires front + y == head + ['|'] && y != ""
    ensures y == y[..|y| - 1] + ['|'] && front + y[..|y| - 1] == head
  {
    var all := front + y;
    assert all[|all| - 1] == y[|y| - 1] == '|';
    assert front + y[..|y| - 1] == all[..|all| - 1] == head;
  }

  /** Two signatures that end alike have last emojis of one length, unless the longer one splits. */
  lemma LongerSplits(a: seq<Reaction>, b: seq<Reaction>)
    requires a != [] && b != []
    requires UpToEmoji(a) + a[|a| - 1].emoji == UpToEmoji(b) + b[|b| - 1].emoji
    requires |a[|a| - 1].emoji| < |b[|b| - 1].emoji|
    ensures Splits(b[|b| - 1].emoji)
  {
    var rest, x, y := a[..|a| - 1], a[|a| - 1].emoji, b[|b| - 1].emoji;
    var front, k := UpToEmoji(b), |y| - |x|;
    LongerTail(UpToEmoji(a), x, front, y);
    assert front == "" || front[|front| - 1] == '|';
    assert rest != [] && UpToEmoji(a) == ReactionSignature(rest) + ['|'];
    LastEntry(rest);
    hide ReactionSignature, UpToEmoji, Decimal;
    BarComesOff(front, y[..k], ReactionSignature(rest));
    var w, last := y[..k][..k - 1], rest[|rest| - 1];
    var u := CutBeforeCount(UpToEmoji(rest) + last.emoji, last.count, front, w);
    assert y == u + [':'] + Decimal(last.count) + ['|'] + x;
  }

  lemma LastTells(a: seq<Reaction>, b: seq<Reaction>)
    requires a != [] && b != [] && NoneSplits(a) && NoneSplits(b)
    requires UpToEmoji(a) + a[|a| - 1].emoji == UpToEmoji(b) + b[|b| - 1].emoji
    ensures a[|a| - 1].emoji == b[|b| - 1].emoji && UpToEmoji(a) == UpToEmoji(b)
  {
    var x, y := a[|a| - 1], b[|b| - 1];
    assert x in a && y in b;
    hide UpToEmoji, Splits;
    if |x.emoji| < |y.emoji| {
      LongerSplits(a, b);
      assert false;
    } else if |y.emoji| < |x.emoji| {
      LongerSplits(b, a);
      assert false;
    }
    var all := UpToEmoji(a) + x.emoji;
    var k := |all| - |x.emoji|;
    assert UpToEmoji(a) == all[..k] == UpToEmoji(b) && x.emoji == all[k..] == y.emoji;
  }

  lemma FrontTells(a: seq<Reaction>, b: seq<Reaction>)
    requires a != [] && b != [] && UpToEmoji(a) == UpToEmoji(b)
    ensures ReactionSignature(a[..|a| - 1]) == ReactionSignature(b[..|b| - 1])
  {
    var x, y := ReactionSignature(a[..|a| - 1]), ReactionSignature(b[..|b| - 1]);
    assert |a| == 1 ==> x == "";
    assert |b| == 1 ==> y == "";
    hide ReactionSignature;
    var front := UpToEmoji(a);
    assert |a| > 1 ==> front == x + ['|'] && front[..|front| - 1] == x;
    assert |b| > 1 ==> front == y + ['|'] && front[..|front| - 1] == y;
  }

  lemma LastEntryTells(a: seq<Reaction>, b: seq<Reaction>)
    requires a != [] && b != [] && NoneSplits(a) && NoneSplits(b) && ReactionSignature(a) == ReactionSignature(b)
    ensures a[|a| - 1] == b[|b| - 1]
    ensures ReactionSignature(a[..|a| - 1]) == ReactionSignature(b[..|b| - 1])
  {
    hide ReactionSignature, UpToEmoji, NoneSplits, Decimal;
    LastEntry(a);
    LastEntry(b);
    var x, y := a[|a| - 1], b[|b| - 1];
    CountIsPlain(x.count);
    CountIsPlain(y.count);
    LastCut(':', UpToEmoji(a) + x.emoji, Decimal(x.count), UpToEmoji(b) + y.emoji, Decimal(y.count));
    CountTells(x.count, y.count);
    LastTells(a, b);
    FrontTells(a, b);
  }

  lemma EmptyTells(a: seq<Reaction>)
    ensures ReactionSignature(a) == "" <==> a == []
  {
    if a != [] { LastEntry(a); }
  }

  /** The signature tells emojis and counts, in their order, unless an emoji splits. */
  lemma {:induction false} SignatureTells(a: seq<Reaction>, b: seq<Reaction>)
    requires NoneSplits(a) && NoneSplits(b)
    ensures ReactionSignature(a) == ReactionSignature(b) <==> a == b
  {
    hide ReactionSignature, Splits;
    EmptyTells(a);
    EmptyTells(b);
    if a != [] && b != [] && ReactionSignature(a) == ReactionSignature(b) {
      LastEntryTells(a, b);
      SignatureTells(a[..|a| - 1], b[..|b| - 1]);
      assert a == a[..|a| - 1] + [a[|a| - 1]] && b == b[..|b| - 1] + [b[|b| - 1]];
    }
  }

  /** An emoji that splits has the signature of two others. */
  lemma SplittingMixes(emoji: string) returns (two: seq<Reaction>)
    requires Splits(emoji)
    ensures |two| == 2 && ReactionSignature(two) == ReactionSignature([Reaction(emoji, 1)])
  {
    var u: string, n: nat, v: string :| emoji == u + [':'] + Decimal(n) + ['|'] + v;
    two := [Reaction(u, n), Reaction(v, 1)];
    var first, one := two[..1], [Reaction(emoji, 1)];
    LastEntry(one);
    LastEntry(first);
    LastEntry(two);
    assert first == [Reaction(u, n)];
    hide ReactionSignature, Decimal;
    assert "" + emoji == emoji && "" + u == u;
    assert (u + [':'] + Decimal(n)) + ['|'] + v == emoji;
  }

  /** Whether a copy takes the place of the one that is there. */
  predicate Replaces(msg: Copy, current: Copy) {
    || Version(msg.message) > Version(current.message)
    || (Version(msg.message) == Version(current.message) && msg.read && !current.read)
    || (Version(msg.message) == Version(current.message)
        && ReactionSignature(msg.reactions) != ReactionSignature(current.reactions))
  }

  function Id(c: Copy): string {
    c.message.id
  }

  function Put(entries: seq<Copy>, msg: Copy): seq<Copy> {
    var i := Slot(entries, Id, Id(msg));
    if i == |entries| then entries + [msg]
    else if Replaces(msg, entries[i]) then entries[i := msg]
    else entries
  }

  function PutAll(arrivals: seq<Copy>): seq<Copy> {
    if arrivals == [] then [] else Put(PutAll(arrivals[..|arrivals| - 1]), arrivals[|arrivals| - 1])
  }

  function InRoom(copies: seq<Copy>, roomId: string): seq<Copy> {
    if copies == [] then []
    else
      var n := |copies| - 1;
      InRoom(copies[..n], roomId) + if copies[n].message.roomId == roomId then [copies[n]] else []
  }

  predicate OlderOrSame(a: Copy, b: Copy) {
    Millis(a.message.createdAt) <= Millis(b.message.createdAt)
  }

  /** The list shown: fetched copies first, then live ones, of one room, by creation time. */
  function Merge(pages: seq<Copy>, live: seq<Copy>, roomId: string): seq<Copy> {
    Sort(PutAll(InRoom(pages, roomId) + InRoom(live, roomId)), OlderOrSame)
  }

  ghost predicate Present(id: string, copies: seq<Copy>) {
    exists c | c in copies :: Id(c) == id
  }

  /** The entries are what last-writer-wins makes of the arrivals: one for each id, a copy that
      did arrive, and of the greatest version that arrived. */
  ghost predicate Newest(entries: seq<Copy>, arrivals: seq<Copy>) {
    && DistinctKeys(entries, Id)
    && (forall e | e in entries :: e in arrivals)
    && (forall a | a in arrivals :: exists e | e in entries ::
          Id(e) == Id(a) && Version(e.message) >= Version(a.message))
  }

  lemma PutFits(entries: seq<Copy>, msg: Copy)
    requires DistinctKeys(entries, Id)
    ensures DistinctKeys(Put(entries, msg), Id)
    ensures forall e | e in Put(entries, msg) :: e in entries || e == msg
    ensures exists e | e in Put(entries, msg) :: Id(e) == Id(msg) && Version(e.message) >= Version(msg.message)
  {
    hide Version, ReactionSignature;
    var after := Put(entries, msg);
    var i := Slot(entries, Id, Id(msg));
    assert after[i] in after && Id(after[i]) == Id(msg) && Version(after[i].message) >= Version(msg.message);
    hide Slot;
  }

  lemma PutKeepsNewest(entries: seq<Copy>, arrivals: seq<Copy>, msg: Copy)
    requires Newest(entries, arrivals)
    ensures Newest(Put(entries, msg), arrivals + [msg])
  {
    PutFits(entries, msg);
    forall a | a in arrivals + [msg]
      ensures exists e | e in Put(entries, msg) :: Id(e) == Id(a) && Version(e.message) >= Version(a.message)
    {
      if a in arrivals {
        var e :| e in entries && Id(e) == Id(a) && Version(e.message) >= Version(a.message);
        StillThere(entries, msg, e);
      }
    }
    hide Put, Version, DistinctKeys;
  }

  lemma StillThere(entries: seq<Copy>, msg: Copy, e: Copy)
    requires e in entries && DistinctKeys(entries, Id)
    ensures exists f | f in Put(entries, msg) :: Id(f) == Id(e) && Version(f.message) >= Version(e.message)
  {
    hide Version, ReactionSignature;
    var k :| 0 <= k < |entries| && entries[k] == e;
    var after := Put(entries, msg);
    assert after[k] in after && Id(after[k]) == Id(e);
  }

  lemma {:induction false} PutAllIsNewest(arrivals: seq<Copy>)
    ensures Newest(PutAll(arrivals), arrivals)
  {
    if arrivals != [] {
      var n := |arrivals| - 1;
      PutAllIsNewest(arrivals[..n]);
      PutKeepsNewest(PutAll(arrivals[..n]), arrivals[..n], arrivals[n]);
      assert arrivals == arrivals[..n] + [arrivals[n]];
      hide Newest, Put;
    }
  }

  lemma {:induction false} SlotOneMore(entries: seq<Copy>, msg: Copy, id: string)
    ensures Slot(entries + [msg], Id, id)
         == if Slot(entries, Id, id) < |entries| then Slot(entries, Id, id)
            else if Id(msg) == id then |entries| else |entries| + 1
  {
    if entries == [] {
      assert entries + [msg] == [msg];
    } else {
      assert (entries + [msg])[1..] == entries[1..] + [msg];
      SlotOneMore(entries[1..], msg, id);
    }
  }

  /** Whether the first copy of one id arrived before the first copy of another. */
  predicate ArrivedFirst(arrivals: seq<Copy>, id: string, other: string) {
    Slot(arrivals, Id, id) < Slot(arrivals, Id, other)
  }

  ghost predicate ByArrival(entries: seq<Copy>, arrivals: seq<Copy>) {
    forall i, j | 0 <= i < j < |entries| :: ArrivedFirst(arrivals, Id(entries[i]), Id(entries[j]))
  }

  lemma SlotIfPresent(copies: seq<Copy>, id: string)
    ensures Slot(copies, Id, id) < |copies| <==> Present(id, copies)
  {
    var i := Slot(copies, Id, id);
    if i < |copies| { assert copies[i] in copies; }
  }

  lemma PresentToo(entries: seq<Copy>, arrivals: seq<Copy>, id: string)
    requires Newest(entries, arrivals)
    ensures Present(id, arrivals) <==> Present(id, entries)
  {
    hide Version, DistinctKeys;
    if a :| a in arrivals && Id(a) == id {
      var e :| e in entries && Id(e) == Id(a);
      assert Present(id, entries);
    } else {
      assert forall e | e in entries :: e in arrivals;
      hide Newest;
    }
  }

  /** One more arrival leaves the order of the ids that are there, and puts a new one behind. */
  lemma OneMoreByArrival(entries: seq<Copy>, arrivals: seq<Copy>, msg: Copy, id: string, other: string)
    requires Newest(entries, arrivals) && Present(id, entries)
    requires ArrivedFirst(arrivals, id, other) || (other == Id(msg) && !Present(other, entries))
    ensures ArrivedFirst(arrivals + [msg], id, other)
  {
    PresentToo(entries, arrivals, id);
    PresentToo(entries, arrivals, other);
    SlotIfPresent(arrivals, id);
    SlotIfPresent(arrivals, other);
    SlotOneMore(arrivals, msg, id);
    SlotOneMore(arrivals, msg, other);
    hide Slot, Newest, Present;
  }

  lemma PutIsByArrival(entries: seq<Copy>, arrivals: seq<Copy>, msg: Copy)
    requires ByArrival(entries, arrivals) && Newest(entries, arrivals)
    ensures ByArrival(Put(entries, msg), arrivals + [msg])
  {
    var after := Put(entries, msg);
    SlotIfPresent(entries, Id(msg));
    hide Version, Replaces, Newest, ArrivedFirst;
    forall i, j | 0 <= i < j < |after| ensures ArrivedFirst(arrivals + [msg], Id(after[i]), Id(after[j])) {
      assert Id(after[i]) == Id(entries[i]) && entries[i] in entries;
      OneMoreByArrival(entries, arrivals, msg, Id(after[i]), Id(after[j]));
    }
  }

  /** The map keeps its ids in the order in which they first came. */
  lemma {:induction false} PutAllIsByArrival(arrivals: seq<Copy>)
    ensures ByArrival(PutAll(arrivals), arrivals)
  {
    hide Put, Newest, ArrivedFirst;
    if arrivals != [] {
      var n := |arrivals| - 1;
      PutAllIsByArrival(arrivals[..n]);
      PutAllIsNewest(arrivals[..n]);
      PutIsByArrival(PutAll(arrivals[..n]), arrivals[..n], arrivals[n]);
      assert PutAll(arrivals) == Put(PutAll(arrivals[..n]), arrivals[n]);
      hide PutAll, ByArrival;
      assert arrivals == arrivals[..n] + [arrivals[n]];
    }
  }

  lemma {:induction false} InRoomIs(copies: seq<Copy>, roomId: string)
    ensures forall c :: c in InRoom(copies, roomId) <==> c in copies && c.message.roomId == roomId
  {
    if copies != [] {
      var n := |copies| - 1;
      InRoomIs(copies[..n], roomId);
      assert copies == copies[..n] + [copies[n]];
    }
  }

  // ---- Which of the copies of one version ----

  ghost predicate OfVersion(c: Copy, e: Copy) {
    Id(c) == Id(e) && Version(c.message) == Version(e.message)
  }

  /** From place `p` on, all arrivals of the entry's id and version have its reactions. */
  ghost predicate SameSince(arrivals: seq<Copy>, e: Copy, p: nat) {
    forall q | p <= q < |arrivals| && OfVersion(arrivals[q], e) ::
      ReactionSignature(arrivals[q].reactions) == ReactionSignature(e.reactions)
  }

  ghost predicate ReadSince(arrivals: seq<Copy>, e: Copy, p: nat) {
    p < |arrivals| && OfVersion(arrivals[p], e) && arrivals[p].read && SameSince(arrivals, e, p)
  }

  /** The entry has the reactions that came last with its version, and is read exactly if one of the
      copies is that has come since with these reactions. */
  ghost predicate LastOfItsVersion(e: Copy, arrivals: seq<Copy>) {
    && (exists p: nat :: p < |arrivals| && arrivals[p] == e && SameSince(arrivals, e, p))
    && (e.read <==> exists p: nat :: ReadSince(arrivals, e, p))
  }

  lemma OlderVersionArrives(e: Copy, arrivals: seq<Copy>, msg: Copy)
    requires LastOfItsVersion(e, arrivals) && !OfVersion(msg, e)
    ensures LastOfItsVersion(e, arrivals + [msg])
  {
    hide OfVersion, ReactionSignature;
    var more := arrivals + [msg];
    forall p: nat | p < |arrivals| ensures SameSince(more, e, p) <==> SameSince(arrivals, e, p) {
      assert forall q | p <= q < |arrivals| :: more[q] == arrivals[q];
    }
    var p: nat :| p < |arrivals| && arrivals[p] == e && SameSince(arrivals, e, p);
    assert more[p] == e && SameSince(more, e, p);
    hide SameSince;
    assert forall k: nat :: ReadSince(arrivals, e, k) <==> ReadSince(more, e, k);
  }

  lemma SameReactionsArrive(e: Copy, arrivals: seq<Copy>, msg: Copy)
    requires LastOfItsVersion(e, arrivals) && OfVersion(msg, e) && (msg.read ==> e.read)
    requires ReactionSignature(msg.reactions) == ReactionSignature(e.reactions)
    ensures LastOfItsVersion(e, arrivals + [msg])
  {
    hide OfVersion, ReactionSignature;
    var more := arrivals + [msg];
    forall p: nat | p < |arrivals| ensures SameSince(more, e, p) <==> SameSince(arrivals, e, p) {
      assert forall q | p <= q < |arrivals| :: more[q] == arrivals[q];
    }
    var p: nat :| p < |arrivals| && arrivals[p] == e && SameSince(arrivals, e, p);
    assert more[p] == e && SameSince(more, e, p);
    hide SameSince;
    if k: nat :| ReadSince(arrivals, e, k) { assert ReadSince(more, e, k); }
    if k: nat :| ReadSince(more, e, k) { assert k < |arrivals| ==> ReadSince(arrivals, e, k); }
  }

  /** The newly arrived copy is held: it is the first of its version, or others came before it that
      it differs from. */
  lemma NewCopyIsLast(arrivals: seq<Copy>, msg: Copy, f: Option<Copy>)
    requires f.None? ==> forall c | c in arrivals :: !OfVersion(c, msg)
    requires f.Some? ==> LastOfItsVersion(f.value, arrivals) && OfVersion(f.value, msg)
    requires f.Some? && !msg.read ==>
               ReactionSignature(msg.reactions) != ReactionSignature(f.value.reactions)
    ensures LastOfItsVersion(msg, arrivals + [msg])
  {
    hide ReactionSignature, Version;
    var n, more := |arrivals|, arrivals + [msg];
    assert more[n] == msg && SameSince(more, msg, n);
    if msg.read { assert ReadSince(more, msg, n); }
    forall p: nat | p < n && OfVersion(more[p], msg) && !msg.read ensures !SameSince(more, msg, p) {
      assert more[p] in arrivals;
      OthersSince(arrivals, msg, f.value, p);
    }
  }

  lemma OthersSince(arrivals: seq<Copy>, msg: Copy, f: Copy, p: nat)
    requires LastOfItsVersion(f, arrivals) && OfVersion(f, msg) && p < |arrivals| && OfVersion(arrivals[p], msg)
    requires ReactionSignature(msg.reactions) != ReactionSignature(f.reactions)
    ensures !SameSince(arrivals + [msg], msg, p)
  {
    hide ReactionSignature, Version;
    var more := arrivals + [msg];
    var k: nat :| k < |arrivals| && arrivals[k] == f && SameSince(arrivals, f, k);
    assert more[k] == f && OfVersion(more[k], msg) && more[p] == arrivals[p] && OfVersion(arrivals[p], f);
  }

  lemma PutKeepsLast(entries: seq<Copy>, arrivals: seq<Copy>, msg: Copy)
    requires Newest(entries, arrivals) && forall e | e in entries :: LastOfItsVersion(e, arrivals)
    ensures forall e | e in Put(entries, msg) :: LastOfItsVersion(e, arrivals + [msg])
  {
    var i := Slot(entries, Id, Id(msg));
    hide ReactionSignature, Version, LastOfItsVersion;
    if i < |entries| { assert entries[i] in entries; }
    NewestAtSlot(entries, arrivals, msg);
    hide Newest, Slot;
    forall e | e in Put(entries, msg) ensures LastOfItsVersion(e, arrivals + [msg]) {
      if e == msg && (i == |entries| || Replaces(msg, entries[i])) {
        NewCopyIsLast(arrivals, msg, if i < |entries| && OfVersion(entries[i], msg) then Some(entries[i]) else None);
      } else {
        assert e in entries;
        if OfVersion(msg, e) { SameReactionsArrive(e, arrivals, msg); } else { OlderVersionArrives(e, arrivals, msg); }
      }
    }
  }

  /** What is held under the id of a new copy, and what came before under it. */
  lemma NewestAtSlot(entries: seq<Copy>, arrivals: seq<Copy>, msg: Copy)
    requires Newest(entries, arrivals)
    ensures var i := Slot(entries, Id, Id(msg));
            && (forall e | e in entries && Id(e) == Id(msg) :: i < |entries| && e == entries[i])
            && (i == |entries| || Version(entries[i].message) < Version(msg.message) ==>
                  forall c | c in arrivals :: !OfVersion(c, msg))
  {
    hide Version;
    var i := Slot(entries, Id, Id(msg));
    forall e | e in entries && Id(e) == Id(msg) ensures i < |entries| && e == entries[i] {
      assert entries[i] in entries;
      OnceById(entries, e, entries[i]);
    }
    forall c | c in arrivals && OfVersion(c, msg)
      ensures i < |entries| && Version(entries[i].message) >= Version(msg.message)
    {
      var e :| e in entries && Id(e) == Id(c) && Version(e.message) >= Version(c.message);
    }
  }

  /** Of the copies of one version the merge keeps the reactions that came last, and a read flag that
      came with them. */
  lemma {:induction false} PutAllKeepsLast(arrivals: seq<Copy>)
    ensures forall e | e in PutAll(arrivals) :: LastOfItsVersion(e, arrivals)
  {
    hide Put, Newest, LastOfItsVersion;
    if arrivals != [] {
      var n := |arrivals| - 1;
      PutAllKeepsLast(arrivals[..n]);
      PutAllIsNewest(arrivals[..n]);
      PutKeepsLast(PutAll(arrivals[..n]), arrivals[..n], arrivals[n]);
      assert arrivals == arrivals[..n] + [arrivals[n]];
    }
  }

  lemma MergeKeepsLast(pages: seq<Copy>, live: seq<Copy>, roomId: string)
    ensures forall e | e in Merge(pages, live, roomId) ::
              LastOfItsVersion(e, InRoom(pages, roomId) + InRoom(live, roomId))
  {
    hide PutAll, InRoom, LastOfItsVersion;
    var arrivals := InRoom(pages, roomId) + InRoom(live, roomId);
    PutAllKeepsLast(arrivals);
    SortKeeps(PutAll(arrivals), OlderOrSame);
    hide Sort;
  }

  lemma SortKeepsNewest(entries: seq<Copy>, arrivals: seq<Copy>)
    requires Newest(entries, arrivals)
    ensures Newest(Sort(entries, OlderOrSame), arrivals)
  {
    SortKeepsKeys(entries, Id, OlderOrSame);
    hide Version, Sort, DistinctKeys;
  }

  /** The merged list is sorted by creation time and is the newest of what arrived for the room. */
  lemma MergeIsNewest(pages: seq<Copy>, live: seq<Copy>, roomId: string)
    ensures Newest(Merge(pages, live, roomId), InRoom(pages, roomId) + InRoom(live, roomId))
    ensures SortedBy(Merge(pages, live, roomId), OlderOrSame)
  {
    var arrivals := InRoom(pages, roomId) + InRoom(live, roomId);
    PutAllIsNewest(arrivals);
    SortKeepsNewest(PutAll(arrivals), arrivals);
    SortSorts(PutAll(arrivals), OlderOrSame);
    hide Newest, Sort, PutAll;
  }

  /** No copy of the room has a greater version than the one shown with its id. */
  lemma ShownIsNewest(pages: seq<Copy>, live: seq<Copy>, roomId: string, e: Copy, c: Copy)
    requires e in Merge(pages, live, roomId) && Id(c) == Id(e)
    requires (c in pages || c in live) && c.message.roomId == roomId
    ensures Version(c.message) <= Version(e.message) && e.message.roomId == roomId && (e in pages || e in live)
  {
    hide Merge, Newest, Version;
    MergeIsNewest(pages, live, roomId);
    InRoomIs(pages, roomId);
    InRoomIs(live, roomId);
    hide InRoom;
    NewestIsGreatest(Merge(pages, live, roomId), InRoom(pages, roomId) + InRoom(live, roomId), e, c);
  }

  lemma NewestIsGreatest(entries: seq<Copy>, arrivals: seq<Copy>, e: Copy, c: Copy)
    requires Newest(entries, arrivals) && e in entries && c in arrivals && Id(c) == Id(e)
    ensures Version(c.message) <= Version(e.message) && e in arrivals
  {
    hide Version, DistinctKeys;
    var best :| best in entries && Id(best) == Id(c) && Version(best.message) >= Version(c.message);
    assert e in arrivals;
    hide Newest;
    OnceById(entries, best, e);
  }

  lemma OnceById(entries: seq<Copy>, e: Copy, f: Copy)
    requires DistinctKeys(entries, Id) && e in entries && f in entries && Id(e) == Id(f)
    ensures e == f
  {
    var i :| 0 <= i < |entries| && entries[i] == e;
    var j :| 0 <= j < |entries| && entries[j] == f;
    assert i == j;
  }

  lemma PutOnOne(x: Copy, y: Copy)
    requires Id(x) == Id(y)
    ensures Put([x], y) == [if Replaces(y, x) then y else x]
  {
    hide Version, ReactionSignature;
  }

  /** Entries of one millisecond stand in the order in which their ids first came. */
  ghost predicate TiesByArrival(shown: seq<Copy>, arrivals: seq<Copy>) {
    forall i, j | 0 <= i < j < |shown| && OlderOrSame(shown[j], shown[i]) ::
      ArrivedFirst(arrivals, Id(shown[i]), Id(shown[j]))
  }

  lemma MergeKeepsArrival(pages: seq<Copy>, live: seq<Copy>, roomId: string)
    ensures TiesByArrival(Merge(pages, live, roomId), InRoom(pages, roomId) + InRoom(live, roomId))
  {
    var arrivals := InRoom(pages, roomId) + InRoom(live, roomId);
    var first := (a: Copy, b: Copy) => ArrivedFirst(arrivals, Id(a), Id(b));
    PutAllIsByArrival(arrivals);
    assert forall i, j | 0 <= i < j < |PutAll(arrivals)| :: first(PutAll(arrivals)[i], PutAll(arrivals)[j]);
    hide PutAll, ArrivedFirst, Sort;
    SortIsStable(PutAll(arrivals), OlderOrSame, first);
  }

  /** The merge as the hook runs it. */
  method EncryptedMessages(source: seq<Copy>, live: seq<Copy>, inContext: bool, roomId: string)
      returns (result: seq<Copy>)
    ensures result == Merge(source, if inContext then [] else live, roomId)
  {
    var byId: seq<Copy> := [];
    byId := PutRoom(byId, [], source, roomId);
    assert [] + InRoom(source, roomId) == InRoom(source, roomId);
    hide PutAll, InRoom;
    if !inContext {
      byId := PutRoom(byId, InRoom(source, roomId), live, roomId);
    }
    NothingLive(source, roomId);
    result := Sort(byId, OlderOrSame);
  }

  lemma NothingLive(source: seq<Copy>, roomId: string)
    ensures InRoom(source, roomId) + InRoom([], roomId) == InRoom(source, roomId)
  {
  }

  lemma PutAllOneMore(arrivals: seq<Copy>, msg: Copy)
    ensures PutAll(arrivals + [msg]) == Put(PutAll(arrivals), msg)
  {
    assert (arrivals + [msg])[..|arrivals|] == arrivals;
  }

  lemma InRoomOneMore(before: seq<Copy>, copies: seq<Copy>, i: nat, roomId: string)
    requires i < |copies|
    ensures before + InRoom(copies[..i + 1], roomId)
         == before + InRoom(copies[..i], roomId) + if copies[i].message.roomId == roomId then [copies[i]] else []
  {
    assert copies[..i + 1][..i] == copies[..i];
  }

  /** One of the loops that fill the map. */
  method PutRoom(byId: seq<Copy>, ghost before: seq<Copy>, copies: seq<Copy>, roomId: string) returns (next: seq<Copy>)
    requires byId == PutAll(before)
    ensures next == PutAll(before + InRoom(copies, roomId))
  {
    next := byId;
    assert before + InRoom(copies[..0], roomId) == before;
    hide Put, PutAll, InRoom;
    for i := 0 to |copies|
      invariant next == PutAll(before + InRoom(copies[..i], roomId))
    {
      InRoomOneMore(before, copies, i, roomId);
      ghost var sofar := before + InRoom(copies[..i], roomId);
      if copies[i].message.roomId == roomId {
        PutAllOneMore(sofar, copies[i]);
        next := Put(next, copies[i]);
      } else {
        assert sofar + [] == sofar;
      }
    }
    assert copies[..|copies|] == copies;
  }
}
