/** The contents a message has over a run of the store, and when their versions tell them apart. */
module History {
  import opened Common
  import opened MessageStore
  import opened StoreRuns
  import opened ClientMerge

  /** The last content of the message with the id. */
  function LastOf(history: seq<Message>, id: string): Option<Message> {
    if history == [] then None
    else if history[|history| - 1].id == id then Some(history[|history| - 1])
    else LastOf(history[..|history| - 1], id)
  }

  /** `b` is a later content of the message `a`: nobody moves a message, its time of change never
      falls, and a deleted message is not edited any more. */
  predicate Follows(a: Message, b: Message) {
    && b.id == a.id && b.roomId == a.roomId && b.senderId == a.senderId && b.createdAt == a.createdAt
    && Stamp(a) <= Stamp(b)
    && (a.deletedAt.Some? ==> b.deletedAt.Some? && b.payload == a.payload && b.editedAt == a.editedAt)
  }

  ghost predicate AllFollow(history: seq<Message>) {
    forall i, j | 0 <= i < j < |history| && history[i].id == history[j].id :: Follows(history[i], history[j])
  }

  /** Every new content of a message has a greater version than all before it. */
  ghost predicate Rising(history: seq<Message>) {
    forall i, j | 0 <= i < j < |history| && history[i].id == history[j].id :: Raises(history[i], history[j])
  }

  predicate Raises(a: Message, b: Message) {
    a == b || Version(a) < Version(b)
  }

  ghost predicate Current(s: State) {
    forall id, k: nat | id in s.db.messages && k < |s.db.messages[id]| ::
      LastOf(s.history, s.db.messages[id][k].id) == Some(s.db.messages[id][k])
  }

  ghost predicate Known(s: State, m: Message) {
    && m.id in s.home && s.home[m.id].0 == m.roomId
    && s.home[m.id].1 < |MessagesOf(s.db, m.roomId)|
    && MessagesOf(s.db, m.roomId)[s.home[m.id].1].id == m.id
  }

  /** Nothing recorded is from the future, and it belongs to a message of the log. */
  ghost predicate Past(s: State) {
    forall m | m in s.history :: Stamp(m) <= s.now && Known(s, m)
  }

  ghost predicate HistoryInv(s: State) {
    Current(s) && Past(s) && AllFollow(s.history)
  }

  /** Every edit and deletion that succeeded came in a later millisecond than the message's last
      change, or only repeated the content it found. */
  ghost predicate Spaced(es: seq<Event>) {
    es == [] || (Spaced(es[..|es| - 1]) && SpacedStep(Run(es[..|es| - 1]), es[|es| - 1]))
  }

  ghost predicate SpacedStep(s: State, e: Event) {
    match e
    case Update(roomId, id, userId, payload) =>
      var r := UpdateMessage(s.db, roomId, id, userId, payload, s.now);
      r.Ok? ==> LaterOrSame(s, roomId, id, r.value.1)
    case Delete(roomId, id, userId) =>
      var r := DeleteMessageForAll(s.db, roomId, id, userId, s.now);
      r.Ok? ==> LaterOrSame(s, roomId, id, r.value.1)
    case _ => true
  }

  predicate LaterOrSame(s: State, roomId: string, id: string, next: Message) {
    var messages := MessagesOf(s.db, roomId);
    var i := Find(messages, id);
    i < |messages| && (messages[i] == next || Version(messages[i]) < Millis(s.now))
  }

  ghost predicate LastAt(history: seq<Message>, id: string, p: nat) {
    && p < |history| && history[p].id == id
    && forall q | p < q < |history| :: history[q].id != id
  }

  lemma {:induction false} LastOfIs(history: seq<Message>, id: string)
    ensures LastOf(history, id).None? ==> forall m | m in history :: m.id != id
    ensures LastOf(history, id).Some? ==>
              exists p: nat :: LastAt(history, id, p) && history[p] == LastOf(history, id).value
  {
    if history != [] {
      var n := |history| - 1;
      LastOfIs(history[..n], id);
      assert history == history[..n] + [history[n]];
      if LastOf(history, id).Some? {
        if history[n].id == id {
          assert LastAt(history, id, n);
        } else {
          var p: nat :| LastAt(history[..n], id, p) && history[..n][p] == LastOf(history, id).value;
          assert LastAt(history, id, p);
        }
      }
    }
  }

  lemma FollowsTwice(a: Message, b: Message, c: Message)
    requires Follows(a, b) && Follows(b, c)
    ensures Follows(a, c)
  {
  }

  /** Everything recorded of a message comes before its last content. */
  lemma BeforeTheLast(history: seq<Message>, last: Message, i: nat)
    requires LastOf(history, last.id) == Some(last) && i < |history| && history[i].id == last.id
    ensures AllFollow(history) ==> Follows(history[i], last)
    ensures Rising(history) ==> Raises(history[i], last)
  {
    LastOfIs(history, last.id);
    hide LastOf;
    var p: nat :| LastAt(history, last.id, p) && history[p] == last;
  }

  lemma OneMoreContent(history: seq<Message>, last: Message, next: Message)
    requires AllFollow(history) && LastOf(history, last.id) == Some(last) && Follows(last, next)
    ensures AllFollow(history + [next])
    ensures Rising(history + [next]) <==> Rising(history) && Raises(last, next)
  {
    forall i | 0 <= i < |history| && history[i].id == next.id
      ensures Follows(history[i], next)
      ensures Rising(history) && Raises(last, next) ==> Raises(history[i], next)
    {
      BeforeTheLast(history, last, i);
      FollowsTwice(history[i], last, next);
    }
    hide Follows, Version, Raises;
    LastOfIs(history, last.id);
    hide LastOf;
    var p: nat :| LastAt(history, last.id, p) && history[p] == last;
    var more := history + [next];
    if Rising(more) {
      RisingBefore(history, next);
      assert Raises(more[p], more[|history|]);
    }
  }

  lemma RisingBefore(history: seq<Message>, next: Message)
    requires Rising(history + [next])
    ensures Rising(history)
  {
    hide Raises;
    var more := history + [next];
    forall i, j | 0 <= i < j < |history| && history[i].id == history[j].id ensures Raises(history[i], history[j]) {
      assert more[i] == history[i] && more[j] == history[j];
    }
  }

  /** The target of a successful edit or deletion, before and after. */
  lemma ReplaceKeepsHistory(s: State, roomId: string, i: nat, next: Message)
    requires LogInv(s) && HistoryInv(s) && i < |MessagesOf(s.db, roomId)|
    requires Follows(MessagesOf(s.db, roomId)[i], next) && Stamp(next) <= s.now
    ensures var t := s.(db := Replace(s.db, roomId, i, next), history := s.history + [next]);
            HistoryInv(t) && (Rising(t.history) <==> Rising(s.history) && Raises(MessagesOf(s.db, roomId)[i], next))
  {
    var last := MessagesOf(s.db, roomId)[i];
    OneMoreContent(s.history, last, next);
    assert next.id == last.id && next.roomId == last.roomId;
    hide Follows, AllFollow, Rising, Raises, Stamp, Version;
    ReplaceKeepsCurrent(s, roomId, i, next);
    hide Current, LogInv;
  }

  lemma ReplaceKeepsCurrent(s: State, roomId: string, i: nat, next: Message)
    requires LogInv(s) && Current(s) && i < |MessagesOf(s.db, roomId)|
    requires next.id == MessagesOf(s.db, roomId)[i].id
    ensures Current(s.(db := Replace(s.db, roomId, i, next), history := s.history + [next]))
  {
    var last := MessagesOf(s.db, roomId)[i];
    var t := s.(db := Replace(s.db, roomId, i, next), history := s.history + [next]);
    assert MessageInv(s, roomId, i, last);
    assert t.history[..|s.history|] == s.history;
    forall id, k: nat | id in t.db.messages && k < |t.db.messages[id]|
      ensures LastOf(t.history, t.db.messages[id][k].id) == Some(t.db.messages[id][k])
    {
      assert MessageInv(s, id, k, s.db.messages[id][k]);
      hide MarksInv;
    }
  }

  lemma AppendKeepsHistory(s: State, e: Event)
    requires LogInv(s) && HistoryInv(s) && e.Append?
    ensures HistoryInv(Step(s, e)) && (Rising(Step(s, e).history) <==> Rising(s.history))
  {
    hide AllFollow, Version, Rising, Current, LogInv, ValidPayload;
    var t := Step(s, e);
    if t != s {
      var next := t.history[|s.history|];
      assert t.history == s.history + [next] && next.id == e.id && e.id !in s.home;
      AppendKeepsCurrent(s, e);
      NewIdRises(s.history, next);
    }
  }

  lemma NewIdRises(history: seq<Message>, next: Message)
    requires forall m | m in history :: m.id != next.id
    ensures Rising(history + [next]) <==> Rising(history)
    ensures AllFollow(history) ==> AllFollow(history + [next])
  {
    hide Raises, Follows;
    if Rising(history + [next]) { RisingBefore(history, next); }
    assert forall i | 0 <= i < |history| :: history[i] in history;
  }

  lemma AppendKeepsCurrent(s: State, e: Event)
    requires LogInv(s) && Current(s) && e.Append?
    ensures Current(Step(s, e))
  {
    var t := Step(s, e);
    if t != s {
      assert t.history[..|s.history|] == s.history;
      forall id, k: nat | id in t.db.messages && k < |t.db.messages[id]|
        ensures LastOf(t.history, t.db.messages[id][k].id) == Some(t.db.messages[id][k])
      {
        if !(id == e.roomId && k == |MessagesOf(s.db, id)|) {
          assert MessageInv(s, id, k, s.db.messages[id][k]);
        }
        hide MarksInv;
      }
    }
  }

  lemma StepKeepsHistory(s: State, e: Event)
    requires LogInv(s) && HistoryInv(s)
    ensures HistoryInv(Step(s, e))
    ensures Rising(Step(s, e).history) <==> Rising(s.history) && SpacedStep(s, e)
  {
    match e {
      case Append(_, _, _, _, _) => AppendKeepsHistory(s, e);
      case Update(roomId, id, userId, payload) =>
        var i := Find(MessagesOf(s.db, roomId), id);
        if UpdateMessage(s.db, roomId, id, userId, payload, s.now).Ok? {
          TargetIsOld(s, roomId, i);
          ReplaceKeepsHistory(s, roomId, i, UpdateMessage(s.db, roomId, id, userId, payload, s.now).value.1);
        }
      case Delete(roomId, id, userId) =>
        var i := Find(MessagesOf(s.db, roomId), id);
        if DeleteMessageForAll(s.db, roomId, id, userId, s.now).Ok? {
          TargetIsOld(s, roomId, i);
          ReplaceKeepsHistory(s, roomId, i, DeleteMessageForAll(s.db, roomId, id, userId, s.now).value.1);
        }
      case MarkRead(_, _) =>
      case _ => SameHistory(s, e);
    }
    hide LogInv, AllFollow, Rising, Past, Find, MarkMessages;
  }

  lemma TargetIsOld(s: State, roomId: string, i: nat)
    requires Current(s) && Past(s) && i < |MessagesOf(s.db, roomId)|
    ensures Stamp(MessagesOf(s.db, roomId)[i]) <= s.now
  {
    var m := MessagesOf(s.db, roomId)[i];
    LastOfIs(s.history, m.id);
    hide LastOf, Stamp;
  }

  lemma SameHistory(s: State, e: Event)
    requires HistoryInv(s) && (e.Tick? || e.Create? || e.Join? || e.Leave? || e.React?)
    ensures HistoryInv(Step(s, e)) && Step(s, e).history == s.history
  {
    SameLog(s, e);
    assert Step(s, e).history == s.history;
    hide Step, AllFollow, LastOf, Stamp;
  }

  lemma {:induction false} RunKeepsHistory(es: seq<Event>)
    ensures HistoryInv(Run(es)) && LogInv(Run(es))
    ensures Rising(Run(es).history) <==> Spaced(es)
  {
    if es != [] {
      var before, e := Run(es[..|es| - 1]), es[|es| - 1];
      RunKeepsHistory(es[..|es| - 1]);
      StepKeepsHistory(before, e);
      StepKeepsLog(before, e);
      hide Step, HistoryInv, LogInv, Rising, SpacedStep;
    }
  }

  /** The history of every run: no edit or deletion lets a message's time of change fall, and after
      a deletion neither payload nor edit time changes. */
  lemma ContentsFollow(es: seq<Event>, i: nat, j: nat)
    requires i < j < |Run(es).history| && Run(es).history[i].id == Run(es).history[j].id
    ensures Follows(Run(es).history[i], Run(es).history[j])
  {
    RunKeepsHistory(es);
    hide Run, Spaced, Follows, Version;
  }

  /** Versions tell the contents of a run apart, and order them, exactly if its changes are spaced. */
  lemma RisingExactlyIfSpaced(es: seq<Event>)
    ensures var history := Run(es).history;
            Spaced(es) <==> forall i, j | 0 <= i < j < |history| && history[i].id == history[j].id ::
              history[i] == history[j] || Version(history[i]) < Version(history[j])
  {
    RunKeepsHistory(es);
    hide Run, Spaced, Version;
  }
}
