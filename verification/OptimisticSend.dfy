/** Sending with a bubble shown at once: the pending list, the decoded list, and what is displayed
    of the two, under any interleaving of the server's answers, of decoding and of pruning. */
module OptimisticSend {
  import opened Common
  import opened Keyed
  import opened MessageStore
  import opened Ordering
  import opened ClientMerge
  import opened Decoded

  // ---- What is displayed ----

  function ShownId(msg: Shown): string {
    msg.id
  }

  /** The time of sending that its body carries; empty if there is none. */
  function SentAt(msg: Shown): string {
    if msg.body.Some? then msg.body.value.sentAt else ""
  }

  function Confirmed(decrypted: seq<Shown>, me: string): set<string> {
    set msg | msg in decrypted && msg.senderId == me && SentAt(msg) != "" :: SentAt(msg)
  }

  predicate Visible(msg: Shown, roomId: string, deleted: set<string>) {
    msg.roomId == roomId && msg.id !in deleted
  }

  function SetPending(pending: seq<Shown>, confirmed: set<string>, roomId: string, deleted: set<string>): seq<Shown> {
    if pending == [] then []
    else
      var n := |pending| - 1;
      var before := SetPending(pending[..n], confirmed, roomId, deleted);
      if !Visible(pending[n], roomId, deleted) || SentAt(pending[n]) in confirmed then before
      else SetEntry(before, ShownId, pending[n])
  }

  function SetDecrypted(byId: seq<Shown>, decrypted: seq<Shown>, roomId: string, deleted: set<string>): seq<Shown>
    decreases |decrypted|
  {
    if decrypted == [] then byId
    else
      var n := |decrypted| - 1;
      var before := SetDecrypted(byId, decrypted[..n], roomId, deleted);
      if Visible(decrypted[n], roomId, deleted) then SetEntry(before, ShownId, decrypted[n]) else before
  }

  predicate ShownEarlier(a: Shown, b: Shown) {
    Millis(a.createdAt) <= Millis(b.createdAt)
  }

  function Display(pending: seq<Shown>, decrypted: seq<Shown>, roomId: string, me: string, deleted: set<string>)
      : seq<Shown>
  {
    Sort(SetDecrypted(SetPending(pending, Confirmed(decrypted, me), roomId, deleted), decrypted, roomId, deleted),
         ShownEarlier)
  }

  lemma {:induction false} SetPendingIs(pending: seq<Shown>, confirmed: set<string>, roomId: string,
                                        deleted: set<string>)
    requires DistinctKeys(pending, ShownId)
    ensures var shown := SetPending(pending, confirmed, roomId, deleted);
            && DistinctKeys(shown, ShownId)
            && forall e :: e in shown <==> e in pending && Visible(e, roomId, deleted) && SentAt(e) !in confirmed
  {
    if pending != [] {
      var n := |pending| - 1;
      SetPendingIs(pending[..n], confirmed, roomId, deleted);
      assert pending == pending[..n] + [pending[n]];
      SetEntryHolds(SetPending(pending[..n], confirmed, roomId, deleted), ShownId, pending[n]);
      hide SetEntry, Visible, SentAt;
    }
  }

  lemma {:induction false} SetDecryptedIs(byId: seq<Shown>, decrypted: seq<Shown>, roomId: string, deleted: set<string>)
    requires DistinctKeys(byId, ShownId) && DistinctKeys(decrypted, ShownId)
    ensures var shown := SetDecrypted(byId, decrypted, roomId, deleted);
            && DistinctKeys(shown, ShownId)
            && (forall e :: e in shown <==>
                  || (e in decrypted && Visible(e, roomId, deleted))
                  || (e in byId && !VisibleId(decrypted, e.id, roomId, deleted)))
    decreases |decrypted|
  {
    if decrypted != [] {
      var n := |decrypted| - 1;
      SetDecryptedIs(byId, decrypted[..n], roomId, deleted);
      assert decrypted == decrypted[..n] + [decrypted[n]];
      SetEntryHolds(SetDecrypted(byId, decrypted[..n], roomId, deleted), ShownId, decrypted[n]);
      assert forall e | e in decrypted[..n] :: e.id != decrypted[n].id;
      assert forall id :: VisibleId(decrypted, id, roomId, deleted) <==>
        VisibleId(decrypted[..n], id, roomId, deleted)
        || (id == decrypted[n].id && Visible(decrypted[n], roomId, deleted));
      hide SetEntry, Visible, VisibleId, DistinctKeys;
    }
  }

  ghost predicate VisibleId(decrypted: seq<Shown>, id: string, roomId: string, deleted: set<string>) {
    exists d :: d in decrypted && d.id == id && Visible(d, roomId, deleted)
  }

  /** What is displayed, one entry for each id: the decoded messages of the room, and the pending
      ones that are neither confirmed by their time of sending nor replaced by their id. */
  lemma DisplayIs(pending: seq<Shown>, decrypted: seq<Shown>, roomId: string, me: string, deleted: set<string>)
    requires DistinctKeys(pending, ShownId) && DistinctKeys(decrypted, ShownId)
    ensures var shown := Display(pending, decrypted, roomId, me, deleted);
            && DistinctKeys(shown, ShownId)
            && (forall e :: e in shown <==>
                  || (e in decrypted && Visible(e, roomId, deleted))
                  || (e in pending && Visible(e, roomId, deleted) && SentAt(e) !in Confirmed(decrypted, me)
                      && !VisibleId(decrypted, e.id, roomId, deleted)))
  {
    var kept := SetPending(pending, Confirmed(decrypted, me), roomId, deleted);
    var byId := SetDecrypted(kept, decrypted, roomId, deleted);
    SetPendingIs(pending, Confirmed(decrypted, me), roomId, deleted);
    SetDecryptedIs(kept, decrypted, roomId, deleted);
    SortKeepsKeys(byId, ShownId, ShownEarlier);
    hide SetPending, SetDecrypted, Sort, Visible, VisibleId, Confirmed, SentAt;
  }

  // ---- Sending ----

  datatype State = State(
    drafts: map<string, string>,    // client id -> time of sending, for everything submitted
    accepted: map<string, string>,  // client id -> id the server gave it
    pending: seq<Shown>,
    decrypted: seq<Shown>)

  datatype Event =
    | Submit(clientId: string, body: Body, createdAt: int)
    | Accept(clientId: string, serverId: string)   // the server stores the message
    | Succeed(clientId: string)                    // its answer reaches the client
    | Fail(clientId: string)                       // or does not
    | Decode(next: seq<Shown>)                     // a run of the decoder completes
    | Prune

  function Init(): State {
    State(map[], map[], [], [])
  }

  function NewPending(clientId: string, body: Body, createdAt: int, roomId: string, me: string): Shown {
    Shown(clientId, roomId, me, Some(body), createdAt, None, None, [], [], false, [], Some(Sending), false)
  }

  function Relabelled(pending: seq<Shown>, clientId: string, serverId: string): seq<Shown> {
    seq(|pending|, i requires 0 <= i < |pending| =>
      if pending[i].id == clientId then pending[i].(id := serverId, status := Some(Sent)) else pending[i])
  }

  function Failing(pending: seq<Shown>, clientId: string): seq<Shown> {
    seq(|pending|, i requires 0 <= i < |pending| =>
      if pending[i].id == clientId then pending[i].(status := Some(Failed)) else pending[i])
  }

  function Ids(messages: seq<Shown>): set<string> {
    set m | m in messages :: m.id
  }

  function Pruned(pending: seq<Shown>, ids: set<string>): seq<Shown> {
    if pending == [] then []
    else
      var n := |pending| - 1;
      Pruned(pending[..n], ids) + if pending[n].status == Some(Sent) && pending[n].id in ids then [] else [pending[n]]
  }

  predicate Bubble(msg: Shown, sentAt: string, roomId: string, me: string) {
    msg.senderId == me && SentAt(msg) == sentAt && msg.roomId == roomId
  }

  /** A decoded message belongs to a draft by its id exactly if it does by sender and time of
      sending, and never has a client's id. */
  ghost predicate Genuine(s: State, msg: Shown, roomId: string, me: string) {
    && msg.id !in s.drafts
    && forall c | c in s.drafts ::
         && ((c in s.accepted && s.accepted[c] == msg.id) <==> (msg.senderId == me && SentAt(msg) == s.drafts[c]))
         && (c in s.accepted && s.accepted[c] == msg.id ==> msg.roomId == roomId)
  }

  ghost predicate Unused(value: string, m: map<string, string>) {
    forall k | k in m :: m[k] != value
  }

  ghost predicate Possible(s: State, e: Event, roomId: string, me: string) {
    match e
    case Submit(clientId, body, _) =>
      && clientId !in s.drafts && Unused(clientId, s.accepted) && clientId !in Ids(s.decrypted)
      && body.sentAt != "" && Unused(body.sentAt, s.drafts) && body.sentAt !in Confirmed(s.decrypted, me)
    case Accept(clientId, serverId) =>
      && clientId in s.drafts && clientId !in s.accepted
      && Unused(serverId, s.accepted) && serverId !in s.drafts && serverId !in Ids(s.decrypted)
    case Succeed(clientId) => clientId in s.accepted
    case Fail(clientId) => clientId in s.drafts
    case Decode(next) =>
      && DistinctKeys(next, ShownId) && Ids(s.decrypted) <= Ids(next)
      && forall m | m in next :: Genuine(s, m, roomId, me)
    case Prune => true
  }

  ghost function Step(s: State, e: Event, roomId: string, me: string): State {
    if !Possible(s, e, roomId, me) then s
    else match e
      case Submit(clientId, body, createdAt) =>
        s.(drafts := s.drafts[clientId := body.sentAt],
           pending := s.pending + [NewPending(clientId, body, createdAt, roomId, me)])
      case Accept(clientId, serverId) => s.(accepted := s.accepted[clientId := serverId])
      case Succeed(clientId) => s.(pending := Relabelled(s.pending, clientId, s.accepted[clientId]))
      case Fail(clientId) => s.(pending := Failing(s.pending, clientId))
      case Decode(next) => s.(decrypted := next)
      case Prune => s.(pending := Pruned(s.pending, Ids(s.decrypted)))
  }

  ghost function Run(es: seq<Event>, roomId: string, me: string): State {
    if es == [] then Init() else Step(Run(es[..|es| - 1], roomId, me), es[|es| - 1], roomId, me)
  }

  // ---- The invariant ----

  /** A pending entry of the draft, under the client's id or the server's. */
  ghost predicate PendingOf(s: State, msg: Shown, c: string, roomId: string, me: string) {
    && c in s.drafts && Bubble(msg, s.drafts[c], roomId, me)
    && (msg.id == c || (c in s.accepted && msg.id == s.accepted[c]))
  }

  ghost predicate IdsInv(s: State) {
    && s.accepted.Keys <= s.drafts.Keys
    && (forall c | c in s.drafts :: s.drafts[c] != "")
    && (forall c | c in s.accepted :: s.accepted[c] !in s.drafts)
    && (forall c, d | c in s.drafts && d in s.drafts && s.drafts[c] == s.drafts[d] :: c == d)
    && (forall c, d | c in s.accepted && d in s.accepted && s.accepted[c] == s.accepted[d] :: c == d)
  }

  ghost predicate HasDraft(s: State, msg: Shown, roomId: string, me: string) {
    exists c :: PendingOf(s, msg, c, roomId, me)
  }

  ghost predicate PendingInv(s: State, roomId: string, me: string) {
    && (forall i | 0 <= i < |s.pending| :: HasDraft(s, s.pending[i], roomId, me))
    && (forall i, j | 0 <= i < j < |s.pending| :: SentAt(s.pending[i]) != SentAt(s.pending[j]))
  }

  ghost predicate DecryptedInv(s: State, roomId: string, me: string) {
    DistinctKeys(s.decrypted, ShownId) && forall m | m in s.decrypted :: Genuine(s, m, roomId, me)
  }

  ghost predicate Waits(s: State, c: string)
    requires c in s.drafts
  {
    exists i :: 0 <= i < |s.pending| && SentAt(s.pending[i]) == s.drafts[c]
  }

  ghost predicate Arrived(s: State, c: string) {
    c in s.accepted && s.accepted[c] in Ids(s.decrypted)
  }

  ghost predicate NoneLost(s: State) {
    forall c | c in s.drafts :: Waits(s, c) || Arrived(s, c)
  }

  ghost predicate Inv(s: State, roomId: string, me: string) {
    IdsInv(s) && PendingInv(s, roomId, me) && DecryptedInv(s, roomId, me) && NoneLost(s)
  }

  ghost predicate Knows(s: State, t: State) {
    && (forall c | c in s.drafts :: c in t.drafts && t.drafts[c] == s.drafts[c])
    && (forall c | c in s.accepted :: c in t.accepted && t.accepted[c] == s.accepted[c])
  }

  lemma DraftKept(s: State, t: State, msg: Shown, roomId: string, me: string)
    requires HasDraft(s, msg, roomId, me) && Knows(s, t)
    ensures HasDraft(t, msg, roomId, me)
  {
    var c :| PendingOf(s, msg, c, roomId, me);
    assert PendingOf(t, msg, c, roomId, me);
  }

  lemma PendingKept(s: State, t: State, roomId: string, me: string)
    requires PendingInv(s, roomId, me) && Knows(s, t) && t.pending == s.pending
    ensures PendingInv(t, roomId, me)
  {
    forall i | 0 <= i < |t.pending| ensures HasDraft(t, t.pending[i], roomId, me) {
      DraftKept(s, t, s.pending[i], roomId, me);
    }
    hide HasDraft;
  }

  lemma StillWaits(s: State, t: State, c: string)
    requires c in s.drafts && Knows(s, t) && s.pending <= t.pending && Waits(s, c)
    ensures Waits(t, c)
  {
    hide SentAt;
    var i :| 0 <= i < |s.pending| && SentAt(s.pending[i]) == s.drafts[c];
    assert SentAt(t.pending[i]) == t.drafts[c];
  }

  lemma SubmitKeepsPending(s: State, e: Event, roomId: string, me: string)
    requires PendingInv(s, roomId, me) && e.Submit? && Possible(s, e, roomId, me)
    ensures PendingInv(Step(s, e, roomId, me), roomId, me)
  {
    var t, n := Step(s, e, roomId, me), |s.pending|;
    assert PendingOf(t, t.pending[n], e.clientId, roomId, me);
    forall i | 0 <= i < n ensures HasDraft(t, t.pending[i], roomId, me) && SentAt(t.pending[i]) != e.body.sentAt {
      DraftKept(s, t, s.pending[i], roomId, me);
      var c :| PendingOf(s, s.pending[i], c, roomId, me);
    }
    hide Possible, HasDraft;
  }

  lemma SubmitKeepsDecrypted(s: State, e: Event, roomId: string, me: string)
    requires IdsInv(s) && DecryptedInv(s, roomId, me) && e.Submit? && Possible(s, e, roomId, me)
    ensures DecryptedInv(Step(s, e, roomId, me), roomId, me)
  {
    var t := Step(s, e, roomId, me);
    forall m | m in t.decrypted ensures Genuine(t, m, roomId, me) {
      assert Genuine(s, m, roomId, me) && m.id in Ids(s.decrypted);
      assert m.senderId == me && SentAt(m) == e.body.sentAt ==> SentAt(m) in Confirmed(s.decrypted, me);
      hide Ids, Confirmed, DistinctKeys;
    }
  }

  lemma SubmitKeepsIds(s: State, e: Event, roomId: string, me: string)
    requires IdsInv(s) && (e.Submit? || e.Accept?) && Possible(s, e, roomId, me)
    ensures IdsInv(Step(s, e, roomId, me))
  {
    hide Ids, Confirmed;
  }

  lemma AcceptKeepsDecrypted(s: State, e: Event, roomId: string, me: string)
    requires IdsInv(s) && DecryptedInv(s, roomId, me) && e.Accept? && Possible(s, e, roomId, me)
    ensures DecryptedInv(Step(s, e, roomId, me), roomId, me)
  {
    var t := Step(s, e, roomId, me);
    forall m | m in t.decrypted ensures Genuine(t, m, roomId, me) {
      assert Genuine(s, m, roomId, me) && m.id in Ids(s.decrypted);
      hide Ids, DistinctKeys, SentAt, IdsInv;
    }
  }

  lemma SubmitKeepsInv(s: State, e: Event, roomId: string, me: string)
    requires Inv(s, roomId, me) && e.Submit? && Possible(s, e, roomId, me)
    ensures Inv(Step(s, e, roomId, me), roomId, me)
  {
    var t := Step(s, e, roomId, me);
    SubmitKeepsPending(s, e, roomId, me);
    SubmitKeepsDecrypted(s, e, roomId, me);
    SubmitKeepsIds(s, e, roomId, me);
    hide Possible, PendingInv, DecryptedInv, IdsInv, Ids;
    assert SentAt(t.pending[|s.pending|]) == t.drafts[e.clientId];
    forall c | c in t.drafts ensures Waits(t, c) || Arrived(t, c) {
      if c != e.clientId && Waits(s, c) { StillWaits(s, t, c); }
    }
    hide Waits;
  }

  lemma AcceptKeepsInv(s: State, e: Event, roomId: string, me: string)
    requires Inv(s, roomId, me) && e.Accept? && Possible(s, e, roomId, me)
    ensures Inv(Step(s, e, roomId, me), roomId, me)
  {
    var t := Step(s, e, roomId, me);
    PendingKept(s, t, roomId, me);
    SubmitKeepsIds(s, e, roomId, me);
    AcceptKeepsDecrypted(s, e, roomId, me);
    hide Possible, PendingInv, DecryptedInv, IdsInv, Ids;
    forall c | c in t.drafts ensures Waits(t, c) || Arrived(t, c) {
      if Waits(s, c) { StillWaits(s, t, c); }
    }
    hide Waits;
  }

  ghost predicate Renamed(s: State, m: Shown, n: Shown) {
    && n == m.(id := n.id, status := n.status)
    && (n.id == m.id || (m.id in s.accepted && n.id == s.accepted[m.id]))
  }

  lemma RenamedHasDraft(s: State, t: State, m: Shown, n: Shown, roomId: string, me: string)
    requires IdsInv(s) && HasDraft(s, m, roomId, me) && Renamed(s, m, n) && Knows(s, t)
    ensures HasDraft(t, n, roomId, me) && SentAt(n) == SentAt(m)
  {
    var c :| PendingOf(s, m, c, roomId, me);
    assert PendingOf(t, n, c, roomId, me);
  }

  /** Relabelling and failing change neither body, room nor sender of a pending entry. */
  lemma SamePendingKeepsInv(s: State, t: State, roomId: string, me: string)
    requires Inv(s, roomId, me) && t == s.(pending := t.pending) && |t.pending| == |s.pending|
    requires forall i | 0 <= i < |s.pending| :: Renamed(s, s.pending[i], t.pending[i])
    ensures Inv(t, roomId, me)
  {
    forall i | 0 <= i < |t.pending|
      ensures HasDraft(t, t.pending[i], roomId, me) && SentAt(t.pending[i]) == SentAt(s.pending[i])
    {
      RenamedHasDraft(s, t, s.pending[i], t.pending[i], roomId, me);
    }
    hide Renamed, HasDraft, SentAt, IdsInv, Ids, DistinctKeys;
    forall c | c in t.drafts ensures Waits(t, c) || Arrived(t, c) {
      if Waits(s, c) {
        var i :| 0 <= i < |s.pending| && SentAt(s.pending[i]) == s.drafts[c];
        assert SentAt(t.pending[i]) == t.drafts[c];
      }
    }
    assert IdsInv(t) && DecryptedInv(t, roomId, me) by {
      SameDraftsKeep(s, t, roomId, me);
    }
    hide DecryptedInv, Waits;
  }

  lemma SameDraftsKeep(s: State, t: State, roomId: string, me: string)
    requires t == s.(pending := t.pending)
    ensures IdsInv(s) ==> IdsInv(t)
    ensures DecryptedInv(s, roomId, me) ==> DecryptedInv(t, roomId, me)
  {
    hide DistinctKeys;
    assert forall m | Genuine(s, m, roomId, me) :: Genuine(t, m, roomId, me);
    hide Genuine;
  }

  lemma DecodeKeepsInv(s: State, e: Event, roomId: string, me: string)
    requires Inv(s, roomId, me) && e.Decode? && Possible(s, e, roomId, me)
    ensures Inv(Step(s, e, roomId, me), roomId, me)
  {
    var t := Step(s, e, roomId, me);
    PendingKept(s, t, roomId, me);
    assert DecryptedInv(t, roomId, me) by {
      hide DistinctKeys, Ids;
      assert forall m | Genuine(s, m, roomId, me) :: Genuine(t, m, roomId, me);
      hide Genuine;
    }
    assert IdsInv(t);
    hide Genuine, IdsInv, PendingInv, DistinctKeys, Ids, DecryptedInv;
    forall c | c in t.drafts ensures Waits(t, c) || Arrived(t, c) {
      if Waits(s, c) { StillWaits(s, t, c); }
    }
    hide Waits;
  }

  /** What is left of the pending list, in its order. */
  lemma {:induction false} PrunedIs(pending: seq<Shown>, ids: set<string>)
    ensures forall m :: m in Pruned(pending, ids) <==> m in pending && !(m.status == Some(Sent) && m.id in ids)
    ensures (forall i, j | 0 <= i < j < |pending| :: SentAt(pending[i]) != SentAt(pending[j])) ==>
            (forall i, j | 0 <= i < j < |Pruned(pending, ids)| ::
              SentAt(Pruned(pending, ids)[i]) != SentAt(Pruned(pending, ids)[j]))
  {
    if pending != [] {
      var n := |pending| - 1;
      PrunedIs(pending[..n], ids);
      assert pending == pending[..n] + [pending[n]];
      hide SentAt;
    }
  }

  lemma PruneKeepsPending(s: State, t: State, roomId: string, me: string)
    requires PendingInv(s, roomId, me) && t == s.(pending := Pruned(s.pending, Ids(s.decrypted)))
    ensures PendingInv(t, roomId, me)
  {
    PrunedIs(s.pending, Ids(s.decrypted));
    hide Pruned, Ids, SentAt;
    forall i | 0 <= i < |t.pending| ensures HasDraft(t, t.pending[i], roomId, me) {
      assert t.pending[i] in t.pending;
      var j :| 0 <= j < |s.pending| && s.pending[j] == t.pending[i];
      DraftKept(s, t, s.pending[j], roomId, me);
    }
    hide HasDraft;
  }

  lemma PruneKeepsInv(s: State, e: Event, roomId: string, me: string)
    requires Inv(s, roomId, me) && e.Prune?
    ensures Inv(Step(s, e, roomId, me), roomId, me)
  {
    var t := Step(s, e, roomId, me);
    PruneKeepsPending(s, t, roomId, me);
    SameDraftsKeep(s, t, roomId, me);
    hide PendingInv, DecryptedInv, IdsInv, Ids, Pruned;
    forall c | c in t.drafts ensures Waits(t, c) || Arrived(t, c) { PruneLosesNone(s, c, roomId, me); }
    hide Waits, Arrived;
  }

  /** A pending entry that has a decoded message's id stands for an arrived draft. */
  lemma DecodedIdHasArrived(s: State, i: nat, c: string, roomId: string, me: string)
    requires IdsInv(s) && PendingInv(s, roomId, me) && DecryptedInv(s, roomId, me) && c in s.drafts
    requires i < |s.pending| && SentAt(s.pending[i]) == s.drafts[c] && s.pending[i].id in Ids(s.decrypted)
    ensures Arrived(s, c)
  {
    var m := s.pending[i];
    assert HasDraft(s, m, roomId, me);
    hide PendingInv, DistinctKeys;
    var d :| PendingOf(s, m, d, roomId, me);
    var e :| e in s.decrypted && e.id == m.id;
    assert Genuine(s, e, roomId, me);
    assert d == c;
  }

  lemma PruneLosesNone(s: State, c: string, roomId: string, me: string)
    requires Inv(s, roomId, me) && c in s.drafts
    ensures var t := s.(pending := Pruned(s.pending, Ids(s.decrypted))); Waits(t, c) || Arrived(t, c)
  {
    var pruned := Pruned(s.pending, Ids(s.decrypted));
    PrunedIs(s.pending, Ids(s.decrypted));
    hide Pruned, PendingInv, DecryptedInv, IdsInv, SentAt, Ids;
    if Waits(s, c) {
      var i :| 0 <= i < |s.pending| && SentAt(s.pending[i]) == s.drafts[c];
      var m := s.pending[i];
      if m in pruned {
        var j :| 0 <= j < |pruned| && pruned[j] == m;
        assert SentAt(pruned[j]) == s.drafts[c];
      } else {
        DecodedIdHasArrived(s, i, c, roomId, me);
      }
    }
  }

  lemma StepKeepsInv(s: State, e: Event, roomId: string, me: string)
    requires Inv(s, roomId, me)
    ensures Inv(Step(s, e, roomId, me), roomId, me)
  {
    if Possible(s, e, roomId, me) {
      match e {
        case Submit(_, _, _) => SubmitKeepsInv(s, e, roomId, me);
        case Accept(_, _) => AcceptKeepsInv(s, e, roomId, me);
        case Succeed(clientId) => SamePendingKeepsInv(s, Step(s, e, roomId, me), roomId, me);
        case Fail(clientId) => SamePendingKeepsInv(s, Step(s, e, roomId, me), roomId, me);
        case Decode(next) => DecodeKeepsInv(s, e, roomId, me);
        case Prune => PruneKeepsInv(s, e, roomId, me);
      }
    }
    hide Inv, Pruned, Ids, DistinctKeys, Genuine, Confirmed;
  }

  lemma {:induction false} RunKeepsInv(es: seq<Event>, roomId: string, me: string)
    ensures Inv(Run(es, roomId, me), roomId, me)
  {
    if es != [] {
      RunKeepsInv(es[..|es| - 1], roomId, me);
      StepKeepsInv(Run(es[..|es| - 1], roomId, me), es[|es| - 1], roomId, me);
      hide Inv, Step;
    } else {
      hide Ids;
    }
  }

  // ---- One bubble ----

  lemma PendingIdsDiffer(s: State, roomId: string, me: string)
    requires IdsInv(s) && PendingInv(s, roomId, me)
    ensures DistinctKeys(s.pending, ShownId)
  {
    forall i, j | 0 <= i < j < |s.pending| ensures s.pending[i].id != s.pending[j].id {
      assert HasDraft(s, s.pending[i], roomId, me) && HasDraft(s, s.pending[j], roomId, me);
      var c :| PendingOf(s, s.pending[i], c, roomId, me);
      var d :| PendingOf(s, s.pending[j], d, roomId, me);
      assert c != d;
    }
  }

  ghost predicate OnlyOne(shown: seq<Shown>, sentAt: string, roomId: string, me: string) {
    exists i :: 0 <= i < |shown| && Bubble(shown[i], sentAt, roomId, me)
      && forall j | 0 <= j < |shown| && j != i :: !Bubble(shown[j], sentAt, roomId, me)
  }

  /** The decoded message of a draft, once there is one. */
  lemma ArrivedBubble(s: State, c: string, roomId: string, me: string)
    requires Inv(s, roomId, me) && c in s.drafts
    ensures Arrived(s, c) <==> s.drafts[c] in Confirmed(s.decrypted, me)
    ensures Arrived(s, c) ==>
              exists m :: m in s.decrypted && m.id == s.accepted[c] && Bubble(m, s.drafts[c], roomId, me)
    ensures forall m | m in s.decrypted && Bubble(m, s.drafts[c], roomId, me) :: Arrived(s, c) && m.id == s.accepted[c]
  {
    hide PendingInv, DistinctKeys;
    assert forall m | m in s.decrypted :: Genuine(s, m, roomId, me);
  }

  lemma PendingBubble(s: State, c: string, roomId: string, me: string)
    requires Inv(s, roomId, me) && c in s.drafts && !Arrived(s, c)
    ensures exists m :: m in s.pending && Bubble(m, s.drafts[c], roomId, me)
              && (m.id == c || (c in s.accepted && m.id == s.accepted[c])) && m.id !in Ids(s.decrypted)
  {
    var i :| 0 <= i < |s.pending| && SentAt(s.pending[i]) == s.drafts[c];
    var m := s.pending[i];
    assert HasDraft(s, m, roomId, me);
    var d :| PendingOf(s, m, d, roomId, me);
    assert d == c;
    if m.id == c {
      assert forall e | e in s.decrypted :: Genuine(s, e, roomId, me);
    }
    assert m in s.pending;
    hide PendingInv, DistinctKeys, SentAt;
  }

  /** Bubbles of one draft are the same entry. */
  lemma BubblesCoincide(s: State, c: string, e: Shown, f: Shown, roomId: string, me: string)
    requires Inv(s, roomId, me) && c in s.drafts
    requires Bubble(e, s.drafts[c], roomId, me) && Bubble(f, s.drafts[c], roomId, me)
    requires e in s.decrypted || (e in s.pending && SentAt(e) !in Confirmed(s.decrypted, me))
    requires f in s.decrypted || (f in s.pending && SentAt(f) !in Confirmed(s.decrypted, me))
    ensures e == f
  {
    ArrivedBubble(s, c, roomId, me);
    hide Genuine, Confirmed, HasDraft;
  }

  /** In every reachable state, each draft that was submitted shows exactly one bubble, unless the
      user has deleted it for himself; the bubble is the decoded message as soon as there is one. */
  lemma EachDraftShowsOnce(es: seq<Event>, roomId: string, me: string, deleted: set<string>, c: string)
    requires c in Run(es, roomId, me).drafts && c !in deleted
    requires c in Run(es, roomId, me).accepted ==> Run(es, roomId, me).accepted[c] !in deleted
    ensures var s := Run(es, roomId, me);
            var shown := Display(s.pending, s.decrypted, roomId, me, deleted);
            && OnlyOne(shown, s.drafts[c], roomId, me)
            && (Arrived(s, c) ==> forall m | m in shown && Bubble(m, s.drafts[c], roomId, me) :: m in s.decrypted)
  {
    RunKeepsInv(es, roomId, me);
    var s := Run(es, roomId, me);
    hide Run;
    var shown := Display(s.pending, s.decrypted, roomId, me, deleted);
    var e := TheBubble(s, roomId, me, deleted, c);
    assert OnlyOne(shown, s.drafts[c], roomId, me) by {
      var i :| 0 <= i < |shown| && shown[i] == e;
      forall j | 0 <= j < |shown| && j != i ensures !Bubble(shown[j], s.drafts[c], roomId, me) {
        assert shown[j] in shown;
      }
      hide Inv, Bubble, Display;
    }
    hide Inv, Bubble, Display, OnlyOne;
  }

  lemma TheBubble(s: State, roomId: string, me: string, deleted: set<string>, c: string) returns (e: Shown)
    requires Inv(s, roomId, me) && c in s.drafts && c !in deleted && (c in s.accepted ==> s.accepted[c] !in deleted)
    ensures var shown := Display(s.pending, s.decrypted, roomId, me, deleted);
            && DistinctKeys(shown, ShownId) && e in shown && Bubble(e, s.drafts[c], roomId, me)
            && (Arrived(s, c) ==> e in s.decrypted)
            && (forall f | f in shown && Bubble(f, s.drafts[c], roomId, me) :: f == e)
  {
    PendingIdsDiffer(s, roomId, me);
    DisplayIs(s.pending, s.decrypted, roomId, me, deleted);
    ArrivedBubble(s, c, roomId, me);
    if Arrived(s, c) {
      e :| e in s.decrypted && e.id == s.accepted[c] && Bubble(e, s.drafts[c], roomId, me);
    } else {
      PendingBubble(s, c, roomId, me);
      e :| e in s.pending && Bubble(e, s.drafts[c], roomId, me)
        && (e.id == c || (c in s.accepted && e.id == s.accepted[c])) && e.id !in Ids(s.decrypted);
    }
    var shown := Display(s.pending, s.decrypted, roomId, me, deleted);
    hide Display, PendingInv, DecryptedInv, IdsInv, NoneLost, Confirmed, Arrived, DistinctKeys;
    assert e in shown;
    forall f | f in shown && Bubble(f, s.drafts[c], roomId, me) ensures f == e {
      BubblesCoincide(s, c, e, f, roomId, me);
    }
  }

  // ---- The hook's own state ----

  const MAX_FILE_BYTES := 100 * 1024 * 1024

  lemma ConfirmedOneMore(decrypted: seq<Shown>, i: nat, me: string)
    requires i < |decrypted|
    ensures Confirmed(decrypted[..i + 1], me)
         == Confirmed(decrypted[..i], me)
            + if decrypted[i].senderId == me && SentAt(decrypted[i]) != "" then {SentAt(decrypted[i])} else {}
  {
    assert decrypted[..i + 1] == decrypted[..i] + [decrypted[i]];
    hide SentAt;
  }

  const LIVE_MESSAGES := 200

  /** A live event that is not there yet goes to the end; the oldest ones make room. */
  function WithLive(live: seq<Copy>, message: Copy): seq<Copy> {
    if Slot(live, Id, Id(message)) < |live| then live
    else if |live| < LIVE_MESSAGES then live + [message]
    else (live + [message])[|live| + 1 - LIVE_MESSAGES..]
  }

  /** What it holds afterwards: the message, or one of its id, and the rest in its order. */
  lemma LiveHoldsMessage(live: seq<Copy>, message: Copy)
    requires DistinctKeys(live, Id) && |live| <= LIVE_MESSAGES
    ensures var after := WithLive(live, message);
            && DistinctKeys(after, Id) && |after| <= LIVE_MESSAGES && Present(Id(message), after)
            && (forall c | c in after :: c in live || c == message)
            && (|live| < LIVE_MESSAGES ==> live <= after)
  {
    var i := Slot(live, Id, Id(message));
    var after := WithLive(live, message);
    hide Slot;
    if i < |live| { assert live[i] in after; } else { assert after[|after| - 1] == message; }
  }

  /** The pending and the decoded messages of one room, for one user, with the live events and the
      context window that sending touches. */
  class Outbox {
    const roomId: string
    const me: string
    var pending: seq<Shown>
    var decrypted: seq<Shown>
    var sending: bool
    var live: seq<Copy>
    var contextMessages: seq<Copy>
    var contextHasMore: bool
    var inContext: bool

    constructor (roomId: string, me: string)
      ensures pending == [] && decrypted == [] && !sending && this.roomId == roomId && this.me == me
      ensures live == [] && contextMessages == [] && !contextHasMore && !inContext
    {
      this.roomId, this.me, pending, decrypted, sending := roomId, me, [], [], false;
      live, contextMessages, contextHasMore, inContext := [], [], false, false;
    }

    /** `submitMessage`; `file` is the size of the file picked. */
    method SubmitMessage(text: string, file: Option<nat>, name: string, clientId: string, now: string, createdAt: int)
        returns (sent: bool)
      modifies `pending, `sending
      ensures sent <==> && (text != "" || file.Some?) && roomId != "" && !old(sending)
                        && (file.Some? ==> file.value <= MAX_FILE_BYTES)
      ensures sending == (old(sending) || sent)
      ensures pending == if sent
                         then old(pending) + [NewPending(clientId, Body(text, name, now), createdAt, roomId, me)]
                         else old(pending)
    {
      if (text == "" && file.None?) || roomId == "" || sending { return false; }
      if file.Some? && file.value > MAX_FILE_BYTES { return false; }
      pending := pending + [NewPending(clientId, Body(text, name, now), createdAt, roomId, me)];
      sending := true;
      return true;
    }

    /** The server's answer: the context window is left, the pending entry gets the server's id, and
        the message joins the live events unless one brought it already. */
    method OnSuccess(clientId: string, message: Copy)
      modifies `pending, `sending, `live, `contextMessages, `contextHasMore, `inContext
      ensures pending == Relabelled(old(pending), clientId, Id(message)) && !sending
      ensures live == WithLive(old(live), message)
      ensures !inContext
      ensures if old(inContext) then contextMessages == [] && !contextHasMore
              else contextMessages == old(contextMessages) && contextHasMore == old(contextHasMore)
    {
      sending := false;
      if inContext {
        contextMessages, contextHasMore, inContext := [], false, false;
      }
      pending := Relabelled(pending, clientId, Id(message));
      if Slot(live, Id, Id(message)) == |live| {
        live := live + [message];
        if |live| > LIVE_MESSAGES { live := live[|live| - LIVE_MESSAGES..]; }
      }
    }

    method OnError(clientId: string)
      modifies `pending, `sending
      ensures pending == Failing(old(pending), clientId) && !sending
    {
      sending := false;
      pending := Failing(pending, clientId);
    }

    /** The effect that follows a new decoded list. */
    method PruneConfirmed()
      modifies `pending
      ensures pending == Pruned(old(pending), Ids(decrypted))
    {
      var ids := Ids(decrypted);
      var next := [];
      for i := 0 to |pending|
        invariant next == Pruned(pending[..i], ids) && unchanged(this)
      {
        assert pending[..i + 1][..i] == pending[..i];
        if !(pending[i].status == Some(Sent) && pending[i].id in ids) { next := next + [pending[i]]; }
      }
      assert pending[..|pending|] == pending;
      pending := next;
    }

    method DisplayMessages(deleted: set<string>) returns (shown: seq<Shown>)
      ensures shown == Display(pending, decrypted, roomId, me, deleted)
    {
      var confirmed: set<string> := {};
      for i := 0 to |decrypted|
        invariant confirmed == Confirmed(decrypted[..i], me)
      {
        ConfirmedOneMore(decrypted, i, me);
        if decrypted[i].senderId == me && SentAt(decrypted[i]) != "" {
          confirmed := confirmed + {SentAt(decrypted[i])};
        }
      }
      assert decrypted[..|decrypted|] == decrypted;
      assert "" !in confirmed;
      hide Confirmed;
      var byId: seq<Shown> := [];
      for i := 0 to |pending|
        invariant byId == SetPending(pending[..i], confirmed, roomId, deleted)
      {
        assert pending[..i + 1][..i] == pending[..i];
        var msg := pending[i];
        if Visible(msg, roomId, deleted) {
          if !(SentAt(msg) != "" && SentAt(msg) in confirmed) { byId := SetEntry(byId, ShownId, msg); }
        }
      }
      assert pending[..|pending|] == pending;
      for i := 0 to |decrypted|
        invariant byId == SetDecrypted(SetPending(pending, confirmed, roomId, deleted), decrypted[..i], roomId, deleted)
      {
        assert decrypted[..i + 1][..i] == decrypted[..i];
        if Visible(decrypted[i], roomId, deleted) { byId := SetEntry(byId, ShownId, decrypted[i]); }
      }
      shown := Sort(byId, ShownEarlier);
    }
  }
}
