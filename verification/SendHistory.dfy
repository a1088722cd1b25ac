/** What a sender sees of one draft over a run: its content, its status, and its place. */
module SendHistory {
  import opened Common
  import opened Keyed
  import opened MessageStore
  import opened Ordering
  import opened ClientMerge
  import opened Decoded
  import opened OptimisticSend

  // ---- Content and status of one draft ----

  /** The pending entry of a draft, from its own events: as it was written, being sent; under the
      server's id and sent once the answer is there; failed if none comes. */
  ghost function DraftOf(es: seq<Event>, roomId: string, me: string, c: string): Option<Shown> {
    if es == [] then None
    else
      var n := |es| - 1;
      var before, s, e := DraftOf(es[..n], roomId, me, c), Run(es[..n], roomId, me), es[n];
      if !Possible(s, e, roomId, me) then before
      else match e
        case Submit(clientId, body, createdAt) =>
          if clientId != c then before
          else Some(Shown(c, roomId, me, Some(body), createdAt, None, None, [], [], false, [], Some(Sending), false))
        case Succeed(clientId) =>
          if clientId != c || before.None? || before.value.id != c then before
          else Some(before.value.(id := s.accepted[c], status := Some(Sent)))
        case Fail(clientId) =>
          if clientId != c || before.None? || before.value.id != c then before
          else Some(before.value.(status := Some(Failed)))
        case _ => before
  }

  ghost predicate IsDraft(s: State, c: string, d: Option<Shown>) {
    && (c in s.drafts <==> d.Some?)
    && (d.Some? ==>
          && SentAt(d.value) == s.drafts[c]
          && (d.value.id == c || (c in s.accepted && d.value.id == s.accepted[c]))
          && forall i | 0 <= i < |s.pending| && SentAt(s.pending[i]) == s.drafts[c] :: s.pending[i] == d.value)
  }

  ghost function NextDraft(s: State, e: Event, roomId: string, me: string, c: string, d: Option<Shown>): Option<Shown> {
    match e
    case Submit(clientId, body, createdAt) =>
      if clientId != c then d
      else Some(Shown(c, roomId, me, Some(body), createdAt, None, None, [], [], false, [], Some(Sending), false))
    case Succeed(clientId) =>
      if clientId != c || d.None? || d.value.id != c || c !in s.accepted then d
      else Some(d.value.(id := s.accepted[c], status := Some(Sent)))
    case Fail(clientId) =>
      if clientId != c || d.None? || d.value.id != c then d else Some(d.value.(status := Some(Failed)))
    case _ => d
  }

  lemma SubmitIsDraft(s: State, e: Event, roomId: string, me: string, c: string, d: Option<Shown>)
    requires Inv(s, roomId, me) && IsDraft(s, c, d) && e.Submit? && Possible(s, e, roomId, me)
    ensures IsDraft(Step(s, e, roomId, me), c, NextDraft(s, e, roomId, me, c, d))
  {
    hide DecryptedInv, NoneLost, Ids, Confirmed, DistinctKeys;
    var t := Step(s, e, roomId, me);
    forall i | 0 <= i < |s.pending| ensures SentAt(s.pending[i]) != e.body.sentAt {
      assert HasDraft(s, s.pending[i], roomId, me);
      var b :| PendingOf(s, s.pending[i], b, roomId, me);
    }
    assert forall i | 0 <= i < |s.pending| :: t.pending[i] == s.pending[i];
  }

  /** An entry under a draft's own id is that draft's. */
  lemma OwnEntry(s: State, i: nat, roomId: string, me: string, c: string)
    requires IdsInv(s) && PendingInv(s, roomId, me) && i < |s.pending| && c in s.drafts && s.pending[i].id == c
    ensures SentAt(s.pending[i]) == s.drafts[c]
  {
    assert HasDraft(s, s.pending[i], roomId, me);
    var b :| PendingOf(s, s.pending[i], b, roomId, me);
  }

  lemma AnswerIsDraft(s: State, e: Event, roomId: string, me: string, c: string, d: Option<Shown>)
    requires Inv(s, roomId, me) && IsDraft(s, c, d) && (e.Succeed? || e.Fail?) && Possible(s, e, roomId, me)
    ensures IsDraft(Step(s, e, roomId, me), c, NextDraft(s, e, roomId, me, c, d))
  {
    hide DecryptedInv, NoneLost, Ids, Confirmed, DistinctKeys;
    var t := Step(s, e, roomId, me);
    forall i | 0 <= i < |s.pending| && c in s.drafts && SentAt(t.pending[i]) == s.drafts[c]
      ensures t.pending[i] == NextDraft(s, e, roomId, me, c, d).value
    {
      assert SentAt(s.pending[i]) == SentAt(t.pending[i]);
      if s.pending[i].id == e.clientId { OwnEntry(s, i, roomId, me, e.clientId); }
    }
    hide PendingInv;
  }

  lemma OtherIsDraft(s: State, e: Event, roomId: string, me: string, c: string, d: Option<Shown>)
    requires IsDraft(s, c, d) && (e.Accept? || e.Decode? || e.Prune?) && Possible(s, e, roomId, me)
    ensures IsDraft(Step(s, e, roomId, me), c, d)
  {
    if e.Prune? {
      PrunedIs(s.pending, Ids(s.decrypted));
      hide Pruned, Ids, SentAt;
      var t := Step(s, e, roomId, me);
      forall i | 0 <= i < |t.pending| && c in s.drafts && SentAt(t.pending[i]) == s.drafts[c]
        ensures t.pending[i] == d.value
      {
        assert t.pending[i] in t.pending;
      }
    } else {
      hide Ids, SentAt, Genuine, DistinctKeys;
    }
  }

  lemma {:induction false} PendingFollowsTheDraft(es: seq<Event>, roomId: string, me: string, c: string)
    ensures IsDraft(Run(es, roomId, me), c, DraftOf(es, roomId, me, c))
  {
    if es != [] {
      hide Inv, IsDraft, Possible;
      var n := |es| - 1;
      var s, e, d := Run(es[..n], roomId, me), es[n], DraftOf(es[..n], roomId, me, c);
      PendingFollowsTheDraft(es[..n], roomId, me, c);
      RunKeepsInv(es[..n], roomId, me);
      if Possible(s, e, roomId, me) {
        if e.Submit? { SubmitIsDraft(s, e, roomId, me, c, d); }
        else if e.Succeed? || e.Fail? { AnswerIsDraft(s, e, roomId, me, c, d); }
        else { OtherIsDraft(s, e, roomId, me, c, d); }
        assert e.Succeed? ==> e.clientId in s.accepted by { AnsweredIsAccepted(s, e, roomId, me); }
      }
      hide Step;
    }
  }

  lemma AnsweredIsAccepted(s: State, e: Event, roomId: string, me: string)
    requires Possible(s, e, roomId, me)
    ensures e.Succeed? ==> e.clientId in s.accepted
  {
  }

  /** The one bubble of a draft is its decoded message once there is one; until then it shows what was
      written, with the status that the answers so far give it. */
  lemma BubbleFollowsTheDraft(es: seq<Event>, roomId: string, me: string, deleted: set<string>, c: string, m: Shown)
    requires c in Run(es, roomId, me).drafts
    requires var s := Run(es, roomId, me);
             m in Display(s.pending, s.decrypted, roomId, me, deleted) && Bubble(m, s.drafts[c], roomId, me)
    ensures DraftOf(es, roomId, me, c).Some?
    ensures var s := Run(es, roomId, me);
            if Arrived(s, c) then m in s.decrypted && m.id == s.accepted[c]
            else m == DraftOf(es, roomId, me, c).value
  {
    RunKeepsInv(es, roomId, me);
    PendingFollowsTheDraft(es, roomId, me, c);
    var s := Run(es, roomId, me);
    PendingIdsDiffer(s, roomId, me);
    DisplayIs(s.pending, s.decrypted, roomId, me, deleted);
    ArrivedBubble(s, c, roomId, me);
    hide Run, DraftOf, Display, Confirmed, PendingInv, DecryptedInv, IdsInv, NoneLost, VisibleId, DistinctKeys;
    if m !in s.decrypted {
      var i :| 0 <= i < |s.pending| && s.pending[i] == m;
      assert SentAt(m) == s.drafts[c];
    }
  }

  // ---- Its place ----

  function Only(list: seq<Shown>, keep: Shown -> bool): seq<Shown> {
    if list == [] then []
    else
      var n := |list| - 1;
      Only(list[..n], keep) + if keep(list[n]) then [list[n]] else []
  }

  ghost predicate Before(list: seq<Shown>, a: Shown, b: Shown) {
    exists p, q :: 0 <= p < q < |list| && list[p] == a && list[q] == b
  }

  lemma {:induction false} OnlyKeepsOrder(list: seq<Shown>, keep: Shown -> bool)
    ensures forall m :: m in Only(list, keep) <==> m in list && keep(m)
    ensures forall i, j | 0 <= i < j < |Only(list, keep)| :: Before(list, Only(list, keep)[i], Only(list, keep)[j])
  {
    if list != [] {
      var n := |list| - 1;
      OnlyKeepsOrder(list[..n], keep);
      var rest, all := Only(list[..n], keep), Only(list, keep);
      assert list == list[..n] + [list[n]];
      forall i, j | 0 <= i < j < |all| ensures Before(list, all[i], all[j]) {
        if j < |rest| {
          assert Before(list[..n], rest[i], rest[j]);
          var p, q :| 0 <= p < q < n && list[..n][p] == rest[i] && list[..n][q] == rest[j];
          assert list[p] == all[i] && list[q] == all[j];
        } else {
          assert rest[i] in rest;
          var p :| 0 <= p < n && list[..n][p] == rest[i];
          assert list[p] == all[i] && list[n] == all[j];
        }
      }
    }
  }

  lemma {:induction false} PendingIsFiltered(pending: seq<Shown>, confirmed: set<string>, roomId: string,
                                             deleted: set<string>)
    requires DistinctKeys(pending, ShownId)
    ensures SetPending(pending, confirmed, roomId, deleted)
         == Only(pending, m => Visible(m, roomId, deleted) && SentAt(m) !in confirmed)
  {
    if pending != [] {
      var n := |pending| - 1;
      var keep := (m: Shown) => Visible(m, roomId, deleted) && SentAt(m) !in confirmed;
      PendingIsFiltered(pending[..n], confirmed, roomId, deleted);
      OnlyKeepsOrder(pending[..n], keep);
      hide SentAt, Visible;
      KeyIsNew(Only(pending[..n], keep), pending, n);
      NewKeyGoesLast(Only(pending[..n], keep), pending[n]);
    }
  }

  lemma KeyIsNew(entries: seq<Shown>, list: seq<Shown>, n: nat)
    requires DistinctKeys(list, ShownId) && n < |list| && forall e | e in entries :: e in list[..n]
    ensures forall e | e in entries :: e.id != list[n].id
  {
    forall e | e in entries ensures e.id != list[n].id {
      var p :| 0 <= p < n && list[..n][p] == e;
      assert ShownId(list[p]) != ShownId(list[n]);
    }
  }

  lemma NewKeyGoesLast(entries: seq<Shown>, m: Shown)
    requires forall e | e in entries :: e.id != m.id
    ensures SetEntry(entries, ShownId, m) == entries + [m]
  {
    forall k | 0 <= k < |entries| ensures ShownId(entries[k]) != m.id {
      assert entries[k] in entries;
    }
  }

  lemma {:induction false} DecryptedIsFiltered(kept: seq<Shown>, decrypted: seq<Shown>, roomId: string,
                                               deleted: set<string>)
    requires DistinctKeys(decrypted, ShownId)
    requires forall e, d | e in kept && d in decrypted :: e.id != d.id
    ensures SetDecrypted(kept, decrypted, roomId, deleted) == kept + Only(decrypted, m => Visible(m, roomId, deleted))
    decreases |decrypted|
  {
    if decrypted == [] {
      assert kept + [] == kept;
    } else {
      var n := |decrypted| - 1;
      assert decrypted[n] in decrypted;
      DecryptedIsFiltered(kept, decrypted[..n], roomId, deleted);
      NextGoesLast(kept, decrypted, n, roomId, deleted);
      hide Only, SetDecrypted;
    }
  }

  lemma NextGoesLast(kept: seq<Shown>, decrypted: seq<Shown>, n: nat, roomId: string, deleted: set<string>)
    requires DistinctKeys(decrypted, ShownId) && n + 1 == |decrypted|
    requires forall e | e in kept :: e.id != decrypted[n].id
    requires SetDecrypted(kept, decrypted[..n], roomId, deleted)
          == kept + Only(decrypted[..n], m => Visible(m, roomId, deleted))
    ensures SetDecrypted(kept, decrypted, roomId, deleted) == kept + Only(decrypted, m => Visible(m, roomId, deleted))
  {
    var keep := (m: Shown) => Visible(m, roomId, deleted);
    OnlyKeepsOrder(decrypted[..n], keep);
    hide Visible, SetEntry, Before;
    var rest, m := Only(decrypted[..n], keep), decrypted[n];
    KeyIsNew(rest, decrypted, n);
    hide DistinctKeys;
    assert forall e | e in kept + rest :: e in kept || e in rest;
    NewKeyGoesLast(kept + rest, m);
    assert Only(decrypted, keep) == rest + if keep(m) then [m] else [];
    assert SetDecrypted(kept, decrypted, roomId, deleted) == if keep(m) then kept + rest + [m] else kept + rest;
    hide Only, SetDecrypted;
    assert kept + rest + [m] == kept + (rest + [m]);
    assert rest + [] == rest;
  }

  /** Pending ones first, each kind in the order of its own list. */
  ghost predicate ListedBefore(pending: seq<Shown>, decrypted: seq<Shown>, a: Shown, b: Shown) {
    if a in decrypted then Before(decrypted, a, b) else b in decrypted || Before(pending, a, b)
  }

  lemma KeptIsNotDecoded(s: State, roomId: string, me: string, e: Shown, d: Shown)
    requires Inv(s, roomId, me) && e in s.pending && SentAt(e) !in Confirmed(s.decrypted, me) && d in s.decrypted
    ensures e.id != d.id
  {
    var i :| 0 <= i < |s.pending| && s.pending[i] == e;
    assert HasDraft(s, e, roomId, me);
    var c :| PendingOf(s, e, c, roomId, me);
    assert Genuine(s, d, roomId, me);
    hide DistinctKeys, NoneLost;
  }

  /** In every reachable state the bubbles stand in the order of their creation by milliseconds; within
      one those still pending come first, and each kind stands as in its own list. */
  lemma BubblesAreInOrder(es: seq<Event>, roomId: string, me: string, deleted: set<string>, i: nat, j: nat)
    requires var s := Run(es, roomId, me);
             i < j < |Display(s.pending, s.decrypted, roomId, me, deleted)|
    ensures var s := Run(es, roomId, me);
            var shown := Display(s.pending, s.decrypted, roomId, me, deleted);
            && Millis(shown[i].createdAt) <= Millis(shown[j].createdAt)
            && (Millis(shown[i].createdAt) == Millis(shown[j].createdAt) ==>
                  ListedBefore(s.pending, s.decrypted, shown[i], shown[j]))
  {
    RunKeepsInv(es, roomId, me);
    var s := Run(es, roomId, me);
    hide Run;
    StateIsInOrder(s, roomId, me, deleted);
    hide Display, Inv, Before;
  }

  lemma StateIsInOrder(s: State, roomId: string, me: string, deleted: set<string>)
    requires Inv(s, roomId, me)
    ensures var shown := Display(s.pending, s.decrypted, roomId, me, deleted);
            forall i, j | 0 <= i < j < |shown| ::
              && Millis(shown[i].createdAt) <= Millis(shown[j].createdAt)
              && (Millis(shown[i].createdAt) == Millis(shown[j].createdAt) ==>
                    ListedBefore(s.pending, s.decrypted, shown[i], shown[j]))
  {
    var confirmed := Confirmed(s.decrypted, me);
    var keep := (m: Shown) => Visible(m, roomId, deleted) && SentAt(m) !in confirmed;
    var visible := (m: Shown) => Visible(m, roomId, deleted);
    PendingIdsDiffer(s, roomId, me);
    PendingIsFiltered(s.pending, confirmed, roomId, deleted);
    var kept := Only(s.pending, keep);
    OnlyKeepsOrder(s.pending, keep);
    OnlyKeepsOrder(s.decrypted, visible);
    forall e, d | e in kept && d in s.decrypted ensures e.id != d.id { KeptIsNotDecoded(s, roomId, me, e, d); }
    hide Before, Only, SentAt, Visible, Genuine, Confirmed, PendingInv, IdsInv, NoneLost;
    DecryptedIsFiltered(kept, s.decrypted, roomId, deleted);
    var list := kept + Only(s.decrypted, visible);
    hide SetPending, SetDecrypted, Sort;
    assert SetPending(s.pending, confirmed, roomId, deleted) == kept;
    assert Display(s.pending, s.decrypted, roomId, me, deleted) == Sort(list, ShownEarlier);
    BothInOrder(s.pending, s.decrypted, kept, Only(s.decrypted, visible));
    SortedByTime(list, s.pending, s.decrypted);
  }

  lemma BothInOrder(pending: seq<Shown>, decrypted: seq<Shown>, kept: seq<Shown>, rest: seq<Shown>)
    requires forall e, d | e in kept && d in decrypted :: e.id != d.id
    requires forall m | m in rest :: m in decrypted
    requires forall i, j | 0 <= i < j < |kept| :: Before(pending, kept[i], kept[j])
    requires forall i, j | 0 <= i < j < |rest| :: Before(decrypted, rest[i], rest[j])
    ensures forall i, j | 0 <= i < j < |kept + rest| ::
              ListedBefore(pending, decrypted, (kept + rest)[i], (kept + rest)[j])
  {
    hide Before;
    var both := kept + rest;
    forall i, j | 0 <= i < j < |both| ensures ListedBefore(pending, decrypted, both[i], both[j]) {
      if i < |kept| { assert both[i] in kept && both[i] !in decrypted; } else { assert both[i] in rest; }
      if j >= |kept| { assert both[j] in rest; }
    }
  }

  lemma SortedByTime(list: seq<Shown>, pending: seq<Shown>, decrypted: seq<Shown>)
    requires forall i, j | 0 <= i < j < |list| :: ListedBefore(pending, decrypted, list[i], list[j])
    ensures var shown := Sort(list, ShownEarlier);
            forall i, j | 0 <= i < j < |shown| ::
              && Millis(shown[i].createdAt) <= Millis(shown[j].createdAt)
              && (Millis(shown[i].createdAt) == Millis(shown[j].createdAt) ==>
                    ListedBefore(pending, decrypted, shown[i], shown[j]))
  {
    hide ListedBefore, Millis, Sort;
    SortSorts(list, ShownEarlier);
    SortIsStable(list, ShownEarlier, (a: Shown, b: Shown) => ListedBefore(pending, decrypted, a, b));
  }
}
