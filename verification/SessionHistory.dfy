/** What the calls so far say of one session: who opened it, when it was revoked, and which access
    tokens that leaves valid. */
module SessionHistory {
  import opened Common
  import opened Sessions
  import opened RefreshRuns

  // ---- What one store call does ----

  /** Revoked, at this time unless it was before; nothing else of it has changed. */
  ghost predicate RevokedNow(before: Session, after: Session, now: int) {
    && after.userId == before.userId && after.username == before.username && after.hash == before.hash
    && after.createdAt == before.createdAt && after.expiresAt == before.expiresAt
    && after.revokedAt.Some?
    && (before.revokedAt.None? ==> after.revokedAt.value == now)
    && (before.revokedAt.Some? ==> after.revokedAt == before.revokedAt)
  }

  /** Exactly the user's sessions but the one kept are revoked. */
  lemma RevokeOthersRevokes(store: Store, userId: string, keep: string, now: int)
    ensures var after := RevokeOthers(store, userId, keep, now);
            && (forall id :: id in after <==> id in store)
            && (forall id | id in store && store[id].userId == userId && id != keep ::
                  RevokedNow(store[id], after[id], now))
            && (forall id | id in store && (store[id].userId != userId || id == keep) :: after[id] == store[id])
  {
  }

  /** Only its owner can revoke a session, and no other is touched. */
  lemma RevokeRevokes(store: Store, userId: string, id: string, now: int)
    ensures var r := Revoke(store, userId, id, now);
            && (r.Ok? <==> id in store && store[id].userId == userId)
            && (r.Ok? ==>
                  && (forall x :: x in r.value <==> x in store)
                  && (forall x | x in store && x != id :: r.value[x] == store[x])
                  && RevokedNow(store[id], r.value[id], now))
  {
  }

  /** What a complete draft becomes: created now unless it says otherwise; no other session is touched. */
  lemma CreateStores(store: Store, id: string, draft: Draft, now: int)
    ensures var r := Create(store, id, draft, now);
            && (r.Ok? <==> id != "" && draft.userId != "" && draft.hash.Some? && draft.expiresAt.Some?)
            && (r.Ok? ==>
                  var (after, made) := r.value;
                  && (forall x :: x in after <==> x in store || x == id)
                  && (forall x | x in store && x != id :: after[x] == store[x])
                  && after[id] == made && made.userId == draft.userId && made.username == draft.username
                  && Some(made.hash) == draft.hash && Some(made.expiresAt) == draft.expiresAt
                  && made.revokedAt == draft.revokedAt
                  && (draft.createdAt == None ==> made.createdAt == now)
                  && (draft.createdAt != None ==> draft.createdAt == Some(made.createdAt)))
  {
  }

  /** The time that has passed since the beginning. */
  function Elapsed(es: seq<Event>): nat {
    if es == [] then 0
    else Elapsed(es[..|es| - 1]) + if es[|es| - 1].Tick? then es[|es| - 1].elapsed else 0
  }

  lemma {:induction false} ClockFollows(c: Config, es: seq<Event>)
    ensures Run(c, es).now == Elapsed(es)
  {
    if es != [] {
      ClockFollows(c, es[..|es| - 1]);
      ClockMoves(c, Run(c, es[..|es| - 1]), es[|es| - 1]);
      hide Step;
    }
  }

  lemma ClockMoves(c: Config, s: State, e: Event)
    ensures Step(c, s, e).now == s.now + if e.Tick? then e.elapsed else 0
  {
    hide Revoke, RevokeOthers, IssueClaims, Rotate;
  }

  // ---- Who opened a session ----

  datatype Opening = Opening(owner: User, at: int)

  /** The login that opened the session: the first one under its id that was complete and drew a fresh
      secret. */
  ghost function OpeningOf(c: Config, es: seq<Event>, id: string): Option<Opening> {
    if es == [] then None
    else
      var n := |es| - 1;
      var before, s := OpeningOf(c, es[..n], id), Run(c, es[..n]);
      if before.Some? then before
      else match es[n]
        case Login(sid, owner, minted) =>
          if sid == id && id != "" && owner.userId != "" && owner.username != "" && minted !in s.drawn
          then Some(Opening(owner, s.now)) else None
        case _ => None
  }

  // ---- When it was revoked ----

  /** A call that revokes the session: its owner's, for it or for all but another, or one of a refresh
      that had found a token of it used before. */
  ghost predicate Revokes(s: State, e: Event, id: string)
    requires id in s.store
  {
    match e
    case RevokeSession(userId, sid) => sid == id && userId == s.store[id].userId
    case RevokeOtherSessions(userId, keep) => keep != id && userId == s.store[id].userId
    case RevokeReused(call) => call in s.calls && s.calls[call].Mismatched? && s.calls[call].id == id
    case _ => false
  }

  ghost function RevocationOf(c: Config, es: seq<Event>, id: string): Option<int> {
    if es == [] then None
    else
      var n := |es| - 1;
      var before, s := RevocationOf(c, es[..n], id), Run(c, es[..n]);
      if before.None? && id in s.store && Revokes(s, es[n], id) then Some(s.now) else before
  }

  lemma StepRevokes(c: Config, s: State, e: Event, id: string)
    requires SeenInv(s) && id in s.store
    ensures var t := Step(c, s, e);
            && id in t.store
            && t.store[id].revokedAt == if s.store[id].revokedAt.None? && Revokes(s, e, id) then Some(s.now)
                                        else s.store[id].revokedAt
  {
    hide Installed, IssueClaims, RevokeOthers, Revoke;
    match e {
      case RevokeOtherSessions(userId, keep) => RevokeOthersRevokes(s.store, userId, keep, s.now);
      case RevokeSession(userId, sid) => RevokeRevokes(s.store, userId, sid, s.now);
      case RevokeReused(call) =>
        if call in s.calls && s.calls[call].Mismatched? {
          assert CallInv(s, s.calls[call]);
          RevokeRevokes(s.store, s.calls[call].userId, s.calls[call].id, s.now);
        }
      case _ =>
    }
  }

  lemma StepKeepsOwner(c: Config, s: State, e: Event, id: string)
    requires id in s.store
    ensures id in Step(c, s, e).store
    ensures var a, b := s.store[id], Step(c, s, e).store[id];
            b.userId == a.userId && b.username == a.username && b.createdAt == a.createdAt
  {
  }

  lemma StepOpens(c: Config, s: State, e: Event, id: string)
    requires id !in s.store && s.store.Keys == s.first.Keys
    ensures var t := Step(c, s, e);
            && (id in t.store <==>
                  && e.Login? && e.sid == id && id != "" && e.owner.userId != "" && e.owner.username != ""
                  && e.minted !in s.drawn)
            && (id in t.store ==>
                  t.store[id] == Session(e.owner.userId, e.owner.username, Sha256(e.minted), s.now,
                                         s.now + c.refreshTtl, None))
  {
    hide IssueClaims;
  }

  ghost predicate Matches(s: State, id: string, opening: Option<Opening>, revocation: Option<int>) {
    && (id in s.store <==> opening.Some?)
    && (id !in s.store ==> revocation.None?)
    && (id in s.store ==>
          && s.store[id].userId == opening.value.owner.userId
          && s.store[id].username == opening.value.owner.username
          && s.store[id].createdAt == opening.value.at
          && s.store[id].revokedAt == revocation)
  }

  lemma StepMatches(c: Config, s: State, e: Event, id: string, opening: Option<Opening>, revocation: Option<int>)
    requires ChainInv(s) && SeenInv(s) && Matches(s, id, opening, revocation)
    ensures var next := if opening.Some? then opening
                        else if e.Login? && e.sid == id && id != "" && e.owner.userId != "" && e.owner.username != ""
                                && e.minted !in s.drawn
                        then Some(Opening(e.owner, s.now)) else None;
            Matches(Step(c, s, e), id, next,
                    if revocation.None? && id in s.store && Revokes(s, e, id) then Some(s.now) else revocation)
  {
    hide Step, SeenInv, Revokes;
    if id in s.store {
      StepRevokes(c, s, e, id);
      StepKeepsOwner(c, s, e, id);
    } else {
      StepOpens(c, s, e, id);
    }
    hide ChainInv;
  }

  /** In every run the store knows a session exactly if a login opened it, with that login's owner and
      time, and holds it as revoked exactly since the first call that revoked it. */
  lemma {:induction false} SessionFollowsTheCalls(c: Config, es: seq<Event>, id: string)
    requires c.refreshTtl > 0
    ensures Matches(Run(c, es), id, OpeningOf(c, es, id), RevocationOf(c, es, id))
  {
    hide Step, ChainInv, FreshInv, LogInv, SeenInv, ExpiryInv, TokenInv, Revokes;
    if es != [] {
      var n := |es| - 1;
      SessionFollowsTheCalls(c, es[..n], id);
      RunKeepsInv(c, es[..n]);
      StepMatches(c, Run(c, es[..n]), es[n], id, OpeningOf(c, es[..n], id), RevocationOf(c, es[..n], id));
      hide Matches;
    }
  }

  // ---- Which tokens that leaves valid ----

  /** A token handed out verifies exactly while its own life and that of its session then last, and no
      call has revoked the session. */
  lemma TokenFollowsTheCalls(c: Config, es: seq<Event>, k: nat, now: int)
    requires c.refreshTtl > 0 && k < |Run(c, es).tokens| && Run(c, es).now <= now
    ensures var s := Run(c, es);
            var t := s.tokens[k];
            && OpeningOf(c, es, t.claims.session).Some?
            && t.claims.subject == OpeningOf(c, es, t.claims.session).value.owner.userId
            && (VerifyClaims(c, s.store, t.claims, now).Ok?
                <==> && RevocationOf(c, es, t.claims.session).None?
                     && Unix(now) < Unix(t.at + c.tokenTtl) && Unix(now) < Unix(t.from.expiresAt))
  {
    hide Run, VerifyClaims, ChainInv, FreshInv, LogInv, SeenInv, ExpiryInv;
    TokenVerifiesExactly(c, es, k, now);
    SessionFollowsTheCalls(c, es, Run(c, es).tokens[k].claims.session);
    RunKeepsInv(c, es);
    assert Run(c, es).tokens[k] in Run(c, es).tokens;
    hide Unix;
  }

  /** Whatever claims are presented: if they are accepted and name a user, the session they name was
      opened by its subject, has not been revoked and has not expired. */
  lemma AcceptedNamesALiveSession(c: Config, es: seq<Event>, claims: Claims, now: int)
    requires c.refreshTtl > 0 && VerifyClaims(c, Run(c, es).store, claims, now).Ok?
    ensures claims.issuer == c.issuer && claims.subject != ""
    ensures Unix(now) < claims.expires && claims.issued <= Unix(now) + 30
    ensures claims.username != "" ==>
              && OpeningOf(c, es, claims.session).Some? && RevocationOf(c, es, claims.session).None?
              && OpeningOf(c, es, claims.session).value.owner.userId == claims.subject
              && now < Run(c, es).store[claims.session].expiresAt
  {
    hide Run;
    SessionFollowsTheCalls(c, es, claims.session);
  }

  /** When a user ends his other sessions, none of their tokens verifies from then on, in any further
      run, not even one that a refresh in flight hands out later. */
  lemma OthersAreLoggedOut(c: Config, es: seq<Event>, more: seq<Event>, userId: string, keep: string,
                           id: string, k: nat, now: int)
    requires c.refreshTtl > 0
    requires id in Run(c, es).store && Run(c, es).store[id].userId == userId && id != keep
    ensures var u := Run(c, es + [RevokeOtherSessions(userId, keep)] + more);
            k < |u.tokens| && u.tokens[k].claims.session == id ==>
              VerifyClaims(c, u.store, u.tokens[k].claims, now).Err?
  {
    RunOneMore(c, es, RevokeOtherSessions(userId, keep));
    RevokeOthersRevokes(Run(c, es).store, userId, keep, Run(c, es).now);
    hide Run, RevokeOthers, VerifyClaims;
    RevocationIsFinal(c, es + [RevokeOtherSessions(userId, keep)], more, id, k, now);
    hide StaysRevoked;
  }

  /** At that moment whatever claims name the session kept, or one of somebody else, are judged as
      before. */
  lemma KeptStaysLoggedIn(c: Config, es: seq<Event>, userId: string, keep: string, claims: Claims, now: int)
    requires claims.session in Run(c, es).store ==>
               Run(c, es).store[claims.session].userId != userId || claims.session == keep
    ensures var t := Run(c, es + [RevokeOtherSessions(userId, keep)]);
            && t.tokens == Run(c, es).tokens
            && VerifyClaims(c, t.store, claims, now) == VerifyClaims(c, Run(c, es).store, claims, now)
  {
    RunOneMore(c, es, RevokeOtherSessions(userId, keep));
    RevokeOthersRevokes(Run(c, es).store, userId, keep, Run(c, es).now);
    hide Run, RevokeOthers;
  }

  // ---- Which refreshes pass ----

  /** The call read this session from the store. */
  ghost predicate HasRead(c: Config, es: seq<Event>, call: nat, id: string, seen: Session) {
    exists i :: 0 <= i < |es| && es[i] == GetSession(call)
      && id in Run(c, es[..i]).store && Run(c, es[..i]).store[id] == seen
  }

  /** And found it live, and the secret to be its own, at a check after that. */
  ghost predicate HasPassed(c: Config, es: seq<Event>, call: nat, id: string, secret: string) {
    exists j, seen :: 0 <= j < |es| && es[j] == Check(call) && HasRead(c, es[..j], call, id, seen)
      && seen.revokedAt.None? && Run(c, es[..j]).now < seen.expiresAt && seen.hash == Sha256(secret)
  }

  ghost predicate Justified(c: Config, es: seq<Event>, call: nat, p: Call) {
    match p
    case Read(id, _, seen) => HasRead(c, es, call, id, seen)
    case Checked(id, secret, _) => HasPassed(c, es, call, id, secret)
    case Ready(id, secret, _, _, _) => HasPassed(c, es, call, id, secret)
    case Swapped(id, secret, _, _, _) => HasPassed(c, es, call, id, secret)
    case Refreshed(id, secret, _, _) => HasPassed(c, es, call, id, secret)
    case _ => true
  }

  lemma StillRead(c: Config, es: seq<Event>, e: Event, call: nat, id: string, seen: Session)
    requires HasRead(c, es, call, id, seen)
    ensures HasRead(c, es + [e], call, id, seen)
  {
    hide Run;
    var i :| 0 <= i < |es| && es[i] == GetSession(call)
      && id in Run(c, es[..i]).store && Run(c, es[..i]).store[id] == seen;
    assert (es + [e])[i] == es[i] && (es + [e])[..i] == es[..i];
  }

  lemma StillPassed(c: Config, es: seq<Event>, e: Event, call: nat, id: string, secret: string)
    requires HasPassed(c, es, call, id, secret)
    ensures HasPassed(c, es + [e], call, id, secret)
  {
    hide Run, HasRead;
    var j, seen :| 0 <= j < |es| && es[j] == Check(call) && HasRead(c, es[..j], call, id, seen)
      && seen.revokedAt.None? && Run(c, es[..j]).now < seen.expiresAt && seen.hash == Sha256(secret);
    assert (es + [e])[j] == es[j] && (es + [e])[..j] == es[..j];
  }

  lemma StillJustified(c: Config, es: seq<Event>, e: Event, call: nat, p: Call)
    requires Justified(c, es, call, p)
    ensures Justified(c, es + [e], call, p)
  {
    hide Run, HasRead, HasPassed;
    if p.Read? { StillRead(c, es, e, call, p.id, p.seen); }
    if p.Checked? || p.Ready? || p.Swapped? || p.Refreshed? { StillPassed(c, es, e, call, p.id, p.secret); }
  }

  /** How a call comes by a new state. */
  lemma CallMoves(c: Config, s: State, e: Event, call: nat)
    requires call in Step(c, s, e).calls && !(call in s.calls && Step(c, s, e).calls[call] == s.calls[call])
    ensures var p := Step(c, s, e).calls[call];
            && (p.Read? ==> e == GetSession(call) && p.id in s.store && s.store[p.id] == p.seen)
            && (p.Checked? ==>
                  && e == Check(call) && call in s.calls && s.calls[call] == Read(p.id, p.secret, p.seen)
                  && p.seen.revokedAt.None? && s.now < p.seen.expiresAt && p.seen.hash == Sha256(p.secret))
            && (p.Ready? || p.Swapped? || p.Refreshed? ==>
                  && call in s.calls && s.calls[call].id == p.id && s.calls[call].secret == p.secret
                  && (s.calls[call].Checked? || s.calls[call].Ready? || s.calls[call].Swapped?))
  {
    hide IssueClaims, RevokeOthers, Revoke;
  }

  lemma StepJustifies(c: Config, es: seq<Event>, e: Event, call: nat)
    requires call in Run(c, es).calls ==> Justified(c, es, call, Run(c, es).calls[call])
    requires call in Run(c, es + [e]).calls
    ensures Justified(c, es + [e], call, Run(c, es + [e]).calls[call])
  {
    RunOneMore(c, es, e);
    var s, t, more := Run(c, es), Run(c, es + [e]), es + [e];
    hide Run, Step;
    assert more[|es|] == e && more[..|es|] == es;
    if call in s.calls { StillJustified(c, es, e, call, s.calls[call]); }
    if !(call in s.calls && t.calls[call] == s.calls[call]) {
      CallMoves(c, s, e, call);
      var p := t.calls[call];
      if p.Checked? { assert HasRead(c, more[..|es|], call, p.id, p.seen); }
      hide HasRead;
      if p.Ready? || p.Swapped? || p.Refreshed? { assert HasPassed(c, more, call, p.id, p.secret); }
      hide HasPassed;
    }
  }

  /** In every run a refresh that rotated, or is about to, had read its session from the store and found
      it, at a check after that, neither revoked nor expired and its own token the current one. */
  lemma {:induction false} OnlyLiveSessionsRefresh(c: Config, es: seq<Event>, call: nat)
    requires call in Run(c, es).calls
    ensures Justified(c, es, call, Run(c, es).calls[call])
  {
    hide Step, Justified;
    if es != [] {
      var rest, e := es[..|es| - 1], es[|es| - 1];
      assert rest + [e] == es;
      if call in Run(c, rest).calls { OnlyLiveSessionsRefresh(c, rest, call); }
      hide Run;
      StepJustifies(c, rest, e, call);
    }
  }

  /** What each way to fail is reported as. */
  lemma FailureIsTold(c: Config, s: State, call: nat, user: Option<User>, minted: string)
    requires call in s.calls
    ensures var p, told := s.calls[call], Step(c, s, GetSession(call));
            p.Arrived? && p.id !in s.store ==> told == Set(s, call, Failed(p.id, p.secret, InvalidToken))
    ensures var p, told := s.calls[call], Step(c, s, Check(call));
            && (p.Read? && p.seen.revokedAt.Some? ==> told == Set(s, call, Failed(p.id, p.secret, InvalidToken)))
            && (p.Read? && p.seen.revokedAt.None? && p.seen.expiresAt <= s.now ==>
                  told == Set(s, call, Failed(p.id, p.secret, TokenExpired)))
    ensures var p, told := s.calls[call], Step(c, s, Prepare(call, user, minted));
            p.Checked? && user.None? ==> told == Set(s, call, Failed(p.id, p.secret, UserNotFound))
    ensures var p, told := s.calls[call], Step(c, s, Swap(call));
            p.Ready? && p.id in s.store && (s.store[p.id].revokedAt.Some? || s.store[p.id].hash != Sha256(p.secret)) ==>
              told == Set(s, call, Failed(p.id, p.secret, InvalidToken))
  {
    hide IssueClaims, RevokeOthers, Revoke, DoLogin;
  }

  // ---- A refresh that nothing stops ----

  function Refreshing(call: nat, id: string, secret: string, user: User, minted: string): seq<Event> {
    [Arrive(call, id, secret)] + [GetSession(call)] + [Check(call)]
    + [Prepare(call, Some(user), minted)] + [Swap(call)] + [Issue(call)]
  }

  ghost predicate CanRefresh(s: State, call: nat, id: string, secret: string, user: User, minted: string) {
    && call !in s.calls && id != "" && secret != "" && minted !in s.drawn
    && id in s.store && s.store[id].revokedAt.None? && s.now < s.store[id].expiresAt
    && s.store[id].hash == Sha256(secret)
    && user.userId == s.store[id].userId && user.username != ""
  }

  function AfterSwap(c: Config, s: State, call: nat, id: string, secret: string, user: User, minted: string): State
    requires id in s.store
  {
    var session := s.store[id].(hash := Sha256(minted), expiresAt := s.now + c.refreshTtl);
    s.(store := s.store[id := session], drawn := s.drawn + {minted},
       calls := s.calls[call := Swapped(id, secret, user, minted, session)],
       log := s.log + [Rotation(call, id, secret, minted)])
  }

  lemma Checks(c: Config, s: State, call: nat, id: string, secret: string, user: User, minted: string)
    requires CanRefresh(s, call, id, secret, user, minted)
    ensures Step(c, Step(c, Step(c, s, Arrive(call, id, secret)), GetSession(call)), Check(call))
         == Set(s, call, Checked(id, secret, s.store[id]))
  {
    hide DoSwap, IssueClaims, Revoke, DoLogin, RevokeOthers;
    var a := Step(c, s, Arrive(call, id, secret));
    assert a == Set(s, call, Arrived(id, secret));
    var b := Step(c, a, GetSession(call));
    assert b == Set(s, call, Read(id, secret, s.store[id]));
  }

  lemma Swaps(c: Config, s: State, call: nat, id: string, secret: string, user: User, minted: string)
    requires CanRefresh(s, call, id, secret, user, minted)
    ensures var t := Set(s, call, Checked(id, secret, s.store[id]));
            Step(c, Step(c, t, Prepare(call, Some(user), minted)), Swap(call))
            == AfterSwap(c, s, call, id, secret, user, minted)
  {
    hide IssueClaims, Revoke, DoLogin, RevokeOthers;
    var t := Set(s, call, Checked(id, secret, s.store[id]));
    var u := Step(c, t, Prepare(call, Some(user), minted));
    assert u == Set(s, call, Ready(id, secret, user, minted, s.now + c.refreshTtl)).(drawn := s.drawn + {minted});
  }

  /** The token that is current for a live session refreshes it: the session gets the new secret and a
      new life, and the access token handed out is its owner's and verifies from now on. */
  lemma CurrentTokenRefreshes(c: Config, es: seq<Event>, call: nat, id: string, secret: string, user: User,
                              minted: string)
    requires c.refreshTtl > 0 && CanRefresh(Run(c, es), call, id, secret, user, minted)
    ensures var s, t := Run(c, es), Run(c, es + Refreshing(call, id, secret, user, minted));
            var session := s.store[id].(hash := Sha256(minted), expiresAt := s.now + c.refreshTtl);
            && t.store == s.store[id := session] && t.now == s.now
            && t.log == s.log + [Rotation(call, id, secret, minted)]
            && |t.tokens| == |s.tokens| + 1 && t.tokens[..|s.tokens|] == s.tokens
            && var token := t.tokens[|s.tokens|];
            && call in t.calls && t.calls[call] == Refreshed(id, secret, minted, token.claims)
            && token.claims.session == id && token.claims.subject == user.userId
            && token.claims.username == user.username && token.from == session && token.at == s.now
  {
    var s := Run(c, es);
    var e1, e2, e3 := Arrive(call, id, secret), GetSession(call), Check(call);
    var e4, e5, e6 := Prepare(call, Some(user), minted), Swap(call), Issue(call);
    hide Run, Step, CanRefresh;
    RunOneMore(c, es, e1);
    RunOneMore(c, es + [e1], e2);
    RunOneMore(c, es + [e1] + [e2], e3);
    var es3 := es + [e1] + [e2] + [e3];
    RunOneMore(c, es3, e4);
    RunOneMore(c, es3 + [e4], e5);
    RunOneMore(c, es3 + [e4] + [e5], e6);
    assert es + Refreshing(call, id, secret, user, minted) == es3 + [e4] + [e5] + [e6];
    Checks(c, s, call, id, secret, user, minted);
    Swaps(c, s, call, id, secret, user, minted);
    Issues(c, s, call, id, secret, user, minted);
  }

  lemma Issues(c: Config, s: State, call: nat, id: string, secret: string, user: User, minted: string)
    requires CanRefresh(s, call, id, secret, user, minted)
    ensures id in s.store
    ensures var session := s.store[id].(hash := Sha256(minted), expiresAt := s.now + c.refreshTtl);
            var claims := IssueClaims(c, user, id, session, s.now);
            var u := AfterSwap(c, s, call, id, secret, user, minted);
            var token := Token(claims, session, session.expiresAt, s.now);
            var t := Set(u, call, Refreshed(id, secret, minted, claims)).(tokens := s.tokens + [token]);
            && Step(c, u, Issue(call)) == t
            && claims.session == id && claims.subject == user.userId && claims.username == user.username
  {
    hide Revoke, DoLogin, RevokeOthers, DoSwap;
  }

  /** And so does the token of a login, at once. */
  lemma LoginIsCurrent(c: Config, es: seq<Event>, sid: string, owner: User, minted: string)
    requires c.refreshTtl > 0 && sid != "" && sid !in Run(c, es).store && minted !in Run(c, es).drawn
    requires owner.userId != "" && owner.username != ""
    ensures var s, t := Run(c, es), Run(c, es + [Login(sid, owner, minted)]);
            && t.store == s.store[sid := Session(owner.userId, owner.username, Sha256(minted), s.now,
                                                 s.now + c.refreshTtl, None)]
            && t.now == s.now && t.calls == s.calls && minted in t.drawn
            && |t.tokens| == |s.tokens| + 1 && t.tokens[..|s.tokens|] == s.tokens
            && var token := t.tokens[|s.tokens|];
            && token.claims.session == sid && token.claims.subject == owner.userId
            && token.claims.username == owner.username && token.from == t.store[sid] && token.at == s.now
  {
    RunKeepsInv(c, es);
    RunOneMore(c, es, Login(sid, owner, minted));
    hide Run, FreshInv, LogInv, SeenInv, ExpiryInv, TokenInv;
  }
}
