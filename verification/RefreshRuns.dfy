/** Every interleaving of refresh calls, logins and revocations on one session store. Each call
    stands at a point of its own between two accesses to the store. */
module RefreshRuns {
  import opened Common
  import opened Sessions

  datatype Call =
    | Arrived(id: string, secret: string)
    | Read(id: string, secret: string, seen: Session)
    | Mismatched(id: string, secret: string, userId: string)
    | Checked(id: string, secret: string, seen: Session)
    | Ready(id: string, secret: string, user: User, next: string, expiresAt: int)
    | Swapped(id: string, secret: string, user: User, next: string, session: Session)
    | Refreshed(id: string, secret: string, next: string, claims: Claims)
    | Failed(id: string, secret: string, error: AuthError)

  /** One successful compare-and-swap. */
  datatype Rotation = Rotation(call: nat, id: string, consumed: string, issued: string)

  /** An access token, the session record it was made from, the session's expiry at that moment, and
      the moment. */
  datatype Token = Token(claims: Claims, from: Session, granted: int, at: int)

  datatype State = State(
    now: int,
    store: Store,
    calls: map<nat, Call>,
    drawn: set<string>,          // every secret the generator has produced
    first: map<string, string>,  // the secret a session was created with
    log: seq<Rotation>,
    tokens: seq<Token>)          // every access token handed out

  datatype Event =
    | Tick(elapsed: nat)
    | Login(sid: string, owner: User, minted: string)
    | Arrive(call: nat, sid: string, presented: string)
    | GetSession(call: nat)
    | Check(call: nat)
    | RevokeReused(call: nat)
    | Prepare(call: nat, user: Option<User>, minted: string)
    | Swap(call: nat)
    | Issue(call: nat)
    | RevokeSession(userId: string, sid: string)
    | RevokeOtherSessions(userId: string, keep: string)

  function Init(): State {
    State(0, map[], map[], {}, map[], [], [])
  }

  function Set(s: State, call: nat, c: Call): State {
    s.(calls := s.calls[call := c])
  }

  function DoLogin(c: Config, s: State, sid: string, owner: User, minted: string): State {
    var session := Session(owner.userId, owner.username, Sha256(minted), s.now, s.now + c.refreshTtl, None);
    s.(store := s.store[sid := session], drawn := s.drawn + {minted}, first := s.first[sid := minted],
       tokens := s.tokens + [Token(IssueClaims(c, owner, sid, session, s.now), session, session.expiresAt, s.now)])
  }

  /** A login stores what the session store makes of a complete draft. */
  lemma LoginCreates(c: Config, s: State, sid: string, owner: User, minted: string)
    requires sid != "" && owner.userId != ""
    ensures var draft := Draft(owner.userId, owner.username, Some(Sha256(minted)), Some(s.now),
                              Some(s.now + c.refreshTtl), None);
            var made := Create(s.store, sid, draft, s.now);
            made.Ok? && DoLogin(c, s, sid, owner, minted).store == made.value.0
  {
  }

  function AfterCheck(p: Call, now: int): Call
    requires p.Read?
  {
    if p.seen.revokedAt.Some? then Failed(p.id, p.secret, InvalidToken)
    else if p.seen.expiresAt <= now then Failed(p.id, p.secret, TokenExpired)
    else if p.seen.hash != Sha256(p.secret) then Mismatched(p.id, p.secret, p.seen.userId)
    else Checked(p.id, p.secret, p.seen)
  }

  function DoSwap(s: State, call: nat, p: Call): State
    requires p.Ready?
  {
    match Rotate(s.store, p.id, Sha256(p.secret), Sha256(p.next), p.expiresAt)
    case Err(e) => Set(s, call, Failed(p.id, p.secret, e))
    case Ok(store) =>
      if p.id !in store then s else
      s.(store := store, log := s.log + [Rotation(call, p.id, p.secret, p.next)],
         calls := s.calls[call := Swapped(p.id, p.secret, p.user, p.next, store[p.id])])
  }

  /** One step of one call, between two accesses to the store. */
  function CallStep(c: Config, s: State, e: Event): State {
    match e
    case Arrive(call, sid, presented) =>
      if call in s.calls || sid == "" || presented == "" then s else Set(s, call, Arrived(sid, presented))
    case GetSession(call) =>
      if call !in s.calls || !s.calls[call].Arrived? then s
      else
        var p := s.calls[call];
        if p.id in s.store then Set(s, call, Read(p.id, p.secret, s.store[p.id]))
        else Set(s, call, Failed(p.id, p.secret, InvalidToken))
    case Check(call) =>
      if call !in s.calls || !s.calls[call].Read? then s else Set(s, call, AfterCheck(s.calls[call], s.now))
    case RevokeReused(call) =>
      if call !in s.calls || !s.calls[call].Mismatched? then s
      else
        var p := s.calls[call];
        var t := Set(s, call, Failed(p.id, p.secret, RefreshReuse));
        (match Revoke(s.store, p.userId, p.id, s.now)
         case Ok(store) => t.(store := store)
         case Err(_) => t)
    case Prepare(call, user, minted) =>
      if call !in s.calls || !s.calls[call].Checked? then s
      else
        var p := s.calls[call];
        if user.None? || user.value.userId != p.seen.userId || user.value.username == ""
        then Set(s, call, Failed(p.id, p.secret, UserNotFound))
        else if minted in s.drawn then s
        else
          Set(s, call, Ready(p.id, p.secret, user.value, minted, s.now + c.refreshTtl)).(drawn := s.drawn + {minted})
    case Swap(call) =>
      if call !in s.calls || !s.calls[call].Ready? then s else DoSwap(s, call, s.calls[call])
    case Issue(call) =>
      if call !in s.calls || !s.calls[call].Swapped? then s
      else
        var p := s.calls[call];
        var claims := IssueClaims(c, p.user, p.id, p.session, s.now);
        if p.id !in s.store then s else
        Set(s, call, Refreshed(p.id, p.secret, p.next, claims))
          .(tokens := s.tokens + [Token(claims, p.session, s.store[p.id].expiresAt, s.now)])
    case _ => s
  }

  function Step(c: Config, s: State, e: Event): State {
    match e
    case Tick(elapsed) => s.(now := s.now + elapsed)
    case Login(sid, owner, minted) =>
      if || sid == "" || sid in s.store || sid in s.first || minted in s.drawn
         || owner.userId == "" || owner.username == ""
      then s else DoLogin(c, s, sid, owner, minted)
    case RevokeSession(userId, sid) =>
      (match Revoke(s.store, userId, sid, s.now)
       case Ok(store) => s.(store := store)
       case Err(_) => s)
    case RevokeOtherSessions(userId, keep) => s.(store := RevokeOthers(s.store, userId, keep, s.now))
    case _ => CallStep(c, s, e)
  }

  function Run(c: Config, es: seq<Event>): State {
    if es == [] then Init() else Step(c, Run(c, es[..|es| - 1]), es[|es| - 1])
  }

  lemma RunOneMore(c: Config, es: seq<Event>, e: Event)
    ensures Run(c, es + [e]) == Step(c, Run(c, es), e)
  {
    hide Step;
    assert (es + [e])[..|es|] == es;
  }

  // ---- The chain of secrets of a session ----

  /** The secret of a session after the logged rotations. */
  function Current(first: map<string, string>, log: seq<Rotation>, id: string): string
    requires id in first
  {
    if log == [] then first[id]
    else if log[|log| - 1].id == id then log[|log| - 1].issued
    else Current(first, log[..|log| - 1], id)
  }

  /** Every rotation consumed exactly the secret its predecessor issued. */
  ghost predicate Chained(first: map<string, string>, log: seq<Rotation>) {
    forall k | 0 <= k < |log| ::
      log[k].id in first && log[k].consumed == Current(first, log[..k], log[k].id)
  }

  /** A secret that was once installed in the session and has been rotated away. */
  ghost predicate Superseded(log: seq<Rotation>, id: string, secret: string) {
    exists k :: 0 <= k < |log| && log[k].id == id && log[k].consumed == secret
  }

  ghost predicate ConsumedOnce(log: seq<Rotation>) {
    forall i, j | 0 <= i < j < |log| && log[i].id == log[j].id :: log[i].consumed != log[j].consumed
  }

  ghost predicate Installed(first: map<string, string>, log: seq<Rotation>, secret: string) {
    || (exists id :: id in first && first[id] == secret)
    || (exists k :: 0 <= k < |log| && log[k].issued == secret)
  }

  ghost predicate ChainInv(s: State) {
    && s.store.Keys == s.first.Keys
    && (forall id | id in s.store :: s.store[id].hash == Sha256(Current(s.first, s.log, id)))
    && Chained(s.first, s.log)
    && (forall id, secret | id in s.store && Superseded(s.log, id, secret) ::
          secret != Current(s.first, s.log, id) && secret in s.drawn)
    && ConsumedOnce(s.log)
  }

  /** Secrets come from the generator, and one that waits to be installed is not yet in use. */
  ghost predicate FreshInv(s: State) {
    && (forall secret | Installed(s.first, s.log, secret) :: secret in s.drawn)
    && (forall c | c in s.calls && s.calls[c].Ready? ::
          s.calls[c].next in s.drawn && !Installed(s.first, s.log, s.calls[c].next))
    && (forall c, d | c in s.calls && d in s.calls && c != d && s.calls[c].Ready? && s.calls[d].Ready? ::
          s.calls[c].next != s.calls[d].next)
  }

  /** A call has rotated the session it was sent for exactly when it says so. */
  ghost predicate LogInv(s: State) {
    && (forall k | 0 <= k < |s.log| :: s.log[k].call in s.calls && HasRotated(s.calls[s.log[k].call]))
    && (forall c | c in s.calls && HasRotated(s.calls[c]) ::
          Rotation(c, s.calls[c].id, s.calls[c].secret, s.calls[c].next) in s.log)
    && (forall i, j | 0 <= i < j < |s.log| :: s.log[i].call != s.log[j].call)
  }

  predicate HasRotated(c: Call) {
    c.Swapped? || c.Refreshed?
  }

  /** What a call has seen of its session stays true of it, and the secret of a call that passed
      the check was once installed. */
  ghost predicate SeenInv(s: State) {
    forall c | c in s.calls :: CallInv(s, s.calls[c])
  }

  ghost predicate CallInv(s: State, p: Call) {
    match p
    case Read(id, _, seen) =>
      id in s.store && seen.userId == s.store[id].userId && Installed(s.first, s.log, seen.hash.secret)
    case Mismatched(id, _, userId) => id in s.store && userId == s.store[id].userId
    case Checked(id, secret, seen) =>
      id in s.store && seen.userId == s.store[id].userId && Installed(s.first, s.log, secret)
    case Ready(id, secret, user, _, _) =>
      id in s.store && user.userId == s.store[id].userId && user.username != "" && Installed(s.first, s.log, secret)
    case Swapped(id, _, user, _, session) =>
      id in s.store && user.userId == s.store[id].userId && user.username != ""
      && session.expiresAt <= s.store[id].expiresAt
    case Failed(id, secret, error) => error == RefreshReuse ==> id in s.store && s.store[id].revokedAt.Some?
    case _ => true
  }

  /** Expiry only grows: a call that can still win the swap carries a later expiry. */
  ghost predicate ExpiryInv(c: Config, s: State) {
    && (forall id | id in s.store :: s.store[id].expiresAt <= s.now + c.refreshTtl && s.store[id].userId != "")
    && (forall k | k in s.calls && s.calls[k].Ready? :: WinsLater(c, s, s.calls[k]))
  }

  ghost predicate WinsLater(c: Config, s: State, p: Call)
    requires p.Ready?
  {
    && p.expiresAt <= s.now + c.refreshTtl
    && (p.id in s.store && s.store[p.id].hash == Sha256(p.secret) ==> s.store[p.id].expiresAt <= p.expiresAt)
  }

  ghost predicate TokenInv(c: Config, s: State) {
    forall t | t in s.tokens :: ClaimsInv(c, s, t.claims) && GrantInv(c, s, t)
  }

  ghost predicate ClaimsInv(c: Config, s: State, t: Claims) {
    && t.session in s.store && t.session != "" && t.username != "" && t.issuer == c.issuer
    && t.subject == s.store[t.session].userId && t.issued <= Unix(s.now)
  }

  /** The token runs out when its session would have then, or its own life is over. */
  function EndOf(c: Config, t: Token): int {
    if Unix(t.from.expiresAt) < Unix(t.at + c.tokenTtl) then Unix(t.from.expiresAt) else Unix(t.at + c.tokenTtl)
  }

  ghost predicate GrantInv(c: Config, s: State, t: Token)
    requires t.claims.session in s.store
  {
    && t.claims.issued == Unix(t.at) && t.at <= s.now && t.claims.expires == EndOf(c, t)
    && t.from.expiresAt <= t.granted <= s.store[t.claims.session].expiresAt
  }

  ghost predicate Inv(c: Config, s: State) {
    && ChainInv(s) && FreshInv(s) && LogInv(s) && SeenInv(s)
    && ExpiryInv(c, s) && TokenInv(c, s) && "" !in s.store
  }

  // ---- The chain ----

  lemma {:induction false} CurrentIsInstalled(first: map<string, string>, log: seq<Rotation>, id: string)
    requires id in first
    ensures Installed(first, log, Current(first, log, id))
  {
    if log != [] && log[|log| - 1].id != id {
      var n := |log| - 1;
      CurrentIsInstalled(first, log[..n], id);
      var secret := Current(first, log, id);
      if k :| 0 <= k < n && log[..n][k].issued == secret {
        assert log[k].issued == secret;
      }
    }
  }

  lemma {:induction false} CurrentIgnoresOthers(first: map<string, string>, log: seq<Rotation>, id: string,
                                                sid: string, minted: string)
    requires id in first && id != sid
    ensures Current(first[sid := minted], log, id) == Current(first, log, id)
  {
    if log != [] && log[|log| - 1].id != id {
      CurrentIgnoresOthers(first, log[..|log| - 1], id, sid, minted);
    }
  }

  lemma CurrentAfterRotation(first: map<string, string>, log: seq<Rotation>, r: Rotation, id: string)
    requires id in first
    ensures Current(first, log + [r], id) == if r.id == id then r.issued else Current(first, log, id)
  {
    assert (log + [r])[..|log|] == log;
  }

  lemma SupersededWasInstalled(first: map<string, string>, log: seq<Rotation>, id: string, secret: string)
    requires Chained(first, log) && Superseded(log, id, secret)
    ensures Installed(first, log, secret)
  {
    var k :| 0 <= k < |log| && log[k].id == id && log[k].consumed == secret;
    CurrentIsInstalled(first, log[..k], id);
    if j :| 0 <= j < k && log[..k][j].issued == secret {
      assert log[j].issued == secret;
    }
  }

  lemma LoginKeepsChain(c: Config, s: State, sid: string, owner: User, minted: string)
    requires ChainInv(s) && sid !in s.first && minted !in s.drawn
    ensures ChainInv(DoLogin(c, s, sid, owner, minted))
  {
    var t := DoLogin(c, s, sid, owner, minted);
    forall k | 0 <= k < |s.log|
      ensures t.log[k].id in t.first && t.log[k].consumed == Current(t.first, t.log[..k], t.log[k].id)
    {
      CurrentIgnoresOthers(s.first, s.log[..k], s.log[k].id, sid, minted);
    }
    forall id | id in s.first ensures Current(t.first, t.log, id) == Current(s.first, s.log, id) {
      CurrentIgnoresOthers(s.first, s.log, id, sid, minted);
    }
    NoRotationsYet(s.first, s.log, t.first, sid);
  }

  lemma {:induction false} NoRotationsYet(first: map<string, string>, log: seq<Rotation>, more: map<string, string>,
                                          sid: string)
    requires forall k | 0 <= k < |log| :: log[k].id in first
    requires sid !in first && sid in more
    ensures Current(more, log, sid) == more[sid]
    ensures forall secret :: !Superseded(log, sid, secret)
  {
    if log != [] {
      NoRotationsYet(first, log[..|log| - 1], more, sid);
      assert log[|log| - 1].id != sid;
      assert forall k | 0 <= k < |log| :: log[k].id != sid;
    }
  }

  lemma RotationKeepsChained(first: map<string, string>, log: seq<Rotation>, r: Rotation)
    requires Chained(first, log) && r.id in first && r.consumed == Current(first, log, r.id)
    ensures Chained(first, log + [r])
  {
    forall k | 0 <= k < |log + [r]|
      ensures var l := log + [r]; l[k].id in first && l[k].consumed == Current(first, l[..k], l[k].id)
    {
      assert (log + [r])[..k] == log[..k];
      assert log[..|log|] == log;
    }
  }

  lemma RotationKeepsSuperseded(s: State, r: Rotation, id: string, secret: string)
    requires ChainInv(s) && r.id in s.store && r.consumed == Current(s.first, s.log, r.id)
    requires !Installed(s.first, s.log, r.issued)
    requires id in s.store && Superseded(s.log + [r], id, secret)
    ensures secret != Current(s.first, s.log + [r], id)
    ensures secret == r.consumed || Superseded(s.log, id, secret)
  {
    CurrentAfterRotation(s.first, s.log, r, id);
    CurrentIsInstalled(s.first, s.log, r.id);
    var k :| 0 <= k < |s.log + [r]| && (s.log + [r])[k].id == id && (s.log + [r])[k].consumed == secret;
    if k < |s.log| {
      assert s.log[k] == (s.log + [r])[k] && Superseded(s.log, id, secret);
      SupersededWasInstalled(s.first, s.log, id, secret);
    }
    hide Current, Installed;
  }

  lemma RotationKeepsConsumedOnce(s: State, r: Rotation)
    requires ChainInv(s) && r.id in s.store && r.consumed == Current(s.first, s.log, r.id)
    ensures ConsumedOnce(s.log + [r])
  {
    hide Current, Chained;
    assert forall i | 0 <= i < |s.log| && s.log[i].id == r.id :: Superseded(s.log, r.id, s.log[i].consumed);
  }

  lemma SwapKeepsChain(s: State, call: nat, p: Call)
    requires ChainInv(s) && FreshInv(s) && p.Ready? && call in s.calls && s.calls[call] == p
    ensures ChainInv(DoSwap(s, call, p))
  {
    var t := DoSwap(s, call, p);
    if p.id in s.store && t.log != s.log {
      var r := Rotation(call, p.id, p.secret, p.next);
      assert t.log == s.log + [r];
      RotationKeepsChained(s.first, s.log, r);
      RotationKeepsConsumedOnce(s, r);
      forall id | id in s.first
        ensures Current(s.first, s.log + [r], id) == if r.id == id then r.issued else Current(s.first, s.log, id)
      {
        CurrentAfterRotation(s.first, s.log, r, id);
      }
      CurrentIsInstalled(s.first, s.log, p.id);
      forall id, secret | id in t.store && Superseded(t.log, id, secret)
        ensures secret != Current(t.first, t.log, id) && secret in t.drawn
      {
        RotationKeepsSuperseded(s, r, id, secret);
      }
      hide Current, Chained, Superseded, ConsumedOnce, Installed;
    }
  }

  /** Revocations leave everything but `revokedAt` alone, and `revokedAt` once set. */
  ghost predicate OnlyRevoked(before: Store, after: Store) {
    && after.Keys == before.Keys
    && forall id | id in before ::
         && after[id] == before[id].(revokedAt := after[id].revokedAt)
         && (before[id].revokedAt.Some? ==> after[id].revokedAt == before[id].revokedAt)
  }

  lemma RevokeOnlyRevokes(store: Store, userId: string, id: string, now: int)
    ensures Revoke(store, userId, id, now).Ok? ==> OnlyRevoked(store, Revoke(store, userId, id, now).value)
    ensures OnlyRevoked(store, RevokeOthers(store, userId, id, now))
  {
  }

  /** What a step may do, seen from the store, the log and the secrets. */
  ghost predicate Quiet(s: State, t: State) {
    && t.first == s.first && t.log == s.log && OnlyRevoked(s.store, t.store) && s.drawn <= t.drawn
  }

  lemma StepKinds(c: Config, s: State, e: Event)
    ensures || Quiet(s, Step(c, s, e))
            || (e.Swap? && e.call in s.calls && s.calls[e.call].Ready?
                && Step(c, s, e) == DoSwap(s, e.call, s.calls[e.call]))
            || (e.Login? && e.sid !in s.store && e.sid !in s.first && e.sid != "" && e.minted !in s.drawn
                && e.owner.userId != "" && e.owner.username != ""
                && Step(c, s, e) == DoLogin(c, s, e.sid, e.owner, e.minted))
  {
    match e {
      case RevokeReused(call) =>
        if call in s.calls && s.calls[call].Mismatched? {
          RevokeOnlyRevokes(s.store, s.calls[call].userId, s.calls[call].id, s.now);
        }
      case RevokeSession(userId, sid) => RevokeOnlyRevokes(s.store, userId, sid, s.now);
      case RevokeOtherSessions(userId, keep) => RevokeOnlyRevokes(s.store, userId, keep, s.now);
      case _ =>
    }
  }

  lemma StepKeepsChain(c: Config, s: State, e: Event)
    requires ChainInv(s) && FreshInv(s)
    ensures ChainInv(Step(c, s, e))
  {
    StepKinds(c, s, e);
    hide Step;
    if !Quiet(s, Step(c, s, e)) {
      if e.Swap? { SwapKeepsChain(s, e.call, s.calls[e.call]); }
      else { LoginKeepsChain(c, s, e.sid, e.owner, e.minted); }
    }
  }

  lemma InstalledAfterSwap(first: map<string, string>, log: seq<Rotation>, r: Rotation, secret: string)
    ensures Installed(first, log + [r], secret) <==> Installed(first, log, secret) || secret == r.issued
  {
    if Installed(first, log, secret) && !(exists id :: id in first && first[id] == secret) {
      var k :| 0 <= k < |log| && log[k].issued == secret;
      assert (log + [r])[k].issued == secret;
    }
    assert (log + [r])[|log|] == r;
  }

  lemma InstalledAfterLogin(first: map<string, string>, log: seq<Rotation>, sid: string, minted: string, secret: string)
    requires sid !in first
    ensures Installed(first[sid := minted], log, secret) <==> Installed(first, log, secret) || secret == minted
  {
    var more := first[sid := minted];
    assert more[sid] == minted;
    if id :| id in first && first[id] == secret { assert more[id] == secret; }
  }

  lemma SwapKeepsFresh(s: State, call: nat, p: Call)
    requires FreshInv(s) && p.Ready? && call in s.calls && s.calls[call] == p
    ensures FreshInv(DoSwap(s, call, p))
  {
    var t := DoSwap(s, call, p);
    var r := Rotation(call, p.id, p.secret, p.next);
    forall secret
      ensures t.log != s.log ==>
                (Installed(t.first, t.log, secret) <==> Installed(s.first, s.log, secret) || secret == p.next)
    {
      InstalledAfterSwap(s.first, s.log, r, secret);
    }
    hide Installed;
  }

  lemma LoginKeepsFresh(c: Config, s: State, sid: string, owner: User, minted: string)
    requires FreshInv(s) && sid !in s.first && minted !in s.drawn
    ensures FreshInv(DoLogin(c, s, sid, owner, minted))
  {
    var t := DoLogin(c, s, sid, owner, minted);
    forall secret ensures Installed(t.first, t.log, secret) <==> Installed(s.first, s.log, secret) || secret == minted {
      InstalledAfterLogin(s.first, s.log, sid, minted, secret);
    }
    hide Installed;
  }

  lemma QuietKeepsFresh(c: Config, s: State, e: Event)
    requires FreshInv(s) && Step(c, s, e).first == s.first && Step(c, s, e).log == s.log
    ensures FreshInv(Step(c, s, e))
  {
    hide Installed, Revoke, RevokeOthers, Rotate, IssueClaims;
  }

  lemma StepKeepsFresh(c: Config, s: State, e: Event)
    requires FreshInv(s)
    ensures FreshInv(Step(c, s, e))
  {
    StepKinds(c, s, e);
    hide Step, FreshInv;
    if Quiet(s, Step(c, s, e)) {
      QuietKeepsFresh(c, s, e);
    } else if e.Swap? {
      SwapKeepsFresh(s, e.call, s.calls[e.call]);
    } else {
      LoginKeepsFresh(c, s, e.sid, e.owner, e.minted);
    }
  }

  lemma SwapKeepsLog(s: State, call: nat, p: Call)
    requires LogInv(s) && p.Ready? && call in s.calls && s.calls[call] == p
    ensures LogInv(DoSwap(s, call, p))
  {
    var t := DoSwap(s, call, p);
    if t.log != s.log {
      var r := Rotation(call, p.id, p.secret, p.next);
      assert t.log == s.log + [r] && t.log[|s.log|] == r;
      forall k | k in t.calls && HasRotated(t.calls[k])
        ensures Rotation(k, t.calls[k].id, t.calls[k].secret, t.calls[k].next) in t.log
      {
        if k != call { assert Rotation(k, s.calls[k].id, s.calls[k].secret, s.calls[k].next) in s.log; }
      }
    }
  }

  /** The same calls have rotated, for the same tokens. */
  ghost predicate SameRotated(s: State, t: State) {
    && s.calls.Keys <= t.calls.Keys
    && forall k | k in t.calls ::
         && (HasRotated(t.calls[k]) <==> k in s.calls && HasRotated(s.calls[k]))
         && (HasRotated(t.calls[k]) ==>
               && t.calls[k].id == s.calls[k].id && t.calls[k].secret == s.calls[k].secret
               && t.calls[k].next == s.calls[k].next)
  }

  lemma CallStepRotatesNone(c: Config, s: State, e: Event)
    requires !e.Swap?
    ensures SameRotated(s, CallStep(c, s, e)) && CallStep(c, s, e).log == s.log
  {
    hide Revoke, IssueClaims;
  }

  lemma OnlySwapRotates(c: Config, s: State, e: Event)
    requires !e.Swap?
    ensures SameRotated(s, Step(c, s, e)) && Step(c, s, e).log == s.log
  {
    hide Revoke, RevokeOthers, IssueClaims;
    if e.Tick? || e.Login? || e.RevokeSession? || e.RevokeOtherSessions? {
      hide CallStep;
    } else {
      CallStepRotatesNone(c, s, e);
      hide CallStep, SameRotated;
    }
  }

  lemma SameRotatedKeepsLog(s: State, t: State)
    requires LogInv(s) && SameRotated(s, t) && t.log == s.log
    ensures LogInv(t)
  {
  }

  lemma StepKeepsLog(c: Config, s: State, e: Event)
    requires LogInv(s)
    ensures LogInv(Step(c, s, e))
  {
    if e.Swap? {
      if e.call in s.calls && s.calls[e.call].Ready? {
        SwapKeepsLog(s, e.call, s.calls[e.call]);
      }
    } else {
      OnlySwapRotates(c, s, e);
      SameRotatedKeepsLog(s, Step(c, s, e));
    }
    hide LogInv, DoSwap;
  }

  // ---- What a call has seen stays true ----

  /** Sessions are never dropped and keep their owner; expiry grows; revocation is final. */
  ghost predicate Grows(s: State, t: State) {
    && (forall id | id in s.store ::
          && id in t.store && t.store[id].userId == s.store[id].userId
          && s.store[id].expiresAt <= t.store[id].expiresAt
          && (s.store[id].revokedAt.Some? ==> t.store[id].revokedAt == s.store[id].revokedAt))
    && (forall secret | Installed(s.first, s.log, secret) :: Installed(t.first, t.log, secret))
  }

  lemma StepGrows(c: Config, s: State, e: Event)
    requires ExpiryInv(c, s)
    ensures Grows(s, Step(c, s, e))
  {
    StepKinds(c, s, e);
    var t := Step(c, s, e);
    if !Quiet(s, t) {
      forall secret ensures Installed(s.first, s.log, secret) ==> Installed(t.first, t.log, secret) {
        if e.Swap? {
          var p := s.calls[e.call];
          InstalledAfterSwap(s.first, s.log, Rotation(e.call, p.id, p.secret, p.next), secret);
        } else {
          InstalledAfterLogin(s.first, s.log, e.sid, e.minted, secret);
        }
      }
    }
    hide Step, Installed;
  }

  lemma SeenStays(s: State, t: State, p: Call)
    requires CallInv(s, p) && Grows(s, t)
    ensures CallInv(t, p)
  {
  }

  /** The call that moves sees the store as it is. */
  lemma ReaderSees(c: Config, s: State, e: Event)
    requires ChainInv(s) && e.GetSession? && e.call in s.calls
    requires s.calls[e.call].Arrived?
    ensures CallInv(Step(c, s, e), Step(c, s, e).calls[e.call])
  {
    if s.calls[e.call].id in s.store {
      CurrentIsInstalled(s.first, s.log, s.calls[e.call].id);
    }
    hide Installed, Chained, Superseded;
  }

  lemma MoverSees(c: Config, s: State, e: Event, k: nat)
    requires !e.GetSession? && (k in s.calls ==> CallInv(s, s.calls[k]))
    requires k in Step(c, s, e).calls && !(k in s.calls && Step(c, s, e).calls[k] == s.calls[k])
    requires Grows(s, Step(c, s, e))
    ensures CallInv(Step(c, s, e), Step(c, s, e).calls[k])
  {
    hide Installed, IssueClaims;
  }

  lemma Moved(c: Config, s: State, e: Event, k: nat)
    requires k in Step(c, s, e).calls && !(k in s.calls && Step(c, s, e).calls[k] == s.calls[k])
    ensures e.GetSession? ==> k == e.call && k in s.calls && s.calls[k].Arrived?
    ensures k in s.calls ==> CallInv(s, s.calls[k]) || !SeenInv(s)
  {
    hide CallInv;
  }

  lemma StepKeepsSeen(c: Config, s: State, e: Event)
    requires ChainInv(s) && SeenInv(s) && ExpiryInv(c, s)
    ensures SeenInv(Step(c, s, e))
  {
    StepGrows(c, s, e);
    var t := Step(c, s, e);
    hide Step, ChainInv, ExpiryInv, CallInv, Grows;
    forall k | k in t.calls ensures CallInv(t, t.calls[k]) {
      if k in s.calls && t.calls[k] == s.calls[k] {
        assert CallInv(s, s.calls[k]);
        SeenStays(s, t, s.calls[k]);
      } else {
        Moved(c, s, e, k);
        if e.GetSession? { ReaderSees(c, s, e); } else { MoverSees(c, s, e, k); }
      }
    }
  }

  // ---- Expiry and access tokens ----

  lemma SwapKeepsExpiry(c: Config, s: State, call: nat, p: Call)
    requires ExpiryInv(c, s) && FreshInv(s) && SeenInv(s) && p.Ready? && call in s.calls && s.calls[call] == p
    ensures ExpiryInv(c, DoSwap(s, call, p))
  {
    var t := DoSwap(s, call, p);
    hide Installed;
    forall k | k in t.calls && t.calls[k].Ready? ensures WinsLater(c, t, t.calls[k]) {
      assert CallInv(s, s.calls[k]) && WinsLater(c, s, s.calls[k]);
    }
  }

  lemma LoginKeepsExpiry(c: Config, s: State, sid: string, owner: User, minted: string)
    requires ExpiryInv(c, s) && SeenInv(s) && c.refreshTtl > 0 && owner.userId != "" && sid !in s.store
    ensures ExpiryInv(c, DoLogin(c, s, sid, owner, minted))
  {
    var t := DoLogin(c, s, sid, owner, minted);
    hide Installed;
    forall k | k in t.calls && t.calls[k].Ready? ensures WinsLater(c, t, t.calls[k]) {
      assert CallInv(s, s.calls[k]) && WinsLater(c, s, s.calls[k]);
    }
  }

  /** A call that becomes ready asks for the latest expiry there is. */
  lemma ReadyAsksLatest(c: Config, s: State, e: Event, k: nat)
    requires k in Step(c, s, e).calls && Step(c, s, e).calls[k].Ready?
    requires !(k in s.calls && s.calls[k] == Step(c, s, e).calls[k])
    ensures Step(c, s, e).calls[k].expiresAt == s.now + c.refreshTtl
  {
    hide Rotate, Revoke, RevokeOthers, IssueClaims;
  }

  lemma ClockRuns(c: Config, s: State, e: Event)
    ensures s.now <= Step(c, s, e).now
  {
    hide Revoke, RevokeOthers, IssueClaims;
  }

  lemma QuietKeepsExpiry(c: Config, s: State, e: Event)
    requires ExpiryInv(c, s) && OnlyRevoked(s.store, Step(c, s, e).store)
    ensures ExpiryInv(c, Step(c, s, e))
  {
    var t := Step(c, s, e);
    ClockRuns(c, s, e);
    hide Step;
    forall k | k in t.calls && t.calls[k].Ready? ensures WinsLater(c, t, t.calls[k]) {
      if k in s.calls && t.calls[k] == s.calls[k] {
        assert WinsLater(c, s, s.calls[k]);
      } else {
        ReadyAsksLatest(c, s, e, k);
      }
    }
  }

  lemma StepKeepsExpiry(c: Config, s: State, e: Event)
    requires ExpiryInv(c, s) && FreshInv(s) && SeenInv(s) && c.refreshTtl > 0
    ensures ExpiryInv(c, Step(c, s, e))
  {
    StepKinds(c, s, e);
    hide FreshInv, SeenInv, ExpiryInv;
    if e.Swap? {
      if e.call in s.calls && s.calls[e.call].Ready? { SwapKeepsExpiry(c, s, e.call, s.calls[e.call]); }
    } else if e.Login? {
      if Step(c, s, e) != s { LoginKeepsExpiry(c, s, e.sid, e.owner, e.minted); }
    } else {
      QuietKeepsExpiry(c, s, e);
    }
    hide DoSwap, DoLogin, OnlyRevoked;
  }

  lemma OldTokenStays(c: Config, s: State, t: State, token: Token)
    requires ClaimsInv(c, s, token.claims) && GrantInv(c, s, token) && Grows(s, t) && s.now <= t.now
    ensures ClaimsInv(c, t, token.claims) && GrantInv(c, t, token)
  {
    hide Installed;
  }

  lemma NewTokens(c: Config, s: State, e: Event)
    ensures e.Login? || e.Issue? || Step(c, s, e).tokens == s.tokens
    ensures s.now <= Step(c, s, e).now
  {
  }

  lemma LoginGrants(c: Config, s: State, e: Event, token: Token)
    requires e.Login? && token in Step(c, s, e).tokens && token !in s.tokens
    ensures ClaimsInv(c, Step(c, s, e), token.claims) && GrantInv(c, Step(c, s, e), token)
  {
  }

  lemma IssueGrants(c: Config, s: State, e: Event, token: Token)
    requires SeenInv(s) && "" !in s.store && e.Issue? && token in Step(c, s, e).tokens && token !in s.tokens
    ensures ClaimsInv(c, Step(c, s, e), token.claims) && GrantInv(c, Step(c, s, e), token)
  {
    assert e.call in s.calls && CallInv(s, s.calls[e.call]);
    hide SeenInv, Installed;
  }

  lemma NoEmptyId(c: Config, s: State, e: Event)
    requires "" !in s.store
    ensures "" !in Step(c, s, e).store
  {
    StepKinds(c, s, e);
    hide Step, Installed;
  }

  lemma StepKeepsTokens(c: Config, s: State, e: Event)
    requires TokenInv(c, s) && SeenInv(s) && ExpiryInv(c, s) && "" !in s.store
    ensures TokenInv(c, Step(c, s, e)) && "" !in Step(c, s, e).store
  {
    hide Step, SeenInv, ExpiryInv, Grows, GrantInv;
    StepGrows(c, s, e);
    NewTokens(c, s, e);
    NoEmptyId(c, s, e);
    var t := Step(c, s, e);
    forall token | token in t.tokens ensures ClaimsInv(c, t, token.claims) && GrantInv(c, t, token) {
      if token in s.tokens { OldTokenStays(c, s, t, token); }
      else if e.Login? { LoginGrants(c, s, e, token); }
      else { IssueGrants(c, s, e, token); }
    }
  }

  lemma InitInv(c: Config)
    ensures Inv(c, Init())
  {
  }

  lemma StepKeepsInv(c: Config, s: State, e: Event)
    requires Inv(c, s) && c.refreshTtl > 0
    ensures Inv(c, Step(c, s, e))
  {
    hide Step, ChainInv, FreshInv, LogInv, SeenInv, ExpiryInv, TokenInv;
    StepKeepsChain(c, s, e);
    StepKeepsFresh(c, s, e);
    StepKeepsLog(c, s, e);
    StepKeepsSeen(c, s, e);
    StepKeepsExpiry(c, s, e);
    StepKeepsTokens(c, s, e);
  }

  lemma {:induction false} RunKeepsInv(c: Config, es: seq<Event>)
    requires c.refreshTtl > 0
    ensures Inv(c, Run(c, es))
  {
    hide Step, Inv;
    InitInv(c);
    if es != [] {
      RunKeepsInv(c, es[..|es| - 1]);
      StepKeepsInv(c, Run(c, es[..|es| - 1]), es[|es| - 1]);
    }
  }

  // ---- The promises ----

  /** No token is good for two refreshes, however the calls interleave. */
  lemma TokenRefreshesOnce(c: Config, es: seq<Event>, a: nat, b: nat)
    requires c.refreshTtl > 0
    requires a in Run(c, es).calls && b in Run(c, es).calls
    requires HasRotated(Run(c, es).calls[a]) && HasRotated(Run(c, es).calls[b])
    requires Run(c, es).calls[a].id == Run(c, es).calls[b].id
    requires Run(c, es).calls[a].secret == Run(c, es).calls[b].secret
    ensures a == b
  {
    RunKeepsInv(c, es);
    var s := Run(c, es);
    var ra := Rotation(a, s.calls[a].id, s.calls[a].secret, s.calls[a].next);
    var rb := Rotation(b, s.calls[b].id, s.calls[b].secret, s.calls[b].next);
    assert ra in s.log && rb in s.log;
    var i :| 0 <= i < |s.log| && s.log[i] == ra;
    var j :| 0 <= j < |s.log| && s.log[j] == rb;
    assert i == j;
  }

  ghost predicate Untouched(log: seq<Rotation>, id: string) {
    forall k | 0 <= k < |log| :: log[k].id != id
  }

  ghost predicate Latest(log: seq<Rotation>, id: string, h: nat) {
    h < |log| && log[h].id == id && forall k | h < k < |log| :: log[k].id != id
  }

  /** The rotations of a session form one chain: the first consumes the secret of the login,
      each later one the secret issued just before it. */
  ghost predicate OneChain(first: map<string, string>, log: seq<Rotation>, i: nat, id: string)
    requires i < |log| && id in first
  {
    && (Untouched(log[..i], id) ==> log[i].consumed == first[id])
    && (forall h: nat | Latest(log[..i], id, h) :: log[i].consumed == log[h].issued)
  }

  lemma ChainedIsOneChain(first: map<string, string>, log: seq<Rotation>, i: nat, id: string)
    requires i < |log| && log[i].id == id && Chained(first, log)
    ensures id in first && OneChain(first, log, i, id)
  {
    assert log[i].consumed == Current(first, log[..i], id);
    hide Chained, Current;
    if Untouched(log[..i], id) { CurrentIfUntouched(first, log[..i], id); }
    forall h: nat | Latest(log[..i], id, h) ensures log[i].consumed == log[h].issued {
      CurrentIsLatest(first, log[..i], id, h);
    }
  }

  lemma RotationsFormOneChain(c: Config, es: seq<Event>, i: nat, id: string)
    requires c.refreshTtl > 0
    requires i < |Run(c, es).log| && Run(c, es).log[i].id == id
    ensures var s := Run(c, es);
            && id in s.store && id in s.first && OneChain(s.first, s.log, i, id)
            && (Latest(s.log, id, i) ==> s.store[id].hash == Sha256(s.log[i].issued))
  {
    RunKeepsInv(c, es);
    var s := Run(c, es);
    hide Run, FreshInv, LogInv, SeenInv, ExpiryInv, TokenInv;
    ChainedIsOneChain(s.first, s.log, i, id);
    if Latest(s.log, id, i) { CurrentIsLatest(s.first, s.log, id, i); }
    hide Current, Chained, Superseded, ConsumedOnce, OneChain;
  }

  lemma {:induction false} CurrentIfUntouched(first: map<string, string>, log: seq<Rotation>, id: string)
    requires id in first && Untouched(log, id)
    ensures Current(first, log, id) == first[id]
  {
    if log != [] { CurrentIfUntouched(first, log[..|log| - 1], id); }
  }

  lemma {:induction false} CurrentIsLatest(first: map<string, string>, log: seq<Rotation>, id: string, h: nat)
    requires id in first && Latest(log, id, h)
    ensures Current(first, log, id) == log[h].issued
  {
    if h < |log| - 1 { CurrentIsLatest(first, log[..|log| - 1], id, h); }
  }

  /** Once revoked, a session keeps its revocation and is rotated no more. */
  ghost predicate StaysRevoked(s: State, t: State, id: string) {
    id in s.store && s.store[id].revokedAt.Some? ==>
      && id in t.store && t.store[id].revokedAt == s.store[id].revokedAt
      && s.log <= t.log && (forall k | |s.log| <= k < |t.log| :: t.log[k].id != id)
  }

  lemma StepKeepsRevoked(c: Config, s: State, e: Event, id: string)
    ensures StaysRevoked(s, Step(c, s, e), id)
  {
    StepKinds(c, s, e);
    hide Step;
  }

  lemma StaysRevokedTwice(s: State, t: State, u: State, id: string)
    requires StaysRevoked(s, t, id) && StaysRevoked(t, u, id)
    ensures StaysRevoked(s, u, id)
  {
  }

  lemma {:induction false} RunKeepsRevoked(c: Config, es: seq<Event>, more: seq<Event>, id: string)
    ensures StaysRevoked(Run(c, es), Run(c, es + more), id)
  {
    if more == [] {
      assert es + more == es;
    } else {
      hide Step;
      var n := |more| - 1;
      var s, t, u := Run(c, es), Run(c, es + more[..n]), Run(c, es + more);
      RunKeepsRevoked(c, es, more[..n], id);
      assert (es + more)[..|es| + n] == es + more[..n];
      assert u == Step(c, t, more[n]);
      StepKeepsRevoked(c, t, more[n], id);
      StaysRevokedTwice(s, t, u, id);
      hide Run, StaysRevoked;
    }
  }

  /** A token is accepted exactly until its own life is over, or that of its session as it was when the
      token was made, and while the session is not revoked; a later expiry of the session neither
      prolongs it nor cuts it short. */
  lemma TokenVerifiesExactly(c: Config, es: seq<Event>, k: nat, now: int)
    requires c.refreshTtl > 0
    requires k < |Run(c, es).tokens| && Run(c, es).now <= now
    ensures var s := Run(c, es);
            var t := s.tokens[k];
            && t.claims.session in s.store
            && t.claims.issued == Unix(t.at) && t.at <= s.now
            && t.from.expiresAt <= t.granted <= s.store[t.claims.session].expiresAt
            && (VerifyClaims(c, s.store, t.claims, now).Ok?
                <==> && s.store[t.claims.session].revokedAt.None?
                     && Unix(now) < Unix(t.at + c.tokenTtl) && Unix(now) < Unix(t.from.expiresAt))
  {
    RunKeepsInv(c, es);
    var s := Run(c, es);
    var t := s.tokens[k];
    assert t in s.tokens;
    hide Run, ChainInv, FreshInv, LogInv, SeenInv;
    assert Unix(s.now) <= Unix(now);
    assert Unix(now) < Unix(t.from.expiresAt) ==> now < s.store[t.claims.session].expiresAt;
  }

  /** Revocation is final: from then on, in any further run, the session keeps its revocation,
      no refresh rotates it, and none of its access tokens verifies, not even one that a refresh
      in flight hands out later. */
  lemma RevocationIsFinal(c: Config, es: seq<Event>, more: seq<Event>, id: string, k: nat, now: int)
    requires c.refreshTtl > 0
    requires id in Run(c, es).store && Run(c, es).store[id].revokedAt.Some?
    ensures StaysRevoked(Run(c, es), Run(c, es + more), id)
    ensures k < |Run(c, es + more).tokens| && Run(c, es + more).tokens[k].claims.session == id ==>
              VerifyClaims(c, Run(c, es + more).store, Run(c, es + more).tokens[k].claims, now).Err?
  {
    hide Run, ChainInv, FreshInv, LogInv, SeenInv, ExpiryInv;
    RunKeepsRevoked(c, es, more, id);
    RunKeepsInv(c, es + more);
    var t := Run(c, es + more);
    if k < |t.tokens| && t.tokens[k].claims.session == id {
      assert t.tokens[k] in t.tokens;
    }
  }

  /** A refresh that read the session after its token was superseded can only fail, and it says
      that the token was reused only once the session is revoked. */
  ghost predicate Caught(s: State, call: nat, id: string, secret: string) {
    && call in s.calls && s.calls[call].id == id && s.calls[call].secret == secret
    && match s.calls[call]
       case Arrived(_, _) => Superseded(s.log, id, secret)
       case Read(_, _, seen) => seen.hash != Sha256(secret)
       case Mismatched(_, _, _) => true
       case Failed(_, _, error) =>
         error == InvalidToken || error == TokenExpired
         || (error == RefreshReuse && id in s.store && s.store[id].revokedAt.Some?)
       case _ => false
  }

  lemma SupersededIsNotCurrent(s: State, id: string, secret: string)
    requires ChainInv(s) && Superseded(s.log, id, secret)
    ensures id in s.store ==> s.store[id].hash != Sha256(secret)
  {
  }

  lemma {:induction false} StepKeepsSuperseded(c: Config, s: State, e: Event, id: string, secret: string)
    requires Superseded(s.log, id, secret)
    ensures Superseded(Step(c, s, e).log, id, secret)
  {
    StepKinds(c, s, e);
    hide Step;
    var k :| 0 <= k < |s.log| && s.log[k].id == id && s.log[k].consumed == secret;
    assert Step(c, s, e).log[k] == s.log[k];
  }

  /** A call moves only by its own events. */
  lemma OthersLeaveCall(c: Config, s: State, e: Event, call: nat)
    requires call in s.calls
    ensures call in Step(c, s, e).calls
    ensures s.calls[call].Arrived? && e != GetSession(call) ==> Step(c, s, e).calls[call] == s.calls[call]
    ensures s.calls[call].Read? && e != Check(call) ==> Step(c, s, e).calls[call] == s.calls[call]
    ensures s.calls[call].Mismatched? && e != RevokeReused(call) ==> Step(c, s, e).calls[call] == s.calls[call]
    ensures s.calls[call].Failed? ==> Step(c, s, e).calls[call] == s.calls[call]
  {
    hide Revoke, RevokeOthers, IssueClaims, Rotate;
  }

  /** A live session read with a superseded token is revoked by the call's own next two steps,
      whatever the store holds by then. */
  lemma MismatchRevokes(c: Config, s: State, call: nat)
    requires SeenInv(s) && call in s.calls && s.calls[call].Mismatched?
    ensures var t := Step(c, s, RevokeReused(call));
            var id := s.calls[call].id;
            && id in t.store && t.store[id].revokedAt.Some?
            && t.calls[call] == Failed(id, s.calls[call].secret, RefreshReuse)
  {
    assert CallInv(s, s.calls[call]);
    hide Installed, SeenInv;
  }

  lemma ReadingIsCaught(c: Config, s: State, call: nat, id: string, secret: string)
    requires ChainInv(s) && call in s.calls && s.calls[call] == Arrived(id, secret) && Superseded(s.log, id, secret)
    ensures Caught(Step(c, s, GetSession(call)), call, id, secret)
  {
    SupersededIsNotCurrent(s, id, secret);
    hide ChainInv, Superseded;
  }

  lemma CheckingIsCaught(c: Config, s: State, call: nat, id: string, secret: string)
    requires Caught(s, call, id, secret) && s.calls[call].Read?
    ensures Caught(Step(c, s, Check(call)), call, id, secret)
  {
    hide Superseded;
  }

  lemma StepKeepsCaught(c: Config, s: State, e: Event, call: nat, id: string, secret: string)
    requires ChainInv(s) && SeenInv(s) && Grows(s, Step(c, s, e)) && Caught(s, call, id, secret)
    ensures Caught(Step(c, s, e), call, id, secret)
  {
    hide ChainInv, SeenInv, Installed, Superseded;
    if s.calls[call].Arrived? && e == GetSession(call) {
      ReadingIsCaught(c, s, call, id, secret);
    } else if s.calls[call].Read? && e == Check(call) {
      CheckingIsCaught(c, s, call, id, secret);
    } else if s.calls[call].Mismatched? && e == RevokeReused(call) {
      MismatchRevokes(c, s, call);
    } else {
      OthersLeaveCall(c, s, e, call);
      if s.calls[call].Arrived? { StepKeepsSuperseded(c, s, e, id, secret); }
    }
    hide Step;
  }

  lemma {:induction false} SupersededTokenIsCaught(
      c: Config, es: seq<Event>, more: seq<Event>, call: nat, id: string, secret: string)
    requires c.refreshTtl > 0
    requires call in Run(c, es).calls && Run(c, es).calls[call] == Arrived(id, secret)
    requires Superseded(Run(c, es).log, id, secret)
    ensures Caught(Run(c, es + more), call, id, secret)
  {
    hide Run, Step, ChainInv, FreshInv, LogInv, SeenInv, ExpiryInv, TokenInv, Caught;
    if more == [] {
      assert es + more == es;
      ArrivingIsCaught(Run(c, es), call, id, secret);
    } else {
      var rest, e := more[..|more| - 1], more[|more| - 1];
      SupersededTokenIsCaught(c, es, rest, call, id, secret);
      RunKeepsInv(c, es + rest);
      assert es + more == es + rest + [e];
      RunOneMore(c, es + rest, e);
      StepGrows(c, Run(c, es + rest), e);
      StepKeepsCaught(c, Run(c, es + rest), e, call, id, secret);
    }
  }

  lemma ArrivingIsCaught(s: State, call: nat, id: string, secret: string)
    requires call in s.calls && s.calls[call] == Arrived(id, secret) && Superseded(s.log, id, secret)
    ensures Caught(s, call, id, secret)
  {
    hide Superseded;
  }
}
