/** The in-memory session store, the refresh-token format and the checks on access tokens.
    Times count nanoseconds; ids and secrets are already trimmed. */
module Sessions {
  import opened Common

  datatype AuthError = InvalidCredentials | InvalidToken | TokenExpired | RefreshReuse | UserNotFound

  /** The hash of a refresh secret, taken to be injective. */
  datatype Hash = Sha256(secret: string)

  datatype Session = Session(
    userId: string, username: string, hash: Hash, createdAt: int, expiresAt: int, revokedAt: Option<int>)

  type Store = map<string, Session>

  /** A session as it is handed to the store; what is absent has its zero value. */
  datatype Draft = Draft(
    userId: string, username: string, hash: Option<Hash>,
    createdAt: Option<int>, expiresAt: Option<int>, revokedAt: Option<int>)

  datatype User = User(userId: string, username: string)

  datatype Claims = Claims(
    subject: string, session: string, issuer: string, issued: int, expires: int, username: string)

  datatype Config = Config(issuer: string, tokenTtl: int, refreshTtl: int)

  // ---- What each store call does ----

  predicate Complete(id: string, draft: Draft) {
    id != "" && draft.userId != "" && draft.hash.Some? && draft.expiresAt.Some?
  }

  /** An id that is there is written over. */
  function Create(store: Store, id: string, draft: Draft, now: int): Result<(Store, Session), AuthError> {
    if !Complete(id, draft) then Err(InvalidCredentials)
    else
      var created := if draft.createdAt.Some? then draft.createdAt.value else now;
      var session := Session(draft.userId, draft.username, draft.hash.value, created, draft.expiresAt.value,
                             draft.revokedAt);
      Ok((store[id := session], session))
  }

  function Get(store: Store, id: string): Result<Session, AuthError> {
    if id in store then Ok(store[id]) else Err(InvalidToken)
  }

  function RevokeAt(session: Session, now: int): Session {
    if session.revokedAt.None? then session.(revokedAt := Some(now)) else session
  }

  function Revoke(store: Store, userId: string, id: string, now: int): Result<Store, AuthError> {
    if id !in store || store[id].userId != userId then Err(InvalidToken)
    else Ok(store[id := RevokeAt(store[id], now)])
  }

  function RevokeOthers(store: Store, userId: string, keep: string, now: int): Store {
    map id | id in store :: if store[id].userId == userId && id != keep then RevokeAt(store[id], now) else store[id]
  }

  /** The compare-and-swap of a refresh. */
  function Rotate(store: Store, id: string, oldHash: Hash, newHash: Hash, expiresAt: int): Result<Store, AuthError> {
    if id !in store || store[id].revokedAt.Some? || store[id].hash != oldHash then Err(InvalidToken)
    else Ok(store[id := store[id].(hash := newHash, expiresAt := expiresAt)])
  }

  class MemorySessionStore {
    var sessions: Store

    constructor ()
      ensures sessions == map[]
    {
      sessions := map[];
    }

    method CreateSession(id: string, draft: Draft, now: int) returns (r: Result<Session, AuthError>)
      modifies this
      ensures match Create(old(sessions), id, draft, now)
              case Ok((store, session)) => sessions == store && r == Ok(session)
              case Err(e) => sessions == old(sessions) && r == Err(e)
    {
      if id == "" || draft.userId == "" || draft.hash.None? || draft.expiresAt.None? { return Err(InvalidCredentials); }
      var created := now;
      if draft.createdAt.Some? { created := draft.createdAt.value; }
      var session := Session(draft.userId, draft.username, draft.hash.value, created, draft.expiresAt.value,
                             draft.revokedAt);
      sessions := sessions[id := session];
      return Ok(session);
    }

    method GetSession(id: string) returns (r: Result<Session, AuthError>)
      ensures r == Get(sessions, id)
    {
      if id !in sessions { return Err(InvalidToken); }
      return Ok(sessions[id]);
    }

    method RevokeSession(userId: string, id: string, now: int) returns (r: Result<(), AuthError>)
      modifies this
      ensures match Revoke(old(sessions), userId, id, now)
              case Ok(store) => sessions == store && r == Ok(())
              case Err(e) => sessions == old(sessions) && r == Err(e)
    {
      if id !in sessions || sessions[id].userId != userId { return Err(InvalidToken); }
      var session := sessions[id];
      if session.revokedAt.None? {
        session := session.(revokedAt := Some(now));
      }
      sessions := sessions[id := session];
      return Ok(());
    }

    method RevokeOtherSessions(userId: string, keep: string, now: int)
      modifies this
      ensures sessions == RevokeOthers(old(sessions), userId, keep, now)
    {
      var todo := sessions.Keys;
      while todo != {}
        invariant todo <= sessions.Keys == old(sessions).Keys
        invariant forall id | id in sessions ::
                    sessions[id] == if id in todo then old(sessions)[id]
                                    else RevokeOthers(old(sessions), userId, keep, now)[id]
        decreases todo
      {
        var id :| id in todo;
        var session := sessions[id];
        if session.userId == userId && id != keep && session.revokedAt.None? {
          sessions := sessions[id := session.(revokedAt := Some(now))];
        }
        todo := todo - {id};
      }
    }

    method RotateRefreshToken(id: string, oldHash: Hash, newHash: Hash, expiresAt: int)
        returns (r: Result<Session, AuthError>)
      modifies this
      ensures match Rotate(old(sessions), id, oldHash, newHash, expiresAt)
              case Ok(store) => sessions == store && id in store && r == Ok(store[id])
              case Err(e) => sessions == old(sessions) && r == Err(e)
    {
      if id !in sessions || sessions[id].revokedAt.Some? || sessions[id].hash != oldHash {
        return Err(InvalidToken);
      }
      var session := sessions[id].(hash := newHash, expiresAt := expiresAt);
      sessions := sessions[id := session];
      return Ok(session);
    }
  }

  // ---- Access tokens ----

  /** Whole seconds since the epoch. */
  function Unix(t: int): int {
    t / 1_000_000_000
  }

  function IssueClaims(config: Config, user: User, id: string, session: Session, now: int): Claims {
    var wanted := now + config.tokenTtl;
    var expires := if session.expiresAt < wanted then session.expiresAt else wanted;
    Claims(user.userId, id, config.issuer, Unix(now), Unix(expires), user.username)
  }

  /** The checks of `VerifyToken` once the signature has been accepted. */
  function VerifyClaims(config: Config, store: Store, claims: Claims, now: int): Result<(), AuthError> {
    if claims.issuer != config.issuer || claims.subject == "" then Err(InvalidToken)
    else if Unix(now) >= claims.expires then Err(TokenExpired)
    else if claims.issued > Unix(now) + 30 then Err(InvalidToken)
    else if claims.username == "" then Ok(())
    else if claims.session == "" then Err(InvalidToken)
    else match Get(store, claims.session)
      case Err(_) => Err(InvalidToken)
      case Ok(session) =>
        if session.userId != claims.subject || session.revokedAt.Some? || session.expiresAt <= now
        then Err(InvalidToken) else Ok(())
  }

  // ---- The refresh token's text ----

  function FormatRefreshToken(id: string, secret: string): string {
    id + "." + secret
  }

  /** Cut at the first dot; the flag says that both halves are there. */
  function ParseRefreshToken(value: string): (string, string, bool) {
    var (id, secret, found) := Cut(value);
    (id, secret, found && id != "" && secret != "")
  }

  function Cut(value: string): (string, string, bool) {
    if value == "" then ("", "", false)
    else if value[0] == '.' then ("", value[1..], true)
    else
      var (head, tail, found) := Cut(value[1..]);
      ([value[0]] + head, tail, found)
  }

  lemma {:induction false} CutAtFirstDot(id: string, secret: string)
    ensures '.' !in id ==> Cut(id + "." + secret) == (id, secret, true)
    ensures '.' !in Cut(id + "." + secret).0
  {
    var value := id + "." + secret;
    if id != "" {
      CutAtFirstDot(id[1..], secret);
      assert value[1..] == id[1..] + "." + secret;
      assert [id[0]] + id[1..] == id;
    }
  }

  /** A token survives its trip exactly when the id has no dot and neither half is empty. */
  lemma RefreshTokenRoundTrip(id: string, secret: string)
    ensures ParseRefreshToken(FormatRefreshToken(id, secret)) == (id, secret, true)
       <==> '.' !in id && id != "" && secret != ""
  {
    CutAtFirstDot(id, secret);
  }

  datatype AuthResult = AuthResult(claims: Claims, refreshToken: string)

  class Service {
    const config: Config
    const sessions: MemorySessionStore

    constructor (config: Config, sessions: MemorySessionStore)
      ensures this.config == config && this.sessions == sessions
    {
      this.config, this.sessions := config, sessions;
    }

    /** A refresh that nothing interleaves with. `user` is what the user store answers,
        `nextSecret` the fresh secret, and the clock is read at `t1`, `t2` (also for a
        revocation) and `t3`. It succeeds exactly for the current token of a live session. */
    method Refresh(token: string, user: Option<User>, nextSecret: string, t1: int, t2: int, t3: int)
        returns (r: Result<AuthResult, AuthError>)
      modifies sessions
      ensures var (id, secret, ok) := ParseRefreshToken(token);
              var store := old(sessions.sessions);
              var live := ok && id in store && store[id].revokedAt.None? && store[id].expiresAt > t1;
              && (r.Ok? <==> live && store[id].hash == Sha256(secret) && user.Some?)
              && (r == Err(RefreshReuse) <==> live && store[id].hash != Sha256(secret))
              && (r == Err(UserNotFound) <==> live && store[id].hash == Sha256(secret) && user.None?)
              && (r == Err(TokenExpired) <==>
                    ok && id in store && store[id].revokedAt.None? && store[id].expiresAt <= t1)
              && (r == Err(InvalidToken) <==> !ok || id !in store || store[id].revokedAt.Some?)
              && (r.Ok? ==>
                    var next := store[id].(hash := Sha256(nextSecret), expiresAt := t2 + config.refreshTtl);
                    && sessions.sessions == store[id := next]
                    && r.value == AuthResult(IssueClaims(config, user.value, id, next, t3),
                                             FormatRefreshToken(id, nextSecret)))
              && (r == Err(RefreshReuse) ==> sessions.sessions == store[id := store[id].(revokedAt := Some(t2))])
              && (r.Err? && r.error != RefreshReuse ==> sessions.sessions == store)
    {
      var (id, secret, ok) := ParseRefreshToken(token);
      if !ok { return Err(InvalidToken); }
      var got := sessions.GetSession(id);
      if got.Err? || got.value.revokedAt.Some? { return Err(InvalidToken); }
      var session := got.value;
      if session.expiresAt <= t1 { return Err(TokenExpired); }
      var oldHash := Sha256(secret);
      if oldHash != session.hash {
        var _ := sessions.RevokeSession(session.userId, id, t2);
        return Err(RefreshReuse);
      }
      if user.None? { return Err(UserNotFound); }
      var rotated := sessions.RotateRefreshToken(id, oldHash, Sha256(nextSecret), t2 + config.refreshTtl);
      if rotated.Err? { return Err(InvalidToken); }
      return Ok(AuthResult(IssueClaims(config, user.value, id, rotated.value, t3), FormatRefreshToken(id, nextSecret)));
    }
  }
}
