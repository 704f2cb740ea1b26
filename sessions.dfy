/** The session table of the backend (`sessions` in handlers/handlers.go): a
    map from session token to the uploaded kubeconfig, the user name taken
    from it and an expiry time. Every API handler admits a request only when
    its cookie names a session that has not expired; uploading a kubeconfig
    replaces the caller's session, logging out deletes it, and a periodic
    sweep drops the expired ones. Times are nanoseconds since the epoch,
    passed in by the caller. */
module Sessions {
  import opened Wrappers
  import opened Text

  /** One hour, the lifetime of a session. */
  const SessionLifetime: int := 3600 * 1_000_000_000

  datatype Session = Session(kubeconfigContent: string, username: string, expiresAt: int)

  /** The guard at the top of every handler: the cookie was sent, names a
      session, and `now` is not after its expiry. */
  predicate AuthorizedIn(sessions: map<string, Session>, cookie: Option<string>, now: int) {
    cookie.Some? && cookie.value in sessions && !(now > sessions[cookie.value].expiresAt)
  }

  /** The token of a session created at `now`: its time in decimal. */
  function NewToken(now: int): string {
    IntToString(now)
  }

  /** The table after an upload at `now`: the caller's old session, if a
      cookie was sent, is gone, and the new token maps to the new session. */
  function AfterUpload(sessions: map<string, Session>, cookie: Option<string>, kubeconfigContent: string, username: string, now: int)
    : (r: map<string, Session>)
    ensures NewToken(now) in r && r[NewToken(now)] == Session(kubeconfigContent, username, now + SessionLifetime)
    ensures cookie.Some? && cookie.value != NewToken(now) ==> cookie.value !in r
    ensures forall t | t != NewToken(now) && !(cookie.Some? && t == cookie.value) ::
      (t in r <==> t in sessions) && (t in r ==> r[t] == sessions[t])
  {
    var kept := if cookie.Some? then sessions - {cookie.value} else sessions;
    kept[NewToken(now) := Session(kubeconfigContent, username, now + SessionLifetime)]
  }

  /** The table after a logout: the cookie's token is gone. Without a
      cookie the empty token is deleted. */
  function AfterLogout(sessions: map<string, Session>, cookie: Option<string>): (r: map<string, Session>)
    ensures cookie.GetOr("") !in r
    ensures forall t | t != cookie.GetOr("") :: (t in r <==> t in sessions) && (t in r ==> r[t] == sessions[t])
  {
    sessions - {cookie.GetOr("")}
  }

  /** The sessions that are not expired at `now`. */
  function Unexpired(sessions: map<string, Session>, now: int): (r: map<string, Session>)
    ensures forall t :: t in r <==> t in sessions && !(now > sessions[t].expiresAt)
    ensures forall t | t in r :: r[t] == sessions[t]
  {
    map t | t in sessions && !(now > sessions[t].expiresAt) :: sessions[t]
  }

  // ---------------------------------------------------------------------
  // Properties of the table

  /** A new session admits its token for exactly one hour. */
  lemma UploadAuthorizesForAnHour(sessions: map<string, Session>, cookie: Option<string>, kubeconfigContent: string, username: string, now: int, later: int)
    ensures AuthorizedIn(AfterUpload(sessions, cookie, kubeconfigContent, username, now), Some(NewToken(now)), later)
        <==> later <= now + SessionLifetime
  {
  }

  /** After an upload the caller's previous token no longer admits anyone,
      unless the new token happens to equal it. */
  lemma UploadRevokesOldToken(sessions: map<string, Session>, previous: string, kubeconfigContent: string, username: string, now: int, later: int)
    requires previous != NewToken(now)
    ensures !AuthorizedIn(AfterUpload(sessions, Some(previous), kubeconfigContent, username, now), Some(previous), later)
  {
  }

  /** Logging out revokes the caller's token and no other. */
  lemma LogoutRevokesOnlyCaller(sessions: map<string, Session>, token: string, other: Option<string>, now: int)
    ensures !AuthorizedIn(AfterLogout(sessions, Some(token)), Some(token), now)
    ensures other != Some(token) ==>
      (AuthorizedIn(AfterLogout(sessions, Some(token)), other, now) <==> AuthorizedIn(sessions, other, now))
  {
  }

  /** A sweep at `now` changes no authorization decision at `now` or later:
      it only removes sessions that can no longer admit anyone. */
  lemma SweepKeepsDecisions(sessions: map<string, Session>, cookie: Option<string>, now: int, later: int)
    requires now <= later
    ensures AuthorizedIn(Unexpired(sessions, now), cookie, later) <==> AuthorizedIn(sessions, cookie, later)
  {
  }

  /** Sweeping twice at the same time removes nothing more. */
  lemma SweepIdempotent(sessions: map<string, Session>, now: int)
    ensures Unexpired(Unexpired(sessions, now), now) == Unexpired(sessions, now)
  {
  }

  // ---------------------------------------------------------------------
  // The table as the handlers use it

  datatype AuthError = Unauthorized

  class SessionTable {
    var sessions: map<string, Session>

    constructor ()
      ensures sessions == map[]
    {
      sessions := map[];
    }

    /** `AuthCheck`: the session's user name, or Unauthorized. */
    method AuthCheck(cookie: Option<string>, now: int) returns (r: Result<string, AuthError>)
      ensures r.Ok? <==> AuthorizedIn(sessions, cookie, now)
      ensures r.Ok? ==> r.value == sessions[cookie.value].username
    {
      if cookie.None? || cookie.value !in sessions || now > sessions[cookie.value].expiresAt {
        return Err(Unauthorized);
      }
      return Ok(sessions[cookie.value].username);
    }

    /** The session bookkeeping of `UploadKubeConfig`, once the kubeconfig
        has been read and accepted. Returns the token set in the cookie. */
    method Upload(cookie: Option<string>, kubeconfigContent: string, username: string, now: int) returns (sessionToken: string)
      modifies this
      ensures sessionToken == NewToken(now)
      ensures sessions == AfterUpload(old(sessions), cookie, kubeconfigContent, username, now)
    {
      if cookie.Some? {
        sessions := sessions - {cookie.value};
      }
      sessionToken := IntToString(now);
      sessions := sessions[sessionToken := Session(kubeconfigContent, username, now + SessionLifetime)];
    }

    /** `Logout`: deletes the cookie's token (the empty token without one). */
    method Logout(cookie: Option<string>)
      modifies this
      ensures sessions == AfterLogout(old(sessions), cookie)
    {
      var sessionToken := if cookie.Some? then cookie.value else "";
      sessions := sessions - {sessionToken};
    }

    /** One pass of `CleanupSessions` at `now`: every expired session is
        deleted while the map is walked. */
    method CleanupSessions(now: int)
      modifies this
      ensures sessions == Unexpired(old(sessions), now)
    {
      var pending := sessions.Keys;
      while pending != {}
        invariant pending <= old(sessions).Keys
        invariant forall t :: t in sessions <==> t in old(sessions) && (t in pending || !(now > old(sessions)[t].expiresAt))
        invariant forall t | t in sessions :: sessions[t] == old(sessions)[t]
        decreases |pending|
      {
        var token :| token in pending;
        if now > sessions[token].expiresAt {
          sessions := sessions - {token};
        }
        pending := pending - {token};
      }
      assert sessions.Keys == Unexpired(old(sessions), now).Keys;
    }
  }
}
