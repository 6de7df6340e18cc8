/** The authentication use cases: registration, login, logout, session validation and
    refresh, and account changes, orchestrating the users and sessions repositories.
    Each raised domain exception becomes a `Failure`; the exception `save` raises when
    the client fails becomes `Storage`. `now` is the clock reading and `newId` /
    `newSessionId` the fresh `uuid4()` of the entity being created. A store is either
    reachable for the whole call or not at all. */
module AuthUseCases {
  import opened Wrappers
  import opened Tables
  import Users
  import Sessions
  import UR = UserRepositories
  import SR = SessionRepositories

  /** The domain exceptions of the authentication use cases, with their messages. */
  datatype AuthError =
    | UserNotFound(message: string)
    | UserAlreadyExists(message: string)
    | EmailNotConfirmed(message: string)
    | SessionExpired(message: string)
    | InvalidSession(message: string)
    | Storage(message: string)

  const NotConfirmedMessage: string := "Email address must be confirmed before login"
  const SessionInvalidMessage: string := "Session is invalid"

  /** The checks `get_user_by_session` and `validate_access_token` make on the session
      they looked up, in the source's order; `None` when the session passes. */
  function SessionCheck(found: Option<Sessions.SessionState>, now: int, missing: string,
                        expired: string): (e: Option<AuthError>)
    ensures e.None? <==> found.Some? && Sessions.IsValid(found.value, now)
    ensures found.None? ==> e == Some(InvalidSession(missing))
    ensures found.Some? && Sessions.IsExpired(found.value, now) ==> e == Some(SessionExpired(expired))
    ensures found.Some? && !found.value.isActive && !Sessions.IsExpired(found.value, now) ==>
              e == Some(InvalidSession(SessionInvalidMessage))
  {
    if found.None? then Some(InvalidSession(missing))
    else if !Sessions.IsValid(found.value, now) then
      if Sessions.IsExpired(found.value, now) then Some(SessionExpired(expired))
      else Some(InvalidSession(SessionInvalidMessage))
    else None
  }

  /** Expiry is checked before activity: an inactive session that has also expired is
      reported as expired, not as invalid. */
  lemma ExpiryCheckedFirst(s: Sessions.SessionState, now: int, missing: string, expired: string)
    requires !s.isActive && Sessions.IsExpired(s, now)
    ensures SessionCheck(Some(s), now, missing, expired) == Some(SessionExpired(expired))
  {
  }

  /** The checks `refresh_session` makes: only presence and the active flag, so an
      active session that has expired is still refreshed. */
  function RefreshCheck(found: Option<Sessions.SessionState>): (e: Option<AuthError>)
    ensures e.None? <==> found.Some? && found.value.isActive
    ensures found.None? ==> e == Some(InvalidSession("Invalid refresh token"))
    ensures found.Some? && !found.value.isActive ==> e == Some(InvalidSession("Session is not active"))
  {
    if found.None? then Some(InvalidSession("Invalid refresh token"))
    else if !found.value.isActive then Some(InvalidSession("Session is not active"))
    else None
  }

  /** `find_by_email` on the users table, `find_by_id` on either table, and the two
      token lookups, as values of the tables before the call. */
  function UserByEmail(users: UR.UserRepository, email: string): Option<Users.UserState>
    reads users
  {
    FindFirst(users.online, users.rows, KeyIs(UR.EmailOf, email))
  }

  function UserById(users: UR.UserRepository, id: string): Option<Users.UserState>
    reads users
  {
    FindFirst(users.online, users.rows, KeyIs(UR.UserIdOf, id))
  }

  class AuthUseCases {
    const users: UR.UserRepository
    const sessions: SR.SessionRepository

    predicate Valid()
      reads users, sessions
    {
      users.Valid() && sessions.Valid()
    }

    constructor (userRepository: UR.UserRepository, sessionRepository: SR.SessionRepository)
      ensures users == userRepository && sessions == sessionRepository
    {
      users, sessions := userRepository, sessionRepository;
    }

    /** `register_user`: an address already on file is refused and nothing is saved;
        otherwise one new unconfirmed user with that address is saved. */
    method RegisterUser(email: string, metadata: Option<Users.Metadata>, newId: string, now: int)
      returns (r: Result<Users.UserState, AuthError>)
      requires Valid()
      modifies users
      ensures Valid() && users.online == old(users.online)
      ensures var taken := users.online &&
                exists i :: 0 <= i < |old(users.rows)| && old(users.rows)[i].email == email;
              (taken ==> r == Failure(UserAlreadyExists("User with email " + email + " already exists")) &&
                         users.rows == old(users.rows)) &&
              (!users.online ==> r == Failure(Storage(UR.SaveFailure)) && users.rows == old(users.rows)) &&
              (users.online && !taken ==>
                 r == Success(UR.Stored(old(users.rows), Users.Create(newId, email, metadata, now), now)) &&
                 users.rows == Upsert(old(users.rows), UR.UserIdOf, r.value))
      ensures r.Success? ==> r.value.id == newId && r.value.email == email && !r.value.isEmailConfirmed
      ensures r.Success? && (forall i :: 0 <= i < |old(users.rows)| ==> old(users.rows)[i].id != newId) ==>
                users.rows == old(users.rows) + [r.value]
    {
      var taken := users.ExistsByEmail(email);
      if taken {
        return Failure(UserAlreadyExists("User with email " + email + " already exists"));
      }
      var user := Users.Create(newId, email, metadata, now);
      KeyIsMeans(UR.UserIdOf, newId);
      SelectEmpty(users.rows, KeyIs(UR.UserIdOf, newId));
      var saved := users.Save(user, now);
      if saved.Failure? {
        return Failure(Storage(saved.error));
      }
      return Success(saved.value);
    }

    /** `login_user`. An unknown address and, when confirmation is required, an
        unconfirmed one are refused with no write. Otherwise the user is saved with its
        login recorded, and only then a new active session of the default lifetime;
        when the session cannot be saved, the user's write has already happened. */
    method LoginUser(email: string, accessToken: string, refreshToken: string,
                     requireConfirmation: bool, newSessionId: string, now: int)
      returns (r: Result<(Users.UserState, Sessions.SessionState), AuthError>)
      requires Valid()
      modifies users, sessions
      ensures Valid() && users.online == old(users.online) && sessions.online == old(sessions.online)
      ensures var found := old(UserByEmail(users, email));
              found.None? ==>
                r == Failure(UserNotFound("User with email " + email + " not found")) &&
                users.rows == old(users.rows) && sessions.rows == old(sessions.rows)
      ensures var found := old(UserByEmail(users, email));
              found.Some? && requireConfirmation && !found.value.isEmailConfirmed ==>
                r == Failure(EmailNotConfirmed(NotConfirmedMessage)) &&
                users.rows == old(users.rows) && sessions.rows == old(sessions.rows)
      ensures var found := old(UserByEmail(users, email));
              found.Some? && (!requireConfirmation || found.value.isEmailConfirmed) ==>
                var user := Users.LoggedIn(found.value, now);
                var session := Sessions.Create(newSessionId, user.id, accessToken, refreshToken,
                                               Sessions.DefaultTtl, now);
                users.rows == Upsert(old(users.rows), UR.UserIdOf, UR.Stored(old(users.rows), user, now)) &&
                (sessions.online ==>
                   r == Success((user, SR.Stored(old(sessions.rows), session, now))) &&
                   sessions.rows == Upsert(old(sessions.rows), SR.SessionIdOf, r.value.1)) &&
                (!sessions.online ==>
                   r == Failure(Storage(SR.SaveFailure)) && sessions.rows == old(sessions.rows))
      ensures r.Success? ==>
                r.value.0.lastLogin == Some(now) && r.value.1.userId == r.value.0.id &&
                r.value.1.isActive && r.value.1.expiresAt == now + Sessions.DefaultTtl
    {
      var found := users.FindByEmail(email);
      if found.None? {
        return Failure(UserNotFound("User with email " + email + " not found"));
      }
      var user := new Users.User(found.value);
      if requireConfirmation && !user.isEmailConfirmed {
        return Failure(EmailNotConfirmed(NotConfirmedMessage));
      }
      user.RecordLogin(now);
      var savedUser := users.Save(user.State(), now);
      assert savedUser.Success?;
      var session := Sessions.Create(newSessionId, user.id, accessToken, refreshToken,
                                     Sessions.DefaultTtl, now);
      var savedSession := sessions.Save(session, now);
      if savedSession.Failure? {
        return Failure(Storage(savedSession.error));
      }
      return Success((user.State(), savedSession.value));
    }

    /** `logout_user`. */
    method LogoutUser(sessionId: string) returns (found: bool)
      requires Valid()
      modifies sessions
      ensures Valid() && sessions.online == old(sessions.online)
      ensures !sessions.online ==> sessions.rows == old(sessions.rows) && !found
      ensures sessions.online ==>
                sessions.rows == UpdateWhere(old(sessions.rows), KeyIs(SR.SessionIdOf, sessionId),
                                             Sessions.Deactivated)
      ensures sessions.online ==>
                (found <==> exists i :: 0 <= i < |old(sessions.rows)| &&
                                        old(sessions.rows)[i].sessionId == sessionId)
    {
      found := sessions.Invalidate(sessionId);
    }

    /** `logout_all_user_sessions`. */
    method LogoutAllUserSessions(userId: string) returns (count: nat)
      requires Valid()
      modifies sessions
      ensures Valid() && sessions.online == old(sessions.online)
      ensures !sessions.online ==> sessions.rows == old(sessions.rows) && count == 0
      ensures sessions.online ==>
                sessions.rows == UpdateWhere(old(sessions.rows), SR.ActiveOfUser(userId),
                                             Sessions.Deactivated) &&
                count == |Select(old(sessions.rows), SR.ActiveOfUser(userId))|
    {
      count := sessions.InvalidateAllByUserId(userId);
    }

    /** `get_user_by_session`: see `SessionCheck` for the refusals, which write
        nothing. A valid session has its access time saved first; a missing owner is
        then refused, with that write already made. */
    method GetUserBySession(sessionId: string, now: int)
      returns (r: Result<(Users.UserState, Sessions.SessionState), AuthError>)
      requires Valid()
      modifies sessions
      ensures Valid() && sessions.online == old(sessions.online) && users.rows == old(users.rows)
      ensures var found := FindFirst(old(sessions.online), old(sessions.rows), KeyIs(SR.SessionIdOf, sessionId));
              var check := SessionCheck(found, now, "Session not found", "Session has expired");
              check.Some? ==> r == Failure(check.value) && sessions.rows == old(sessions.rows)
      ensures var found := FindFirst(old(sessions.online), old(sessions.rows), KeyIs(SR.SessionIdOf, sessionId));
              var check := SessionCheck(found, now, "Session not found", "Session has expired");
              check.None? ==>
                var touched := Sessions.Touched(found.value, now);
                var owner := UserById(users, touched.userId);
                sessions.rows == Upsert(old(sessions.rows), SR.SessionIdOf,
                                        SR.Stored(old(sessions.rows), touched, now)) &&
                r == (if owner.None? then Failure(UserNotFound("User not found"))
                      else Success((owner.value, touched)))
    {
      var found := sessions.FindById(sessionId);
      r := CheckTouchAndFindOwner(found, now, "Session not found", "Session has expired");
    }

    /** `validate_access_token`: as `get_user_by_session`, with the session looked up
        by its access token. */
    method ValidateAccessToken(accessToken: string, now: int)
      returns (r: Result<(Users.UserState, Sessions.SessionState), AuthError>)
      requires Valid()
      modifies sessions
      ensures Valid() && sessions.online == old(sessions.online) && users.rows == old(users.rows)
      ensures var found := FindFirst(old(sessions.online), old(sessions.rows), KeyIs(SR.AccessTokenOf, accessToken));
              var check := SessionCheck(found, now, "Invalid access token", "Access token has expired");
              check.Some? ==> r == Failure(check.value) && sessions.rows == old(sessions.rows)
      ensures var found := FindFirst(old(sessions.online), old(sessions.rows), KeyIs(SR.AccessTokenOf, accessToken));
              var check := SessionCheck(found, now, "Invalid access token", "Access token has expired");
              check.None? ==>
                var touched := Sessions.Touched(found.value, now);
                var owner := UserById(users, touched.userId);
                sessions.rows == Upsert(old(sessions.rows), SR.SessionIdOf,
                                        SR.Stored(old(sessions.rows), touched, now)) &&
                r == (if owner.None? then Failure(UserNotFound("User not found"))
                      else Success((owner.value, touched)))
    {
      var found := sessions.FindByAccessToken(accessToken);
      r := CheckTouchAndFindOwner(found, now, "Invalid access token", "Access token has expired");
    }

    /** The part `get_user_by_session` and `validate_access_token` share, from the
        session they found onwards. */
    method CheckTouchAndFindOwner(found: Option<Sessions.SessionState>, now: int, missing: string,
                                  expired: string)
      returns (r: Result<(Users.UserState, Sessions.SessionState), AuthError>)
      requires Valid()
      requires found.Some? ==> sessions.online
      modifies sessions
      ensures Valid() && sessions.online == old(sessions.online) && users.rows == old(users.rows)
      ensures var check := SessionCheck(found, now, missing, expired);
              check.Some? ==> r == Failure(check.value) && sessions.rows == old(sessions.rows)
      ensures var check := SessionCheck(found, now, missing, expired);
              check.None? ==>
                var touched := Sessions.Touched(found.value, now);
                var owner := UserById(users, touched.userId);
                sessions.rows == Upsert(old(sessions.rows), SR.SessionIdOf,
                                        SR.Stored(old(sessions.rows), touched, now)) &&
                r == (if owner.None? then Failure(UserNotFound("User not found"))
                      else Success((owner.value, touched)))
    {
      var check := SessionCheck(found, now, missing, expired);
      if check.Some? {
        return Failure(check.value);
      }
      var session := new Sessions.Session(found.value);
      session.UpdateLastAccessed(now);
      var saved := sessions.Save(session.State(), now);
      assert saved.Success?;
      var owner := users.FindById(session.userId);
      if owner.None? {
        return Failure(UserNotFound("User not found"));
      }
      return Success((owner.value, session.State()));
    }

    /** `refresh_session`: see `RefreshCheck` for the refusals, which write nothing;
        otherwise the session gets the new token and an expiry `ttl` seconds from now,
        and is saved. */
    method RefreshSession(refreshToken: string, newAccessToken: string, ttl: int, now: int)
      returns (r: Result<Sessions.SessionState, AuthError>)
      requires Valid()
      modifies sessions
      ensures Valid() && sessions.online == old(sessions.online)
      ensures var found := FindFirst(old(sessions.online), old(sessions.rows), KeyIs(SR.RefreshTokenOf, refreshToken));
              RefreshCheck(found).Some? ==>
                r == Failure(RefreshCheck(found).value) && sessions.rows == old(sessions.rows)
      ensures var found := FindFirst(old(sessions.online), old(sessions.rows), KeyIs(SR.RefreshTokenOf, refreshToken));
              RefreshCheck(found).None? ==>
                var refreshed := Sessions.Refreshed(found.value, newAccessToken, ttl, now);
                r == Success(SR.Stored(old(sessions.rows), refreshed, now)) &&
                sessions.rows == Upsert(old(sessions.rows), SR.SessionIdOf, r.value)
      ensures r.Success? ==> r.value.isActive && r.value.accessToken == newAccessToken &&
                             r.value.expiresAt == now + ttl
    {
      var found := sessions.FindByRefreshToken(refreshToken);
      var check := RefreshCheck(found);
      if check.Some? {
        return Failure(check.value);
      }
      var session := new Sessions.Session(found.value);
      session.RefreshAccess(newAccessToken, ttl, now);
      var saved := sessions.Save(session.State(), now);
      assert saved.Success?;
      return Success(saved.value);
    }

    /** `confirm_user_email`: an unknown id is refused; otherwise the confirmed user is
        saved. */
    method ConfirmUserEmail(userId: string, now: int) returns (r: Result<Users.UserState, AuthError>)
      requires Valid()
      modifies users
      ensures Valid() && users.online == old(users.online)
      ensures var found := old(UserById(users, userId));
              (found.None? ==> r == Failure(UserNotFound("User " + userId + " not found")) &&
                               users.rows == old(users.rows)) &&
              (found.Some? ==>
                 r == Success(UR.Stored(old(users.rows), Users.Confirmed(found.value, now), now)) &&
                 users.rows == Upsert(old(users.rows), UR.UserIdOf, r.value))
      ensures r.Success? ==> r.value.isEmailConfirmed && r.value.id == userId
    {
      var found := users.FindById(userId);
      if found.None? {
        return Failure(UserNotFound("User " + userId + " not found"));
      }
      var user := new Users.User(found.value);
      user.ConfirmEmail(now);
      var saved := users.Save(user.State(), now);
      assert saved.Success?;
      return Success(saved.value);
    }

    /** `update_user_metadata`: an unknown id is refused; otherwise the user with the
        patch merged into its metadata is saved. */
    method UpdateUserMetadata(userId: string, patch: Users.Metadata, now: int)
      returns (r: Result<Users.UserState, AuthError>)
      requires Valid()
      modifies users
      ensures Valid() && users.online == old(users.online)
      ensures var found := old(UserById(users, userId));
              (found.None? ==> r == Failure(UserNotFound("User " + userId + " not found")) &&
                               users.rows == old(users.rows)) &&
              (found.Some? ==>
                 r == Success(UR.Stored(old(users.rows), Users.MetadataMerged(found.value, patch, now), now)) &&
                 users.rows == Upsert(old(users.rows), UR.UserIdOf, r.value))
    {
      var found := users.FindById(userId);
      if found.None? {
        return Failure(UserNotFound("User " + userId + " not found"));
      }
      var user := new Users.User(found.value);
      user.UpdateMetadata(patch, now);
      var saved := users.Save(user.State(), now);
      assert saved.Success?;
      return Success(saved.value);
    }

    /** `delete_user_account`: an unknown id is refused with nothing deleted. Otherwise
        the user's sessions are deleted first, then the user, whose deletion result is
        returned; a sessions table that cannot be reached does not stop the second
        step. */
    method DeleteUserAccount(userId: string) returns (r: Result<bool, AuthError>)
      requires Valid()
      modifies users, sessions
      ensures Valid() && users.online == old(users.online) && sessions.online == old(sessions.online)
      ensures var found := old(UserById(users, userId));
              (found.None? ==> r == Failure(UserNotFound("User " + userId + " not found")) &&
                               users.rows == old(users.rows) && sessions.rows == old(sessions.rows)) &&
              (found.Some? ==>
                 r == Success(true) &&
                 users.rows == Reject(old(users.rows), KeyIs(UR.UserIdOf, userId)) &&
                 sessions.rows == (if sessions.online
                                   then Reject(old(sessions.rows), KeyIs(SR.UserIdOf, userId))
                                   else old(sessions.rows)))
    {
      var found := users.FindById(userId);
      if found.None? {
        return Failure(UserNotFound("User " + userId + " not found"));
      }
      var _ := sessions.DeleteByUserId(userId);
      var deleted := users.Delete(userId);
      return Success(deleted);
    }

    /** `cleanup_expired_sessions`. */
    method CleanupExpiredSessions(now: int) returns (count: nat)
      requires Valid()
      modifies sessions
      ensures Valid() && sessions.online == old(sessions.online)
      ensures !sessions.online ==> sessions.rows == old(sessions.rows) && count == 0
      ensures sessions.online ==>
                sessions.rows == Reject(old(sessions.rows), SR.ExpiresBefore(now)) &&
                count == |Select(old(sessions.rows), SR.ExpiresBefore(now))|
    {
      count := sessions.DeleteExpired(now);
    }
  }

  /** The error order of `get_user_by_session` and `validate_access_token`, for every
      looked-up session: absent gives an invalid-session error; expired gives the
      expired error whether or not the session is active; present, unexpired and
      inactive gives the invalid-session error; the check passes only for a valid one. */
  lemma SessionErrorOrder(found: Option<Sessions.SessionState>, now: int, missing: string,
                          expired: string)
    ensures var e := SessionCheck(found, now, missing, expired);
            (found.None? ==> e == Some(InvalidSession(missing))) &&
            (found.Some? && now > found.value.expiresAt ==> e == Some(SessionExpired(expired))) &&
            (found.Some? && now <= found.value.expiresAt && !found.value.isActive ==>
               e == Some(InvalidSession(SessionInvalidMessage))) &&
            (found.Some? && now <= found.value.expiresAt && found.value.isActive ==> e == None)
  {
  }

  /** `refresh_session` revives the expiry of an active session that has lapsed: the
      refreshed session is valid again as long as `ttl` is not negative. */
  lemma RefreshRevivesLapsedSession(s: Sessions.SessionState, token: string, ttl: int, now: int)
    requires s.isActive && Sessions.IsExpired(s, now) && ttl >= 0
    ensures RefreshCheck(Some(s)) == None
    ensures Sessions.IsValid(Sessions.Refreshed(s, token, ttl, now), now)
  {
  }
}
