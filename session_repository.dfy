/** The `sessions` table and the repository that queries it. The table is a sequence
    of rows keyed by `session_id`; `online == false` stands for a client whose every
    call raises, which the repository turns into `None`, `[]`, `false`, `0`, or, for
    `save`, an error. `now` is the reading of `datetime.utcnow()`. */
module SessionRepositories {
  import opened Wrappers
  import opened Tables
  import opened Sessions

  function SessionIdOf(s: SessionState): string { s.sessionId }
  function UserIdOf(s: SessionState): string { s.userId }
  function AccessTokenOf(s: SessionState): string { s.accessToken }
  function RefreshTokenOf(s: SessionState): string { s.refreshToken }

  /** `.eq("user_id", u).eq("is_active", True)`. */
  function ActiveOfUser(u: string): SessionState -> bool {
    (s: SessionState) => s.userId == u && s.isActive
  }

  /** `.eq("user_id", u).eq("is_active", True).gt("expires_at", now)`. */
  function LiveOfUser(u: string, now: int): SessionState -> bool {
    (s: SessionState) => s.userId == u && s.isActive && s.expiresAt > now
  }

  /** `.lt("expires_at", now)`. */
  function ExpiresBefore(now: int): SessionState -> bool {
    (s: SessionState) => s.expiresAt < now
  }

  /** The row rewrites of `update_last_accessed` and `refresh_access_token`. */
  function TouchAt(now: int): SessionState -> SessionState {
    s => Touched(s, now)
  }

  function RefreshWith(token: string, ttl: int, now: int): SessionState -> SessionState {
    s => Refreshed(s, token, ttl, now)
  }

  /** The row `save` writes. Its payload carries no `created_at`: an existing row
      keeps its own, a new row gets the column default, the current instant. */
  function Stored(rows: seq<SessionState>, s: SessionState, now: int): (r: SessionState)
    ensures r.(createdAt := s.createdAt) == s
  {
    var existing := First(Select(rows, KeyIs(SessionIdOf, s.sessionId)));
    s.(createdAt := if existing.Some? then existing.value.createdAt else now)
  }

  const SaveFailure: string := "Failed to save session"

  class SessionRepository {
    var rows: seq<SessionState>
    var online: bool

    /** `session_id` is the table's primary key. */
    predicate Valid()
      reads this
    {
      KeyedBy(rows, SessionIdOf)
    }

    constructor (initial: seq<SessionState>, reachable: bool)
      requires KeyedBy(initial, SessionIdOf)
      ensures rows == initial && online == reachable && Valid()
    {
      rows, online := initial, reachable;
    }

    /** `save`: an upsert by `session_id`. Afterwards that id selects exactly the
        stored row, and every other id selects what it did before. */
    method Save(s: SessionState, now: int) returns (r: Result<SessionState, string>)
      requires Valid()
      modifies this
      ensures Valid() && online == old(online)
      ensures !online ==> rows == old(rows) && r == Failure(SaveFailure)
      ensures online ==> r == Success(Stored(old(rows), s, now))
      ensures online ==> rows == Upsert(old(rows), SessionIdOf, r.value)
      ensures online ==> Select(rows, KeyIs(SessionIdOf, s.sessionId)) == [r.value]
      ensures online ==> forall id :: id != s.sessionId ==>
                Select(rows, KeyIs(SessionIdOf, id)) == Select(old(rows), KeyIs(SessionIdOf, id))
    {
      if !online {
        return Failure(SaveFailure);
      }
      var y := Stored(rows, s, now);
      UpsertFinds(rows, SessionIdOf, y);
      rows := Upsert(rows, SessionIdOf, y);
      return Success(y);
    }

    /** `find_by_id`. */
    method FindById(id: string) returns (r: Option<SessionState>)
      ensures r == FindFirst(online, rows, KeyIs(SessionIdOf, id))
      ensures r.Some? ==> r.value in rows && r.value.sessionId == id
      ensures online && (exists i :: 0 <= i < |rows| && rows[i].sessionId == id) ==> r.Some?
    {
      KeyIsMeans(SessionIdOf, id);
      r := FindFirst(online, rows, KeyIs(SessionIdOf, id));
    }

    /** `find_by_user_id`: every session of the user. */
    method FindByUserId(u: string) returns (r: seq<SessionState>)
      ensures r == (if online then Select(rows, KeyIs(UserIdOf, u)) else [])
      ensures forall x :: x in r ==> x in rows && x.userId == u
    {
      if !online {
        return [];
      }
      KeyIsMeans(UserIdOf, u);
      r := Select(rows, KeyIs(UserIdOf, u));
    }

    /** `find_active_by_user_id`: active sessions whose expiry is still ahead. Each
        one is valid at `now`. */
    method FindActiveByUserId(u: string, now: int) returns (r: seq<SessionState>)
      ensures r == (if online then Select(rows, LiveOfUser(u, now)) else [])
      ensures forall x :: x in r ==> x in rows && x.userId == u && IsValid(x, now)
      ensures online ==> forall x :: (x in rows && x.userId == u && IsValid(x, now) &&
                                      x.expiresAt != now) ==> x in r
    {
      if !online {
        return [];
      }
      r := Select(rows, LiveOfUser(u, now));
    }

    /** `find_by_access_token`: the first session carrying the token. */
    method FindByAccessToken(token: string) returns (r: Option<SessionState>)
      ensures r == FindFirst(online, rows, KeyIs(AccessTokenOf, token))
      ensures r.Some? ==> r.value in rows && r.value.accessToken == token
    {
      KeyIsMeans(AccessTokenOf, token);
      r := FindFirst(online, rows, KeyIs(AccessTokenOf, token));
    }

    /** `find_by_refresh_token`: the first session carrying the token. */
    method FindByRefreshToken(token: string) returns (r: Option<SessionState>)
      ensures r == FindFirst(online, rows, KeyIs(RefreshTokenOf, token))
      ensures r.Some? ==> r.value in rows && r.value.refreshToken == token
    {
      KeyIsMeans(RefreshTokenOf, token);
      r := FindFirst(online, rows, KeyIs(RefreshTokenOf, token));
    }

    /** `invalidate`: deactivates the session; true exactly when a row with that id
        exists, whether or not it was still active. */
    method Invalidate(id: string) returns (found: bool)
      requires Valid()
      modifies this
      ensures Valid() && online == old(online)
      ensures !online ==> rows == old(rows) && !found
      ensures online ==> rows == UpdateWhere(old(rows), KeyIs(SessionIdOf, id), Deactivated)
      ensures online ==> (found <==> exists i :: 0 <= i < |old(rows)| && old(rows)[i].sessionId == id)
    {
      if !online {
        return false;
      }
      var touched := Select(rows, KeyIs(SessionIdOf, id));
      assert forall i :: 0 <= i < |rows| && rows[i].sessionId == id ==> rows[i] in touched;
      UpdateKeepsKeyed(rows, SessionIdOf, KeyIs(SessionIdOf, id), Deactivated);
      rows := UpdateWhere(rows, KeyIs(SessionIdOf, id), Deactivated);
      found := |touched| > 0;
      if found {
        assert touched[0] in touched;
      }
    }

    /** `invalidate_all_by_user_id`: deactivates the user's active sessions and
        returns how many there were. */
    method InvalidateAllByUserId(u: string) returns (count: nat)
      requires Valid()
      modifies this
      ensures Valid() && online == old(online)
      ensures !online ==> rows == old(rows) && count == 0
      ensures online ==> rows == UpdateWhere(old(rows), ActiveOfUser(u), Deactivated)
      ensures online ==> count == |Select(old(rows), ActiveOfUser(u))|
    {
      if !online {
        return 0;
      }
      count := |Select(rows, ActiveOfUser(u))|;
      UpdateKeepsKeyed(rows, SessionIdOf, ActiveOfUser(u), Deactivated);
      rows := UpdateWhere(rows, ActiveOfUser(u), Deactivated);
    }

    /** `delete_expired`: removes the sessions whose expiry is before `now` and returns
        how many there were. */
    method DeleteExpired(now: int) returns (count: nat)
      requires Valid()
      modifies this
      ensures Valid() && online == old(online)
      ensures !online ==> rows == old(rows) && count == 0
      ensures online ==> rows == Reject(old(rows), ExpiresBefore(now))
      ensures online ==> count == |Select(old(rows), ExpiresBefore(now))|
      ensures online ==> count + |rows| == |old(rows)|
    {
      if !online {
        return 0;
      }
      count := |Select(rows, ExpiresBefore(now))|;
      SelectRejectCount(rows, ExpiresBefore(now));
      RejectKeepsKeyed(rows, SessionIdOf, ExpiresBefore(now));
      rows := Reject(rows, ExpiresBefore(now));
    }

    /** `delete_by_user_id`: removes every session of the user and returns how many. */
    method DeleteByUserId(u: string) returns (count: nat)
      requires Valid()
      modifies this
      ensures Valid() && online == old(online)
      ensures !online ==> rows == old(rows) && count == 0
      ensures online ==> rows == Reject(old(rows), KeyIs(UserIdOf, u))
      ensures online ==> count == |Select(old(rows), KeyIs(UserIdOf, u))|
    {
      if !online {
        return 0;
      }
      count := |Select(rows, KeyIs(UserIdOf, u))|;
      RejectKeepsKeyed(rows, SessionIdOf, KeyIs(UserIdOf, u));
      rows := Reject(rows, KeyIs(UserIdOf, u));
    }

    /** `update_last_accessed`: true exactly when a row with that id exists. */
    method UpdateLastAccessed(id: string, now: int) returns (found: bool)
      requires Valid()
      modifies this
      ensures Valid() && online == old(online)
      ensures !online ==> rows == old(rows) && !found
      ensures online ==> rows == UpdateWhere(old(rows), KeyIs(SessionIdOf, id), TouchAt(now))
      ensures online ==> (found <==> exists i :: 0 <= i < |old(rows)| && old(rows)[i].sessionId == id)
    {
      if !online {
        return false;
      }
      var touched := Select(rows, KeyIs(SessionIdOf, id));
      assert forall i :: 0 <= i < |rows| && rows[i].sessionId == id ==> rows[i] in touched;
      UpdateKeepsKeyed(rows, SessionIdOf, KeyIs(SessionIdOf, id), TouchAt(now));
      rows := UpdateWhere(rows, KeyIs(SessionIdOf, id), TouchAt(now));
      found := |touched| > 0;
      if found {
        assert touched[0] in touched;
      }
    }

    /** `refresh_access_token`: the new token, an expiry `ttl` seconds from `now` and
        the access time on the matching row; true exactly when it matched. */
    method RefreshAccessToken(id: string, token: string, ttl: int, now: int) returns (found: bool)
      requires Valid()
      modifies this
      ensures Valid() && online == old(online)
      ensures !online ==> rows == old(rows) && !found
      ensures online ==> rows == UpdateWhere(old(rows), KeyIs(SessionIdOf, id), RefreshWith(token, ttl, now))
      ensures online ==> (found <==> exists i :: 0 <= i < |old(rows)| && old(rows)[i].sessionId == id)
    {
      if !online {
        return false;
      }
      var touched := Select(rows, KeyIs(SessionIdOf, id));
      assert forall i :: 0 <= i < |rows| && rows[i].sessionId == id ==> rows[i] in touched;
      UpdateKeepsKeyed(rows, SessionIdOf, KeyIs(SessionIdOf, id), RefreshWith(token, ttl, now));
      rows := UpdateWhere(rows, KeyIs(SessionIdOf, id), RefreshWith(token, ttl, now));
      found := |touched| > 0;
      if found {
        assert touched[0] in touched;
      }
    }
  }

  /** After `invalidate_all_by_user_id(u)` the user has no active session left, so an
      immediate second call returns 0; every other user's sessions are as they were. */
  lemma InvalidateAllSettles(rows: seq<SessionState>, u: string)
    ensures Select(UpdateWhere(rows, ActiveOfUser(u), Deactivated), ActiveOfUser(u)) == []
    ensures forall v :: v != u ==>
              Select(UpdateWhere(rows, ActiveOfUser(u), Deactivated), KeyIs(UserIdOf, v)) ==
              Select(rows, KeyIs(UserIdOf, v))
  {
    UpdateFalsifies(rows, ActiveOfUser(u), Deactivated);
    forall v | v != u
      ensures Select(UpdateWhere(rows, ActiveOfUser(u), Deactivated), KeyIs(UserIdOf, v)) ==
              Select(rows, KeyIs(UserIdOf, v))
    {
      SelectOfUpdateDisjoint(rows, ActiveOfUser(u), Deactivated, KeyIs(UserIdOf, v));
    }
  }

  /** A second `delete_expired` at the same `now` finds nothing; the survivors are
      exactly the sessions expiring at `now` or later. */
  lemma DeleteExpiredSettles(rows: seq<SessionState>, now: int)
    ensures Select(Reject(rows, ExpiresBefore(now)), ExpiresBefore(now)) == []
    ensures forall s :: s in Reject(rows, ExpiresBefore(now)) <==> s in rows && s.expiresAt >= now
  {
    SelectOfReject(rows, ExpiresBefore(now));
  }

  /** After `delete_by_user_id(u)`, `find_by_user_id(u)` is empty and every other user's
      sessions are as they were. */
  lemma DeleteByUserEmpties(rows: seq<SessionState>, u: string)
    ensures Select(Reject(rows, KeyIs(UserIdOf, u)), KeyIs(UserIdOf, u)) == []
    ensures forall v :: v != u ==>
              Select(Reject(rows, KeyIs(UserIdOf, u)), KeyIs(UserIdOf, v)) ==
              Select(rows, KeyIs(UserIdOf, v))
  {
    SelectOfReject(rows, KeyIs(UserIdOf, u));
    forall v | v != u
      ensures Select(Reject(rows, KeyIs(UserIdOf, u)), KeyIs(UserIdOf, v)) ==
              Select(rows, KeyIs(UserIdOf, v))
    {
      SelectOfRejectDisjoint(rows, KeyIs(UserIdOf, u), KeyIs(UserIdOf, v));
    }
  }

  /** A session whose expiry instant is exactly `now` is still valid as an entity, yet
      `find_active_by_user_id` leaves it out: the query's `gt` is stricter than
      `is_expired`'s `>`. */
  lemma ActiveQueryBoundary(rows: seq<SessionState>, s: SessionState, now: int)
    requires s.isActive && s.expiresAt == now
    ensures IsValid(s, now)
    ensures s !in Select(rows, LiveOfUser(s.userId, now))
  {
  }

  /** After `refresh_access_token`, the refreshed row is not expired at `now` when
      `ttl` is not negative, whatever its expiry was, and its active flag is unchanged. */
  lemma RefreshedRowState(rows: seq<SessionState>, id: string, token: string, ttl: int, now: int,
                          i: int)
    requires 0 <= i < |rows| && rows[i].sessionId == id && ttl >= 0
    ensures var r := UpdateWhere(rows, KeyIs(SessionIdOf, id), RefreshWith(token, ttl, now));
            r[i].accessToken == token && r[i].expiresAt == now + ttl && !IsExpired(r[i], now) &&
            r[i].isActive == rows[i].isActive
  {
    var r := UpdateWhere(rows, KeyIs(SessionIdOf, id), RefreshWith(token, ttl, now));
    assert KeyIs(SessionIdOf, id)(rows[i]);
    assert r[i] == Refreshed(rows[i], token, ttl, now);
  }
}
