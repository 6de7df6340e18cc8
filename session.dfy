/** The `Session` entity: one authenticated login of a user, with its tokens,
    its expiry and an active flag. Time is a whole number of seconds; the clock
    reading `datetime.now()` is the parameter `now`, and the fresh `uuid4()` the
    parameter `sessionId`. */
module Sessions {
  import opened Wrappers
  import opened PyValues

  /** The default lifetime of a session, in seconds. */
  const DefaultTtl: int := 3600

  /** The fields of a session, as a value. */
  datatype SessionState = SessionState(
    sessionId: string,
    userId: string,
    accessToken: string,
    refreshToken: string,
    expiresAt: int,
    createdAt: int,
    lastAccessed: int,
    isActive: bool)

  /** `Session.create`: a new active session that expires `ttl` seconds from `now`. */
  function Create(sessionId: string, userId: string, accessToken: string, refreshToken: string,
                  ttl: int, now: int): (s: SessionState)
    ensures s.sessionId == sessionId && s.userId == userId
    ensures s.accessToken == accessToken && s.refreshToken == refreshToken
    ensures s.expiresAt == now + ttl && s.createdAt == now && s.lastAccessed == now
    ensures s.isActive
  {
    SessionState(sessionId, userId, accessToken, refreshToken, now + ttl, now, now, true)
  }

  /** `is_expired`: strictly past the expiry instant. */
  predicate IsExpired(s: SessionState, now: int) {
    now > s.expiresAt
  }

  /** `is_valid`: active and not expired. */
  predicate IsValid(s: SessionState, now: int) {
    s.isActive && !IsExpired(s, now)
  }

  /** A new session is valid exactly up to and including its expiry instant. */
  lemma CreatedValidUntilExpiry(sessionId: string, userId: string, accessToken: string,
                                refreshToken: string, ttl: int, now: int, t: int)
    ensures IsValid(Create(sessionId, userId, accessToken, refreshToken, ttl, now), t)
            <==> t <= now + ttl
  {
  }

  /** Expiry is one-way: once expired, a session stays expired and invalid. */
  lemma ExpiryIsPermanent(s: SessionState, t: int, later: int)
    requires IsExpired(s, t) && t <= later
    ensures IsExpired(s, later) && !IsValid(s, later)
  {
  }

  /** The in-place entity object, with the dataclass's fields. */
  class Session {
    var sessionId: string
    var userId: string
    var accessToken: string
    var refreshToken: string
    var expiresAt: int
    var createdAt: int
    var lastAccessed: int
    var isActive: bool

    /** The object's current fields as a value. */
    function State(): SessionState
      reads this
    {
      SessionState(sessionId, userId, accessToken, refreshToken, expiresAt, createdAt,
                   lastAccessed, isActive)
    }

    /** The dataclass constructor. */
    constructor (st: SessionState)
      ensures State() == st
    {
      sessionId, userId := st.sessionId, st.userId;
      accessToken, refreshToken := st.accessToken, st.refreshToken;
      expiresAt, createdAt, lastAccessed := st.expiresAt, st.createdAt, st.lastAccessed;
      isActive := st.isActive;
    }

    /** `refresh_access`. */
    method RefreshAccess(newAccessToken: string, ttl: int, now: int)
      modifies this
      ensures State() == Refreshed(old(State()), newAccessToken, ttl, now)
    {
      accessToken := newAccessToken;
      expiresAt := now + ttl;
      lastAccessed := now;
    }

    /** `update_last_accessed`. */
    method UpdateLastAccessed(now: int)
      modifies this
      ensures State() == Touched(old(State()), now)
    {
      lastAccessed := now;
    }

    /** `invalidate`. */
    method Invalidate()
      modifies this
      ensures State() == Deactivated(old(State()))
    {
      isActive := false;
    }

    /** `extend_expiration`. */
    method ExtendExpiration(additionalSeconds: int)
      modifies this
      ensures State() == Extended(old(State()), additionalSeconds)
    {
      expiresAt := expiresAt + additionalSeconds;
    }
  }

  /** What `refresh_access` leaves: a new access token and an expiry `ttl` seconds from
      `now`, whatever the old expiry was. The active flag is left alone, so an
      invalidated session is never revived. */
  function Refreshed(s: SessionState, newAccessToken: string, ttl: int, now: int): (r: SessionState)
    ensures r.sessionId == s.sessionId && r.userId == s.userId && r.refreshToken == s.refreshToken
    ensures r.isActive == s.isActive && r.createdAt == s.createdAt
    ensures r.accessToken == newAccessToken && r.lastAccessed == now
    ensures !IsExpired(r, now) <==> ttl >= 0
    ensures IsValid(r, now) <==> s.isActive && ttl >= 0
    ensures !s.isActive ==> forall t :: !IsValid(r, t)
  {
    s.(accessToken := newAccessToken, expiresAt := now + ttl, lastAccessed := now)
  }

  /** What `update_last_accessed` leaves: only the access time moves. */
  function Touched(s: SessionState, now: int): (r: SessionState)
    ensures r.lastAccessed == now
    ensures forall t :: IsValid(r, t) == IsValid(s, t)
  {
    s.(lastAccessed := now)
  }

  /** What `invalidate` leaves: inactive, and never valid again. */
  function Deactivated(s: SessionState): (r: SessionState)
    ensures !r.isActive
    ensures forall t :: !IsValid(r, t)
  {
    s.(isActive := false)
  }

  /** `invalidate` is idempotent and changes nothing but the active flag. */
  lemma DeactivateIdempotent(s: SessionState)
    ensures Deactivated(Deactivated(s)) == Deactivated(s)
    ensures Deactivated(s).(isActive := s.isActive) == s
  {
  }

  /** What `extend_expiration` leaves: exactly `additionalSeconds` more. */
  function Extended(s: SessionState, additionalSeconds: int): (r: SessionState)
    ensures r.expiresAt - s.expiresAt == additionalSeconds
    ensures r.(expiresAt := s.expiresAt) == s
  {
    s.(expiresAt := s.expiresAt + additionalSeconds)
  }

  /** `to_dict`, evaluated at time `now` (the derived `is_expired` and `is_valid`
      keys depend on the clock). */
  function ToDict(s: SessionState, now: int): (d: Dict)
    ensures d.Keys == ReadKeys + {"is_expired", "is_valid"}
    ensures d["is_expired"] == Bool(now > s.expiresAt)
    ensures d["is_valid"] == Bool(s.isActive && now <= s.expiresAt)
  {
    map[
      "session_id" := Str(s.sessionId),
      "user_id" := Str(s.userId),
      "access_token" := Str(s.accessToken),
      "refresh_token" := Str(s.refreshToken),
      "expires_at" := Time(s.expiresAt),
      "created_at" := Time(s.createdAt),
      "last_accessed" := Time(s.lastAccessed),
      "is_active" := Bool(s.isActive),
      "is_expired" := Bool(IsExpired(s, now)),
      "is_valid" := Bool(IsValid(s, now))
    ]
  }

  /** The keys `from_dict` looks at; every other key is ignored. */
  const ReadKeys: set<string> := {"session_id", "user_id", "access_token", "refresh_token",
                                  "expires_at", "created_at", "last_accessed", "is_active"}

  predicate WellFormed(d: Dict) {
    && StrAt(d, "session_id") && StrAt(d, "user_id")
    && StrAt(d, "access_token") && StrAt(d, "refresh_token")
    && TimeAt(d, "expires_at") && TimeAt(d, "created_at") && TimeAt(d, "last_accessed")
    && BoolOrAbsent(d, "is_active")
  }

  /** `from_dict`: `None` where Python raises (a required key missing or of the wrong
      kind). A missing `is_active` means active. */
  function FromDict(d: Dict): (r: Option<SessionState>)
    ensures r.Some? <==> WellFormed(d)
    ensures r.Some? && "is_active" !in d ==> r.value.isActive
  {
    if !WellFormed(d) then None
    else Some(SessionState(
      d["session_id"].s, d["user_id"].s, d["access_token"].s, d["refresh_token"].s,
      d["expires_at"].t, d["created_at"].t, d["last_accessed"].t,
      GetBool(d, "is_active", true)))
  }

  /** `from_dict(to_dict(s)) == s`, at any clock reading. */
  lemma DictRoundTrip(s: SessionState, now: int)
    ensures FromDict(ToDict(s, now)) == Some(s)
  {
  }

  /** Keys outside `ReadKeys`, such as the derived `is_expired` and `is_valid`, do not
      affect `from_dict`. */
  lemma FromDictIgnoresOtherKeys(d: Dict, key: string, v: Value)
    requires key !in ReadKeys
    ensures FromDict(d[key := v]) == FromDict(d)
  {
    assert forall k :: k in ReadKeys ==> (k in d[key := v] <==> k in d);
    assert forall k :: k in ReadKeys && k in d ==> d[key := v][k] == d[k];
  }
}
