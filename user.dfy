/** The `User` entity: an account with an e-mail address, free-form metadata, an
    e-mail confirmation flag and timestamps. `now` is the clock reading and `id` the
    fresh `uuid4()`. Metadata values are modelled as text. */
module Users {
  import opened Wrappers
  import opened PyValues

  type Metadata = map<string, string>

  /** The fields of a user, as a value. `metadata` may be `None`, as the dataclass allows. */
  datatype UserState = UserState(
    id: string,
    email: string,
    createdAt: int,
    updatedAt: int,
    metadata: Option<Metadata>,
    isEmailConfirmed: bool,
    lastLogin: Option<int>)

  /** `User.create`: no metadata means an empty map; unconfirmed, never logged in. */
  function Create(id: string, email: string, metadata: Option<Metadata>, now: int): (u: UserState)
    ensures u.id == id && u.email == email
    ensures u.metadata == Some(if metadata.Some? then metadata.value else map[])
    ensures !u.isEmailConfirmed && u.lastLogin == None
    ensures u.createdAt == now && u.updatedAt == now
  {
    UserState(id, email, now, now, Some(metadata.GetOr(map[])), false, None)
  }

  /** `{**(current or {}), **patch}`: a right-biased merge. */
  function MergeMetadata(current: Option<Metadata>, patch: Metadata): (m: Metadata)
    ensures m.Keys == patch.Keys + (if current.Some? then current.value.Keys else {})
    ensures forall k :: k in patch ==> m[k] == patch[k]
    ensures forall k :: current.Some? && k in current.value && k !in patch ==>
              m[k] == current.value[k]
  {
    current.GetOr(map[]) + patch
  }

  /** Merging a patch whose keys are already set to the same values changes nothing. */
  lemma MergeIdempotent(current: Option<Metadata>, patch: Metadata)
    ensures MergeMetadata(Some(MergeMetadata(current, patch)), patch) == MergeMetadata(current, patch)
  {
  }

  /** The in-place entity object, with the dataclass's fields. */
  class User {
    var id: string
    var email: string
    var createdAt: int
    var updatedAt: int
    var metadata: Option<Metadata>
    var isEmailConfirmed: bool
    var lastLogin: Option<int>

    function State(): UserState
      reads this
    {
      UserState(id, email, createdAt, updatedAt, metadata, isEmailConfirmed, lastLogin)
    }

    /** The dataclass constructor. */
    constructor (st: UserState)
      ensures State() == st
    {
      id, email, createdAt, updatedAt := st.id, st.email, st.createdAt, st.updatedAt;
      metadata, isEmailConfirmed, lastLogin := st.metadata, st.isEmailConfirmed, st.lastLogin;
    }

    /** `update_metadata`. */
    method UpdateMetadata(patch: Metadata, now: int)
      modifies this
      ensures State() == MetadataMerged(old(State()), patch, now)
    {
      metadata := Some(MergeMetadata(metadata, patch));
      updatedAt := now;
    }

    /** `confirm_email`. */
    method ConfirmEmail(now: int)
      modifies this
      ensures State() == Confirmed(old(State()), now)
    {
      isEmailConfirmed := true;
      updatedAt := now;
    }

    /** `record_login`. */
    method RecordLogin(now: int)
      modifies this
      ensures State() == LoggedIn(old(State()), now)
    {
      lastLogin := Some(now);
      updatedAt := now;
    }
  }

  /** What `update_metadata` leaves: the merged metadata and `updated_at == now`. */
  function MetadataMerged(u: UserState, patch: Metadata, now: int): (r: UserState)
    ensures r.metadata == Some(MergeMetadata(u.metadata, patch)) && r.updatedAt == now
    ensures r.(metadata := u.metadata, updatedAt := u.updatedAt) == u
  {
    u.(metadata := Some(MergeMetadata(u.metadata, patch)), updatedAt := now)
  }

  /** What `confirm_email` leaves: confirmed, `updated_at == now`, nothing else changed. */
  function Confirmed(u: UserState, now: int): (r: UserState)
    ensures r.isEmailConfirmed && r.updatedAt == now
    ensures r.(isEmailConfirmed := u.isEmailConfirmed, updatedAt := u.updatedAt) == u
  {
    u.(isEmailConfirmed := true, updatedAt := now)
  }

  /** Confirming twice at the same instant is confirming once. */
  lemma ConfirmIdempotent(u: UserState, now: int)
    ensures Confirmed(Confirmed(u, now), now) == Confirmed(u, now)
  {
  }

  /** What `record_login` leaves: `last_login == updated_at == now`; the id, the e-mail,
      the metadata and the confirmation flag are unchanged. */
  function LoggedIn(u: UserState, now: int): (r: UserState)
    ensures r.lastLogin == Some(now) && r.updatedAt == now
    ensures r.id == u.id && r.email == u.email && r.metadata == u.metadata
    ensures r.isEmailConfirmed == u.isEmailConfirmed && r.createdAt == u.createdAt
  {
    u.(lastLogin := Some(now), updatedAt := now)
  }

  /** `to_dict`. */
  function ToDict(u: UserState): (d: Dict)
    ensures d.Keys == ReadKeys
    ensures d["last_login"].NoneValue? <==> u.lastLogin.None?
    ensures d["metadata"].NoneValue? <==> u.metadata.None?
  {
    map[
      "id" := Str(u.id),
      "email" := Str(u.email),
      "created_at" := Time(u.createdAt),
      "updated_at" := Time(u.updatedAt),
      "metadata" := (if u.metadata.Some? then StrMap(u.metadata.value) else NoneValue),
      "is_email_confirmed" := Bool(u.isEmailConfirmed),
      "last_login" := (if u.lastLogin.Some? then Time(u.lastLogin.value) else NoneValue)
    ]
  }

  const ReadKeys: set<string> :=
    {"id", "email", "created_at", "updated_at", "metadata", "is_email_confirmed", "last_login"}

  /** `data.get("metadata")` can be stored in the field. */
  predicate MetadataOk(d: Dict) {
    "metadata" !in d || d["metadata"].NoneValue? || d["metadata"].StrMap?
  }

  /** `last_login` is read only when truthy, and then it must be a timestamp. */
  predicate LastLoginOk(d: Dict) {
    "last_login" !in d || !Truthy(d["last_login"]) || d["last_login"].Time?
  }

  predicate WellFormed(d: Dict) {
    && StrAt(d, "id") && StrAt(d, "email")
    && TimeAt(d, "created_at") && TimeAt(d, "updated_at")
    && MetadataOk(d) && BoolOrAbsent(d, "is_email_confirmed") && LastLoginOk(d)
  }

  /** `from_dict`: `None` where Python raises. A missing or falsy `last_login` reads as
      `None`; a missing `is_email_confirmed` as false. */
  function FromDict(d: Dict): (r: Option<UserState>)
    ensures r.Some? <==> WellFormed(d)
    ensures r.Some? ==> (r.value.lastLogin == None <==> "last_login" !in d || !Truthy(d["last_login"]))
  {
    if !WellFormed(d) then None
    else Some(UserState(
      d["id"].s, d["email"].s, d["created_at"].t, d["updated_at"].t,
      if "metadata" in d && d["metadata"].StrMap? then Some(d["metadata"].m) else None,
      GetBool(d, "is_email_confirmed", false),
      if "last_login" in d && Truthy(d["last_login"]) then Some(d["last_login"].t) else None))
  }

  /** `from_dict(to_dict(u)) == u`, a `None` last login included. */
  lemma DictRoundTrip(u: UserState)
    ensures FromDict(ToDict(u)) == Some(u)
  {
  }
}
