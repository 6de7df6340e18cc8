/** The `users` table and the repository that queries it: rows keyed by `id`, with
    the same `online` convention as the sessions table. */
module UserRepositories {
  import opened Wrappers
  import opened Tables
  import opened Users

  function UserIdOf(u: UserState): string { u.id }
  function EmailOf(u: UserState): string { u.email }

  /** The row rewrites of `update_metadata`, `confirm_email` and `record_login`. Unlike
      the entity's merge, `update_metadata` stores the given map as it is. */
  function SetMetadata(m: Metadata, now: int): UserState -> UserState {
    (u: UserState) => u.(metadata := Some(m), updatedAt := now)
  }

  function ConfirmAt(now: int): UserState -> UserState {
    u => Confirmed(u, now)
  }

  function LoginAt(now: int): UserState -> UserState {
    u => LoggedIn(u, now)
  }

  /** The row `save` writes: `updated_at` is the current instant; the payload carries
      no `created_at`, so an existing row keeps its own and a new row gets the column
      default, the current instant. */
  function Stored(rows: seq<UserState>, u: UserState, now: int): (r: UserState)
    ensures r.(createdAt := u.createdAt, updatedAt := u.updatedAt) == u
    ensures r.updatedAt == now
  {
    var existing := First(Select(rows, KeyIs(UserIdOf, u.id)));
    u.(createdAt := if existing.Some? then existing.value.createdAt else now, updatedAt := now)
  }

  const SaveFailure: string := "Failed to save user"

  class UserRepository {
    var rows: seq<UserState>
    var online: bool

    /** `id` is the table's primary key. */
    predicate Valid()
      reads this
    {
      KeyedBy(rows, UserIdOf)
    }

    constructor (initial: seq<UserState>, reachable: bool)
      requires KeyedBy(initial, UserIdOf)
      ensures rows == initial && online == reachable && Valid()
    {
      rows, online := initial, reachable;
    }

    /** `save`: an upsert by `id`. Afterwards that id selects exactly the stored row,
        and every other id selects what it did before. */
    method Save(u: UserState, now: int) returns (r: Result<UserState, string>)
      requires Valid()
      modifies this
      ensures Valid() && online == old(online)
      ensures !online ==> rows == old(rows) && r == Failure(SaveFailure)
      ensures online ==> r == Success(Stored(old(rows), u, now))
      ensures online ==> rows == Upsert(old(rows), UserIdOf, r.value)
      ensures online ==> Select(rows, KeyIs(UserIdOf, u.id)) == [r.value]
      ensures online ==> forall id :: id != u.id ==>
                Select(rows, KeyIs(UserIdOf, id)) == Select(old(rows), KeyIs(UserIdOf, id))
    {
      if !online {
        return Failure(SaveFailure);
      }
      var y := Stored(rows, u, now);
      UpsertFinds(rows, UserIdOf, y);
      rows := Upsert(rows, UserIdOf, y);
      return Success(y);
    }

    /** `find_by_id`. */
    method FindById(id: string) returns (r: Option<UserState>)
      ensures r == FindFirst(online, rows, KeyIs(UserIdOf, id))
      ensures r.Some? ==> r.value in rows && r.value.id == id
      ensures r.Some? <==> online && exists i :: 0 <= i < |rows| && rows[i].id == id
    {
      KeyIsMeans(UserIdOf, id);
      r := FindFirst(online, rows, KeyIs(UserIdOf, id));
    }

    /** `find_by_email`: the first user with that address. */
    method FindByEmail(email: string) returns (r: Option<UserState>)
      ensures r == FindFirst(online, rows, KeyIs(EmailOf, email))
      ensures r.Some? ==> r.value in rows && r.value.email == email
      ensures r.Some? <==> online && exists i :: 0 <= i < |rows| && rows[i].email == email
    {
      KeyIsMeans(EmailOf, email);
      r := FindFirst(online, rows, KeyIs(EmailOf, email));
    }

    /** `exists_by_email`: true exactly when some stored user has that address, which
        is exactly when `find_by_email` finds one. */
    method ExistsByEmail(email: string) returns (r: bool)
      ensures r == (online && Select(rows, KeyIs(EmailOf, email)) != [])
      ensures r <==> online && exists i :: 0 <= i < |rows| && rows[i].email == email
    {
      if !online {
        return false;
      }
      KeyIsMeans(EmailOf, email);
      SelectEmpty(rows, KeyIs(EmailOf, email));
      r := |Select(rows, KeyIs(EmailOf, email))| > 0;
    }

    /** `delete`: true exactly when the user existed; afterwards the id selects nothing
        and every other user's row is as it was. */
    method Delete(id: string) returns (found: bool)
      requires Valid()
      modifies this
      ensures Valid() && online == old(online)
      ensures !online ==> rows == old(rows) && !found
      ensures online ==> rows == Reject(old(rows), KeyIs(UserIdOf, id))
      ensures online ==> (found <==> exists i :: 0 <= i < |old(rows)| && old(rows)[i].id == id)
      ensures online ==> Select(rows, KeyIs(UserIdOf, id)) == []
      ensures online ==> forall v :: v != id ==>
                Select(rows, KeyIs(UserIdOf, v)) == Select(old(rows), KeyIs(UserIdOf, v))
    {
      if !online {
        return false;
      }
      KeyIsMeans(UserIdOf, id);
      SelectEmpty(rows, KeyIs(UserIdOf, id));
      found := |Select(rows, KeyIs(UserIdOf, id))| > 0;
      SelectOfReject(rows, KeyIs(UserIdOf, id));
      forall v | v != id
        ensures Select(Reject(rows, KeyIs(UserIdOf, id)), KeyIs(UserIdOf, v)) ==
                Select(rows, KeyIs(UserIdOf, v))
      {
        SelectOfRejectDisjoint(rows, KeyIs(UserIdOf, id), KeyIs(UserIdOf, v));
      }
      RejectKeepsKeyed(rows, UserIdOf, KeyIs(UserIdOf, id));
      rows := Reject(rows, KeyIs(UserIdOf, id));
    }

    /** `update_metadata`: the given map replaces the stored one wholesale. */
    method UpdateMetadata(id: string, m: Metadata, now: int) returns (found: bool)
      requires Valid()
      modifies this
      ensures Valid() && online == old(online)
      ensures !online ==> rows == old(rows) && !found
      ensures online ==> rows == UpdateWhere(old(rows), KeyIs(UserIdOf, id), SetMetadata(m, now))
      ensures online ==> (found <==> exists i :: 0 <= i < |old(rows)| && old(rows)[i].id == id)
    {
      if !online {
        return false;
      }
      KeyIsMeans(UserIdOf, id);
      SelectEmpty(rows, KeyIs(UserIdOf, id));
      found := |Select(rows, KeyIs(UserIdOf, id))| > 0;
      UpdateKeepsKeyed(rows, UserIdOf, KeyIs(UserIdOf, id), SetMetadata(m, now));
      rows := UpdateWhere(rows, KeyIs(UserIdOf, id), SetMetadata(m, now));
    }

    /** `confirm_email`. */
    method ConfirmEmail(id: string, now: int) returns (found: bool)
      requires Valid()
      modifies this
      ensures Valid() && online == old(online)
      ensures !online ==> rows == old(rows) && !found
      ensures online ==> rows == UpdateWhere(old(rows), KeyIs(UserIdOf, id), ConfirmAt(now))
      ensures online ==> (found <==> exists i :: 0 <= i < |old(rows)| && old(rows)[i].id == id)
    {
      if !online {
        return false;
      }
      KeyIsMeans(UserIdOf, id);
      SelectEmpty(rows, KeyIs(UserIdOf, id));
      found := |Select(rows, KeyIs(UserIdOf, id))| > 0;
      UpdateKeepsKeyed(rows, UserIdOf, KeyIs(UserIdOf, id), ConfirmAt(now));
      rows := UpdateWhere(rows, KeyIs(UserIdOf, id), ConfirmAt(now));
    }

    /** `record_login`. */
    method RecordLogin(id: string, now: int) returns (found: bool)
      requires Valid()
      modifies this
      ensures Valid() && online == old(online)
      ensures !online ==> rows == old(rows) && !found
      ensures online ==> rows == UpdateWhere(old(rows), KeyIs(UserIdOf, id), LoginAt(now))
      ensures online ==> (found <==> exists i :: 0 <= i < |old(rows)| && old(rows)[i].id == id)
    {
      if !online {
        return false;
      }
      KeyIsMeans(UserIdOf, id);
      SelectEmpty(rows, KeyIs(UserIdOf, id));
      found := |Select(rows, KeyIs(UserIdOf, id))| > 0;
      UpdateKeepsKeyed(rows, UserIdOf, KeyIs(UserIdOf, id), LoginAt(now));
      rows := UpdateWhere(rows, KeyIs(UserIdOf, id), LoginAt(now));
    }
  }

  /** `confirm_email` and `record_login` touch only the targeted user's row, and on it
      only the flag or the login instant besides `updated_at`. */
  lemma TargetedUpdates(rows: seq<UserState>, id: string, now: int, i: int)
    requires 0 <= i < |rows|
    ensures var c := UpdateWhere(rows, KeyIs(UserIdOf, id), ConfirmAt(now));
            if rows[i].id == id then c[i] == Confirmed(rows[i], now) else c[i] == rows[i]
    ensures var l := UpdateWhere(rows, KeyIs(UserIdOf, id), LoginAt(now));
            if rows[i].id == id then l[i] == LoggedIn(rows[i], now) else l[i] == rows[i]
  {
    assert KeyIs(UserIdOf, id)(rows[i]) <==> rows[i].id == id;
  }

  /** The repository's `update_metadata` stores exactly the given map, while the
      entity's `update_metadata` merges it: every stored key outside the map is dropped
      by the first and kept, with its value, by the second. */
  lemma WholesaleIsNotMerge(u: UserState, m: Metadata, now: int)
    ensures SetMetadata(m, now)(u).metadata == Some(m)
    ensures forall k :: u.metadata.Some? && k in u.metadata.value && k !in m ==>
              k !in SetMetadata(m, now)(u).metadata.value &&
              k in MetadataMerged(u, m, now).metadata.value &&
              MetadataMerged(u, m, now).metadata.value[k] == u.metadata.value[k]
  {
  }
}
