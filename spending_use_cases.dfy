/** The spending use cases: adding, reading, updating and deleting a user's spending
    records behind an ownership check, and the per-category summary. Each raised domain
    exception becomes a `Failure`; the exception `save` raises when the client fails
    becomes `Storage`. */
module SpendingUseCases {
  import opened Wrappers
  import opened Tables
  import opened Spendings
  import opened SpendingRepositories

  /** The domain exceptions of the spending use cases, with their messages. */
  datatype SpendingError =
    | SpendingNotFound(message: string)
    | InvalidSpendingData(message: string)
    | UnauthorizedSpendingAccess(message: string)
    | Storage(message: string)

  const InvalidDataMessage: string := "Invalid spending data provided"
  const UnauthorizedMessage: string := "User does not have access to this spending record"

  /** The checks of `get_spending_by_id` on the record `find_by_id` returned: absence
      first, then ownership. */
  function OwnedLookup(found: Option<SpendingState>, itemId: string, userId: string)
    : (r: Result<SpendingState, SpendingError>)
    ensures r.Success? <==> found.Some? && found.value.userId == userId
    ensures r.Success? ==> r.value == found.value
    ensures found.None? ==> r == Failure(SpendingNotFound("Spending record " + itemId + " not found"))
    ensures found.Some? && found.value.userId != userId ==>
              r == Failure(UnauthorizedSpendingAccess(UnauthorizedMessage))
  {
    if found.None? then Failure(SpendingNotFound("Spending record " + itemId + " not found"))
    else if found.value.userId != userId then Failure(UnauthorizedSpendingAccess(UnauthorizedMessage))
    else Success(found.value)
  }

  /** `get_spending_by_id` evaluated on a table. */
  function Lookup(online: bool, rows: seq<SpendingState>, itemId: string, userId: string)
    : Result<SpendingState, SpendingError>
  {
    OwnedLookup(FindFirst(online, rows, KeyIs(ItemIdOf, itemId)), itemId, userId)
  }

  /** Under the primary key, the lookup succeeds exactly when the table holds a record
      with that id owned by that user, and then returns that record. */
  lemma LookupMeans(online: bool, rows: seq<SpendingState>, itemId: string, userId: string)
    requires KeyedBy(rows, ItemIdOf)
    ensures Lookup(online, rows, itemId, userId).Success? <==>
              online && exists i :: 0 <= i < |rows| && rows[i].itemId == itemId && rows[i].userId == userId
    ensures Lookup(online, rows, itemId, userId).Success? ==>
              var s := Lookup(online, rows, itemId, userId).value;
              s in rows && s.itemId == itemId && s.userId == userId
  {
    KeyIsMeans(ItemIdOf, itemId);
    var found := FindFirst(online, rows, KeyIs(ItemIdOf, itemId));
    if exists i :: 0 <= i < |rows| && rows[i].itemId == itemId && rows[i].userId == userId {
      var i :| 0 <= i < |rows| && rows[i].itemId == itemId && rows[i].userId == userId;
      if online {
        assert found.Some?;
        var j :| 0 <= j < |rows| && rows[j] == found.value;
        assert ItemIdOf(rows[j]) == ItemIdOf(rows[i]);
      }
    }
  }

  class SpendingUseCases {
    const repository: SpendingRepository

    predicate Valid()
      reads repository
    {
      repository.Valid()
    }

    constructor (spendingRepository: SpendingRepository)
      ensures repository == spendingRepository
    {
      repository := spendingRepository;
    }

    /** `add_spending`: a record that fails `is_valid` is refused and nothing is saved;
        otherwise the new record is saved. */
    method AddSpending(userId: string, store: string, product: string, amount: int, price: real,
                       date: Option<int>, category: Option<string>, notes: Option<string>,
                       newId: string, now: int)
      returns (r: Result<SpendingState, SpendingError>)
      requires Valid()
      modifies repository
      ensures Valid() && repository.online == old(repository.online)
      ensures var s := Create(newId, userId, store, product, amount, price, date, category, notes, now);
              (!IsValid(s) ==> r == Failure(InvalidSpendingData(InvalidDataMessage)) &&
                               repository.rows == old(repository.rows)) &&
              (IsValid(s) && !repository.online ==>
                 r == Failure(Storage(SaveFailure)) && repository.rows == old(repository.rows)) &&
              (IsValid(s) && repository.online ==>
                 r == Success(SpendingRepositories.Stored(old(repository.rows), s, now)) &&
                 repository.rows == Upsert(old(repository.rows), ItemIdOf, r.value))
      ensures r.Success? ==> IsValid(r.value) && r.value.userId == userId && r.value.itemId == newId
    {
      var s := Create(newId, userId, store, product, amount, price, date, category, notes, now);
      if !IsValid(s) {
        return Failure(InvalidSpendingData(InvalidDataMessage));
      }
      var saved := repository.Save(s, now);
      if saved.Failure? {
        return Failure(Storage(saved.error));
      }
      return Success(saved.value);
    }

    /** `get_spending_by_id`: the record, only for its owner. */
    method GetSpendingById(itemId: string, userId: string) returns (r: Result<SpendingState, SpendingError>)
      requires Valid()
      ensures r == Lookup(repository.online, repository.rows, itemId, userId)
      ensures r.Success? <==>
                repository.online &&
                exists i :: 0 <= i < |repository.rows| && repository.rows[i].itemId == itemId &&
                            repository.rows[i].userId == userId
      ensures r.Success? ==> r.value in repository.rows && r.value.itemId == itemId && r.value.userId == userId
    {
      var found := repository.FindById(itemId);
      LookupMeans(repository.online, repository.rows, itemId, userId);
      r := OwnedLookup(found, itemId, userId);
    }

    /** `update_spending`: ownership is checked first; an update that leaves the record
        invalid is refused and nothing is saved; otherwise the updated record is saved. */
    method UpdateSpending(itemId: string, userId: string, newStore: Option<string>,
                          newProduct: Option<string>, newAmount: Option<int>, newPrice: Option<real>,
                          newDate: Option<int>, newCategory: Option<string>, newNotes: Option<string>,
                          now: int)
      returns (r: Result<SpendingState, SpendingError>)
      requires Valid()
      modifies repository
      ensures Valid() && repository.online == old(repository.online)
      ensures var found := old(Lookup(repository.online, repository.rows, itemId, userId));
              found.Failure? ==> r == Failure(found.error) && repository.rows == old(repository.rows)
      ensures var found := old(Lookup(repository.online, repository.rows, itemId, userId));
              found.Success? ==>
                var u := Updated(found.value, newStore, newProduct, newAmount, newPrice, newDate,
                                 newCategory, newNotes, now);
                (!IsValid(u) ==> r == Failure(InvalidSpendingData(InvalidDataMessage)) &&
                                 repository.rows == old(repository.rows)) &&
                (IsValid(u) ==> r == Success(SpendingRepositories.Stored(old(repository.rows), u, now)) &&
                                repository.rows == Upsert(old(repository.rows), ItemIdOf, r.value))
      ensures r.Success? ==> IsValid(r.value) && r.value.itemId == itemId && r.value.userId == userId
    {
      var found := GetSpendingById(itemId, userId);
      if found.Failure? {
        return Failure(found.error);
      }
      var spending := new Spending(found.value);
      spending.Update(newStore, newProduct, newAmount, newPrice, newDate, newCategory, newNotes, now);
      if !IsValid(spending.State()) {
        return Failure(InvalidSpendingData(InvalidDataMessage));
      }
      var saved := repository.Save(spending.State(), now);
      assert saved.Success?;
      return Success(saved.value);
    }

    /** `delete_spending`: a missing record or another user's record is refused and the
        table is unchanged; otherwise the record is deleted. */
    method DeleteSpending(itemId: string, userId: string) returns (r: Result<bool, SpendingError>)
      requires Valid()
      modifies repository
      ensures Valid() && repository.online == old(repository.online)
      ensures var found := old(Lookup(repository.online, repository.rows, itemId, userId));
              (found.Failure? ==> r == Failure(found.error) && repository.rows == old(repository.rows)) &&
              (found.Success? ==> r == Success(true) &&
                                  repository.rows == Reject(old(repository.rows), KeyIs(ItemIdOf, itemId)))
    {
      var found := GetSpendingById(itemId, userId);
      if found.Failure? {
        return Failure(found.error);
      }
      var deleted := repository.Delete(itemId);
      return Success(deleted);
    }

    /** `get_category_summary`: one entry per category the user has recorded, holding
        the sum of the prices of the user's records in it. */
    method GetCategorySummary(userId: string) returns (summary: map<string, real>)
      ensures summary.Keys == (if repository.online then CategorySet(repository.rows, userId) else {})
      ensures forall c :: c in summary ==>
                summary[c] == SumPrices(Select(repository.rows, InCategory(userId, c)))
    {
      var categories := repository.GetCategoriesByUserId(userId);
      summary := map[];
      var i := 0;
      while i < |categories|
        invariant 0 <= i <= |categories|
        invariant summary.Keys == set j | 0 <= j < i :: categories[j]
        invariant forall c :: c in summary ==>
                    summary[c] == SumPrices(Select(repository.rows, InCategory(userId, c)))
      {
        var category := categories[i];
        if category != "" {
          assert category in categories;
          var total := repository.SumByUserAndCategory(userId, category);
          summary := summary[category := total];
        }
        i := i + 1;
      }
      assert forall c :: c in summary.Keys <==> c in categories by {
        forall c | c in categories
          ensures c in summary.Keys
        {
          var j :| 0 <= j < |categories| && categories[j] == c;
        }
      }
    }
  }

  /** A non-owner can never read, change or delete a record: for every request by a
      user other than the record's owner the lookup fails. */
  lemma OnlyOwnerPasses(online: bool, rows: seq<SpendingState>, itemId: string, userId: string)
    requires KeyedBy(rows, ItemIdOf)
    requires forall i :: 0 <= i < |rows| && rows[i].itemId == itemId ==> rows[i].userId != userId
    ensures Lookup(online, rows, itemId, userId).Failure?
  {
    LookupMeans(online, rows, itemId, userId);
  }
}
