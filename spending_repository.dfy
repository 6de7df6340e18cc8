/** The `spendings` table, as far as the spending use cases query it: rows keyed by
    `item_id`, with the same `online` convention as the other tables. */
module SpendingRepositories {
  import opened Wrappers
  import opened Tables
  import opened Spendings

  function ItemIdOf(s: SpendingState): string { s.itemId }

  /** `.eq("user_id", u).eq("category", c)`. */
  function InCategory(u: string, c: string): SpendingState -> bool {
    (s: SpendingState) => s.userId == u && s.category == Some(c)
  }

  /** `record["category"]` is truthy: present and not empty. */
  predicate HasCategory(s: SpendingState) {
    s.category.Some? && s.category.value != ""
  }

  /** The categories the user has recorded, as a set. */
  function CategorySet(rows: seq<SpendingState>, u: string): set<string> {
    set s | s in rows && s.userId == u && HasCategory(s) :: s.category.value
  }

  /** The distinct truthy categories of the user's rows, in the order they first occur. */
  function Categories(rows: seq<SpendingState>, u: string): (r: seq<string>)
    ensures forall i, j :: 0 <= i < j < |r| ==> r[i] != r[j]
    ensures forall c :: c in r <==> c in CategorySet(rows, u)
    ensures forall i :: 0 <= i < |r| ==> r[i] != ""
  {
    if rows == [] then []
    else
      var s := rows[|rows| - 1];
      var init := Categories(rows[..|rows| - 1], u);
      assert rows == rows[..|rows| - 1] + [s];
      if s.userId == u && HasCategory(s) && s.category.value !in init then init + [s.category.value]
      else init
  }

  /** `sum(float(record["price"]) ...)`, in exact arithmetic. */
  function SumPrices(rows: seq<SpendingState>): real {
    if rows == [] then 0.0 else rows[0].price + SumPrices(rows[1..])
  }

  /** The row `save` writes, as for the other tables. */
  function Stored(rows: seq<SpendingState>, s: SpendingState, now: int): (r: SpendingState)
    ensures r.(createdAt := s.createdAt, updatedAt := s.updatedAt) == s
    ensures r.updatedAt == now
  {
    var existing := First(Select(rows, KeyIs(ItemIdOf, s.itemId)));
    s.(createdAt := if existing.Some? then existing.value.createdAt else now, updatedAt := now)
  }

  const SaveFailure: string := "Failed to save spending"

  class SpendingRepository {
    var rows: seq<SpendingState>
    var online: bool

    /** `item_id` is the table's primary key. */
    predicate Valid()
      reads this
    {
      KeyedBy(rows, ItemIdOf)
    }

    constructor (initial: seq<SpendingState>, reachable: bool)
      requires KeyedBy(initial, ItemIdOf)
      ensures rows == initial && online == reachable && Valid()
    {
      rows, online := initial, reachable;
    }

    /** `save`: an upsert by `item_id`. */
    method Save(s: SpendingState, now: int) returns (r: Result<SpendingState, string>)
      requires Valid()
      modifies this
      ensures Valid() && online == old(online)
      ensures !online ==> rows == old(rows) && r == Failure(SaveFailure)
      ensures online ==> r == Success(Stored(old(rows), s, now))
      ensures online ==> rows == Upsert(old(rows), ItemIdOf, r.value)
      ensures online ==> Select(rows, KeyIs(ItemIdOf, s.itemId)) == [r.value]
    {
      if !online {
        return Failure(SaveFailure);
      }
      var y := Stored(rows, s, now);
      UpsertFinds(rows, ItemIdOf, y);
      rows := Upsert(rows, ItemIdOf, y);
      return Success(y);
    }

    /** `find_by_id`. */
    method FindById(id: string) returns (r: Option<SpendingState>)
      ensures r == FindFirst(online, rows, KeyIs(ItemIdOf, id))
      ensures r.Some? ==> r.value in rows && r.value.itemId == id
      ensures r.Some? <==> online && exists i :: 0 <= i < |rows| && rows[i].itemId == id
    {
      KeyIsMeans(ItemIdOf, id);
      r := FindFirst(online, rows, KeyIs(ItemIdOf, id));
    }

    /** `delete`: true exactly when the record existed. */
    method Delete(id: string) returns (found: bool)
      requires Valid()
      modifies this
      ensures Valid() && online == old(online)
      ensures !online ==> rows == old(rows) && !found
      ensures online ==> rows == Reject(old(rows), KeyIs(ItemIdOf, id))
      ensures online ==> (found <==> exists i :: 0 <= i < |old(rows)| && old(rows)[i].itemId == id)
    {
      if !online {
        return false;
      }
      KeyIsMeans(ItemIdOf, id);
      SelectEmpty(rows, KeyIs(ItemIdOf, id));
      found := |Select(rows, KeyIs(ItemIdOf, id))| > 0;
      RejectKeepsKeyed(rows, ItemIdOf, KeyIs(ItemIdOf, id));
      rows := Reject(rows, KeyIs(ItemIdOf, id));
    }

    /** `get_categories_by_user_id`: each truthy category of the user once. */
    method GetCategoriesByUserId(u: string) returns (r: seq<string>)
      ensures r == (if online then Categories(rows, u) else [])
      ensures forall c :: c in r <==> online && c in CategorySet(rows, u)
      ensures forall i :: 0 <= i < |r| ==> r[i] != ""
    {
      if !online {
        return [];
      }
      r := Categories(rows, u);
    }

    /** `sum_by_user_and_category`: the prices of the user's rows in that category. */
    method SumByUserAndCategory(u: string, c: string) returns (total: real)
      ensures total == (if online then SumPrices(Select(rows, InCategory(u, c))) else 0.0)
    {
      if !online {
        return 0.0;
      }
      total := SumPrices(Select(rows, InCategory(u, c)));
    }
  }
}
