/** The `Spending` entity: one purchase of `amount` units of `product` at `store`
    for `price` each. `price` is a Python float, modelled as `real`. */
module Spendings {
  import opened Wrappers
  import opened PyValues
  import opened Text

  datatype SpendingState = SpendingState(
    itemId: string,
    userId: string,
    date: int,
    store: string,
    product: string,
    amount: int,
    price: real,
    createdAt: int,
    updatedAt: int,
    category: Option<string>,
    notes: Option<string>)

  /** `Spending.create`: the date defaults to `now`; both timestamps are `now`. */
  function Create(itemId: string, userId: string, store: string, product: string, amount: int,
                  price: real, date: Option<int>, category: Option<string>, notes: Option<string>,
                  now: int): (s: SpendingState)
    ensures s.date == (if date.Some? then date.value else now)
    ensures s.createdAt == now && s.updatedAt == now
    ensures s.itemId == itemId && s.userId == userId && s.store == store && s.product == product
    ensures s.amount == amount && s.price == price && s.category == category && s.notes == notes
  {
    SpendingState(itemId, userId, date.GetOr(now), store, product, amount, price, now, now,
                  category, notes)
  }

  /** `total_cost`. */
  function TotalCost(s: SpendingState): (c: real)
    ensures s.amount >= 0 && s.price >= 0.0 ==> c >= 0.0
    ensures s.amount == 0 || s.price == 0.0 ==> c == 0.0
  {
    var c := s.amount as real * s.price;
    assert s.amount >= 0 && s.price >= 0.0 ==> c >= 0.0 by {
      if s.amount >= 0 && s.price >= 0.0 {
        ProductNonNegative(s.amount as real, s.price);
      }
    }
    c
  }

  /** `is_valid`: a positive amount, a non-negative price, and a store, a product and an
      owner whose stripped text is not empty. */
  predicate IsValid(s: SpendingState) {
    s.amount > 0 && s.price >= 0.0 &&
    |Strip(s.store)| > 0 && |Strip(s.product)| > 0 && |Strip(s.userId)| > 0
  }

  /** `is_valid` in plain terms: the three texts each hold a non-whitespace character. */
  lemma IsValidIff(s: SpendingState)
    ensures IsValid(s) <==>
      s.amount > 0 && s.price >= 0.0 &&
      HasNonSpace(s.store) && HasNonSpace(s.product) && HasNonSpace(s.userId)
  {
    StripNonEmptyIff(s.store);
    StripNonEmptyIff(s.product);
    StripNonEmptyIff(s.userId);
  }

  lemma ProductNonNegative(a: real, b: real)
    requires a >= 0.0 && b >= 0.0
    ensures a * b >= 0.0
  {
  }

  /** A valid record never costs less than nothing. */
  lemma ValidTotalCostNonNegative(s: SpendingState)
    requires IsValid(s)
    ensures TotalCost(s) >= 0.0
  {
    ProductNonNegative(s.amount as real, s.price);
  }

  /** The in-place entity object, with the dataclass's fields. */
  class Spending {
    var itemId: string
    var userId: string
    var date: int
    var store: string
    var product: string
    var amount: int
    var price: real
    var createdAt: int
    var updatedAt: int
    var category: Option<string>
    var notes: Option<string>

    function State(): SpendingState
      reads this
    {
      SpendingState(itemId, userId, date, store, product, amount, price, createdAt, updatedAt,
                    category, notes)
    }

    constructor (st: SpendingState)
      ensures State() == st
    {
      itemId, userId, date, store, product := st.itemId, st.userId, st.date, st.store, st.product;
      amount, price, createdAt, updatedAt := st.amount, st.price, st.createdAt, st.updatedAt;
      category, notes := st.category, st.notes;
    }

    /** `update`: every argument that is not `None` replaces its field; the id, the
        owner and `created_at` never change; `updated_at` is always `now`. */
    method Update(newStore: Option<string>, newProduct: Option<string>, newAmount: Option<int>,
                  newPrice: Option<real>, newDate: Option<int>, newCategory: Option<string>,
                  newNotes: Option<string>, now: int)
      modifies this
      ensures State() == Updated(old(State()), newStore, newProduct, newAmount, newPrice, newDate,
                                 newCategory, newNotes, now)
    {
      var u := Updated(State(), newStore, newProduct, newAmount, newPrice, newDate, newCategory,
                       newNotes, now);
      date, store, product, amount, price := u.date, u.store, u.product, u.amount, u.price;
      category, notes, updatedAt := u.category, u.notes, u.updatedAt;
    }
  }

  /** The record `update` leaves behind. */
  function Updated(s: SpendingState, newStore: Option<string>, newProduct: Option<string>,
                   newAmount: Option<int>, newPrice: Option<real>, newDate: Option<int>,
                   newCategory: Option<string>, newNotes: Option<string>, now: int): (r: SpendingState)
    ensures r.itemId == s.itemId && r.userId == s.userId && r.createdAt == s.createdAt
    ensures r.updatedAt == now
    ensures r.store == newStore.GetOr(s.store) && r.product == newProduct.GetOr(s.product)
    ensures r.amount == newAmount.GetOr(s.amount) && r.price == newPrice.GetOr(s.price)
    ensures r.date == newDate.GetOr(s.date)
    ensures r.category == (if newCategory.Some? then newCategory else s.category)
    ensures r.notes == (if newNotes.Some? then newNotes else s.notes)
  {
    SpendingState(s.itemId, s.userId, newDate.GetOr(s.date), newStore.GetOr(s.store),
                  newProduct.GetOr(s.product), newAmount.GetOr(s.amount), newPrice.GetOr(s.price),
                  s.createdAt, now, if newCategory.Some? then newCategory else s.category,
                  if newNotes.Some? then newNotes else s.notes)
  }

  /** With every argument `None`, `update` only moves `updated_at`. */
  lemma UpdateNothingTouchesOnlyTimestamp(s: SpendingState, now: int)
    ensures Updated(s, None, None, None, None, None, None, None, now) == s.(updatedAt := now)
  {
  }

  /** `to_dict`, with the derived `total_cost` key. */
  function ToDict(s: SpendingState): (d: Dict)
    ensures d.Keys == ReadKeys + {"total_cost"}
    ensures d["total_cost"] == Real(TotalCost(s))
    ensures d["category"].NoneValue? <==> s.category.None?
    ensures d["notes"].NoneValue? <==> s.notes.None?
  {
    map[
      "item_id" := Str(s.itemId),
      "user_id" := Str(s.userId),
      "date" := Time(s.date),
      "store" := Str(s.store),
      "product" := Str(s.product),
      "amount" := Int(s.amount),
      "price" := Real(s.price),
      "category" := OptStr(s.category),
      "notes" := OptStr(s.notes),
      "created_at" := Time(s.createdAt),
      "updated_at" := Time(s.updatedAt),
      "total_cost" := Real(TotalCost(s))
    ]
  }

  const ReadKeys: set<string> := {"item_id", "user_id", "date", "store", "product", "amount",
                                  "price", "category", "notes", "created_at", "updated_at"}

  predicate WellFormed(d: Dict) {
    && StrAt(d, "item_id") && StrAt(d, "user_id") && TimeAt(d, "date")
    && StrAt(d, "store") && StrAt(d, "product")
    && "amount" in d && d["amount"].Int? && "price" in d && d["price"].Real?
    && OptStrAt(d, "category") && OptStrAt(d, "notes")
    && TimeAt(d, "created_at") && TimeAt(d, "updated_at")
  }

  /** `from_dict`: `None` where Python raises; a missing category or note is `None`. */
  function FromDict(d: Dict): (r: Option<SpendingState>)
    ensures r.Some? <==> WellFormed(d)
  {
    if !WellFormed(d) then None
    else Some(SpendingState(
      d["item_id"].s, d["user_id"].s, d["date"].t, d["store"].s, d["product"].s,
      d["amount"].i, d["price"].r, d["created_at"].t, d["updated_at"].t,
      GetOptStr(d, "category"), GetOptStr(d, "notes")))
  }

  /** `from_dict(to_dict(s)) == s`. */
  lemma DictRoundTrip(s: SpendingState)
    ensures FromDict(ToDict(s)) == Some(s)
  {
  }

  /** The derived `total_cost` key, like every key `from_dict` does not read, is ignored. */
  lemma FromDictIgnoresOtherKeys(d: Dict, key: string, v: Value)
    requires key !in ReadKeys
    ensures FromDict(d[key := v]) == FromDict(d)
  {
    assert forall k :: k in ReadKeys ==> (k in d[key := v] <==> k in d);
    assert forall k :: k in ReadKeys && k in d ==> d[key := v][k] == d[k];
  }
}
