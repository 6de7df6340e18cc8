/** A table of rows and the query-builder operations the repositories chain on it:
    `select().eq(...)`, `update(...).eq(...)`, `delete().eq(...)/.lt(...)` and
    `upsert(...)`. A chain of filters is one predicate on a row; `execute().data`
    of an update or a delete is the list of rows it touched, so its length is the
    number of rows the filter matched. */
module Tables {
  import opened Wrappers

  /** `select("*")` with a filter: the matching rows, in table order. */
  function Select<R(!new)>(rows: seq<R>, p: R -> bool): (r: seq<R>)
    ensures |r| <= |rows|
    ensures forall x :: x in r <==> x in rows && p(x)
  {
    if rows == [] then []
    else (if p(rows[0]) then [rows[0]] else []) + Select(rows[1..], p)
  }

  /** What `delete()` with a filter leaves behind: the rows that do not match. */
  function Reject<R(!new)>(rows: seq<R>, p: R -> bool): (r: seq<R>)
    ensures |r| <= |rows|
    ensures forall x :: x in r <==> x in rows && !p(x)
  {
    if rows == [] then []
    else (if p(rows[0]) then [] else [rows[0]]) + Reject(rows[1..], p)
  }

  /** `update(...)` with a filter: each matching row is rewritten by `f`, in place. */
  function UpdateWhere<R(!new)>(rows: seq<R>, p: R -> bool, f: R -> R): (r: seq<R>)
    ensures |r| == |rows|
    ensures forall i :: 0 <= i < |rows| ==> r[i] == (if p(rows[i]) then f(rows[i]) else rows[i])
  {
    seq(|rows|, i requires 0 <= i < |rows| => if p(rows[i]) then f(rows[i]) else rows[i])
  }

  /** `result.data[0] if result.data else None`. */
  function First<R(!new)>(rows: seq<R>): (r: Option<R>)
    ensures r.None? <==> rows == []
    ensures r.Some? ==> r.value == rows[0]
  {
    if rows == [] then None else Some(rows[0])
  }

  /** A `find_*` call: the first matching row, or `None` when the client raises. */
  function FindFirst<R(!new)>(online: bool, rows: seq<R>, p: R -> bool): (r: Option<R>)
    ensures r.Some? ==> online && r.value in rows && p(r.value)
    ensures r.None? <==> !online || forall i :: 0 <= i < |rows| ==> !p(rows[i])
  {
    SelectEmpty(rows, p);
    if online && Select(rows, p) != [] then
      assert Select(rows, p)[0] in Select(rows, p);
      Some(Select(rows, p)[0])
    else None
  }

  /** The filter `.eq(column, k)` for the column that `key` reads. */
  function KeyIs<R(!new), K(==)>(key: R -> K, k: K): R -> bool {
    x => key(x) == k
  }

  /** `KeyIs(key, k)` holds of the rows whose key is `k`. */
  lemma KeyIsMeans<R(!new), K>(key: R -> K, k: K)
    ensures forall x :: KeyIs(key, k)(x) <==> key(x) == k
  {
  }

  /** No two rows share a key: the table's primary key. */
  predicate KeyedBy<R(!new), K(==)>(rows: seq<R>, key: R -> K) {
    forall i, j :: 0 <= i < |rows| && 0 <= j < |rows| && key(rows[i]) == key(rows[j]) ==> i == j
  }

  /** `upsert(y)`: the row with `y`'s key is replaced by `y`, or `y` is appended. */
  function Upsert<R(!new), K(==)>(rows: seq<R>, key: R -> K, y: R): (r: seq<R>)
    ensures Select(rows, KeyIs(key, key(y))) == [] ==> r == rows + [y]
    ensures Select(rows, KeyIs(key, key(y))) != [] ==> r == UpdateWhere(rows, KeyIs(key, key(y)), _ => y)
  {
    if Select(rows, KeyIs(key, key(y))) == [] then rows + [y]
    else UpdateWhere(rows, KeyIs(key, key(y)), _ => y)
  }

  /** Every row of a table is matched or not: the two parts add up. */
  lemma {:induction false} SelectRejectCount<R(!new)>(rows: seq<R>, p: R -> bool)
    ensures |Select(rows, p)| + |Reject(rows, p)| == |rows|
  {
    if rows != [] {
      SelectRejectCount(rows[1..], p);
    }
  }

  /** A filter that matches no row selects nothing. */
  lemma SelectNone<R(!new)>(rows: seq<R>, p: R -> bool)
    requires forall i :: 0 <= i < |rows| ==> !p(rows[i])
    ensures Select(rows, p) == []
  {
  }

  /** A filter selects nothing exactly when it matches no row. */
  lemma SelectEmpty<R(!new)>(rows: seq<R>, p: R -> bool)
    ensures Select(rows, p) == [] <==> forall i :: 0 <= i < |rows| ==> !p(rows[i])
  {
    if Select(rows, p) == [] {
      assert forall i :: 0 <= i < |rows| ==> rows[i] in rows;
    } else {
      assert Select(rows, p)[0] in Select(rows, p);
    }
  }

  /** After a delete, the same filter matches nothing. */
  lemma SelectOfReject<R(!new)>(rows: seq<R>, p: R -> bool)
    ensures Select(Reject(rows, p), p) == []
  {
    var r := Reject(rows, p);
    assert forall i :: 0 <= i < |r| ==> r[i] in r;
    SelectNone(r, p);
  }

  /** A delete leaves the rows of a disjoint filter exactly as they were, in order. */
  lemma {:induction false} SelectOfRejectDisjoint<R(!new)>(rows: seq<R>, p: R -> bool, q: R -> bool)
    requires forall x :: q(x) ==> !p(x)
    ensures Select(Reject(rows, p), q) == Select(rows, q)
  {
    if rows != [] {
      SelectOfRejectDisjoint(rows[1..], p, q);
      if p(rows[0]) {
        assert Reject(rows, p) == Reject(rows[1..], p);
      } else {
        assert Reject(rows, p) == [rows[0]] + Reject(rows[1..], p);
        assert Reject(rows, p)[1..] == Reject(rows[1..], p);
      }
    }
  }

  /** An update whose rewrite falsifies its own filter leaves no matching row: a
      second identical update touches nothing. */
  lemma UpdateFalsifies<R(!new)>(rows: seq<R>, p: R -> bool, f: R -> R)
    requires forall x :: p(x) ==> !p(f(x))
    ensures Select(UpdateWhere(rows, p, f), p) == []
  {
    var r := UpdateWhere(rows, p, f);
    forall i | 0 <= i < |r|
      ensures !p(r[i])
    {
      if p(rows[i]) {
        assert r[i] == f(rows[i]);
      }
    }
    SelectNone(r, p);
  }

  /** An update leaves the rows of a filter that neither its matches nor their
      rewrites satisfy exactly as they were, in order. */
  lemma {:induction false} SelectOfUpdateDisjoint<R(!new)>(rows: seq<R>, p: R -> bool, f: R -> R,
                                                    q: R -> bool)
    requires forall x :: p(x) ==> !q(x) && !q(f(x))
    ensures Select(UpdateWhere(rows, p, f), q) == Select(rows, q)
  {
    if rows != [] {
      var r := UpdateWhere(rows, p, f);
      assert r[1..] == UpdateWhere(rows[1..], p, f);
      SelectOfUpdateDisjoint(rows[1..], p, f, q);
      assert r == [r[0]] + r[1..];
    }
  }

  /** Under a primary key, the rows with key `k` are at most one. */
  lemma {:induction false} KeyedSelect<R(!new), K>(rows: seq<R>, key: R -> K, k: K)
    requires KeyedBy(rows, key)
    ensures |Select(rows, KeyIs(key, k))| <= 1
  {
    if rows != [] {
      assert KeyedBy(rows[1..], key) by {
        forall i, j | 0 <= i < |rows| - 1 && 0 <= j < |rows| - 1 && key(rows[1..][i]) == key(rows[1..][j])
          ensures i == j
        {
          assert rows[1..][i] == rows[i + 1] && rows[1..][j] == rows[j + 1];
        }
      }
      KeyedSelect(rows[1..], key, k);
      if key(rows[0]) == k {
        forall i | 0 <= i < |rows| - 1
          ensures key(rows[1..][i]) != k
        {
          assert rows[1..][i] == rows[i + 1];
        }
        SelectNone(rows[1..], KeyIs(key, k));
      }
    }
  }

  /** `upsert` keeps the primary key, and afterwards the row with `y`'s key is `y`
      alone; rows with other keys are untouched. */
  lemma UpsertFinds<R(!new), K>(rows: seq<R>, key: R -> K, y: R)
    requires KeyedBy(rows, key)
    ensures KeyedBy(Upsert(rows, key, y), key)
    ensures Select(Upsert(rows, key, y), KeyIs(key, key(y))) == [y]
    ensures forall k :: k != key(y) ==>
              Select(Upsert(rows, key, y), KeyIs(key, k)) == Select(rows, KeyIs(key, k))
  {
    if Select(rows, KeyIs(key, key(y))) == [] {
      AppendedFinds(rows, key, y);
    } else {
      ReplacedFinds(rows, key, y);
    }
  }

  /** The insert half of `UpsertFinds`. */
  lemma AppendedFinds<R(!new), K>(rows: seq<R>, key: R -> K, y: R)
    requires KeyedBy(rows, key) && Select(rows, KeyIs(key, key(y))) == []
    ensures KeyedBy(rows + [y], key)
    ensures Select(rows + [y], KeyIs(key, key(y))) == [y]
    ensures forall k :: k != key(y) ==> Select(rows + [y], KeyIs(key, k)) == Select(rows, KeyIs(key, k))
  {
    var p := KeyIs(key, key(y));
    SelectAppend(rows, p, y);
    forall k | k != key(y)
      ensures Select(rows + [y], KeyIs(key, k)) == Select(rows, KeyIs(key, k))
    {
      SelectAppend(rows, KeyIs(key, k), y);
    }
    SelectEmpty(rows, p);
  }

  /** The replace half of `UpsertFinds`. */
  lemma ReplacedFinds<R(!new), K>(rows: seq<R>, key: R -> K, y: R)
    requires KeyedBy(rows, key) && Select(rows, KeyIs(key, key(y))) != []
    ensures var r := UpdateWhere(rows, KeyIs(key, key(y)), _ => y);
            KeyedBy(r, key) && Select(r, KeyIs(key, key(y))) == [y] &&
            forall k :: k != key(y) ==> Select(r, KeyIs(key, k)) == Select(rows, KeyIs(key, k))
  {
    var p := KeyIs(key, key(y));
    var r := UpdateWhere(rows, p, _ => y);
    var x := Select(rows, p)[0];
    assert x in Select(rows, p);
    var i0 :| 0 <= i0 < |rows| && rows[i0] == x;
    assert forall i :: 0 <= i < |r| ==> r[i] == (if i == i0 then y else rows[i]);
    KeyedSelect(r, key, key(y));
    assert y in Select(r, p) by { assert r[i0] == y; }
    forall k | k != key(y)
      ensures Select(r, KeyIs(key, k)) == Select(rows, KeyIs(key, k))
    {
      SelectOfUpdateDisjoint(rows, p, _ => y, KeyIs(key, k));
    }
  }

  /** Selecting from a table with one row appended at the end. */
  lemma {:induction false} SelectAppend<R(!new)>(rows: seq<R>, p: R -> bool, y: R)
    ensures Select(rows + [y], p) == Select(rows, p) + (if p(y) then [y] else [])
  {
    if rows == [] {
      assert [y][1..] == [];
    } else {
      assert (rows + [y])[1..] == rows[1..] + [y];
      SelectAppend(rows[1..], p, y);
    }
  }

  /** An update that never rewrites the key column keeps the primary key. */
  lemma UpdateKeepsKeyed<R(!new), K>(rows: seq<R>, key: R -> K, p: R -> bool, f: R -> R)
    requires KeyedBy(rows, key)
    requires forall x :: key(f(x)) == key(x)
    ensures KeyedBy(UpdateWhere(rows, p, f), key)
  {
    var r := UpdateWhere(rows, p, f);
    assert forall i :: 0 <= i < |r| ==> key(r[i]) == key(rows[i]);
  }

  /** A delete keeps the primary key. */
  lemma {:induction false} RejectKeepsKeyed<R(!new), K>(rows: seq<R>, key: R -> K, p: R -> bool)
    requires KeyedBy(rows, key)
    ensures KeyedBy(Reject(rows, p), key)
  {
    if rows != [] {
      var tail := rows[1..];
      assert KeyedBy(tail, key) by {
        forall i, j | 0 <= i < |tail| && 0 <= j < |tail| && key(tail[i]) == key(tail[j])
          ensures i == j
        {
          assert tail[i] == rows[i + 1] && tail[j] == rows[j + 1];
        }
      }
      RejectKeepsKeyed(tail, key, p);
      var rest := Reject(tail, p);
      if !p(rows[0]) {
        forall i | 0 <= i < |rest|
          ensures key(rest[i]) != key(rows[0])
        {
          assert rest[i] in tail;
          var j :| 0 <= j < |tail| && tail[j] == rest[i];
          assert tail[j] == rows[j + 1];
        }
        var r := Reject(rows, p);
        assert r == [rows[0]] + rest;
        forall i, j | 0 <= i < |r| && 0 <= j < |r| && key(r[i]) == key(r[j])
          ensures i == j
        {
          if i > 0 && j > 0 {
            assert r[i] == rest[i - 1] && r[j] == rest[j - 1];
          }
        }
      }
    }
  }
}
