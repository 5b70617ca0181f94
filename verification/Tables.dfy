/** What every table of the model shares: identifiers, nullable columns, row order. */
module Tables {
  datatype Option<+T> = None | Some(value: T)

  type Id = nat
  type Outlet = nat

  datatype Status = Active | Archived

  /** A row of a per-outlet item table: its key, the outlet it stands at, its other columns. */
  datatype Row<+T> = Row(id: Id, outlet: Outlet, cols: T)

  /** The result of `ORDER BY id` on a table with a primary key. */
  ghost predicate Ascending<T>(rows: seq<Row<T>>) {
    forall i, j :: 0 <= i < j < |rows| ==> rows[i].id < rows[j].id
  }

  lemma SameIdSameRow<T>(rows: seq<Row<T>>, x: Row<T>, y: Row<T>)
    requires Ascending(rows) && x in rows && y in rows && x.id == y.id
    ensures x == y
  {
  }

  /** What JavaScript counts as a text: neither null nor empty. */
  predicate Truthy(text: Option<string>) {
    text.Some? && text.value != ""
  }

  /** `pos_menu_item_components` under its key (menu item, stock item). */
  type Recipes = map<(Id, Id), string>

  // ----- tables keyed by id -----

  function Lookup<K(==), V>(m: map<K, V>, k: K): Option<V> {
    if k in m then Some(m[k]) else None
  }

  ghost predicate Keyed<T>(table: map<Id, Row<T>>) {
    forall id :: id in table ==> table[id].id == id
  }

  predicate IsLowest(m: Id, ids: set<Id>) {
    m in ids && forall x :: x in ids ==> m <= x
  }

  lemma {:induction false} LowestExists(ids: set<Id>, y: Id)
    requires y in ids
    ensures exists m :: IsLowest(m, ids)
  {
    if x :| x in ids && x < y {
      LowestExists(ids, x);
    } else {
      assert IsLowest(y, ids);
    }
  }

  lemma HasLowest(ids: set<Id>)
    requires ids != {}
    ensures exists m :: IsLowest(m, ids)
    ensures forall m, n :: IsLowest(m, ids) && IsLowest(n, ids) ==> m == n
  {
    var y :| y in ids;
    LowestExists(ids, y);
  }

  function SortedIds(ids: set<Id>): seq<Id> {
    if ids == {} then []
    else
      HasLowest(ids);
      var m :| IsLowest(m, ids);
      [m] + SortedIds(ids - {m})
  }

  lemma {:induction false} SortedIdsFacts(ids: set<Id>)
    ensures forall x :: x in SortedIds(ids) <==> x in ids
    ensures forall i, j :: 0 <= i < j < |SortedIds(ids)| ==> SortedIds(ids)[i] < SortedIds(ids)[j]
  {
    if ids != {} {
      HasLowest(ids);
      var m := SortedIds(ids)[0];
      assert IsLowest(m, ids);
      var rest := SortedIds(ids - {m});
      assert SortedIds(ids) == [m] + rest;
      SortedIdsFacts(ids - {m});
      assert forall i :: 0 <= i < |rest| ==> rest[i] in ids - {m};
    }
  }

  /** `SELECT ... WHERE p ORDER BY id`. */
  function Select<T>(table: map<Id, Row<T>>, p: Row<T> -> bool): seq<Row<T>> {
    var ids := SortedIds(set id | id in table && p(table[id]));
    SortedIdsFacts(set id | id in table && p(table[id]));
    seq(|ids|, i requires 0 <= i < |ids| => assert ids[i] in ids; table[ids[i]])
  }

  lemma SelectFacts<T>(table: map<Id, Row<T>>, p: Row<T> -> bool)
    requires Keyed(table)
    ensures Ascending(Select(table, p))
    ensures forall x: Row<T> :: x in Select(table, p) <==> x.id in table && table[x.id] == x && p(x)
  {
    var chosen := set id | id in table && p(table[id]);
    var ids, rows := SortedIds(chosen), Select(table, p);
    SortedIdsFacts(chosen);
    assert forall i :: 0 <= i < |ids| ==> ids[i] in ids && rows[i] == table[ids[i]];
    forall x: Row<T> | x.id in table && table[x.id] == x && p(x) ensures x in rows {
      assert x.id in ids;
      var i :| 0 <= i < |ids| && ids[i] == x.id;
      assert rows[i] == x;
    }
  }
}
