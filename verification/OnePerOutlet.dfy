/**
 * `planOnePerOutlet`: one group of same-named rows split into sets holding
 * at most one row of each outlet. The loop is proved against `Plan`, whose
 * k-th set holds the k-th row of every outlet that has that many.
 */
module OnePerOutlet {
  import opened Tables

  function Count<T>(rows: seq<Row<T>>, o: Outlet): nat {
    if rows == [] then 0
    else
      Count(rows[..|rows| - 1], o) + if rows[|rows| - 1].outlet == o then 1 else 0
  }

  /** The rows that are their outlet's k-th, counting from 0, in their original order. */
  function Layer<T>(rows: seq<Row<T>>, k: nat): seq<Row<T>> {
    if rows == [] then []
    else
      var init, last := rows[..|rows| - 1], rows[|rows| - 1];
      Layer(init, k) + if Count(init, last.outlet) == k then [last] else []
  }

  /** The largest number of rows any one outlet has. */
  function Height<T>(rows: seq<Row<T>>): nat {
    if rows == [] then 0
    else
      var init, last := rows[..|rows| - 1], rows[|rows| - 1];
      var n := Count(init, last.outlet) + 1;
      if n > Height(init) then n else Height(init)
  }

  function Plan<T>(rows: seq<Row<T>>): (sets: seq<seq<Row<T>>>)
    ensures |sets| == Height(rows)
  {
    seq(Height(rows), k requires 0 <= k => Layer(rows, k))
  }

  ghost predicate DistinctOutlets<T>(rows: seq<Row<T>>) {
    forall i, j :: 0 <= i < j < |rows| ==> rows[i].outlet != rows[j].outlet
  }

  predicate HasOutlet<T>(rows: seq<Row<T>>, o: Outlet) {
    exists i :: 0 <= i < |rows| && rows[i].outlet == o
  }

  method PlanOnePerOutlet<T>(rows: seq<Row<T>>) returns (sets: seq<seq<Row<T>>>)
    ensures sets == Plan(rows)
  {
    sets := [];
    for i := 0 to |rows|
      invariant sets == Plan(rows[..i])
    {
      var row := rows[i];
      ghost var init := rows[..i];
      assert rows[..i + 1][..i] == init;
      LayerOutlets(init, row.outlet);
      HeightBounds(init, row.outlet);
      LayerAboveHeight(init, Height(init));
      // `sets.find(...)`: the first set without a row of this outlet.
      var k := 0;
      while k < |sets| && HasOutlet(sets[k], row.outlet)
        invariant 0 <= k <= |sets|
        invariant k <= Count(init, row.outlet)
      {
        k := k + 1;
      }
      assert k == Count(init, row.outlet);
      assert forall j: nat :: Layer(rows[..i + 1], j) == Layer(init, j) + if j == k then [row] else [];
      if k < |sets| {
        sets := sets[k := sets[k] + [row]];
      } else {
        sets := sets + [[row]];
      }
      assert |sets| == Height(rows[..i + 1]);
      assert forall j :: 0 <= j < |sets| ==> sets[j] == Layer(rows[..i + 1], j);
    }
    assert rows[..|rows|] == rows;
  }

  // ----- what the k-th set holds -----

  lemma {:induction false} LayerOutlets<T>(rows: seq<Row<T>>, o: Outlet)
    ensures forall k: nat :: HasOutlet(Layer(rows, k), o) <==> k < Count(rows, o)
  {
    if rows != [] {
      var init, last := rows[..|rows| - 1], rows[|rows| - 1];
      LayerOutlets(init, o);
      forall k: nat ensures HasOutlet(Layer(rows, k), o) <==> k < Count(rows, o) {
        assert HasOutlet(Layer(init, k), o) <==> k < Count(init, o);
        if HasOutlet(Layer(init, k), o) {
          var x :| x in Layer(init, k) && x.outlet == o;
          assert x in Layer(rows, k);
        }
        if Count(init, last.outlet) == k {
          assert last in Layer(rows, k);
        }
      }
    }
  }

  lemma {:induction false} HeightBounds<T>(rows: seq<Row<T>>, o: Outlet)
    ensures Count(rows, o) <= Height(rows)
  {
    if rows != [] {
      HeightBounds(rows[..|rows| - 1], o);
    }
  }

  lemma {:induction false} HeightAttained<T>(rows: seq<Row<T>>) returns (o: Outlet)
    requires rows != []
    ensures Count(rows, o) == Height(rows)
  {
    var init, last := rows[..|rows| - 1], rows[|rows| - 1];
    if init == [] || Height(rows) == Count(init, last.outlet) + 1 {
      o := last.outlet;
    } else {
      o := HeightAttained(init);
      HeightBounds(rows, o);
    }
  }

  lemma {:induction false} LayerAboveHeight<T>(rows: seq<Row<T>>, k: nat)
    requires Height(rows) <= k
    ensures Layer(rows, k) == []
  {
    if rows != [] {
      LayerAboveHeight(rows[..|rows| - 1], k);
    }
  }

  lemma {:induction false} LayerNonEmpty<T>(rows: seq<Row<T>>, k: nat)
    requires k < Height(rows)
    ensures Layer(rows, k) != []
  {
    var o := HeightAttained(rows);
    LayerOutlets(rows, o);
    assert HasOutlet(Layer(rows, k), o);
  }

  lemma {:induction false} LayerMembers<T>(rows: seq<Row<T>>, k: nat)
    ensures forall x :: x in Layer(rows, k) ==> x in rows
  {
    if rows != [] {
      LayerMembers(rows[..|rows| - 1], k);
    }
  }

  /** Each set keeps the order of the rows, so its head has its lowest id, and holds an outlet once. */
  lemma {:induction false} LayerShape<T>(rows: seq<Row<T>>, k: nat)
    requires Ascending(rows)
    ensures Ascending(Layer(rows, k)) && DistinctOutlets(Layer(rows, k))
  {
    if rows != [] {
      var init, last := rows[..|rows| - 1], rows[|rows| - 1];
      LayerShape(init, k);
      LayerMembers(init, k);
      LayerOutlets(init, last.outlet);
      assert HasOutlet(Layer(init, k), last.outlet) <==> k < Count(init, last.outlet);
      forall x | x in Layer(init, k) ensures x.id < last.id {
        var j :| 0 <= j < |init| && init[j] == x;
      }
    }
  }

  /** The partition: a row lies in exactly one set, numbered by the rows of its outlet before it. */
  lemma {:induction false} RowInItsLayer<T>(rows: seq<Row<T>>, i: nat, k: nat)
    requires Ascending(rows) && i < |rows|
    ensures rows[i] in Layer(rows, k) <==> k == Count(rows[..i], rows[i].outlet)
    ensures Count(rows[..i], rows[i].outlet) < Height(rows)
  {
    var n := |rows| - 1;
    var init := rows[..n];
    LayerMembers(init, k);
    if i < n {
      RowInItsLayer(init, i, k);
      assert init[..i] == rows[..i];
    } else {
      assert rows[i] !in init;
    }
  }

  // ----- no split into one-per-outlet sets uses fewer -----

  ghost predicate Covers<T>(sets: seq<seq<Row<T>>>, rows: seq<Row<T>>) {
    && (forall s :: s in sets ==> DistinctOutlets(s))
    && (forall x :: x in rows ==> exists i :: 0 <= i < |sets| && x in sets[i])
  }

  lemma PlanIsOptimal<T>(rows: seq<Row<T>>, sets: seq<seq<Row<T>>>)
    requires Ascending(rows) && Covers(sets, rows)
    ensures Covers(Plan(rows), rows) && |Plan(rows)| <= |sets|
  {
    forall x | x in rows ensures exists i :: 0 <= i < |Plan(rows)| && x in Plan(rows)[i] {
      var i :| 0 <= i < |rows| && rows[i] == x;
      RowInItsLayer(rows, i, Count(rows[..i], x.outlet));
      assert x in Plan(rows)[Count(rows[..i], x.outlet)];
    }
    forall s | s in Plan(rows) ensures DistinctOutlets(s) {
      var k :| 0 <= k < Height(rows) && s == Layer(rows, k);
      LayerShape(rows, k);
    }
    if rows != [] {
      var o := HeightAttained(rows);
      var used := SetsUsed(rows, o, sets);
      SubsetOfRange(used, |sets|);
    }
  }

  /** The rows of one outlet sit in pairwise different sets. */
  lemma {:induction false} SetsUsed<T>(rows: seq<Row<T>>, o: Outlet, sets: seq<seq<Row<T>>>) returns (used: set<nat>)
    requires Ascending(rows) && Covers(sets, rows)
    ensures |used| == Count(rows, o)
    ensures forall i :: i in used ==> i < |sets| && exists x :: x in sets[i] && x in rows && x.outlet == o
  {
    if rows == [] {
      used := {};
    } else {
      var init, last := rows[..|rows| - 1], rows[|rows| - 1];
      assert forall x :: x in init ==> x in rows;
      used := SetsUsed(init, o, sets);
      if last.outlet == o {
        assert last in rows;
        var i: nat :| i < |sets| && last in sets[i];
        if i in used {
          var x :| x in sets[i] && x in init && x.outlet == o;
          assert x.id < last.id;
          assert DistinctOutlets(sets[i]);
          assert false;
        }
        used := used + {i};
      }
    }
  }

  lemma {:induction false} SubsetOfRange(s: set<nat>, n: nat)
    requires forall i :: i in s ==> i < n
    ensures |s| <= n
  {
    if n > 0 {
      SubsetOfRange(s - {n - 1}, n - 1);
    } else {
      assert s == {};
    }
  }

  // ----- planning the survivors again -----

  function Heads<T>(rows: seq<Row<T>>): (heads: seq<Row<T>>)
    ensures |heads| == Height(rows)
  {
    seq(Height(rows), k requires 0 <= k < Height(rows) => LayerNonEmpty(rows, k); Layer(rows, k)[0])
  }

  /** Rows at outlets A, B, B: the second run merges the two rows that the first one kept. */
  lemma ReplanCanMerge<T>(t: T, a: Outlet, b: Outlet)
    requires a != b
    ensures var rows := [Row(1, a, t), Row(2, b, t), Row(3, b, t)];
      && Ascending(rows)
      && Heads(rows) == [rows[0], rows[2]]
      && Plan(Heads(rows)) == [[rows[0], rows[2]]]
  {
    var x, y, z := Row(1, a, t), Row(2, b, t), Row(3, b, t);
    var one, two, rows := [x], [x, y], [x, y, z];
    assert one[..0] == [] && two[..1] == one && rows[..2] == two && [x, z][..1] == one;
    assert Count(one, a) == 1 && Count(one, b) == 0;
    assert Count(two, b) == 1;
    assert Height(one) == 1 && Height(two) == 1 && Height(rows) == 2 && Height([x, z]) == 1;
    assert Layer(one, 0) == [x] && Layer(one, 1) == [];
    assert Layer(two, 0) == [x, y] && Layer(two, 1) == [];
    assert Layer(rows, 0) == [x, y] && Layer(rows, 1) == [z];
    assert Layer([x, z], 0) == [x, z];
  }
}
