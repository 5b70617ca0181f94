/**
 * The whole plan of a merge: `groupBy` followed by `planOnePerOutlet` on
 * every group. Each set merges into its head, the kept row.
 */
module MergePlan {
  import opened Tables
  import opened Grouping
  import opened OnePerOutlet

  function PlanAll<T>(groups: seq<seq<Row<T>>>): seq<seq<Row<T>>> {
    if groups == [] then []
    else PlanAll(groups[..|groups| - 1]) + Plan(groups[|groups| - 1])
  }

  function Sets<T(!new), K(==)>(rows: seq<Row<T>>, keyOf: Row<T> -> K): seq<seq<Row<T>>> {
    PlanAll(Groups(rows, keyOf))
  }

  ghost predicate Disjoint<T>(s: seq<Row<T>>, t: seq<Row<T>>) {
    forall x :: x in s ==> x !in t
  }

  ghost predicate SameKey<T, K>(s: seq<Row<T>>, keyOf: Row<T> -> K) {
    forall x, y :: x in s && y in s ==> keyOf(x) == keyOf(y)
  }

  /** A set as the merge needs it: its head has the lowest id and no outlet appears twice. */
  ghost predicate MergeSet<T>(s: seq<Row<T>>, rows: seq<Row<T>>) {
    && s != []
    && Ascending(s)
    && DistinctOutlets(s)
    && forall x :: x in s ==> x in rows
  }

  /** The sets partition the rows, and each is a merge set. */
  ghost predicate Partition<T>(sets: seq<seq<Row<T>>>, rows: seq<Row<T>>) {
    && (forall i :: 0 <= i < |sets| ==> MergeSet(sets[i], rows))
    && (forall i, j :: 0 <= i < j < |sets| ==> Disjoint(sets[i], sets[j]))
    && (forall x :: x in rows ==> exists i :: 0 <= i < |sets| && x in sets[i])
  }

  lemma PlanOfGroup<T>(group: seq<Row<T>>)
    requires Ascending(group)
    ensures Partition(Plan(group), group)
  {
    var sets := Plan(group);
    forall k | 0 <= k < |sets| ensures MergeSet(sets[k], group) {
      LayerNonEmpty(group, k);
      LayerShape(group, k);
      LayerMembers(group, k);
    }
    forall k, l | 0 <= k < l < |sets| ensures Disjoint(sets[k], sets[l]) {
      forall x | x in sets[k] ensures x !in sets[l] {
        LayerMembers(group, k);
        var i :| 0 <= i < |group| && group[i] == x;
        RowInItsLayer(group, i, k);
        RowInItsLayer(group, i, l);
      }
    }
    forall x | x in group ensures exists k :: 0 <= k < |sets| && x in sets[k] {
      var i :| 0 <= i < |group| && group[i] == x;
      RowInItsLayer(group, i, Count(group[..i], x.outlet));
      assert x in sets[Count(group[..i], x.outlet)];
    }
  }

  function Flat<T>(groups: seq<seq<T>>): seq<T> {
    if groups == [] then [] else Flat(groups[..|groups| - 1]) + groups[|groups| - 1]
  }

  lemma {:induction false} InFlat<T>(groups: seq<seq<T>>, x: T) returns (i: nat)
    requires x in Flat(groups)
    ensures i < |groups| && x in groups[i]
  {
    i := |groups| - 1;
    if x !in groups[i] {
      i := InFlat(groups[..i], x);
    }
  }

  lemma {:induction false} IntoFlat<T>(groups: seq<seq<T>>, i: nat, x: T)
    requires i < |groups| && x in groups[i]
    ensures x in Flat(groups)
  {
    if i < |groups| - 1 {
      IntoFlat(groups[..|groups| - 1], i, x);
    }
  }

  lemma {:induction false} PlanOfGroups<T, K>(groups: seq<seq<Row<T>>>, keyOf: Row<T> -> K)
    requires forall i :: 0 <= i < |groups| ==> Ascending(groups[i]) && SameKey(groups[i], keyOf)
    requires forall i, j, x, y :: 0 <= i < j < |groups| && x in groups[i] && y in groups[j] ==> keyOf(x) != keyOf(y)
    ensures Partition(PlanAll(groups), Flat(groups))
    ensures forall i :: 0 <= i < |PlanAll(groups)| ==> SameKey(PlanAll(groups)[i], keyOf)
  {
    if groups != [] {
      var n := |groups| - 1;
      var init, last := groups[..n], groups[n];
      PlanOfGroups(init, keyOf);
      PlanOfGroup(last);
      forall x, y | x in Flat(init) && y in last ensures x != y {
        var i := InFlat(init, x);
        assert x in groups[i];
        assert keyOf(x) != keyOf(y);
      }
      PartitionAppend(PlanAll(init), Flat(init), Plan(last), last);
      forall i | 0 <= i < |PlanAll(groups)| ensures SameKey(PlanAll(groups)[i], keyOf) {
        if i >= |PlanAll(init)| {
          assert MergeSet(Plan(last)[i - |PlanAll(init)|], last);
        }
      }
    }
  }

  lemma PartitionAppend<T>(s: seq<seq<Row<T>>>, xs: seq<Row<T>>, t: seq<seq<Row<T>>>, ys: seq<Row<T>>)
    requires Partition(s, xs) && Partition(t, ys)
    requires forall x, y :: x in xs && y in ys ==> x != y
    ensures Partition(s + t, xs + ys)
  {
    var st, rows := s + t, xs + ys;
    forall i | 0 <= i < |st| ensures MergeSet(st[i], rows) {
      assert st[i] == if i < |s| then s[i] else t[i - |s|];
      assert if i < |s| then MergeSet(s[i], xs) else MergeSet(t[i - |s|], ys);
    }
    forall i, j | 0 <= i < j < |st| ensures Disjoint(st[i], st[j]) {
      if i < |s| <= j {
        assert MergeSet(s[i], xs) && MergeSet(t[j - |s|], ys);
      } else if j < |s| {
        assert Disjoint(s[i], s[j]);
      } else {
        assert Disjoint(t[i - |s|], t[j - |s|]);
      }
    }
    forall x | x in rows ensures exists i :: 0 <= i < |st| && x in st[i] {
      if x in xs {
        var i :| 0 <= i < |s| && x in s[i];
        assert x in st[i];
      } else {
        var i :| 0 <= i < |t| && x in t[i];
        assert x in st[|s| + i];
      }
    }
  }

  /** What grouping and planning guarantee together, on any table read in id order. */
  lemma SetsPartition<T(!new), K>(rows: seq<Row<T>>, keyOf: Row<T> -> K)
    requires Ascending(rows)
    ensures Partition(Sets(rows, keyOf), rows)
    ensures forall i :: 0 <= i < |Sets(rows, keyOf)| ==> SameKey(Sets(rows, keyOf)[i], keyOf)
  {
    var groups, keys := Groups(rows, keyOf), Keys(rows, keyOf);
    KeysMembers(rows, keyOf);
    var idOf := (x: Row<T>) => x.id;
    assert Increasing(rows, idOf);
    forall i | 0 <= i < |groups| ensures groups[i] == WithKey(rows, keyOf, keys[i]) && Ascending(groups[i]) {
      WithKeyOrdered(rows, keyOf, keys[i], idOf);
      assert forall x: Row<T> :: idOf(x) == x.id;
    }
    forall i | 0 <= i < |groups|
      ensures forall x :: x in groups[i] <==> x in rows && keyOf(x) == keys[i]
    {
      WithKeyMembers(rows, keyOf, keys[i]);
    }
    PlanOfGroups(groups, keyOf);
    forall x ensures x in Flat(groups) <==> x in rows {
      if x in rows {
        var i :| 0 <= i < |keys| && keys[i] == keyOf(x);
        IntoFlat(groups, i, x);
      } else if x in Flat(groups) {
        var i := InFlat(groups, x);
      }
    }
    SameRowsSamePartition(Sets(rows, keyOf), Flat(groups), rows);
  }

  lemma SameRowsSamePartition<T>(sets: seq<seq<Row<T>>>, xs: seq<Row<T>>, ys: seq<Row<T>>)
    requires Partition(sets, xs)
    requires forall x :: x in xs <==> x in ys
    ensures Partition(sets, ys)
  {
  }

  // ----- finding the set of a row -----

  predicate HasId<T>(s: seq<Row<T>>, id: Id) {
    exists i :: 0 <= i < |s| && s[i].id == id
  }

  lemma MemberWithId<T>(s: seq<Row<T>>, id: Id) returns (x: Row<T>)
    requires HasId(s, id)
    ensures x in s && x.id == id
  {
    var i :| 0 <= i < |s| && s[i].id == id;
    x := s[i];
  }

  /** The set holding the row of this id, among the sets merged so far. */
  function SetOf<T>(sets: seq<seq<Row<T>>>, id: Id): Option<seq<Row<T>>> {
    if sets == [] then None
    else if HasId(sets[|sets| - 1], id) then Some(sets[|sets| - 1])
    else SetOf(sets[..|sets| - 1], id)
  }

  /** "Merged into": the head of the row's set, or the row itself. */
  function KeptId<T>(sets: seq<seq<Row<T>>>, id: Id): Id {
    match SetOf(sets, id)
    case Some(s) => if s == [] then id else s[0].id
    case None => id
  }

  lemma {:induction false} SetOfIsASet<T>(sets: seq<seq<Row<T>>>, id: Id) returns (i: nat)
    requires SetOf(sets, id).Some?
    ensures i < |sets| && SetOf(sets, id) == Some(sets[i]) && HasId(sets[i], id)
  {
    i := |sets| - 1;
    if !HasId(sets[i], id) {
      i := SetOfIsASet(sets[..i], id);
    }
  }

  lemma InOneSet<T>(sets: seq<seq<Row<T>>>, rows: seq<Row<T>>, i: nat, j: nat, x: Row<T>)
    requires Partition(sets, rows) && i < |sets| && j < |sets| && x in sets[i] && x in sets[j]
    ensures i == j
  {
  }

  lemma {:induction false} SetOfMember<T>(sets: seq<seq<Row<T>>>, rows: seq<Row<T>>, i: nat, x: Row<T>)
    requires Partition(sets, rows) && Ascending(rows)
    requires i < |sets| && x in sets[i]
    ensures SetOf(sets, x.id) == Some(sets[i])
  {
    var n := |sets| - 1;
    SetOfPrefix(sets, rows, n + 1, i, x);
    assert sets[..n + 1] == sets;
  }

  /** Among the first n sets, the row's set is found exactly when it is one of them. */
  lemma {:induction false} SetOfPrefix<T>(sets: seq<seq<Row<T>>>, rows: seq<Row<T>>, n: nat, i: nat, x: Row<T>)
    requires Partition(sets, rows) && Ascending(rows)
    requires i < |sets| && x in sets[i] && n <= |sets|
    ensures SetOf(sets[..n], x.id) == if i < n then Some(sets[i]) else None
  {
    if n > 0 {
      SetOfPrefix(sets, rows, n - 1, i, x);
      assert sets[..n][..n - 1] == sets[..n - 1];
      if HasId(sets[n - 1], x.id) {
        var j :| 0 <= j < |sets[n - 1]| && sets[n - 1][j].id == x.id;
        assert MergeSet(sets[n - 1], rows) && MergeSet(sets[i], rows);
        assert sets[n - 1][j] in rows && x in rows;
        SameIdSameRow(rows, sets[n - 1][j], x);
        assert x in sets[n - 1];
        InOneSet(sets, rows, n - 1, i, x);
      } else {
        assert i != n - 1;
      }
    }
  }

  /** A planned row belongs to one set, found by its id. */
  lemma SetOfRow<T>(sets: seq<seq<Row<T>>>, rows: seq<Row<T>>, x: Row<T>) returns (i: nat)
    requires Partition(sets, rows) && Ascending(rows) && x in rows
    ensures i < |sets| && x in sets[i] && SetOf(sets, x.id) == Some(sets[i]) && MergeSet(sets[i], rows)
  {
    i :| i < |sets| && x in sets[i];
    SetOfMember(sets, rows, i, x);
  }

  lemma SetOfStep<T>(sets: seq<seq<Row<T>>>, n: nat, id: Id)
    requires n < |sets|
    ensures SetOf(sets[..n + 1], id) == if HasId(sets[n], id) then Some(sets[n]) else SetOf(sets[..n], id)
  {
    assert sets[..n + 1][..n] == sets[..n];
  }

  /** No earlier set holds an id of a later one. */
  lemma LaterSetUntouched<T>(sets: seq<seq<Row<T>>>, rows: seq<Row<T>>, n: nat, id: Id)
    requires Partition(sets, rows) && Ascending(rows) && n < |sets| && HasId(sets[n], id)
    ensures SetOf(sets[..n], id).None? && KeptId(sets[..n], id) == id
  {
    var j :| 0 <= j < |sets[n]| && sets[n][j].id == id;
    SetOfPrefix(sets, rows, n, n, sets[n][j]);
  }

  lemma {:induction false} PlanAllPrefix<T>(groups: seq<seq<Row<T>>>, g: nat)
    requires g <= |groups|
    ensures PlanAll(groups[..g]) <= PlanAll(groups)
    ensures g < |groups| ==> PlanAll(groups[..g + 1]) == PlanAll(groups[..g]) + Plan(groups[g])
  {
    hide Plan;
    if g == |groups| {
      assert groups[..g] == groups;
    } else {
      PlanAllPrefix(groups[..|groups| - 1], g);
      var n := |groups| - 1;
      assert groups[..n][..g] == groups[..g];
      assert groups[..g + 1][..g] == groups[..g];
    }
  }

  // ----- the loops over a set and over the plan -----

  lemma NextId<T>(s: seq<Row<T>>, i: nat)
    requires i < |s| && Ascending(s)
    ensures !HasId(s[..i], s[i].id)
    ensures i > 0 ==> s[..i][0] == s[0] && s[i].id != s[0].id
    ensures forall y :: HasId(s[..i + 1], y) <==> HasId(s[..i], y) || y == s[i].id
  {
  }

  lemma NoIds<T>(s: seq<Row<T>>)
    ensures forall y :: !HasId(s[..0], y)
  {
  }

  lemma NothingPlanned<T>(groups: seq<seq<Row<T>>>, all: seq<seq<Row<T>>>)
    ensures PlanAll(groups[..0]) == [] && all[..0] == []
  {
  }

  /** The sets of one group are the next stretch of the whole plan. */
  lemma NextInPlan<T>(groups: seq<seq<Row<T>>>, g: nat)
    requires g < |groups|
    ensures var n, sets := |PlanAll(groups[..g])|, Plan(groups[g]);
      && n + |sets| == |PlanAll(groups[..g + 1])| <= |PlanAll(groups)|
      && sets == PlanAll(groups)[n..n + |sets|]
  {
    hide Plan;
    PlanAllPrefix(groups, g);
    PlanAllPrefix(groups, g + 1);
  }

  lemma NotPlanned<T>(sets: seq<seq<Row<T>>>, rows: seq<Row<T>>, id: Id)
    requires Partition(sets, rows) && forall y :: y in rows ==> y.id != id
    ensures SetOf(sets, id).None? && KeptId(sets, id) == id
  {
    if SetOf(sets, id).Some? {
      var i := SetOfIsASet(sets, id);
      assert MergeSet(sets[i], rows);
      var x := MemberWithId(sets[i], id);
    }
  }
}
