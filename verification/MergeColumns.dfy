/**
 * Which rows a merge joins, read off the columns alone: rows of one key
 * merge when each is, counting by id, the same-numbered row of its outlet.
 * With it: how many rows survive, and when planning the survivors again
 * would merge further.
 */
module MergeColumns {
  import opened Tables
  import opened Grouping
  import opened OnePerOutlet
  import opened MergePlan

  /** What decides a row's merge: the key it is grouped by and the outlet it stands at. */
  datatype Place<+K> = Place(key: K, outlet: Outlet)

  type Places<+K> = map<Id, Place<K>>

  ghost function Earlier<K>(p: Places<K>, id: Id): set<Id>
    requires id in p
  {
    set y | y in p && y < id && p[y] == p[id]
  }

  /** How many rows of its key stand before it at its own outlet. */
  ghost function Rank<K>(p: Places<K>, id: Id): nat
    requires id in p
  {
    |Earlier(p, id)|
  }

  ghost predicate Together<K>(p: Places<K>, x: Id, y: Id) {
    x in p && y in p && p[x].key == p[y].key && Rank(p, x) == Rank(p, y)
  }

  ghost function Mates<K>(p: Places<K>, id: Id): set<Id> {
    set y | y in p && Together(p, id, y)
  }

  ghost predicate Survives<K>(p: Places<K>, id: Id) {
    IsLowest(id, Mates(p, id))
  }

  /** The id a row is merged into: the lowest of those it merges with. */
  ghost function Kept<K>(p: Places<K>, id: Id): Id {
    if id !in p then id
    else
      assert id in Mates(p, id);
      HasLowest(Mates(p, id));
      var m :| IsLowest(m, Mates(p, id));
      m
  }

  ghost function Survivors<K>(p: Places<K>): Places<K> {
    map id | id in p && Survives(p, id) :: p[id]
  }

  lemma KeptFacts<K>(p: Places<K>, id: Id)
    requires id in p
    ensures Together(p, id, Kept(p, id)) && Kept(p, id) <= id && Survives(p, Kept(p, id))
    ensures Kept(p, id) == id <==> Survives(p, id)
    ensures forall y :: Together(p, id, y) ==> Kept(p, y) == Kept(p, id)
    ensures forall y :: y in p && Kept(p, y) == Kept(p, id) ==> Together(p, id, y)
  {
    hide Rank;
    assert id in Mates(p, id);
    HasLowest(Mates(p, id));
    var k := Kept(p, id);
    assert IsLowest(k, Mates(p, id));
    assert Mates(p, k) == Mates(p, id);
    forall y | y in p ensures Together(p, id, y) <==> Kept(p, y) == k {
      assert y in Mates(p, y);
      HasLowest(Mates(p, y));
      assert IsLowest(Kept(p, y), Mates(p, y));
      if Together(p, id, y) {
        assert Mates(p, y) == Mates(p, id);
      }
    }
  }

  // ----- the columns decide the plan -----

  ghost predicate Placed<T, K>(p: Places<K>, rows: seq<Row<T>>, keyOf: Row<T> -> K) {
    && (forall x :: x in rows ==> x.id in p && p[x.id] == Place(keyOf(x), x.outlet))
    && (forall id :: id in p ==> HasId(rows, id))
  }

  /** The ids of the rows of an outlet. */
  ghost function IdsAt<T>(rows: seq<Row<T>>, o: Outlet): set<Id> {
    set x | x in rows && x.outlet == o :: x.id
  }

  lemma {:induction false} CountIsIds<T>(rows: seq<Row<T>>, o: Outlet)
    requires Ascending(rows)
    ensures Count(rows, o) == |IdsAt(rows, o)|
  {
    if rows != [] {
      var n := |rows| - 1;
      var init, last := rows[..n], rows[n];
      CountIsIds(init, o);
      forall x | x in init ensures x.id < last.id {}
      assert forall x :: x in rows <==> x in init || x == last;
      if last.outlet == o {
        assert IdsAt(rows, o) == IdsAt(init, o) + {last.id};
      } else {
        assert IdsAt(rows, o) == IdsAt(init, o);
      }
    }
  }

  lemma EarlierIds<T, K>(p: Places<K>, group: seq<Row<T>>, i: nat)
    requires Ascending(group) && i < |group| && group[i].id in p
    requires forall x :: x in group ==> x.id in p && p[x.id] == Place(p[group[i].id].key, x.outlet)
    requires forall id :: id in p && p[id].key == p[group[i].id].key ==> HasId(group, id)
    ensures Count(group[..i], group[i].outlet) == Rank(p, group[i].id)
  {
    var x, before := group[i], group[..i];
    CountIsIds(before, x.outlet);
    assert x in group;
    forall id | id in Earlier(p, x.id) ensures id in IdsAt(before, x.outlet) {
      var j :| 0 <= j < |group| && group[j].id == id;
      assert group[j] in group && j < i;
      assert before[j] == group[j];
    }
    assert IdsAt(before, x.outlet) == Earlier(p, x.id);
  }

  lemma GroupOfKey<T(!new), K>(p: Places<K>, rows: seq<Row<T>>, keyOf: Row<T> -> K, k: K)
    requires Ascending(rows) && Placed(p, rows, keyOf)
    ensures Ascending(WithKey(rows, keyOf, k))
    ensures forall x :: x in WithKey(rows, keyOf, k) ==> x.id in p && p[x.id] == Place(k, x.outlet)
    ensures forall id :: id in p && p[id].key == k ==> HasId(WithKey(rows, keyOf, k), id)
  {
    var idOf := (x: Row<T>) => x.id;
    assert Increasing(rows, idOf);
    WithKeyOrdered(rows, keyOf, k, idOf);
    assert forall x: Row<T> :: idOf(x) == x.id;
    WithKeyMembers(rows, keyOf, k);
    forall id | id in p && p[id].key == k ensures HasId(WithKey(rows, keyOf, k), id) {
      var x := MemberWithId(rows, id);
      assert x in WithKey(rows, keyOf, k);
    }
  }

  /** A row lies in the layer of its key's group that its rank numbers, and in no other. */
  lemma LayerByRank<T(!new), K>(p: Places<K>, rows: seq<Row<T>>, keyOf: Row<T> -> K, k: K, n: nat, x: Row<T>)
    requires Ascending(rows) && Placed(p, rows, keyOf)
    ensures x in Layer(WithKey(rows, keyOf, k), n) <==> x in rows && keyOf(x) == k && Rank(p, x.id) == n
  {
    hide Rank;
    var group := WithKey(rows, keyOf, k);
    GroupOfKey(p, rows, keyOf, k);
    WithKeyMembers(rows, keyOf, k);
    LayerMembers(group, n);
    if x in group {
      var i :| 0 <= i < |group| && group[i] == x;
      RowInItsLayer(group, i, n);
      EarlierIds(p, group, i);
    }
  }

  lemma {:induction false} SetIsLayer<T>(groups: seq<seq<Row<T>>>, i: nat) returns (g: nat, n: nat)
    requires i < |PlanAll(groups)|
    ensures g < |groups| && PlanAll(groups)[i] == Layer(groups[g], n)
  {
    g := |groups| - 1;
    var before := PlanAll(groups[..g]);
    if i < |before| {
      g, n := SetIsLayer(groups[..g], i);
    } else {
      n := i - |before|;
    }
  }

  /** The set of a row, named by its columns. */
  lemma SetByColumns<T(!new), K>(p: Places<K>, rows: seq<Row<T>>, keyOf: Row<T> -> K, x: Row<T>)
    requires Ascending(rows) && Placed(p, rows, keyOf) && x in rows
    ensures x.id in p
    ensures SetOf(Sets(rows, keyOf), x.id) == Some(Layer(WithKey(rows, keyOf, keyOf(x)), Rank(p, x.id)))
  {
    hide Rank, Partition;
    var sets, groups := Sets(rows, keyOf), Groups(rows, keyOf);
    SetsPartition(rows, keyOf);
    var i := SetOfRow(sets, rows, x);
    var g, n := SetIsLayer(groups, i);
    LayerByRank(p, rows, keyOf, Keys(rows, keyOf)[g], n, x);
  }

  /** Two planned rows go to one set exactly when their columns say so. */
  lemma SameSetExactly<T(!new), K>(p: Places<K>, rows: seq<Row<T>>, keyOf: Row<T> -> K, x: Row<T>, y: Row<T>)
    requires Ascending(rows) && Placed(p, rows, keyOf) && x in rows && y in rows
    ensures SetOf(Sets(rows, keyOf), x.id) == SetOf(Sets(rows, keyOf), y.id) <==> Together(p, x.id, y.id)
  {
    hide Rank;
    SetByColumns(p, rows, keyOf, x);
    SetByColumns(p, rows, keyOf, y);
    LayerByRank(p, rows, keyOf, keyOf(x), Rank(p, x.id), x);
    LayerByRank(p, rows, keyOf, keyOf(y), Rank(p, y.id), x);
  }

  /** The row merged into is the lowest id the columns allow. */
  lemma KeptByColumns<T(!new), K>(p: Places<K>, rows: seq<Row<T>>, keyOf: Row<T> -> K, id: Id)
    requires Ascending(rows) && Placed(p, rows, keyOf)
    ensures KeptId(Sets(rows, keyOf), id) == Kept(p, id)
  {
    hide Rank, Partition;
    var sets := Sets(rows, keyOf);
    SetsPartition(rows, keyOf);
    if id in p {
      var x := MemberWithId(rows, id);
      SetByColumns(p, rows, keyOf, x);
      var s := Layer(WithKey(rows, keyOf, keyOf(x)), Rank(p, id));
      var i := SetOfRow(sets, rows, x);
      assert s == sets[i] && s[0] in s;
      LayerByRank(p, rows, keyOf, keyOf(x), Rank(p, id), s[0]);
      forall y | y in Mates(p, id) ensures s[0].id <= y {
        var z := MemberWithId(rows, y);
        LayerByRank(p, rows, keyOf, keyOf(x), Rank(p, id), z);
        var j :| 0 <= j < |s| && s[j] == z;
      }
      assert IsLowest(s[0].id, Mates(p, id));
      HasLowest(Mates(p, id));
    } else {
      NotPlanned(sets, rows, id);
    }
  }

  // ----- how many rows survive -----

  /** The rows of a key, or those of it at one outlet. */
  ghost function Bearing<K>(p: Places<K>, k: K): set<Id> {
    set id | id in p && p[id].key == k
  }

  ghost function BearingAt<K>(p: Places<K>, k: K, o: Outlet): set<Id> {
    set id | id in p && p[id] == Place(k, o)
  }

  /** n is the largest number of rows the key has at any one outlet. */
  ghost predicate IsMost<K>(p: Places<K>, k: K, n: nat) {
    && (forall o: Outlet :: |BearingAt(p, k, o)| <= n)
    && (n > 0 ==> exists o: Outlet :: |BearingAt(p, k, o)| == n)
  }

  lemma SmallerSet<T>(a: set<T>, b: set<T>)
    requires a <= b
    ensures |a| <= |b|
    ensures |a| == |b| ==> a == b
  {
    assert b == a + (b - a);
  }

  lemma HighestOf(ids: set<Id>) returns (m: Id)
    requires ids != {}
    ensures m in ids && forall x :: x in ids ==> x <= m
  {
    m :| m in ids;
    var lower := m;
    var above := set x | x in ids && x > lower;
    if above != {} {
      m := HighestOf(above);
    }
    forall x | x in ids ensures x <= m {
      if x > lower {
        assert x in above;
      }
    }
  }

  /** Below a row's rank every number is some row's rank at the same place. */
  lemma {:induction false} LowerRank<K>(p: Places<K>, x: Id, r: nat) returns (y: Id)
    requires x in p && r <= Rank(p, x)
    ensures y in p && p[y] == p[x] && Rank(p, y) == r
  {
    if r == Rank(p, x) {
      y := x;
    } else {
      var z := HighestOf(Earlier(p, x));
      assert Earlier(p, x) == Earlier(p, z) + {z};
      y := LowerRank(p, z, r);
    }
  }

  /** The rows at one place have the ranks below their number. */
  lemma RankBelow<K>(p: Places<K>, x: Id)
    requires x in p
    ensures Rank(p, x) < |BearingAt(p, p[x].key, p[x].outlet)|
  {
    SmallerSet(Earlier(p, x) + {x}, BearingAt(p, p[x].key, p[x].outlet));
  }

  lemma LastAt<K>(p: Places<K>, k: K, o: Outlet) returns (x: Id)
    requires BearingAt(p, k, o) != {}
    ensures x in p && p[x] == Place(k, o) && Rank(p, x) + 1 == |BearingAt(p, k, o)|
  {
    x := HighestOf(BearingAt(p, k, o));
    assert BearingAt(p, k, o) == Earlier(p, x) + {x};
  }

  /** The survivors of a key among the first n ranks. */
  ghost function SurvivorsBelow<K>(p: Places<K>, k: K, n: nat): set<Id> {
    set id | id in p && p[id].key == k && Survives(p, id) && Rank(p, id) < n
  }

  lemma {:induction false} OneSurvivorARank<K>(p: Places<K>, k: K, n: nat, x: Id)
    requires n > 0 ==> x in p && p[x].key == k && n - 1 <= Rank(p, x)
    ensures |SurvivorsBelow(p, k, n)| == n
  {
    hide Rank, Survives;
    if n == 0 {
      assert SurvivorsBelow(p, k, 0) == {};
    } else {
      OneSurvivorARank(p, k, n - 1, x);
      var y := LowerRank(p, x, n - 1);
      KeptFacts(p, y);
      var kept := Kept(p, y);
      forall id | id in SurvivorsBelow(p, k, n) ensures id in SurvivorsBelow(p, k, n - 1) || id == kept {
        if Rank(p, id) == n - 1 {
          KeptFacts(p, id);
          assert Together(p, y, id);
        }
      }
      assert SurvivorsBelow(p, k, n) == SurvivorsBelow(p, k, n - 1) + {kept};
      assert kept !in SurvivorsBelow(p, k, n - 1);
    }
  }

  /** Of every key as many rows survive as its busiest outlet had: same-named rows at different outlets do merge. */
  lemma SurvivorsPerKey<K>(p: Places<K>, k: K)
    ensures IsMost(p, k, |Bearing(Survivors(p), k)|)
  {
    hide Rank, Survives;
    var kept := Bearing(Survivors(p), k);
    if Bearing(p, k) == {} {
      assert kept == {};
      forall o: Outlet ensures |BearingAt(p, k, o)| == 0 {
        assert BearingAt(p, k, o) <= Bearing(p, k);
      }
    } else {
      var top := TopRank(p, k, Bearing(p, k));
      var n := Rank(p, top) + 1;
      OneSurvivorARank(p, k, n, top);
      assert kept == SurvivorsBelow(p, k, n);
      forall o: Outlet ensures |BearingAt(p, k, o)| <= n {
        if BearingAt(p, k, o) != {} {
          var x := LastAt(p, k, o);
        }
      }
      RankBelow(p, top);
      assert |BearingAt(p, k, p[top].outlet)| == n;
    }
  }

  lemma {:induction false} TopRank<K>(p: Places<K>, k: K, ids: set<Id>) returns (top: Id)
    requires ids != {} && ids <= Bearing(p, k)
    ensures top in ids && forall x :: x in ids ==> x in p && Rank(p, x) <= Rank(p, top)
  {
    hide Rank;
    var x :| x in ids;
    if ids == {x} {
      top := x;
    } else {
      var rest := ids - {x};
      assert rest != {} by {
        assert ids == rest + {x};
      }
      top := TopRank(p, k, rest);
      top := if Rank(p, top) < Rank(p, x) then x else top;
    }
  }

  // ----- planning the survivors again -----

  ghost predicate SharesOutlet<K>(p: Places<K>) {
    forall x, y :: x in p && y in p && p[x].key == p[y].key ==> p[x].outlet == p[y].outlet
  }

  ghost function UpTo<K>(p: Places<K>, x: Id, o: Outlet): set<Id>
    requires x in p
  {
    set y | y in p && y <= x && p[y] == Place(p[x].key, o)
  }

  ghost predicate IsFirst<K>(p: Places<K>, f: Id, k: K) {
    IsLowest(f, Bearing(p, k))
  }

  /**
   * The outlet of a key's first row leads: wherever the rows are cut off,
   * no other outlet has more rows of the key than that one.
   */
  ghost predicate FirstLeads<K>(p: Places<K>) {
    forall x: Id, f: Id :: x in p && IsFirst(p, f, p[x].key) ==> |UpTo(p, x, p[x].outlet)| <= |UpTo(p, x, p[f].outlet)|
  }

  /** No name, within its key, is repeated at an outlet. */
  ghost predicate NoRepeats<K>(p: Places<K>) {
    forall x, y :: x in p && y in p && p[x] == p[y] ==> x == y
  }

  lemma FirstExists<K>(p: Places<K>, x: Id) returns (f: Id)
    requires x in p
    ensures IsFirst(p, f, p[x].key) && f in p && p[f].key == p[x].key && f <= x
  {
    assert x in Bearing(p, p[x].key);
    HasLowest(Bearing(p, p[x].key));
    f :| IsLowest(f, Bearing(p, p[x].key));
  }

  lemma FirstSurvives<K>(p: Places<K>, f: Id, k: K)
    requires IsFirst(p, f, k)
    ensures f in p && p[f].key == k && Rank(p, f) == 0 && Survives(p, f)
  {
    forall y | y in p && p[y].key == k ensures f <= y {
      assert y in Bearing(p, k);
    }
    assert Earlier(p, f) == {};
    assert f in Mates(p, f);
    assert Mates(p, f) <= Bearing(p, k);
  }

  /** Planning merges nothing exactly when every key stands at one outlet. */
  lemma AllSurviveExactly<K>(p: Places<K>)
    ensures Survivors(p) == p <==> SharesOutlet(p)
  {
    hide Rank;
    if Survivors(p) == p {
      forall x, y | x in p && y in p && p[x].key == p[y].key ensures p[x].outlet == p[y].outlet {
        var u := LowerRank(p, x, 0);
        var v := LowerRank(p, y, 0);
        assert u in Survivors(p) && v in Survivors(p);
        assert Together(p, u, v) && Together(p, v, u);
        assert u in Mates(p, v) && v in Mates(p, u);
      }
    }
    if SharesOutlet(p) {
      forall x | x in p ensures Survives(p, x) {
        forall y | y in Mates(p, x) ensures x <= y {
          if y < x {
            RankGrows(p, y, x);
          }
        }
      }
    }
  }

  lemma RankGrows<K>(p: Places<K>, y: Id, x: Id)
    requires x in p && y in p && y < x && p[y] == p[x]
    ensures Rank(p, y) < Rank(p, x)
  {
    SmallerSet(Earlier(p, y) + {y}, Earlier(p, x));
  }

  lemma UpToOwn<K>(p: Places<K>, x: Id)
    requires x in p
    ensures |UpTo(p, x, p[x].outlet)| == Rank(p, x) + 1
  {
    assert UpTo(p, x, p[x].outlet) == Earlier(p, x) + {x};
  }

  /** The survivors of a key all stand at its first row's outlet exactly when that outlet leads. */
  lemma SurvivorsShareExactly<K>(p: Places<K>)
    ensures SharesOutlet(Survivors(p)) <==> FirstLeads(p)
  {
    hide Rank;
    if SharesOutlet(Survivors(p)) {
      forall x: Id, f: Id | x in p && IsFirst(p, f, p[x].key)
        ensures |UpTo(p, x, p[x].outlet)| <= |UpTo(p, x, p[f].outlet)|
      {
        KeptFacts(p, x);
        FirstSurvives(p, f, p[x].key);
        var kept := Kept(p, x);
        assert kept in Survivors(p) && f in Survivors(p);
        UpToOwn(p, x);
        UpToOwn(p, kept);
        SmallerSet(UpTo(p, kept, p[f].outlet), UpTo(p, x, p[f].outlet));
      }
    }
    if FirstLeads(p) {
      forall x | x in Survivors(p) ensures exists f :: IsFirst(p, f, p[x].key) && p[f].outlet == p[x].outlet {
        var f := FirstExists(p, x);
        LeaderSurvives(p, x, f);
      }
      forall x, y | x in Survivors(p) && y in Survivors(p) && p[x].key == p[y].key ensures p[x].outlet == p[y].outlet {
        var f :| IsFirst(p, f, p[x].key) && p[f].outlet == p[x].outlet;
        var g :| IsFirst(p, g, p[y].key) && p[g].outlet == p[y].outlet;
      }
    }
  }

  lemma LeaderSurvives<K>(p: Places<K>, x: Id, f: Id)
    requires x in p && f in p && p[f].key == p[x].key && Survives(p, x)
    requires |UpTo(p, x, p[x].outlet)| <= |UpTo(p, x, p[f].outlet)|
    ensures p[f].outlet == p[x].outlet
  {
    hide Rank, UpTo, Mates, Survives;
    UpToOwn(p, x);
    var z := LastUpTo(p, x, p[f].outlet);
    var y := LowerRank(p, z, Rank(p, x));
    RankBelowOf(p, y, z);
    LowestOfMates(p, x, y);
  }

  lemma LowestOfMates<K>(p: Places<K>, x: Id, y: Id)
    requires x in p && Survives(p, x) && Together(p, x, y)
    ensures x <= y
  {
    assert y in Mates(p, x);
  }

  lemma LastUpTo<K>(p: Places<K>, x: Id, o: Outlet) returns (z: Id)
    requires x in p && UpTo(p, x, o) != {}
    ensures z in p && z <= x && p[z] == Place(p[x].key, o) && Rank(p, z) + 1 == |UpTo(p, x, o)|
  {
    z := HighestOf(UpTo(p, x, o));
    assert UpTo(p, x, o) == Earlier(p, z) + {z};
  }

  lemma RankBelowOf<K>(p: Places<K>, y: Id, z: Id)
    requires y in p && z in p && p[y] == p[z] && Rank(p, y) <= Rank(p, z)
    ensures y <= z
  {
    if z < y {
      RankGrows(p, z, y);
    }
  }

  lemma NoRepeatsLead<K>(p: Places<K>)
    requires NoRepeats(p)
    ensures FirstLeads(p)
  {
    forall x: Id, f: Id | x in p && IsFirst(p, f, p[x].key)
      ensures |UpTo(p, x, p[x].outlet)| <= |UpTo(p, x, p[f].outlet)|
    {
      assert x in Bearing(p, p[x].key);
      assert UpTo(p, x, p[x].outlet) == {x};
      assert f in UpTo(p, x, p[f].outlet);
      SmallerSet({f}, UpTo(p, x, p[f].outlet));
    }
  }

  /**
   * Planning the survivors again merges nothing further exactly when every
   * key's first outlet leads; in particular when no name repeats at an outlet.
   */
  lemma ReplanExactly<K>(p: Places<K>)
    ensures Survivors(Survivors(p)) == Survivors(p) <==> FirstLeads(p)
    ensures NoRepeats(p) ==> FirstLeads(p)
  {
    hide Rank, Survives, IsFirst, FirstLeads, NoRepeats;
    AllSurviveExactly(Survivors(p));
    SurvivorsShareExactly(p);
    if NoRepeats(p) {
      NoRepeatsLead(p);
    }
  }

  /** `kept` is what a merge of these rows leaves: the heads of the sets. */
  ghost predicate KeptRows<T(!new), K>(kept: seq<Row<T>>, rows: seq<Row<T>>, keyOf: Row<T> -> K) {
    && Ascending(kept)
    && forall x :: x in kept <==> x in rows && KeptId(Sets(rows, keyOf), x.id) == x.id
  }

  lemma KeptRowsPlaced<T(!new), K>(p: Places<K>, rows: seq<Row<T>>, keyOf: Row<T> -> K, kept: seq<Row<T>>)
    requires Ascending(rows) && Placed(p, rows, keyOf) && KeptRows(kept, rows, keyOf)
    ensures Placed(Survivors(p), kept, keyOf)
  {
    hide Sets;
    forall x | x in rows ensures x in kept <==> Survives(p, x.id) {
      KeptByColumns(p, rows, keyOf, x.id);
      KeptFacts(p, x.id);
    }
    forall id | id in Survivors(p) ensures HasId(kept, id) {
      var x := MemberWithId(rows, id);
      assert x in kept;
    }
  }

  lemma SingletonsExactly<T(!new), K>(p: Places<K>, rows: seq<Row<T>>, keyOf: Row<T> -> K)
    requires Ascending(rows) && Placed(p, rows, keyOf)
    ensures (forall s :: s in Sets(rows, keyOf) ==> |s| == 1) <==> Survivors(p) == p
  {
    hide Sets, Survives;
    var sets := Sets(rows, keyOf);
    SetsPartition(rows, keyOf);
    if forall s :: s in sets ==> |s| == 1 {
      forall id | id in p ensures Survives(p, id) {
        var x := MemberWithId(rows, id);
        var i := SetOfRow(sets, rows, x);
        assert sets[i] in sets;
        KeptByColumns(p, rows, keyOf, id);
        KeptFacts(p, id);
      }
    }
    if Survivors(p) == p {
      forall s: seq<Row<T>> | s in sets ensures |s| == 1 {
        var i :| 0 <= i < |sets| && sets[i] == s;
        assert MergeSet(s, rows);
        if |s| > 1 {
          assert s[1] in s;
          SetOfMember(sets, rows, i, s[1]);
          KeptByColumns(p, rows, keyOf, s[1].id);
          assert s[1].id in Survivors(p);
          KeptFacts(p, s[1].id);
        }
      }
    }
  }

  /**
   * The merge is idempotent on a table exactly when in every group the
   * first row's outlet leads: then each set of the second plan is one row.
   */
  lemma SecondPlanExactly<T(!new), K>(p: Places<K>, rows: seq<Row<T>>, keyOf: Row<T> -> K, kept: seq<Row<T>>)
    requires Ascending(rows) && Placed(p, rows, keyOf) && KeptRows(kept, rows, keyOf)
    ensures (forall s :: s in Sets(kept, keyOf) ==> |s| == 1) <==> FirstLeads(p)
    ensures NoRepeats(p) ==> forall s :: s in Sets(kept, keyOf) ==> |s| == 1
  {
    hide Sets, FirstLeads, NoRepeats, Survives;
    KeptRowsPlaced(p, rows, keyOf, kept);
    SingletonsExactly(Survivors(p), kept, keyOf);
    ReplanExactly(p);
  }
}
