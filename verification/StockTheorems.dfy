/** What the stock merge keeps: stock-take lines stay distinct, recipes keep their pairs, quantities add up. */
module StockTheorems {
  import opened Tables
  import opened MergePlan
  import opened MergeColumns
  import opened StockMerge
  import opened Quantities

  // ----- merged into -----

  /** Two ids merge into one exactly when they are the same or stand in one set. */
  lemma SameKeptId(sets: seq<seq<StockItem>>, rows: seq<StockItem>, x: Id, y: Id)
    requires Partition(sets, rows) && Ascending(rows)
    ensures KeptId(sets, x) == KeptId(sets, y) <==> x == y || (SetOf(sets, x).Some? && SetOf(sets, x) == SetOf(sets, y))
  {
    hide Partition;
    KeptIdInSet(sets, rows, x);
    KeptIdInSet(sets, rows, y);
  }

  lemma KeptIdInSet(sets: seq<seq<StockItem>>, rows: seq<StockItem>, x: Id)
    requires Partition(sets, rows) && Ascending(rows)
    ensures SetOf(sets, KeptId(sets, x)) == SetOf(sets, x)
    ensures KeptId(sets, KeptId(sets, x)) == KeptId(sets, x)
    ensures SetOf(sets, x).None? ==> KeptId(sets, x) == x
    ensures SetOf(sets, x).Some? ==> SetOf(sets, x).value != [] && SetOf(sets, x).value[0].id == KeptId(sets, x)
  {
    if SetOf(sets, x).Some? {
      var i := SetOfIsASet(sets, x);
      assert MergeSet(sets[i], rows);
      assert sets[i][0] in sets[i];
      SetOfMember(sets, rows, i, sets[i][0]);
    }
  }

  // ----- stock-take lines -----

  /** Every counted item is stocked at the outlet of its take. */
  ghost predicate CountedAtOwnOutlet(lines: seq<TakeLine>, takes: map<Id, Outlet>, items: map<Id, StockItem>) {
    forall i :: 0 <= i < |lines| ==>
      lines[i].take in takes && lines[i].item in items && items[lines[i].item].outlet == takes[lines[i].take]
  }

  /** Re-pointing never breaks UNIQUE(take, item), because a set holds one row per outlet. */
  lemma LinesStayUnique(
    sets: seq<seq<StockItem>>, rows: seq<StockItem>, lines: seq<TakeLine>, takes: map<Id, Outlet>, items: map<Id,
    StockItem>)
    requires Partition(sets, rows) && Ascending(rows)
    requires forall x :: x in rows ==> x.id in items && items[x.id].outlet == x.outlet
    requires CountedAtOwnOutlet(lines, takes, items) && UniqueLines(lines)
    ensures UniqueLines(LinesAfter(sets, lines))
  {
    var now := LinesAfter(sets, lines);
    forall i, j | 0 <= i < j < |lines| ensures now[i] != now[j] {
      if now[i] == now[j] {
        var x, y := lines[i].item, lines[j].item;
        SameKeptId(sets, rows, x, y);
        var n := SetOfIsASet(sets, x);
        var k := SetOfIsASet(sets, y);
        TwoAtOneOutlet(sets[n], rows, items, x, y);
        assert false;
      }
    }
  }

  lemma TwoAtOneOutlet(s: seq<StockItem>, rows: seq<StockItem>, items: map<Id, StockItem>, x: Id, y: Id)
    requires MergeSet(s, rows) && HasId(s, x) && HasId(s, y)
    requires forall r :: r in rows ==> r.id in items && items[r.id].outlet == r.outlet
    requires x in items && y in items && items[x].outlet == items[y].outlet
    ensures x == y
  {
  }

  /** The lines once every item is merged, told by the columns of the items. */
  ghost function LinesMoved<K>(p: Places<K>, lines: seq<TakeLine>): seq<TakeLine> {
    seq(|lines|, i requires 0 <= i < |lines| => lines[i].(item := Kept(p, lines[i].item)))
  }

  lemma LinesByColumns<K>(p: Places<K>, rows: seq<StockItem>, keyOf: StockItem -> K, lines: seq<TakeLine>)
    requires Ascending(rows) && Placed(p, rows, keyOf)
    ensures LinesAfter(Sets(rows, keyOf), lines) == LinesMoved(p, lines)
  {
    forall i | 0 <= i < |lines| ensures KeptId(Sets(rows, keyOf), lines[i].item) == Kept(p, lines[i].item) {
      KeptByColumns(p, rows, keyOf, lines[i].item);
    }
  }

  /**
   * Exactly when an update would collide: two lines of one take name items
   * of one key that are equally many-th of their outlets.
   */
  lemma LinesCollideExactly<K>(p: Places<K>, lines: seq<TakeLine>)
    requires UniqueLines(lines)
    ensures !UniqueLines(LinesMoved(p, lines)) <==>
            exists i, j :: 0 <= i < j < |lines| && lines[i].take == lines[j].take
              && Together(p, lines[i].item, lines[j].item)
  {
    hide Together, Kept;
    var now := LinesMoved(p, lines);
    forall i, j | 0 <= i < j < |lines|
      ensures now[i] == now[j] <==> lines[i].take == lines[j].take && Together(p, lines[i].item, lines[j].item)
    {
      SameKeptExactly(p, lines[i].item, lines[j].item);
    }
  }

  lemma SameKeptExactly<K>(p: Places<K>, x: Id, y: Id)
    ensures Kept(p, x) == Kept(p, y) <==> x == y || Together(p, x, y)
  {
    hide Rank;
    if x in p {
      KeptFacts(p, x);
    }
    if y in p {
      KeptFacts(p, y);
    }
  }

  /** A take that lists same-named items of two outlets: the merge fails on it. */
  lemma LinesCanCollide<K>(k: K, a: Outlet, b: Outlet, take: Id)
    requires a != b
    ensures var p: Places<K> := map[1 := Place(k, a), 2 := Place(k, b)];
      var lines := [TakeLine(take, 1), TakeLine(take, 2)];
      UniqueLines(lines) && !UniqueLines(LinesMoved(p, lines))
  {
    var p: Places<K> := map[1 := Place(k, a), 2 := Place(k, b)];
    var lines := [TakeLine(take, 1), TakeLine(take, 2)];
    assert Earlier(p, 1) == {} && Earlier(p, 2) == {};
    LinesCollideExactly(p, lines);
    assert Together(p, lines[0].item, lines[1].item);
  }

  /** A collision, once there, stays: later updates move equal lines alike. */
  lemma CollisionStays(s: seq<StockItem>, lines: seq<TakeLine>)
    requires !UniqueLines(lines)
    ensures !UniqueLines(LinesInSet(s, lines))
  {
    var i, j :| 0 <= i < j < |lines| && lines[i] == lines[j];
    assert LinesInSet(s, lines)[i] == LinesInSet(s, lines)[j];
  }

  lemma {:induction false} CollisionStaysToTheEnd(
    sets: seq<seq<StockItem>>, rows: seq<StockItem>, n: nat, lines: seq<TakeLine>)
    requires Partition(sets, rows) && Ascending(rows) && n <= |sets|
    requires !UniqueLines(LinesAfter(sets[..n], lines))
    ensures !UniqueLines(LinesAfter(sets, lines))
    decreases |sets| - n
  {
    if n < |sets| {
      var now := LinesAfter(sets[..n], lines);
      CollisionStays(sets[n], now);
      forall x ensures KeptId(sets[..n + 1], x) == Repointed(sets[n], KeptId(sets[..n], x)) {
        KeptIdStep(sets, rows, n, x);
      }
      assert LinesInSet(sets[n], now) == LinesAfter(sets[..n + 1], lines);
      CollisionStaysToTheEnd(sets, rows, n + 1, lines);
    } else {
      assert sets[..n] == sets;
    }
  }

  // ----- recipes -----

  lemma {:induction false} FirstLineExact(s: seq<StockItem>, recipes: Recipes, m: Id)
    ensures FirstLine(s, recipes, m).Some? <==> exists x :: x in s && (m, x.id) in recipes
    ensures FirstLine(s, recipes, m).Some? ==>
      exists i :: 0 <= i < |s| && Lookup(recipes, (m, s[i].id)) == FirstLine(s, recipes, m)
                  && forall j :: 0 <= j < i ==> (m, s[j].id) !in recipes
  {
    if s != [] {
      var n := |s| - 1;
      FirstLineExact(s[..n], recipes, m);
      assert s == s[..n] + [s[n]];
      if FirstLine(s[..n], recipes, m).Some? {
        var i :| 0 <= i < n && Lookup(recipes, (m, s[..n][i].id)) == FirstLine(s[..n], recipes, m)
                 && forall j :: 0 <= j < i ==> (m, s[..n][j].id) !in recipes;
        assert Lookup(recipes, (m, s[i].id)) == FirstLine(s, recipes, m);
        assert forall j :: 0 <= j < i ==> s[j] == s[..n][j];
      } else {
        assert forall j :: 0 <= j < n ==> s[..n][j] in s[..n] && s[j] == s[..n][j];
        assert Lookup(recipes, (m, s[n].id)) == FirstLine(s, recipes, m);
        assert s[n] in s;
      }
    }
  }

  /** After the merge a dish uses an item exactly when it used one that was merged into it. */
  lemma RecipePairsAreImage(
    sets: seq<seq<StockItem>>, rows: seq<StockItem>, before: StockState, now: StockState, m: Id, k: Id)
    requires Partition(sets, rows) && Ascending(rows) && Merged(sets, before, now)
    ensures (m, k) in now.recipes <==> exists x :: (m, x) in before.recipes && KeptId(sets, x) == k
  {
    hide Partition, FirstLine, ItemAfter;
    assert Lookup(now.recipes, (m, k)) == LineAfter(sets, before.recipes, m, k);
    KeptIdInSet(sets, rows, k);
    if x :| (m, x) in before.recipes && KeptId(sets, x) == k {
      KeptIdInSet(sets, rows, x);
      if SetOf(sets, k).Some? {
        var i := SetOfIsASet(sets, x);
        FirstLineExact(sets[i], before.recipes, m);
        var j :| 0 <= j < |sets[i]| && sets[i][j].id == x;
        assert sets[i][j] in sets[i];
      }
    }
    if (m, k) in now.recipes {
      if SetOf(sets, k).None? {
        assert (m, k) in before.recipes;
      } else {
        var i := SetOfIsASet(sets, k);
        FirstLineExact(sets[i], before.recipes, m);
        var y :| y in sets[i] && (m, y.id) in before.recipes;
        SetOfMember(sets, rows, i, y);
        assert KeptId(sets, y.id) == k;
      }
    }
  }

  // ----- quantities -----

  /** The thousandths a column text stands for. */
  function Amount(text: string): int {
    if Units(text).Some? then Units(text).value else 0
  }

  ghost predicate DecimalColumns(movements: seq<Movement>) {
    forall i :: 0 <= i < |movements| ==> Units(movements[i].quantity).Some?
  }

  /** What the movements at these (outlet, item) pairs add up to. */
  function SumOver(movements: seq<Movement>, keys: set<(Outlet, Id)>): int {
    if movements == [] then 0
    else
      var last := movements[|movements| - 1];
      SumOver(movements[..|movements| - 1], keys) + if (last.outlet, last.item) in keys then Amount(last.quantity)
        else 0
  }

  /** The original movements at an outlet, over every row merged into one item. */
  ghost function MergedSum(sets: seq<seq<StockItem>>, movements: seq<Movement>, o: Outlet, k: Id): int {
    if movements == [] then 0
    else
      var last := movements[|movements| - 1];
      MergedSum(sets, movements[..|movements| - 1], o, k)
      + if last.outlet == o && KeptId(sets, last.item) == k then Amount(last.quantity) else 0
  }

  ghost function OutletSum(movements: seq<Movement>, o: Outlet): int {
    if movements == [] then 0
    else
      var last := movements[|movements| - 1];
      OutletSum(movements[..|movements| - 1], o) + if last.outlet == o then Amount(last.quantity) else 0
  }

  function ItemSum(movements: seq<Movement>, k: Id): int {
    if movements == [] then 0
    else
      var last := movements[|movements| - 1];
      ItemSum(movements[..|movements| - 1], k) + if last.item == k then Amount(last.quantity) else 0
  }

  lemma {:induction false} SumAfterMerge(sets: seq<seq<StockItem>>, movements: seq<Movement>, o: Outlet, k: Id)
    ensures SumOver(MovementsAfter(sets, movements), {(o, k)}) == MergedSum(sets, movements, o, k)
  {
    hide Amount, KeptId;
    if movements != [] {
      var n := |movements| - 1;
      SumAfterMerge(sets, movements[..n], o, k);
      assert MovementsAfter(sets, movements)[..n] == MovementsAfter(sets, movements[..n]);
    }
  }

  lemma {:induction false} OutletSumAfterMerge(sets: seq<seq<StockItem>>, movements: seq<Movement>, o: Outlet)
    ensures OutletSum(MovementsAfter(sets, movements), o) == OutletSum(movements, o)
  {
    hide Amount, KeptId;
    if movements != [] {
      var n := |movements| - 1;
      OutletSumAfterMerge(sets, movements[..n], o);
      assert MovementsAfter(sets, movements)[..n] == MovementsAfter(sets, movements[..n]);
    }
  }

  lemma {:induction false} SumOverSplit(movements: seq<Movement>, keys: set<(Outlet, Id)>, key: (Outlet, Id))
    requires key in keys
    ensures SumOver(movements, keys) == SumOver(movements, {key}) + SumOver(movements, keys - {key})
  {
    hide Amount;
    if movements != [] {
      SumOverSplit(movements[..|movements| - 1], keys, key);
    }
  }

  lemma {:induction false} SumOverNone(movements: seq<Movement>)
    ensures SumOver(movements, {}) == 0
  {
    if movements != [] {
      SumOverNone(movements[..|movements| - 1]);
    }
  }

  ghost predicate AllAt(movements: seq<Movement>, keys: set<(Outlet, Id)>) {
    forall i :: 0 <= i < |movements| ==> (movements[i].outlet, movements[i].item) in keys
  }

  lemma {:induction false} OutletSumIsSumOver(movements: seq<Movement>, all: set<(Outlet, Id)>, o: Outlet)
    requires AllAt(movements, all)
    ensures OutletSum(movements, o) == SumOver(movements, set key | key in all && key.0 == o)
  {
    hide Amount;
    if movements != [] {
      OutletSumIsSumOver(movements[..|movements| - 1], all, o);
    }
  }

  lemma {:induction false} ItemSumIsSumOver(movements: seq<Movement>, all: set<(Outlet, Id)>, k: Id)
    requires AllAt(movements, all)
    ensures ItemSum(movements, k) == SumOver(movements, set key | key in all && key.1 == k)
  {
    hide Amount;
    if movements != [] {
      ItemSumIsSumOver(movements[..|movements| - 1], all, k);
    }
  }
}
