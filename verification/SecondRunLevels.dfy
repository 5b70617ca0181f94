/**
 * When the levels a second run leaves still hold what was moved, told by the
 * property before the first run, and when it moves anything at all.
 */
module SecondRunLevels {
  import opened Tables
  import opened Names
  import opened MergePlan
  import opened MergeColumns
  import opened CategoryCarry
  import opened CategoryLists
  import opened Quantities
  import opened StockTheorems
  import opened StockLevels
  import opened StockMergeSteps
  import opened CatalogueMeaning
  import opened PropertyRuns
  import opened Reruns
  import opened SecondRun
  import opened SecondRunRecipes
  import StockMerge

  /** What a row is merged into by k runs. */
  ghost function KeptTimes<K>(p: Places<K>, k: nat, id: Id): Id {
    if k == 0 then id else Kept(AfterRuns(p, k - 1), KeptTimes(p, k - 1, id))
  }

  /** The original movements at an outlet, over every row that n runs merge into one. */
  ghost function JoinedSum<K>(p: Places<K>, n: nat, movements: seq<StockMerge.Movement>, o: Outlet, id: Id): int {
    if movements == [] then 0
    else
      var last := movements[|movements| - 1];
      JoinedSum(p, n, movements[..|movements| - 1], o, id)
      + if last.outlet == o && KeptTimes(p, n, last.item) == id then Amount(last.quantity) else 0
  }

  /** The levels of the first run: every item and every movement at its outlet, under the row merged into. */
  ghost function FirstLevelKeys(first: Property): set<(Outlet, Id)> {
    var p := StockPlaces(first.stockItems);
    (set id | id in first.stockItems :: (first.stockItems[id].outlet, Kept(p, id)))
    + (set m | m in first.movements :: (m.outlet, Kept(p, m.item)))
  }

  /** Every level holds the sum of its movements. */
  ghost predicate LevelsHold(p: Property) {
    forall key :: key in p.levels ==> Amount(p.levels[key].quantity) == SumOver(p.movements, {key})
  }

  /** What the second run joins moves nothing on balance into or out of a level of the first. */
  ghost predicate SumsSettled(first: Property) {
    forall o: Outlet, k: Id :: (o, k) in FirstLevelKeys(first) ==>
      JoinedSum(StockPlaces(first.stockItems), 1, first.movements, o, k) ==
      JoinedSum(StockPlaces(first.stockItems), 2, first.movements, o, k)
  }

  /** The movements after n runs. */
  ghost predicate MovedTimes<K>(
    p: Places<K>, n: nat, before: seq<StockMerge.Movement>, now: seq<StockMerge.Movement>)
  {
    && |now| == |before|
    && forall i :: 0 <= i < |before| ==> now[i] == before[i].(item := KeptTimes(p, n, before[i].item))
  }

  lemma {:induction false} JoinedSumIs<K>(
    p: Places<K>, n: nat, before: seq<StockMerge.Movement>, now: seq<StockMerge.Movement>, o: Outlet, k: Id)
    requires MovedTimes(p, n, before, now)
    ensures SumOver(now, {(o, k)}) == JoinedSum(p, n, before, o, k)
  {
    hide Amount, KeptTimes;
    if before != [] {
      var l := |before| - 1;
      JoinedSumIs(p, n, before[..l], now[..l], o, k);
    }
  }

  lemma MovedOnce(before: Property, now: Property, stockBy: map<string, Entry>)
    requires Keyed(before.stockItems) && StockDone(before, now, stockBy)
    ensures |now.movements| == |before.movements|
    ensures forall i :: 0 <= i < |before.movements| ==>
      now.movements[i] == before.movements[i].(item := Kept(StockPlaces(before.stockItems), before.movements[i].item))
    ensures now.takeLines == LinesMoved(StockPlaces(before.stockItems), before.takeLines)
  {
    hide StockSets, StockPlaces, Kept, KeptId, MergedStock, Totalled, LevelsAdded;
    forall id ensures KeptId(StockSets(stockBy, before.stockItems), id) == Kept(StockPlaces(before.stockItems), id) {
      StockKeptByColumns(stockBy, before.stockItems, id);
    }
  }

  lemma MovedTwice(first: Property, once: Property, twice: Property, stockBy: map<string, Entry>)
    requires Keyed(first.stockItems) && StockDone(first, once, stockBy) && StockDone(once, twice, stockBy)
    ensures MovedTimes(StockPlaces(first.stockItems), 1, first.movements, once.movements)
    ensures MovedTimes(StockPlaces(first.stockItems), 2, first.movements, twice.movements)
  {
    hide StockDone, StockPlaces, Kept, Survivors;
    StockPlacesAfter(first, once, stockBy);
    MovedOnce(first, once, stockBy);
    MovedOnce(once, twice, stockBy);
    var p := StockPlaces(first.stockItems);
    forall id ensures KeptTimes(p, 1, id) == Kept(p, id) && KeptTimes(p, 2, id) == Kept(Survivors(p), Kept(p, id)) {
      KeptOnceAndTwice(p, id);
    }
  }

  lemma KeptOnceAndTwice<K>(p: Places<K>, id: Id)
    ensures KeptTimes(p, 1, id) == Kept(p, id) && KeptTimes(p, 2, id) == Kept(Survivors(p), Kept(p, id))
  {
    hide Kept, Survivors;
    assert AfterRuns(p, 0) == p && AfterRuns(p, 1) == Survivors(p) && KeptTimes(p, 0, id) == id;
    assert KeptTimes(p, 1, id) == Kept(p, id);
  }

  /** The levels of the first run are those the columns name. */
  lemma FirstLevelsExactly(first: Property, once: Property, stockBy: map<string, Entry>)
    requires Sound(first) && first.levels == map[] && StockDone(first, once, stockBy)
    ensures once.levels.Keys == FirstLevelKeys(first)
  {
    hide StockSets, Targets, StockPlaces, Kept, MergedStock, KeptId, Totalled, LevelsAdded, DecimalColumns, Keyed,
         StockMerge.UniqueLines, QuantitiesKept, TotalsAreLevels, StockRowsKept;
    var targets := Targets(stockBy, first.stockItems);
    AddedKeys(map[], once.levels, targets, once.movements, MergedStock(stockBy, first.stockItems));
    MovedOnce(first, once, stockBy);
    StockMeaning(first, once, stockBy);
    forall key | key in TargetKeys(targets) ensures key in FirstLevelKeys(first) {
      var t :| t in targets && KeyOf(t) == key;
      var x := TargetItemKept(stockBy, first.stockItems, t);
    }
    forall key | key in MovementKeys(once.movements) ensures key in FirstLevelKeys(first) {
      var i :| 0 <= i < |once.movements| && (once.movements[i].outlet, once.movements[i].item) == key;
      assert first.movements[i] in first.movements;
    }
    forall m | m in first.movements
      ensures (m.outlet, Kept(StockPlaces(first.stockItems), m.item)) in MovementKeys(once.movements)
    {
      var i :| 0 <= i < |first.movements| && first.movements[i] == m;
      assert once.movements[i] in once.movements;
    }
  }

  /** Levels are right after the first run; after a second one exactly when the sums it leaves alone agree. */
  lemma LevelsHoldExactly(first: Property, once: Property, twice: Property, stockBy: map<string, Entry>)
    requires Sound(first) && first.levels == map[]
    requires StockDone(first, once, stockBy) && StockDone(once, twice, stockBy)
    ensures LevelsHold(once)
    ensures LevelsHold(twice) <==> SumsSettled(first)
  {
    hide StockDone, StockPlaces, FirstLevelKeys, Amount, SumOver, JoinedSum, MovedTimes, Sound;
    assert Keyed(first.stockItems) by {
      SoundKeyed(first);
    }
    MovedTwice(first, once, twice, stockBy);
    FirstLevelsExactly(first, once, stockBy);
    LevelsNeverDerivedAgain(first, once, twice, stockBy);
    LevelsOfSecond(once, twice, stockBy);
    var p := StockPlaces(first.stockItems);
    forall o: Outlet, k: Id
      ensures SumOver(once.movements, {(o, k)}) == JoinedSum(p, 1, first.movements, o, k)
      ensures SumOver(twice.movements, {(o, k)}) == JoinedSum(p, 2, first.movements, o, k)
    {
      JoinedSumIs(p, 1, first.movements, once.movements, o, k);
      JoinedSumIs(p, 2, first.movements, twice.movements, o, k);
    }
    if LevelsHold(twice) {
      forall o: Outlet, k: Id | (o, k) in FirstLevelKeys(first)
        ensures JoinedSum(p, 1, first.movements, o, k) == JoinedSum(p, 2, first.movements, o, k)
      {
        assert (o, k) in once.levels;
      }
    }
    if SumsSettled(first) {
      forall key | key in twice.levels ensures Amount(twice.levels[key].quantity) == SumOver(twice.movements, {key}) {
        if key in once.levels {
          assert (key.0, key.1) in FirstLevelKeys(first);
        }
      }
    }
  }

  lemma SoundKeyed(p: Property)
    requires Sound(p)
    ensures Keyed(p.stockItems)
  {
  }

  lemma LevelsOfSecond(once: Property, twice: Property, stockBy: map<string, Entry>)
    requires StockDone(once, twice, stockBy)
    ensures forall key :: key in twice.levels && key !in once.levels ==>
      Amount(twice.levels[key].quantity) == SumOver(twice.movements, {key})
  {
    hide StockSets, Targets, MergedStock, Totalled, Reordered, Print, Amount, SumOver, StockMerge.MovementsAfter;
    forall key | key in twice.levels && key !in once.levels
      ensures Amount(twice.levels[key].quantity) == SumOver(twice.movements, {key})
    {
      AmountOfPrint(SumOver(twice.movements, {key}));
    }
  }

  /** The second run moves nothing exactly when it joins no row that has movements, or that a take counted. */
  lemma MovementsStayExactly(first: Property, once: Property, twice: Property, stockBy: map<string, Entry>)
    requires Sound(first) && StockDone(first, once, stockBy) && StockDone(once, twice, stockBy)
    ensures var p := StockPlaces(first.stockItems);
      && (twice.movements == once.movements <==>
            forall m :: m in first.movements ==> KeptTimes(p, 2, m.item) == KeptTimes(p, 1, m.item))
      && (twice.takeLines == once.takeLines <==>
            forall l :: l in first.takeLines ==> KeptTimes(p, 2, l.item) == KeptTimes(p, 1, l.item))
  {
    hide StockDone, StockPlaces, Kept, Survivors, Sound, KeptTimes;
    assert Keyed(first.stockItems) by {
      SoundKeyed(first);
    }
    var p := StockPlaces(first.stockItems);
    MovedTwice(first, once, twice, stockBy);
    StockPlacesAfter(first, once, stockBy);
    MovedOnce(first, once, stockBy);
    MovedOnce(once, twice, stockBy);
    forall id ensures KeptTimes(p, 1, id) == Kept(p, id) && KeptTimes(p, 2, id) == Kept(Survivors(p), Kept(p, id)) {
      KeptOnceAndTwice(p, id);
    }
    if twice.movements == once.movements {
      forall m | m in first.movements ensures KeptTimes(p, 2, m.item) == KeptTimes(p, 1, m.item) {
        var i :| 0 <= i < |first.movements| && first.movements[i] == m;
        assert twice.movements[i].item == once.movements[i].item;
      }
    }
    if twice.takeLines == once.takeLines {
      forall l | l in first.takeLines ensures KeptTimes(p, 2, l.item) == KeptTimes(p, 1, l.item) {
        var i :| 0 <= i < |first.takeLines| && first.takeLines[i] == l;
        assert twice.takeLines[i].item == once.takeLines[i].item;
      }
    }
    assert forall i :: 0 <= i < |first.movements| ==> first.movements[i] in first.movements;
    assert forall i :: 0 <= i < |first.takeLines| ==> first.takeLines[i] in first.takeLines;
  }

  /**
   * Items 1 at outlet A, 2 and 3 at outlet B, and stock of item 3 at B: both
   * runs succeed, and the second leaves that stock under the level of item 1
   * at B, which the first run derived without it.
   */
  lemma StaleLevel(a: Outlet, b: Outlet, quantity: string)
    requires a != b && Units(quantity).Some? && Units(quantity).value != 0
    ensures var first := EmptyProperty().(
        stockItems := map[1 := Stocked(1, a), 2 := Stocked(2, b), 3 := Stocked(3, b)],
        movements := [StockMerge.Movement(b, 3, quantity)]);
      Fresh(first) && RunSucceeds(first, 2) && !SumsSettled(first)
  {
    hide Key, NothingToAdd, Select, Units, Kept, KeptTimes, LinesAfterRuns;
    var items := map[1 := Stocked(1, a), 2 := Stocked(2, b), 3 := Stocked(3, b)];
    var m := StockMerge.Movement(b, 3, quantity);
    var first := EmptyProperty().(stockItems := items, movements := [m]);
    var p := StockPlaces(items);
    NothingMissing();
    NoItems();
    NoLinesMoved(p, 2);
    assert p == ABB((Key("Rice"), Key("kg")), a, b);
    MergesABB((Key("Rice"), Key("kg")), a, b);
    KeptOnceAndTwice(p, 3);
    assert (items[2].outlet, Kept(p, 2)) in FirstLevelKeys(first);
    assert [m][..0] == [];
    assert JoinedSum(p, 1, [], b, 1) == 0 && JoinedSum(p, 2, [], b, 1) == 0;
    assert JoinedSum(p, 1, [m], b, 1) == 0;
    assert JoinedSum(p, 2, [m], b, 1) == Units(quantity).value;
  }

  /** Which tables a successful second run changes, and whether the levels are still right. */
  ghost predicate SecondRunMoves(first: Property, once: Property, twice: Property) {
    var p := StockPlaces(first.stockItems);
    && (twice.movements == once.movements <==>
          forall m :: m in first.movements ==> KeptTimes(p, 2, m.item) == KeptTimes(p, 1, m.item))
    && (twice.takeLines == once.takeLines <==>
          forall l :: l in first.takeLines ==> KeptTimes(p, 2, l.item) == KeptTimes(p, 1, l.item))
    && (twice.recipes == once.recipes <==> RecipesSettled(once))
    && LevelsHold(once) && (LevelsHold(twice) <==> SumsSettled(first))
  }

  lemma SecondRunMovement(
    first: Property, once: Property, twice: Property, menuBy: map<string, Entry>, stockBy: map<string, Entry>)
    requires Fresh(first) && Sound(once) && Ran(first, once, menuBy, stockBy) && Ran(once, twice, menuBy, stockBy)
    ensures SecondRunMoves(first, once, twice)
  {
    hide StockDone, MenuDone, RecipesMoved, RecipesSettled, LevelsHold, SumsSettled, KeptTimes, StockPlaces, Sound,
         Describes, AddedRows, MenuNames, StockNames, ItemNames, CarryRows, AllPairs, MenuSets, StockSets, AllAtOutlets;
    MovementsStayExactly(first, once, twice, stockBy);
    RecipesStayExactly(once, twice, menuBy, stockBy);
    LevelsHoldExactly(first, once, twice, stockBy);
  }
}
