/** The per-outlet quantities created at the end of the stock merge, and the conservation of stock. */
module StockLevels {
  import opened Tables
  import opened OnePerOutlet
  import opened MergePlan
  import opened StockMerge
  import opened StockTheorems
  import opened Quantities

  /** A row of `stock_levels`, under its key (outlet, stock item). */
  datatype Level = Level(quantity: string, reorder: string)

  type Levels = map<(Outlet, Id), Level>

  datatype Target = Target(item: Id, outlet: Outlet, reorder: string)

  // ----- the queries -----

  /** `SELECT quantity ... WHERE stock_item_id = k AND outlet_id = o`. */
  function QuantitiesAt(movements: seq<Movement>, o: Outlet, k: Id): seq<Option<string>> {
    if movements == [] then []
    else
      var last := movements[|movements| - 1];
      QuantitiesAt(movements[..|movements| - 1], o, k) + if last.outlet == o
        && last.item == k then [Some(last.quantity)] else []
  }

  /** `SELECT quantity ... WHERE stock_item_id = k`. */
  function QuantitiesOf(movements: seq<Movement>, k: Id): seq<Option<string>> {
    if movements == [] then []
    else
      var last := movements[|movements| - 1];
      QuantitiesOf(movements[..|movements| - 1], k) + if last.item == k then [Some(last.quantity)] else []
  }

  lemma AllUnitsMore(values: seq<Option<string>>, text: string)
    requires Total(AllUnits(values)).Some? && Units(text).Some?
    ensures Total(AllUnits(values + [Some(text)])) == Some(Total(AllUnits(values)).value + Amount(text))
  {
    hide Units;
    var all := AllUnits(values + [Some(text)]);
    assert all[..|values|] == AllUnits(values) && all[|values|] == Units(text);
  }

  lemma {:induction false} QuantitiesAtTotal(movements: seq<Movement>, o: Outlet, k: Id)
    requires DecimalColumns(movements)
    ensures Total(AllUnits(QuantitiesAt(movements, o, k))) == Some(SumOver(movements, {(o, k)}))
  {
    hide Units, AllUnits, Amount;
    if movements != [] {
      var n := |movements| - 1;
      QuantitiesAtTotal(movements[..n], o, k);
      AllUnitsMore(QuantitiesAt(movements[..n], o, k), movements[n].quantity);
      assert QuantitiesAt(movements[..n], o, k) + [] == QuantitiesAt(movements[..n], o, k);
    } else {
      NoUnits();
    }
  }

  lemma {:induction false} QuantitiesOfTotal(movements: seq<Movement>, k: Id)
    requires DecimalColumns(movements)
    ensures Total(AllUnits(QuantitiesOf(movements, k))) == Some(ItemSum(movements, k))
  {
    hide Units, AllUnits, Amount;
    if movements != [] {
      var n := |movements| - 1;
      QuantitiesOfTotal(movements[..n], k);
      AllUnitsMore(QuantitiesOf(movements[..n], k), movements[n].quantity);
      assert QuantitiesOf(movements[..n], k) + [] == QuantitiesOf(movements[..n], k);
    } else {
      NoUnits();
    }
  }

  lemma NoUnits()
    ensures Total(AllUnits([])) == Some(0)
  {
  }

  // ----- which levels are wanted -----

  function SetTargets(s: seq<StockItem>): seq<Target> {
    seq(|s|, i requires 0 <= i < |s| => Target(s[0].id, s[i].outlet, s[i].cols.reorder))
  }

  function ArchivedTargets(archived: seq<StockItem>): seq<Target> {
    seq(|archived|, i requires 0 <= i < |archived| => Target(archived[i].id, archived[i].outlet,
      archived[i].cols.reorder))
  }

  /** One target per member of every set: the kept item at the member's outlet, with the member's reorder level. */
  function SetsTargets(sets: seq<seq<StockItem>>): seq<Target> {
    if sets == [] then [] else SetsTargets(sets[..|sets| - 1]) + SetTargets(sets[|sets| - 1])
  }

  function KeyOf(t: Target): (Outlet, Id) {
    (t.outlet, t.item)
  }

  function TargetKeys(targets: seq<Target>): set<(Outlet, Id)> {
    set t | t in targets :: KeyOf(t)
  }

  function MovementKeys(movements: seq<Movement>): set<(Outlet, Id)> {
    set m | m in movements :: (m.outlet, m.item)
  }

  lemma {:induction false} SetsTargetsFrom(sets: seq<seq<StockItem>>, t: Target) returns (i: nat, j: nat)
    requires t in SetsTargets(sets)
    ensures i < |sets| && j < |sets[i]| && t == Target(sets[i][0].id, sets[i][j].outlet, sets[i][j].cols.reorder)
  {
    i := |sets| - 1;
    if t in SetsTargets(sets[..i]) {
      i, j := SetsTargetsFrom(sets[..i], t);
    } else {
      j :| 0 <= j < |sets[i]| && SetTargets(sets[i])[j] == t;
    }
  }

  lemma {:induction false} IntoSetsTargets(sets: seq<seq<StockItem>>, i: nat, j: nat)
    requires i < |sets| && j < |sets[i]|
    ensures Target(sets[i][0].id, sets[i][j].outlet, sets[i][j].cols.reorder) in SetsTargets(sets)
  {
    var n := |sets| - 1;
    if i < n {
      IntoSetsTargets(sets[..n], i, j);
    } else {
      assert SetTargets(sets[n])[j] in SetTargets(sets[n]);
    }
  }

  /** No (outlet, item) pair is wanted with two different reorder levels. */
  lemma TargetsAgree(archived: seq<StockItem>, active: seq<StockItem>, sets: seq<seq<StockItem>>, t: Target, u: Target)
    requires Partition(sets, active) && Ascending(active) && Ascending(archived)
    requires forall x, y :: x in archived && y in active ==> x.id != y.id
    requires t in ArchivedTargets(archived) + SetsTargets(sets) && u in ArchivedTargets(archived) + SetsTargets(sets)
    requires KeyOf(t) == KeyOf(u)
    ensures t == u
  {
    hide Partition, ArchivedTargets, SetsTargets, Ascending;
    var a, b := TargetSource(archived, active, sets, t);
    var c, d := TargetSource(archived, active, sets, u);
    if b.None? && d.None? {
      SameIdSameRow(archived, a, c);
    } else if b.Some? && d.Some? {
      var i, j := b.value, d.value;
      SetOfMember(sets, active, i, sets[i][0]);
      SetOfMember(sets, active, j, sets[j][0]);
      assert DistinctOutlets(sets[i]);
      assert sets[i] == sets[j];
    }
  }

  /** The row a target comes from, and its set if it was planned. */
  lemma TargetSource(archived: seq<StockItem>, active: seq<StockItem>, sets: seq<seq<StockItem>>, t: Target)
    returns (x: StockItem, i: Option<nat>)
    requires Partition(sets, active) && t in ArchivedTargets(archived) + SetsTargets(sets)
    ensures i.None? ==> x in archived && t == Target(x.id, x.outlet, x.cols.reorder)
    ensures i.Some? ==> i.value < |sets| && MergeSet(sets[i.value], active)
                        && sets[i.value][0] in sets[i.value] && sets[i.value][0] in active
                        && x in sets[i.value] && t == Target(sets[i.value][0].id, x.outlet, x.cols.reorder)
  {
    if t in ArchivedTargets(archived) {
      var n :| 0 <= n < |archived| && ArchivedTargets(archived)[n] == t;
      x, i := archived[n], None;
    } else {
      var n, j := SetsTargetsFrom(sets, t);
      assert MergeSet(sets[n], active);
      x, i := sets[n][j], Some(n);
    }
  }

  // ----- the levels built -----

  /** The levels that were there stay as they were, and the new ones hold the sum of their movements. */
  ghost predicate Derived(old': Levels, levels: Levels, movements: seq<Movement>) {
    && (forall key :: key in old' ==> key in levels && levels[key] == old'[key])
    && (forall key :: key in levels && key !in old' ==> levels[key].quantity == Print(SumOver(movements, {key})))
  }

  /** A wanted new level has the reorder level asked for, any other the item's own. */
  ghost predicate Reordered(old': Levels, levels: Levels, targets: seq<Target>, items: map<Id, StockItem>) {
    && (forall key :: key in levels && key !in old' && key in TargetKeys(targets) ==>
          exists t :: t in targets && KeyOf(t) == key && levels[key].reorder == t.reorder)
    && (forall key :: key in levels && key !in old' && key !in TargetKeys(targets) ==>
          key.1 in items && levels[key].reorder == items[key.1].cols.reorder)
  }

  /** What the two insert loops make of `stock_levels`. */
  ghost predicate LevelsAdded(
    old': Levels, levels: Levels, targets: seq<Target>, movements: seq<Movement>, items: map<Id, StockItem>)
  {
    && levels.Keys == old'.Keys + TargetKeys(targets) + MovementKeys(movements)
    && Derived(old', levels, movements)
    && Reordered(old', levels, targets, items)
  }

  /** The same, from an empty table. */
  ghost predicate LevelsBuilt(
    levels: Levels, targets: seq<Target>, movements: seq<Movement>, items: map<Id, StockItem>)
  {
    LevelsAdded(map[], levels, targets, movements, items)
  }

  ghost function Pick(keys: set<(Outlet, Id)>): (key: (Outlet, Id))
    requires keys != {}
    ensures key in keys
  {
    var key :| key in keys;
    key
  }

  /** What the levels at these keys hold together. */
  ghost function LevelTotal(levels: Levels, keys: set<(Outlet, Id)>): int
    requires keys <= levels.Keys
  {
    if keys == {} then 0
    else Amount(levels[Pick(keys)].quantity) + LevelTotal(levels, keys - {Pick(keys)})
  }

  lemma AmountOfPrint(n: int)
    ensures Amount(Print(n)) == n
  {
    hide Units, Print;
    PrintedReads(n);
  }

  lemma {:induction false} LevelTotalIsSum(levels: Levels, movements: seq<Movement>, keys: set<(Outlet, Id)>)
    requires keys <= levels.Keys
    requires forall key :: key in levels ==> levels[key].quantity == Print(SumOver(movements, {key}))
    ensures LevelTotal(levels, keys) == SumOver(movements, keys)
  {
    hide Amount, Print, SumOver;
    if keys == {} {
      SumOverNone(movements);
    } else {
      var key := Pick(keys);
      AmountOfPrint(SumOver(movements, {key}));
      SumOverSplit(movements, keys, key);
      LevelTotalIsSum(levels, movements, keys - {key});
    }
  }

  /** Each level holds the original movements at its outlet over every row merged into its item. */
  lemma LevelIsMergedSum(
    levels: Levels, targets: seq<Target>, sets: seq<seq<StockItem>>, before: StockState, now: StockState, o: Outlet,
    k: Id)
    requires Merged(sets, before, now) && LevelsBuilt(levels, targets, now.movements, now.items)
    requires (o, k) in levels
    ensures Amount(levels[(o, k)].quantity) == MergedSum(sets, before.movements, o, k)
  {
    hide Amount, Print, ItemAfter, LineAfter;
    SumAfterMerge(sets, before.movements, o, k);
    AmountOfPrint(SumOver(now.movements, {(o, k)}));
  }

  lemma MovementsHaveLevels(movements: seq<Movement>, keys: set<(Outlet, Id)>)
    requires MovementKeys(movements) <= keys
    ensures AllAt(movements, keys)
  {
  }

  /** An outlet holds as much after the migration as its movements added up to before. */
  lemma OutletTotalKept(
    levels: Levels, targets: seq<Target>, sets: seq<seq<StockItem>>, before: StockState, now: StockState, o: Outlet)
    requires Merged(sets, before, now) && LevelsBuilt(levels, targets, now.movements, now.items)
    ensures LevelTotal(levels, set key | key in levels.Keys && key.0 == o) == OutletSum(before.movements, o)
  {
    hide Amount, Print, ItemAfter, LineAfter;
    MovementsHaveLevels(now.movements, levels.Keys);
    LevelTotalIsSum(levels, now.movements, set key | key in levels.Keys && key.0 == o);
    OutletSumIsSumOver(now.movements, levels.Keys, o);
    OutletSumAfterMerge(sets, before.movements, o);
  }

  /** An item's property-wide quantity is the sum of its levels. */
  lemma ItemTotalIsLevels(
    levels: Levels, targets: seq<Target>, movements: seq<Movement>, items: map<Id, StockItem>, k: Id)
    requires LevelsBuilt(levels, targets, movements, items)
    ensures Amount(Print(ItemSum(movements, k))) == LevelTotal(levels, set key | key in levels.Keys && key.1 == k)
  {
    hide Amount, Print;
    MovementsHaveLevels(movements, levels.Keys);
    LevelTotalIsSum(levels, movements, set key | key in levels.Keys && key.1 == k);
    ItemSumIsSumOver(movements, levels.Keys, k);
    AmountOfPrint(ItemSum(movements, k));
  }

  /** Every row, merged or not, leaves its reorder level at its own outlet. */
  lemma ReorderLevelsKept(
    levels: Levels, archived: seq<StockItem>, active: seq<StockItem>, sets: seq<seq<StockItem>>,
    movements: seq<Movement>, items: map<Id, StockItem>, x: StockItem)
    requires Partition(sets, active) && Ascending(active) && Ascending(archived)
    requires forall a, b :: a in archived && b in active ==> a.id != b.id
    requires LevelsBuilt(levels, ArchivedTargets(archived) + SetsTargets(sets), movements, items)
    requires x in archived || x in active
    ensures (x.outlet, KeptId(sets, x.id)) in levels
    ensures levels[(x.outlet, KeptId(sets, x.id))].reorder == x.cols.reorder
  {
    var targets := ArchivedTargets(archived) + SetsTargets(sets);
    var t := Target(KeptId(sets, x.id), x.outlet, x.cols.reorder);
    if x in active {
      var i := SetOfRow(sets, active, x);
      var j :| 0 <= j < |sets[i]| && sets[i][j] == x;
      IntoSetsTargets(sets, i, j);
      assert t in targets;
    } else {
      NotPlanned(sets, active, x.id);
      var i :| 0 <= i < |archived| && archived[i] == x;
      assert ArchivedTargets(archived)[i] == t;
      assert t in targets;
    }
    assert KeyOf(t) in TargetKeys(targets);
    var u :| u in targets && KeyOf(u) == KeyOf(t) && levels[KeyOf(t)].reorder == u.reorder;
    TargetsAgree(archived, active, sets, t, u);
  }
}
