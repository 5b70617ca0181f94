/**
 * What a second successful run changes: nothing but empty levels, where in
 * every group the first row's outlet leads.
 */
module SecondRun {
  import opened Tables
  import opened Names
  import opened MergePlan
  import opened MergeColumns
  import opened Categories
  import opened CategoryMerge
  import opened CategoryLists
  import opened CategoryCarry
  import opened ItemFiling
  import opened Quantities
  import opened StockTheorems
  import opened StockLevels
  import opened StockMergeSteps
  import opened CatalogueMeaning
  import opened PropertyRuns
  import opened Reruns
  import MenuMerge
  import StockMerge

  // ----- filing again -----

  lemma CanonicalTwice(byName: map<string, Entry>, rows: seq<Category>, category: string)
    requires Describes(byName, rows)
    ensures Canonical(byName, Canonical(byName, category)) == Canonical(byName, category)
  {
  }

  /** The stock item's category, if it has one, is spelled as registered. */
  ghost predicate StockFiled(byName: map<string, Entry>, category: Option<string>) {
    Truthy(category) ==> Canonical(byName, category.value) == category.value
  }

  lemma {:induction false} FirstCategoryFiled(byName: map<string, Entry>, s: seq<StockItem>)
    requires forall x :: x in s ==> StockFiled(byName, x.cols.category)
    ensures StockFiled(byName, StockMerge.FirstCategory(s))
  {
    if s != [] {
      FirstCategoryFiled(byName, s[..|s| - 1]);
      assert s[|s| - 1] in s;
    }
  }

  lemma RefiledIsFiled(byName: map<string, Entry>, rows: seq<Category>, row: StockItem)
    requires Describes(byName, rows)
    ensures StockFiled(byName, RefileStock(byName, row).cols.category)
  {
  }

  lemma FiledStays(byName: map<string, Entry>, row: StockItem)
    requires StockFiled(byName, row.cols.category)
    ensures RefileStock(byName, row) == row
  {
  }

  /** After a run every stock item is filed, the filled-up heads included. */
  lemma MergedFiled(byName: map<string, Entry>, rows: seq<Category>, items: map<Id, StockItem>, id: Id)
    requires Describes(byName, rows) && Keyed(items) && id in items
    ensures StockFiled(byName, MergedStock(byName, items)[id].cols.category)
  {
    hide Key, Describes, Canonical, StockFiled, ActiveStock, ArchivedStock, Ascending, Partition, Sets, KeptId;
    var sets, x := StockSets(byName, items), RefileStock(byName, items[id]);
    RefiledIsFiled(byName, rows, items[id]);
    if SetOf(sets, id).Some? {
      StockSplit(byName, items);
      SetsPartition(ActiveStock(byName, items), StockKey);
      var i := SetOfIsASet(sets, id);
      assert MergeSet(sets[i], ActiveStock(byName, items));
      forall y: StockItem | y in sets[i] ensures StockFiled(byName, y.cols.category) {
        RefiledIsFiled(byName, rows, items[y.id]);
      }
      FirstCategoryFiled(byName, sets[i]);
    }
  }

  // ----- a plan of single rows -----

  /** Where all survive, a planned row is a set of its own. */
  lemma AloneInSet<T(!new), K>(p: Places<K>, rows: seq<Row<T>>, keyOf: Row<T> -> K, x: Row<T>)
    requires Ascending(rows) && Placed(p, rows, keyOf) && Survivors(p) == p && x in rows
    ensures SetOf(Sets(rows, keyOf), x.id) == Some([x])
  {
    hide Sets, Partition, Survivors;
    SingletonsExactly(p, rows, keyOf);
    SetsPartition(rows, keyOf);
    var i := SetOfRow(Sets(rows, keyOf), rows, x);
    var s := Sets(rows, keyOf)[i];
    assert s in Sets(rows, keyOf) && s == [s[0]];
  }

  lemma StockAlone(byName: map<string, Entry>, items: map<Id, StockItem>, id: Id)
    requires Keyed(items) && id in items && Survivors(StockPlaces(items)) == StockPlaces(items)
    ensures SetOf(StockSets(byName, items), id) == if StockActive(items[id]) then Some([RefileStock(byName, items[id])])
      else None
  {
    hide Key, Canonical, ActiveStock, ArchivedStock, Ascending, Sets, Survivors, StockPlaces, Placed;
    if StockActive(items[id]) {
      StockPlaced(byName, items);
      StockSplit(byName, items);
      AloneInSet(StockPlaces(items), ActiveStock(byName, items), StockKey, RefileStock(byName, items[id]));
    } else {
      ArchivedUnplanned(byName, items, id);
    }
  }

  lemma NoStockSet(byName: map<string, Entry>, items: map<Id, StockItem>, id: Id)
    requires Keyed(items) && id !in items
    ensures SetOf(StockSets(byName, items), id).None?
  {
    hide Key, Canonical, ActiveStock, ArchivedStock, Partition, Sets, Ascending;
    StockSplit(byName, items);
    SetsPartition(ActiveStock(byName, items), StockKey);
    NotPlanned(StockSets(byName, items), ActiveStock(byName, items), id);
  }

  lemma MenuAlone(byName: map<string, Entry>, rows: seq<Category>, items: map<Id, MenuItem>, id: Id)
    requires Describes(byName, rows) && Keyed(items) && id in items && Survivors(MenuPlaces(items)) == MenuPlaces(items)
    ensures SetOf(MenuSets(byName, items), id) == if MenuActive(items[id]) then Some([RefileMenu(byName, items[id])])
      else None
  {
    hide Key, Canonical, Select, Ascending, FiledMenu, Sets, Survivors, MenuPlaces, Placed, Describes;
    if MenuActive(items[id]) {
      MenuPlaced(byName, rows, items);
      FiledMenuFacts(byName, items);
      AloneInSet(MenuPlaces(items), FiledMenu(byName, Select(items, MenuActive)), MenuKey,
                 RefileMenu(byName, items[id]));
    } else {
      InactiveUnplanned(byName, rows, items, id);
    }
  }

  lemma NoMenuSet(byName: map<string, Entry>, items: map<Id, MenuItem>, id: Id)
    requires Keyed(items) && id !in items
    ensures SetOf(MenuSets(byName, items), id).None?
  {
    hide Key, Canonical, Select, Partition, Sets, Ascending, FiledMenu;
    FiledMenuFacts(byName, items);
    SetsPartition(FiledMenu(byName, Select(items, MenuActive)), MenuKey);
    NotPlanned(MenuSets(byName, items), FiledMenu(byName, Select(items, MenuActive)), id);
  }

  lemma FillAlone(x: MenuItem)
    ensures MenuMerge.Fill(x, [x]) == x
  {
    assert [x][..0] == [];
    assert MenuMerge.FirstImage([]).None? && MenuMerge.FirstCost([]).None?;
    assert MenuMerge.FirstImage([x]) == if Truthy(x.cols.image) then x.cols.image else None;
    assert MenuMerge.FirstCost([x]) == x.cols.cost;
  }

  lemma FillCategoryAlone(x: StockItem)
    ensures StockMerge.FillCategory(x, [x]) == x
  {
    assert [x][..0] == [];
    assert StockMerge.FirstCategory([]).None?;
  }

  // ----- the menu -----

  lemma MenuItemsStay(first: Property, once: Property, twice: Property, menuBy: map<string, Entry>)
    requires Keyed(first.menuItems) && Describes(menuBy, once.menu) && twice.menu == once.menu
    requires MenuDone(first, once, menuBy) && MenuDone(once, twice, menuBy)
    requires Survivors(MenuPlaces(once.menuItems)) == MenuPlaces(once.menuItems)
    ensures twice.menuItems == once.menuItems
  {
    hide Key, Canonical, Describes, MenuSets, Survivors, MenuPlaces, MenuMerge.Fill, MenuMerge.SettingAfter;
    MenuPlacesAfter(first, once, menuBy);
    forall id | id in once.menuItems ensures twice.menuItems[id] == once.menuItems[id] {
      var row := once.menuItems[id];
      if MenuActive(row) {
        ActiveBefore(first, once, menuBy, id);
        CanonicalTwice(menuBy, once.menu, first.menuItems[id].cols.category);
        assert RefileMenu(menuBy, row) == row;
        FillAlone(row);
      }
      MenuAlone(menuBy, once.menu, once.menuItems, id);
      assert twice.menuItems[id] ==
        MenuMerge.ItemAfter(MenuSets(menuBy, once.menuItems), FiledMenuTable(menuBy, once.menuItems)[id]);
    }
  }

  /** The first run gives a kept item's own outlet a row only if it is off there. */
  lemma HeadSetting(first: Property, once: Property, menuBy: map<string, Entry>, k: Id)
    requires Keyed(first.menuItems) && first.settings == map[] && Describes(menuBy, once.menu)
    requires MenuDone(first, once, menuBy)
    requires k in once.menuItems && MenuActive(once.menuItems[k])
    ensures var x := once.menuItems[k];
      Lookup(once.settings, (x.outlet, k)) == MenuMerge.SettingOf(x, x, None)
  {
    hide Key, Canonical, Select, Describes, Ascending, FiledMenu, Partition, Sets, Survives, MenuMerge.SettingAt,
         MenuMerge.FirstImage, MenuMerge.FirstCost;
    ActiveBefore(first, once, menuBy, k);
    var filed, sets := FiledMenu(menuBy, Select(first.menuItems, MenuActive)), MenuSets(menuBy, first.menuItems);
    FiledMenuFacts(menuBy, first.menuItems);
    SetsPartition(filed, MenuKey);
    var row := RefileMenu(menuBy, first.menuItems[k]);
    var i := SetOfRow(sets, filed, row);
    MenuPlacesAfter(first, once, menuBy);
    assert k in MenuPlaces(once.menuItems);
    MenuKeptByColumns(menuBy, once.menu, first.menuItems, k);
    KeptFacts(MenuPlaces(first.menuItems), k);
    var s := sets[i];
    assert s[0] in s && s[0].id == k;
    SameIdSameRow(filed, s[0], row);
    MenuMerge.SettingOfMember(row, s, map[], 0);
    assert Lookup(once.settings, (row.outlet, k)) == MenuMerge.SettingAfter(sets, map[], row.outlet, k);
    assert once.menuItems[k] == MenuMerge.Fill(row, s);
  }

  lemma SettingsStay(first: Property, once: Property, twice: Property, menuBy: map<string, Entry>)
    requires Keyed(first.menuItems) && first.settings == map[] && Describes(menuBy, once.menu)
    requires twice.menu == once.menu
    requires MenuDone(first, once, menuBy) && MenuDone(once, twice, menuBy)
    requires Survivors(MenuPlaces(once.menuItems)) == MenuPlaces(once.menuItems)
    ensures twice.settings == once.settings
  {
    hide Key, Canonical, Describes, MenuSets, Survivors, MenuPlaces, MenuMerge.Fill, MenuMerge.SettingOf;
    MenuPlacesAfter(first, once, menuBy);
    forall o: Outlet, k: Id ensures Lookup(twice.settings, (o, k)) == Lookup(once.settings, (o, k)) {
      assert Lookup(twice.settings, (o, k)) ==
        MenuMerge.SettingAfter(MenuSets(menuBy, once.menuItems), once.settings, o, k);
      if k in once.menuItems {
        MenuAlone(menuBy, once.menu, once.menuItems, k);
        if MenuActive(once.menuItems[k]) {
          ActiveBefore(first, once, menuBy, k);
          CanonicalTwice(menuBy, once.menu, first.menuItems[k].cols.category);
          HeadSetting(first, once, menuBy, k);
          SettingAlone(once.menuItems[k], once.settings, o);
        }
      } else {
        NoMenuSet(menuBy, once.menuItems, k);
      }
    }
    SameTable(twice.settings, once.settings);
  }

  lemma SettingAlone(x: MenuItem, settings: MenuMerge.Settings, o: Outlet)
    requires Lookup(settings, (x.outlet, x.id)) == MenuMerge.SettingOf(x, x, None)
    ensures MenuMerge.SettingAt(x, [x], settings, o) == Lookup(settings, (o, x.id))
  {
  }

  lemma SameTable<V>(a: map<(nat, Id), V>, b: map<(nat, Id), V>)
    requires forall o: nat, k: Id :: Lookup(a, (o, k)) == Lookup(b, (o, k))
    ensures a == b
  {
    forall key ensures key in a <==> key in b {
      assert Lookup(a, (key.0, key.1)) == Lookup(b, (key.0, key.1));
    }
    forall key | key in a ensures a[key] == b[key] {
      assert Lookup(a, (key.0, key.1)) == Lookup(b, (key.0, key.1));
    }
  }

  // ----- the stock -----

  lemma KeptAlone<K>(p: Places<K>, id: Id)
    requires Survivors(p) == p
    ensures Kept(p, id) == id
  {
  }

  lemma MovementsStay(once: Property, twice: Property, stockBy: map<string, Entry>)
    requires Keyed(once.stockItems) && StockDone(once, twice, stockBy)
    requires Survivors(StockPlaces(once.stockItems)) == StockPlaces(once.stockItems)
    ensures twice.movements == once.movements && twice.takeLines == once.takeLines
  {
    hide StockSets, Survivors, StockPlaces, MergedStock, Targets, LevelsAdded, Kept, KeptId, Totalled;
    forall id ensures KeptId(StockSets(stockBy, once.stockItems), id) == id {
      StockKeptByColumns(stockBy, once.stockItems, id);
      KeptAlone(StockPlaces(once.stockItems), id);
    }
  }

  lemma TotalledRow(once: Property, before: Property, stockBy: map<string, Entry>, id: Id)
    requires StockDone(before, once, stockBy) && id in before.stockItems
    ensures id in once.stockItems
    ensures once.stockItems[id] == Totalled(MergedStock(stockBy, before.stockItems)[id], once.movements)
  {
    hide StockSets, StockMerge.ItemAfter, Totalled, LevelsAdded;
  }

  lemma TotalledTwice(row: StockItem, movements: seq<StockMerge.Movement>)
    ensures Totalled(Totalled(row, movements), movements) == Totalled(row, movements)
    ensures Totalled(row, movements).cols.category == row.cols.category
    ensures StockActive(Totalled(row, movements)) == StockActive(row)
  {
    hide Print, ItemSum;
  }

  lemma StockItemsStay(first: Property, once: Property, twice: Property, stockBy: map<string, Entry>)
    requires Keyed(first.stockItems) && Describes(stockBy, once.stock)
    requires StockDone(first, once, stockBy) && StockDone(once, twice, stockBy)
    requires Survivors(StockPlaces(once.stockItems)) == StockPlaces(once.stockItems)
    ensures MergedStock(stockBy, once.stockItems) == once.stockItems
    ensures twice.stockItems == once.stockItems
  {
    hide Key, Describes, StockSets, Survivors, StockPlaces, StockDone, Totalled, StockMerge.FillCategory, StockFiled;
    StockPlacesAfter(first, once, stockBy);
    StockPlacesAfter(once, twice, stockBy);
    MovementsStay(once, twice, stockBy);
    forall id | id in once.stockItems
      ensures MergedStock(stockBy, once.stockItems)[id] == once.stockItems[id]
      ensures twice.stockItems[id] == once.stockItems[id]
    {
      var row := once.stockItems[id];
      TotalledRow(once, first, stockBy, id);
      TotalledTwice(MergedStock(stockBy, first.stockItems)[id], once.movements);
      MergedFiled(stockBy, once.stock, first.stockItems, id);
      FiledStays(stockBy, row);
      StockAlone(stockBy, once.stockItems, id);
      FillCategoryAlone(row);
      TotalledRow(twice, once, stockBy, id);
    }
    MergedKeys(stockBy, once.stockItems);
  }

  // ----- the levels -----

  /** Every wanted level belongs to an archived row or to the head of a set. */
  lemma TargetItemKept(stockBy: map<string, Entry>, items: map<Id, StockItem>, t: Target) returns (x: Id)
    requires Keyed(items) && t in Targets(stockBy, items)
    ensures Kept(StockPlaces(items), t.item) == t.item && Kept(StockPlaces(items), x) == t.item
    ensures x in items && t.outlet == items[x].outlet && t.reorder == items[x].cols.reorder
  {
    hide Key, Canonical, ActiveStock, ArchivedStock, Ascending, Partition, Sets, StockPlaces, Kept, ArchivedTargets,
         SetsTargets;
    var active, archived, sets := ActiveStock(stockBy, items), ArchivedStock(stockBy, items), StockSets(stockBy, items);
    StockSplit(stockBy, items);
    SetsPartition(active, StockKey);
    var row, i := TargetSource(archived, active, sets, t);
    x := row.id;
    StockKeptByColumns(stockBy, items, t.item);
    StockKeptByColumns(stockBy, items, x);
    if i.Some? {
      SetOfMember(sets, active, i.value, row);
      SetOfMember(sets, active, i.value, sets[i.value][0]);
    } else {
      ArchivedUnplanned(stockBy, items, x);
    }
  }

  lemma OwnTarget(stockBy: map<string, Entry>, items: map<Id, StockItem>, id: Id)
    requires Keyed(items) && id in items && Survivors(StockPlaces(items)) == StockPlaces(items)
    ensures Target(id, items[id].outlet, items[id].cols.reorder) in Targets(stockBy, items)
  {
    hide Key, Canonical, ActiveStock, ArchivedStock, Ascending, Sets, StockPlaces, Survivors;
    var x, archived, sets := RefileStock(stockBy, items[id]), ArchivedStock(stockBy, items), StockSets(stockBy, items);
    StockSplit(stockBy, items);
    StockAlone(stockBy, items, id);
    if StockActive(x) {
      var i := SetOfIsASet(sets, id);
      IntoSetsTargets(sets, i, 0);
    } else {
      var i :| 0 <= i < |archived| && archived[i] == x;
      assert ArchivedTargets(archived)[i] in ArchivedTargets(archived);
    }
  }

  /** The keys wanted when nothing is left to merge: every item at its own outlet. */
  lemma OwnTargetKeys(stockBy: map<string, Entry>, items: map<Id, StockItem>)
    requires Keyed(items) && Survivors(StockPlaces(items)) == StockPlaces(items)
    ensures TargetKeys(Targets(stockBy, items)) == set id | id in items :: (items[id].outlet, id)
    ensures forall t :: t in Targets(stockBy, items) ==> t.item in items && t.reorder == items[t.item].cols.reorder
  {
    hide Targets, StockPlaces, Survivors, Kept;
    forall t | t in Targets(stockBy, items)
      ensures t.item in items && t == Target(t.item, items[t.item].outlet, items[t.item].cols.reorder)
    {
      var x := TargetItemKept(stockBy, items, t);
      KeptAlone(StockPlaces(items), x);
    }
    forall id | id in items ensures (items[id].outlet, id) in TargetKeys(Targets(stockBy, items)) {
      OwnTarget(stockBy, items, id);
    }
  }

  /** No level belongs to a row that was merged away. */
  lemma LevelItemKept(first: Property, once: Property, stockBy: map<string, Entry>, key: (Outlet, Id))
    requires Keyed(first.stockItems) && first.levels == map[] && StockDone(first, once, stockBy) && key in once.levels
    ensures Kept(StockPlaces(first.stockItems), key.1) == key.1
  {
    hide StockSets, Targets, StockPlaces, Kept, Derived, Reordered, MergedStock, KeptId, Totalled;
    if t :| t in Targets(stockBy, first.stockItems) && KeyOf(t) == key {
      var x := TargetItemKept(stockBy, first.stockItems, t);
    } else {
      assert key in MovementKeys(once.movements);
      MovementItemKept(first, once, stockBy, key);
    }
  }

  lemma MovementItemKept(first: Property, once: Property, stockBy: map<string, Entry>, key: (Outlet, Id))
    requires Keyed(first.stockItems)
    requires once.movements == StockMerge.MovementsAfter(StockSets(stockBy, first.stockItems), first.movements)
    requires key in MovementKeys(once.movements)
    ensures Kept(StockPlaces(first.stockItems), key.1) == key.1
  {
    hide StockSets, StockPlaces, Kept, KeptId;
    var i :| 0 <= i < |once.movements| && (once.movements[i].outlet, once.movements[i].item) == key;
    StockKeptByColumns(stockBy, first.stockItems, first.movements[i].item);
    KeptTwice(StockPlaces(first.stockItems), first.movements[i].item);
  }

  lemma KeptTwice<K>(p: Places<K>, id: Id)
    ensures Kept(p, Kept(p, id)) == Kept(p, id)
  {
    if id in p {
      KeptFacts(p, id);
      TogetherIn(p, id, Kept(p, id));
      KeptFacts(p, Kept(p, id));
    }
  }

  lemma {:induction false} NoMovementNoSum(movements: seq<StockMerge.Movement>, key: (Outlet, Id))
    requires key !in MovementKeys(movements)
    ensures SumOver(movements, {key}) == 0
  {
    hide Amount;
    if movements != [] {
      var n := |movements| - 1;
      assert movements[n] in movements;
      NoMovementNoSum(movements[..n], key);
    }
  }

  lemma PrintZero()
    ensures Print(0) == "0.000"
  {
  }

  ghost predicate MergedAway(items: map<Id, StockItem>, id: Id) {
    id in items && id in StockPlaces(items) && !Survives(StockPlaces(items), id)
  }

  /**
   * What the second run adds: an empty level for each row the first one
   * merged away, now an archived row of its own.
   */
  ghost predicate OnlyEmptyLevels(first: Property, once: Property, twice: Property) {
    && (forall key :: key in once.levels ==> key in twice.levels && twice.levels[key] == once.levels[key])
    && (forall key :: key in twice.levels && key !in once.levels ==>
          MergedAway(first.stockItems, key.1) && key.0 == first.stockItems[key.1].outlet)
    && (forall id :: MergedAway(first.stockItems, id) ==>
          && (first.stockItems[id].outlet, id) !in once.levels && (first.stockItems[id].outlet, id) in twice.levels
          && twice.levels[(first.stockItems[id].outlet, id)] == Level("0.000", first.stockItems[id].cols.reorder))
  }

  lemma LevelsCompleted(first: Property, once: Property, twice: Property, stockBy: map<string, Entry>)
    requires Sound(first) && first.levels == map[] && Keyed(once.stockItems) && Describes(stockBy, once.stock)
    requires StockDone(first, once, stockBy) && StockDone(once, twice, stockBy)
    requires Survivors(StockPlaces(once.stockItems)) == StockPlaces(once.stockItems)
    ensures OnlyEmptyLevels(first, once, twice)
  {
    hide Key, Describes, StockSets, Survivors, StockPlaces, Targets, MergedStock, Totalled, Kept, Keyed,
         OnlyEmptyLevels, StockMerge.UniqueLines, AscendingIds, StockMerge.MovementsAfter, StockMerge.LinesAfter,
         LevelsAdded, DecimalColumns;
    StockItemsStay(first, once, twice, stockBy);
    MovementsStay(once, twice, stockBy);
    StockPlacesAfter(first, once, stockBy);
    OwnTargetKeys(stockBy, once.stockItems);
    FirstLevels(first, once, stockBy);
    OwnLevels(first, once, stockBy);
    forall id | id in once.stockItems ensures once.stockItems[id].outlet == first.stockItems[id].outlet
                                      ensures once.stockItems[id].cols.reorder == first.stockItems[id].cols.reorder {
      SameColumns(first, once, stockBy, id);
    }
    LevelsFromColumns(first, once, twice, Targets(stockBy, once.stockItems));
  }

  /** A row that was kept has its level at its own outlet since the first run. */
  lemma OwnLevels(first: Property, once: Property, stockBy: map<string, Entry>)
    requires Sound(first) && first.levels == map[] && StockDone(first, once, stockBy)
    ensures forall id :: id in first.stockItems && Kept(StockPlaces(first.stockItems), id) == id ==>
      (first.stockItems[id].outlet, id) in once.levels
  {
    hide StockSets, StockPlaces, Kept, KeptId, StockDone, QuantitiesKept, TotalsAreLevels, StockRowsKept, Sound;
    StockMeaning(first, once, stockBy);
  }

  lemma LevelsFromColumns(first: Property, once: Property, twice: Property, targets: seq<Target>)
    requires LevelsAdded(once.levels, twice.levels, targets, once.movements, once.stockItems)
    requires TargetKeys(targets) == set id | id in once.stockItems :: (once.stockItems[id].outlet, id)
    requires forall t :: t in targets ==> t.item in once.stockItems && t.reorder == once.stockItems[t.item].cols.reorder
    requires MovementKeys(once.movements) <= once.levels.Keys && once.stockItems.Keys == first.stockItems.Keys
    requires forall key :: key in once.levels ==> Kept(StockPlaces(first.stockItems), key.1) == key.1
    requires forall id :: id in first.stockItems && Kept(StockPlaces(first.stockItems), id) == id ==>
      (first.stockItems[id].outlet, id) in once.levels
    requires forall id :: id in once.stockItems ==> once.stockItems[id].outlet == first.stockItems[id].outlet
                                                    && once.stockItems[id].cols.reorder ==
                                                         first.stockItems[id].cols.reorder
    ensures OnlyEmptyLevels(first, once, twice)
  {
    hide StockPlaces, Kept, LevelsAdded, TargetKeys, MovementKeys, MergedAway;
    AddedKeys(once.levels, twice.levels, targets, once.movements, once.stockItems);
    forall key | key in twice.levels && key !in once.levels
      ensures MergedAway(first.stockItems, key.1) && key.0 == first.stockItems[key.1].outlet
    {
      assert key in TargetKeys(targets);
      NotMergedAway(first.stockItems, key.1);
    }
    forall id | MergedAway(first.stockItems, id)
      ensures id in first.stockItems && (first.stockItems[id].outlet, id) !in once.levels
      ensures (first.stockItems[id].outlet, id) in twice.levels
      ensures twice.levels[(first.stockItems[id].outlet, id)] == Level("0.000", first.stockItems[id].cols.reorder)
    {
      AwayNotKept(first.stockItems, id);
      var key := (first.stockItems[id].outlet, id);
      EmptyLevel(once.levels, twice.levels, targets, once.movements, once.stockItems, key);
    }
  }

  lemma SameColumns(first: Property, once: Property, stockBy: map<string, Entry>, id: Id)
    requires Keyed(first.stockItems) && StockDone(first, once, stockBy) && id in once.stockItems
    ensures id in first.stockItems && once.stockItems[id].outlet == first.stockItems[id].outlet
    ensures once.stockItems[id].cols.reorder == first.stockItems[id].cols.reorder
  {
    hide Key, StockSets, MergedStock, StockPlaces, LevelsAdded, Print, ItemSum, Survives;
    MergedKeys(stockBy, first.stockItems);
    TotalledRow(once, first, stockBy, id);
    MergedStockRow(stockBy, first.stockItems, id);
  }

  lemma AddedKeys(
    old': Levels, levels: Levels, targets: seq<Target>, movements: seq<StockMerge.Movement>, items: map<Id, StockItem>)
    requires LevelsAdded(old', levels, targets, movements, items)
    ensures levels.Keys == old'.Keys + TargetKeys(targets) + MovementKeys(movements)
    ensures forall key :: key in old' ==> key in levels && levels[key] == old'[key]
  {
  }

  /** After the first run every movement has its level, and every level an item that was not merged away. */
  lemma FirstLevels(first: Property, once: Property, stockBy: map<string, Entry>)
    requires Keyed(first.stockItems) && first.levels == map[] && StockDone(first, once, stockBy)
    ensures MovementKeys(once.movements) <= once.levels.Keys
    ensures forall key :: key in once.levels ==> Kept(StockPlaces(first.stockItems), key.1) == key.1
  {
    hide StockSets, Targets, StockPlaces, Kept, MergedStock, KeptId, Totalled, LevelsAdded;
    AddedKeys(map[], once.levels, Targets(stockBy, first.stockItems), once.movements,
              MergedStock(stockBy, first.stockItems));
    forall key | key in once.levels ensures Kept(StockPlaces(first.stockItems), key.1) == key.1 {
      LevelItemKept(first, once, stockBy, key);
    }
  }

  lemma NotMergedAway(items: map<Id, StockItem>, id: Id)
    ensures MergedAway(items, id) || Kept(StockPlaces(items), id) == id
  {
  }

  lemma AwayNotKept(items: map<Id, StockItem>, id: Id)
    requires MergedAway(items, id)
    ensures Kept(StockPlaces(items), id) != id
    ensures id in items
  {
  }

  lemma EmptyLevel(
    old': Levels, levels: Levels, targets: seq<Target>, movements: seq<StockMerge.Movement>, items: map<Id, StockItem>,
    key: (Outlet, Id))
    requires LevelsAdded(old', levels, targets, movements, items)
    requires key in TargetKeys(targets) && key !in old' && key !in MovementKeys(movements) && key.1 in items
    requires forall t :: t in targets ==> t.item in items && t.reorder == items[t.item].cols.reorder
    ensures key in levels && levels[key] == Level("0.000", items[key.1].cols.reorder)
  {
    hide Print, SumOver;
    NoMovementNoSum(movements, key);
    PrintZero();
  }

  // ----- recipes and carried categories -----

  lemma CookAlone(x: MenuItem, recipes: Recipes)
    ensures MenuMerge.Cook([x], recipes, x.id) == x.id
  {
    hide MenuMerge.HasRecipe;
    assert [x][..0] == [];
    assert MenuMerge.FirstCook([], recipes).None?;
  }

  lemma LineAlone(x: StockItem, recipes: Recipes, m: Id)
    ensures StockMerge.FirstLine([x], recipes, m) == Lookup(recipes, (m, x.id))
  {
  }

  lemma RecipesStay(once: Property, twice: Property, menuBy: map<string, Entry>, stockBy: map<string, Entry>)
    requires Sound(once) && Describes(menuBy, once.menu)
    requires RecipesMoved(MenuSets(menuBy, once.menuItems), StockSets(stockBy, once.stockItems), once.recipes,
      twice.recipes)
    requires Survivors(MenuPlaces(once.menuItems)) == MenuPlaces(once.menuItems)
    requires Survivors(StockPlaces(once.stockItems)) == StockPlaces(once.stockItems)
    ensures twice.recipes == once.recipes
  {
    hide Describes, MenuSets, StockSets, Survivors, MenuPlaces, StockPlaces, MenuMerge.Cook, StockMerge.FirstLine,
         RefileMenu, RefileStock, KeptId, DecimalColumns, StockMerge.UniqueLines, AscendingIds;
    forall m: Id, k: Id ensures Lookup(twice.recipes, (m, k)) == Lookup(once.recipes, (m, k)) {
      CookStays(once, menuBy, m);
      LineStays(once, stockBy, m, k);
    }
    SameTable(twice.recipes, once.recipes);
  }

  lemma CookStays(once: Property, menuBy: map<string, Entry>, m: Id)
    requires Keyed(once.menuItems) && Describes(menuBy, once.menu)
    requires Survivors(MenuPlaces(once.menuItems)) == MenuPlaces(once.menuItems)
    ensures MenuMerge.CookAfter(MenuSets(menuBy, once.menuItems), once.recipes, m) == m
  {
    hide Describes, MenuSets, Survivors, MenuPlaces, MenuMerge.Cook;
    if m in once.menuItems {
      MenuAlone(menuBy, once.menu, once.menuItems, m);
      CookAlone(RefileMenu(menuBy, once.menuItems[m]), once.recipes);
    } else {
      NoMenuSet(menuBy, once.menuItems, m);
    }
  }

  lemma LineStays(once: Property, stockBy: map<string, Entry>, m: Id, k: Id)
    requires Keyed(once.stockItems) && Survivors(StockPlaces(once.stockItems)) == StockPlaces(once.stockItems)
    ensures StockMerge.LineAfter(StockSets(stockBy, once.stockItems), once.recipes, m, k) ==
      Lookup(once.recipes, (m, k))
  {
    hide StockSets, Survivors, StockPlaces, StockMerge.FirstLine;
    if k in once.stockItems {
      StockAlone(stockBy, once.stockItems, k);
      LineAlone(RefileStock(stockBy, once.stockItems[k]), once.recipes, m);
    } else {
      NoStockSet(stockBy, once.stockItems, k);
    }
  }

  /** The pairs a merged list carries are among those it carried before it was merged and added to. */
  lemma CarriedAgain(
    own: seq<Category>, others: seq<Category>, now: seq<Category>, known: set<string>, active: seq<MenuItem>,
                     byName: map<string, Entry>)
    requires AscendingIds(own) && AscendingIds(now) && UniqueNames(now) && AddedRows(own, others, now, known, active)
    requires AllPlaced(CarriedBy(now))
    ensures CarryRows(CarriedBy(now), byName) <= CarryRows(CarriedBy(own), byName)
  {
    hide Key, NameKey, CarriedBy, KeptFor, Merged, AscendingIds, IdFor, BearsActiveName, FromItem;
    MergedFacts(own);
    forall p | p in CarriedBy(now) && p.name != "" && p.outlet.Some?
      ensures (p.outlet.value, IdFor(byName, p.name)) in CarryRows(CarriedBy(own), byName)
    {
      CarriedExactly(now, p);
      var c :| c in now && c.status.Active? && c.outlet == p.outlet && p.name == KeptFor(now, c).name;
      KeptForFacts(now, c);
      OneOfAName(now, c, KeptFor(now, c));
      var i :| 0 <= i < |now| && now[i] == c;
      assert i < |Merged(own)|;
      assert Merged(own)[i] == c;
      SurvivesExactly(own, c);
      RowCarried(own, byName, c);
    }
  }

  lemma ItemRows(items: seq<MenuItem>, byName: map<string, Entry>, key: (Outlet, Id))
    ensures key in CarryRows(ItemPairs(items), byName) <==> exists x ::
      x in items && x.cols.category != "" && key == (x.outlet, IdFor(byName, x.cols.category))
  {
    hide Key, IdFor;
    var pairs := ItemPairs(items);
    if key in CarryRows(pairs, byName) {
      var p :| p in pairs && p.name != "" && p.outlet.Some? && key == (p.outlet.value, IdFor(byName, p.name));
      var i :| 0 <= i < |items| && pairs[i] == p;
      assert items[i] in items;
    }
    if x :| x in items && x.cols.category != "" && key == (x.outlet, IdFor(byName, x.cols.category)) {
      var i :| 0 <= i < |items| && items[i] == x;
      assert pairs[i] in pairs;
    }
  }

  /** An item that named a category before has it carried since the first run. */
  lemma ItemCarriedAgain(first: Property, once: Property, menuBy: map<string, Entry>, x: MenuItem)
    requires Keyed(first.menuItems) && Describes(menuBy, once.menu) && MenuDone(first, once, menuBy)
    requires x in ActiveItems(once) && Keyed(once.menuItems)
    ensures x.id in first.menuItems && first.menuItems[x.id] in ActiveItems(first)
    ensures first.menuItems[x.id].cols.category != "" ==>
      (x.outlet, IdFor(menuBy, x.cols.category)) in CarryRows(ItemPairs(ActiveItems(first)), menuBy)
  {
    hide Key, Canonical, Describes, MenuSets, FiledMenuTable, Select, MenuMerge.ItemAfter, MenuMerge.SettingAfter,
         CarryRows;
    SelectFacts(once.menuItems, MenuActive);
    SelectFacts(first.menuItems, MenuActive);
    ActiveBefore(first, once, menuBy, x.id);
    var y := first.menuItems[x.id];
    CanonicalKey(menuBy, once.menu, y.cols.category);
    OutletKept(first, once, menuBy, x.id);
    assert y in ActiveItems(first);
    ItemRows(ActiveItems(first), menuBy, (x.outlet, IdFor(menuBy, x.cols.category)));
  }

  lemma OutletKept(first: Property, once: Property, menuBy: map<string, Entry>, id: Id)
    requires Keyed(first.menuItems) && Describes(menuBy, once.menu) && MenuDone(first, once, menuBy)
    requires id in once.menuItems
    ensures id in first.menuItems && once.menuItems[id].outlet == first.menuItems[id].outlet
  {
  }

  /** The outlet carries the category of this name. */
  ghost predicate CarriesName(p: Property, o: Outlet, name: string) {
    exists c :: c in p.menu && NameKey(c) == Key(name) && (o, c.id) in p.carried
  }

  /**
   * Every item that named no category, and that filing put under one
   * registered as blanks, stands where that category is carried anyway.
   */
  ghost predicate BlankItemsCarried(first: Property, once: Property) {
    forall x ::
      x in ActiveItems(once) && x.id in first.menuItems && first.menuItems[x.id].cols.category == ""
        && x.cols.category != "" ==>
      CarriesName(once, x.outlet, x.cols.category)
  }

  lemma CarriesNameIs(p: Property, byName: map<string, Entry>, o: Outlet, name: string)
    requires Describes(byName, p.menu) && Key(name) in byName
    ensures CarriesName(p, o, name) <==> (o, IdFor(byName, name)) in p.carried
  {
    hide Key, NameKey;
    var c :| c in p.menu && NameKey(c) == Key(name);
    forall d | d in p.menu && NameKey(d) == Key(name) ensures d == c {
      OneOfAName(p.menu, c, d);
    }
  }

  /** The second run carries nothing new exactly when no item filed under blanks asks for it. */
  lemma CarriedStaysExactly(
    first: Property, once: Property, twice: Property, menuBy: map<string, Entry>, stockBy: map<string, Entry>)
    requires Sound(first) && Sound(once) && ListsSettled(first, once) && ListsPlaced(once)
    requires ListsDone(first, once, menuBy, stockBy) && MenuDone(first, once, menuBy)
    requires ListsDone(once, twice, menuBy, stockBy)
    ensures twice.carried == once.carried <==> BlankItemsCarried(first, once)
    ensures (forall x :: x in ActiveItems(first) ==> x.cols.category != "") ==> BlankItemsCarried(first, once)
  {
    hide Key, NameKey, CarriedBy, AddedRows, MenuNames, StockNames, ItemNames, NameKeys, Describes, AscendingIds,
         UniqueNames, CarryRows, MenuDone, ActiveItems, AllPlaced, Keyed, DecimalColumns, StockMerge.UniqueLines,
         IdFor, CarriesName, CarriedIds, IdsOf, ItemPairs;
    PairsOfProperty(first.menu, first.stock, ActiveItems(first), menuBy);
    PairsOfProperty(once.menu, once.stock, ActiveItems(once), menuBy);
    CarriedAgain(first.menu, first.stock, once.menu, MenuNames(first.menu, first.stock), ActiveItems(first), menuBy);
    CarriedAgain(first.stock, first.menu, once.stock, MenuNames(first.menu, first.stock), ActiveItems(first), menuBy);
    var rows := CarryRows(ItemPairs(ActiveItems(once)), menuBy);
    assert twice.carried == once.carried <==> rows <= once.carried;
    forall x | x in ActiveItems(once) && x.cols.category != ""
      ensures (x.outlet, IdFor(menuBy, x.cols.category)) in rows
      ensures x.id in first.menuItems && first.menuItems[x.id] in ActiveItems(first)
      ensures first.menuItems[x.id].cols.category != "" ==>
        (x.outlet, IdFor(menuBy, x.cols.category)) in once.carried
      ensures CarriesName(once, x.outlet, x.cols.category) <==>
        (x.outlet, IdFor(menuBy, x.cols.category)) in once.carried
    {
      ItemRows(ActiveItems(once), menuBy, (x.outlet, IdFor(menuBy, x.cols.category)));
      ItemCarriedAgain(first, once, menuBy, x);
      ItemNamed(ActiveItems(once), x);
      DescribedNames(menuBy, once.menu);
      CarriesNameIs(once, menuBy, x.outlet, x.cols.category);
    }
    if BlankItemsCarried(first, once) {
      forall key | key in rows ensures key in once.carried {
        ItemRows(ActiveItems(once), menuBy, key);
        var x :| x in ActiveItems(once) && x.cols.category != ""
          && key == (x.outlet, IdFor(menuBy, x.cols.category));
      }
    }
  }

  // ----- settings and recipes, exactly -----

  /** What the member would store for the kept row at its outlet is there already. */
  ghost predicate DifferenceKnown(kept: MenuItem, member: MenuItem, setting: Option<MenuMerge.Setting>) {
    && (member.id != kept.id && member.cols.price != kept.cols.price ==>
          setting.Some? && setting.value.price == Some(member.cols.price))
    && (!member.cols.available ==>
          setting.Some? && !setting.value.available && setting.value.autoOff == member.cols.autoOff)
  }

  lemma KnownExactly(kept: MenuItem, member: MenuItem, setting: Option<MenuMerge.Setting>)
    ensures MenuMerge.SettingOf(kept, member, setting) == setting <==> DifferenceKnown(kept, member, setting)
  {
  }

  ghost predicate SettingsSettled(once: Property) {
    forall id :: id in once.menuItems && MenuActive(once.menuItems[id]) ==>
      var y, kept := once.menuItems[id], Kept(MenuPlaces(once.menuItems), id);
      kept in once.menuItems && DifferenceKnown(once.menuItems[kept], y, Lookup(once.settings, (y.outlet, kept)))
  }

  /** After a run the active items are filed, so the rows planned are the rows of the table. */
  lemma FiledIsTable(first: Property, once: Property, menuBy: map<string, Entry>)
    requires Keyed(first.menuItems) && Describes(menuBy, once.menu) && MenuDone(first, once, menuBy)
    ensures Keyed(once.menuItems) && Ascending(FiledMenu(menuBy, Select(once.menuItems, MenuActive)))
    ensures forall x :: x in FiledMenu(menuBy, Select(once.menuItems, MenuActive)) <==>
      x.id in once.menuItems && once.menuItems[x.id] == x && MenuActive(x)
  {
    hide Key, Canonical, Select, Describes, Ascending, FiledMenu, MenuDone;
    MenuPlacesAfter(first, once, menuBy);
    FiledMenuFacts(menuBy, once.menuItems);
    forall id | id in once.menuItems && MenuActive(once.menuItems[id])
      ensures RefileMenu(menuBy, once.menuItems[id]) == once.menuItems[id]
    {
      ActiveBefore(first, once, menuBy, id);
      CanonicalTwice(menuBy, once.menu, first.menuItems[id].cols.category);
    }
  }

  /** The second run upserts at each member's outlet what differs from the row it keeps. */
  lemma MemberSetting(first: Property, once: Property, twice: Property, menuBy: map<string, Entry>, id: Id)
    requires Keyed(first.menuItems) && Describes(menuBy, once.menu) && MenuDone(first, once, menuBy)
    requires MenuDone(once, twice, menuBy) && id in once.menuItems && MenuActive(once.menuItems[id])
    ensures var y, kept := once.menuItems[id], Kept(MenuPlaces(once.menuItems), id);
      && kept in once.menuItems
      && Lookup(twice.settings, (y.outlet, kept)) ==
         MenuMerge.SettingOf(once.menuItems[kept], y, Lookup(once.settings, (y.outlet, kept)))
  {
    hide Key, Canonical, Select, Describes, Ascending, FiledMenu, Partition, Sets, MenuMerge.SettingAt,
         MenuMerge.SettingOf, MenuMerge.ItemAfter, MenuPlaces, Kept;
    var filed, sets := FiledMenu(menuBy, Select(once.menuItems, MenuActive)), MenuSets(menuBy, once.menuItems);
    FiledIsTable(first, once, menuBy);
    SetsPartition(filed, MenuKey);
    var y := once.menuItems[id];
    var i := SetOfRow(sets, filed, y);
    var s := sets[i];
    assert s[0] in s && s[0] in filed;
    SetOfMember(sets, filed, i, s[0]);
    MenuKeptByColumns(menuBy, once.menu, once.menuItems, id);
    var j :| 0 <= j < |s| && s[j] == y;
    MenuMerge.SettingOfMember(s[0], s, once.settings, j);
    assert Lookup(twice.settings, (y.outlet, s[0].id)) ==
      MenuMerge.SettingAfter(sets, once.settings, y.outlet, s[0].id);
  }

  /** A setting changes only at the outlet of an active row merged into its item. */
  lemma SettingOfNoMember(
    first: Property, once: Property, twice: Property, menuBy: map<string, Entry>, o: Outlet, k: Id) returns (id: Id)
    requires Keyed(first.menuItems) && Describes(menuBy, once.menu) && MenuDone(first, once, menuBy)
    requires MenuDone(once, twice, menuBy) && Lookup(twice.settings, (o, k)) != Lookup(once.settings, (o, k))
    ensures id in once.menuItems && MenuActive(once.menuItems[id]) && once.menuItems[id].outlet == o
    ensures Kept(MenuPlaces(once.menuItems), id) == k
  {
    hide Key, Canonical, Select, Describes, Ascending, FiledMenu, Partition, Sets, MenuMerge.SettingAt,
         MenuMerge.SettingOf, MenuMerge.ItemAfter, MenuPlaces, Kept;
    var filed, sets := FiledMenu(menuBy, Select(once.menuItems, MenuActive)), MenuSets(menuBy, once.menuItems);
    FiledIsTable(first, once, menuBy);
    SetsPartition(filed, MenuKey);
    assert Lookup(twice.settings, (o, k)) == MenuMerge.SettingAfter(sets, once.settings, o, k);
    var i := SetOfIsASet(sets, k);
    var s := sets[i];
    assert MergeSet(s, filed);
    MenuMerge.SettingOnlyOfMember(s[0], s, once.settings, o);
    var j :| 0 <= j < |s| && s[j].outlet == o;
    assert s[j] in s && s[j] in filed;
    id := s[j].id;
    SetOfMember(sets, filed, i, s[j]);
    MenuKeptByColumns(menuBy, once.menu, once.menuItems, id);
  }

  lemma SettingsStayExactly(first: Property, once: Property, twice: Property, menuBy: map<string, Entry>)
    requires Keyed(first.menuItems) && Describes(menuBy, once.menu) && MenuDone(first, once, menuBy)
    requires MenuDone(once, twice, menuBy)
    ensures twice.settings == once.settings <==> SettingsSettled(once)
  {
    hide Key, Describes, MenuDone, MenuMerge.SettingOf, MenuPlaces, Kept, DifferenceKnown;
    forall id | id in once.menuItems && MenuActive(once.menuItems[id])
      ensures var y, kept := once.menuItems[id], Kept(MenuPlaces(once.menuItems), id);
        && kept in once.menuItems
        && (Lookup(twice.settings, (y.outlet, kept)) == Lookup(once.settings, (y.outlet, kept)) <==>
              DifferenceKnown(once.menuItems[kept], y, Lookup(once.settings, (y.outlet, kept))))
    {
      var y, kept := once.menuItems[id], Kept(MenuPlaces(once.menuItems), id);
      MemberSetting(first, once, twice, menuBy, id);
      KnownExactly(once.menuItems[kept], y, Lookup(once.settings, (y.outlet, kept)));
    }
    if SettingsSettled(once) {
      forall o: Outlet, k: Id ensures Lookup(twice.settings, (o, k)) == Lookup(once.settings, (o, k)) {
        if Lookup(twice.settings, (o, k)) != Lookup(once.settings, (o, k)) {
          var id := SettingOfNoMember(first, once, twice, menuBy, o, k);
        }
      }
      SameTable(twice.settings, once.settings);
    }
  }

  // ----- the second run as a whole -----

  /**
   * What a successful second run leaves as the first one left it. A level,
   * once there, is never derived again, so it is right afterwards exactly
   * when the movements now at its pair still add up to the same.
   */
  ghost predicate SecondRunLeaves(first: Property, once: Property, twice: Property) {
    var menuLeads, stockLeads := FirstLeads(MenuPlaces(first.menuItems)), FirstLeads(StockPlaces(first.stockItems));
    && twice.menu == once.menu && twice.stock == once.stock
    && (twice.carried == once.carried <==> BlankItemsCarried(first, once))
    && ((forall x :: x in ActiveItems(first) ==> x.cols.category != "") ==> twice.carried == once.carried)
    && (menuLeads <==> twice.menuItems == once.menuItems)
    && (menuLeads ==> twice.settings == once.settings)
    && (twice.settings == once.settings <==> SettingsSettled(once))
    && (stockLeads <==> twice.stockItems == once.stockItems)
    && (stockLeads ==>
          twice.movements == once.movements && twice.takeLines == once.takeLines && OnlyEmptyLevels(first, once, twice))
    && (menuLeads && stockLeads ==> twice.recipes == once.recipes)
    && (forall key :: key in once.levels ==>
          key in twice.levels && twice.levels[key] == once.levels[key]
          && Amount(twice.levels[key].quantity) == SumOver(once.movements, {key}))
  }

  lemma LevelsNeverDerivedAgain(first: Property, once: Property, twice: Property, stockBy: map<string, Entry>)
    requires first.levels == map[] && StockDone(first, once, stockBy) && StockDone(once, twice, stockBy)
    ensures forall key :: key in once.levels ==>
      key in twice.levels && twice.levels[key] == once.levels[key]
        && Amount(twice.levels[key].quantity) == SumOver(once.movements, {key})
  {
    hide StockSets, Targets, MergedStock, Totalled, Reordered, Print, Amount, SumOver, StockMerge.MovementsAfter;
    forall key | key in once.levels ensures Amount(once.levels[key].quantity) == SumOver(once.movements, {key}) {
      AmountOfPrint(SumOver(once.movements, {key}));
    }
  }

  lemma SecondRunEffect(
    first: Property, once: Property, twice: Property, menuBy: map<string, Entry>, stockBy: map<string, Entry>,
    menuBy2: map<string, Entry>, stockBy2: map<string, Entry>)
    requires Fresh(first) && CanRun(first) && Ran(first, once, menuBy, stockBy)
    requires CanRun(once) && Ran(once, twice, menuBy2, stockBy2)
    ensures SecondRunLeaves(first, once, twice)
  {
    hide Describes, MenuSets, StockSets, Survivors, MenuPlaces, StockPlaces, MenuDone, StockDone, RecipesMoved,
         AddedRows, MenuNames, StockNames, ItemNames, NameKeys, AscendingIds, UniqueNames, CarryRows, AllPairs,
         ActiveItems, Keyed, DecimalColumns, FirstLeads, StockMerge.UniqueLines, LinesMoved, CarriedBy, AllPlaced,
         OnlyEmptyLevels, AllAtOutlets, SumOver, Amount, NoRepeats, SettingsSettled, BlankItemsCarried;
    RanOnceMore(first, 0, first, once, menuBy, stockBy);
    ListsStay(first, once, twice, menuBy2, stockBy2);
    SameByName(menuBy, menuBy2, once.menu);
    SameByName(stockBy, stockBy2, once.stock);
    MenuPlacesAfter(first, once, menuBy);
    MenuPlacesAfter(once, twice, menuBy);
    StockPlacesAfter(first, once, stockBy);
    StockPlacesAfter(once, twice, stockBy);
    ReplanExactly(MenuPlaces(first.menuItems));
    ReplanExactly(StockPlaces(first.stockItems));
    LevelsNeverDerivedAgain(first, once, twice, stockBy);
    CarriedStaysExactly(first, once, twice, menuBy, stockBy);
    SettingsStayExactly(first, once, twice, menuBy);
    if FirstLeads(MenuPlaces(first.menuItems)) {
      MenuItemsStay(first, once, twice, menuBy);
      SettingsStay(first, once, twice, menuBy);
    }
    if FirstLeads(StockPlaces(first.stockItems)) {
      StockItemsStay(first, once, twice, stockBy);
      MovementsStay(once, twice, stockBy);
      LevelsCompleted(first, once, twice, stockBy);
      if FirstLeads(MenuPlaces(first.menuItems)) {
        RecipesStay(once, twice, menuBy, stockBy);
      }
    }
  }

  /** The same from the condition on the property before the first run; the lookup maps of both runs agree. */
  lemma SecondRunAfter(
    first: Property, once: Property, twice: Property, menuBy: map<string, Entry>, stockBy: map<string, Entry>,
    menuBy2: map<string, Entry>, stockBy2: map<string, Entry>)
    requires Fresh(first) && RunSucceeds(first, 2) && Ran(first, once, menuBy, stockBy)
    requires Ran(once, twice, menuBy2, stockBy2)
    ensures menuBy == menuBy2 && stockBy == stockBy2 && SecondRunLeaves(first, once, twice)
  {
    hide Describes, MenuDone, StockDone, RecipesMoved, AddedRows, MenuNames, StockNames, ItemNames, NameKeys,
         AscendingIds, UniqueNames, CarryRows, AllPairs, ActiveItems, Sound, CanRun, RunSucceeds, SecondRunLeaves,
         AllAtOutlets, StockPlaces, LinesAfterRuns, Ran;
    EarlierRunSucceeds(first, 1);
    NoRunYet(first);
    CanRunExactly(first, 0, first);
    RanOnceMore(first, 0, first, once, menuBy, stockBy);
    CanRunExactly(first, 1, once);
    SecondRunEffect(first, once, twice, menuBy, stockBy, menuBy2, stockBy2);
    LeavesLists(first, once, twice);
    SameMaps(first, once, twice, menuBy, stockBy, menuBy2, stockBy2);
  }

  lemma LeavesLists(first: Property, once: Property, twice: Property)
    requires SecondRunLeaves(first, once, twice)
    ensures twice.menu == once.menu && twice.stock == once.stock
  {
    hide FirstLeads, ActiveItems, MenuPlaces, StockPlaces, OnlyEmptyLevels, Amount, SumOver, SettingsSettled,
         BlankItemsCarried;
  }

  lemma SameMaps(
    first: Property, once: Property, twice: Property, menuBy: map<string, Entry>, stockBy: map<string, Entry>,
    menuBy2: map<string, Entry>, stockBy2: map<string, Entry>)
    requires Ran(first, once, menuBy, stockBy) && Ran(once, twice, menuBy2, stockBy2)
    requires twice.menu == once.menu && twice.stock == once.stock
    ensures menuBy == menuBy2 && stockBy == stockBy2
  {
    hide Describes, MenuDone, StockDone, RecipesMoved, AddedRows, MenuNames, StockNames, ItemNames, AscendingIds,
         CarryRows, AllPairs;
    SameByName(menuBy, menuBy2, once.menu);
    SameByName(stockBy, stockBy2, once.stock);
  }
}
