/** What the tables mean before and after the migration, and the statements that relate the two. */
module CatalogueMeaning {
  import opened Tables
  import opened Names
  import opened Grouping
  import opened MergePlan
  import opened Quantities
  import opened Categories
  import opened CategoryMerge
  import opened CategoryLists
  import opened CategoryCarry
  import opened ItemFiling
  import opened StockTheorems
  import opened StockLevels
  import opened StockMergeSteps
  import MenuMerge
  import StockMerge

  type MenuItem = MenuMerge.MenuItem
  type StockItem = StockMerge.StockItem

  // ----- filing keeps what items are grouped by -----

  lemma CanonicalKey(byName: map<string, Entry>, rows: seq<Category>, category: string)
    requires Describes(byName, rows)
    ensures Key(Canonical(byName, category)) == Key(category)
  {
  }

  /** The menu table once its active items are filed. */
  function FiledMenuTable(byName: map<string, Entry>, items: map<Id, MenuItem>): map<Id, MenuItem> {
    map id | id in items :: if MenuActive(items[id]) then RefileMenu(byName, items[id]) else items[id]
  }

  function FiledStockTable(byName: map<string, Entry>, items: map<Id, StockItem>): map<Id, StockItem> {
    map id | id in items :: RefileStock(byName, items[id])
  }

  /** The sets the menu merge plans. */
  function MenuSets(byName: map<string, Entry>, items: map<Id, MenuItem>): seq<seq<MenuItem>> {
    Sets(FiledMenu(byName, Select(items, MenuActive)), MenuKey)
  }

  function FiledStockRows(byName: map<string, Entry>, items: map<Id, StockItem>): seq<StockItem> {
    FiledStock(byName, Select(items, AnyStock))
  }

  function ActiveStock(byName: map<string, Entry>, items: map<Id, StockItem>): seq<StockItem> {
    WithKey(FiledStockRows(byName, items), StockActive, true)
  }

  function ArchivedStock(byName: map<string, Entry>, items: map<Id, StockItem>): seq<StockItem> {
    WithKey(FiledStockRows(byName, items), StockActive, false)
  }

  /** The sets the stock merge plans. */
  function StockSets(byName: map<string, Entry>, items: map<Id, StockItem>): seq<seq<StockItem>> {
    Sets(ActiveStock(byName, items), StockKey)
  }

  lemma FiledMenuFacts(byName: map<string, Entry>, items: map<Id, MenuItem>)
    requires Keyed(items)
    ensures var filed := FiledMenu(byName, Select(items, MenuActive));
      && Ascending(filed)
      && (forall x: MenuItem :: x in filed <==>
            x.id in items && MenuActive(items[x.id]) && x == RefileMenu(byName, items[x.id]))
  {
    hide Key, Select, Canonical;
    var active := Select(items, MenuActive);
    var filed := FiledMenu(byName, active);
    SelectFacts(items, MenuActive);
    forall x: MenuItem | x.id in items && MenuActive(items[x.id]) && x == RefileMenu(byName, items[x.id])
      ensures x in filed
    {
      var i :| 0 <= i < |active| && active[i] == items[x.id];
      assert filed[i] == x;
    }
    forall x | x in filed ensures x.id in items && MenuActive(items[x.id]) && x == RefileMenu(byName, items[x.id]) {
      var i :| 0 <= i < |filed| && filed[i] == x;
      assert active[i] in active;
    }
  }

  lemma FiledStockFacts(byName: map<string, Entry>, items: map<Id, StockItem>)
    requires Keyed(items)
    ensures Ascending(FiledStockRows(byName, items))
    ensures forall x: StockItem :: x in FiledStockRows(byName, items) <==>
      x.id in items && x == RefileStock(byName, items[x.id])
  {
    hide Key, Select, Canonical;
    var rows := Select(items, AnyStock);
    var filed := FiledStock(byName, rows);
    SelectFacts(items, AnyStock);
    forall x: StockItem | x.id in items && x == RefileStock(byName, items[x.id]) ensures x in filed {
      var i :| 0 <= i < |rows| && rows[i] == items[x.id];
      assert filed[i] == x;
    }
    forall x | x in filed ensures x.id in items && x == RefileStock(byName, items[x.id]) {
      var i :| 0 <= i < |filed| && filed[i] == x;
      assert rows[i] in rows;
    }
  }

  lemma StockSplit(byName: map<string, Entry>, items: map<Id, StockItem>)
    requires Keyed(items)
    ensures var active, archived := ActiveStock(byName, items), ArchivedStock(byName, items);
      && Ascending(active) && Ascending(archived)
      && (forall x: StockItem :: x in active <==>
            x.id in items && x == RefileStock(byName, items[x.id]) && StockActive(x))
      && (forall x: StockItem :: x in archived <==>
            x.id in items && x == RefileStock(byName, items[x.id]) && !StockActive(x))
  {
    hide Key, RefileStock, FiledStockRows;
    var rows := FiledStockRows(byName, items);
    var idOf := (x: StockItem) => x.id;
    FiledStockFacts(byName, items);
    assert Increasing(rows, idOf);
    WithKeyOrdered(rows, StockActive, true, idOf);
    WithKeyOrdered(rows, StockActive, false, idOf);
    assert forall x: StockItem :: idOf(x) == x.id;
    WithKeyMembers(rows, StockActive, true);
    WithKeyMembers(rows, StockActive, false);
  }

  // ----- menu -----

  /** m, at its own outlet, is sold through the kept row as it was before. */
  ghost predicate SellsAsBefore(items: map<Id, MenuItem>, settings: MenuMerge.Settings, m: MenuItem, kept: Id) {
    && kept in items && items[kept].cols.status.Active?
    && Key(items[kept].cols.name) == Key(m.cols.name)
    && Key(items[kept].cols.category) == Key(m.cols.category)
    && MenuMerge.AsSold(items[kept], Lookup(settings, (m.outlet, kept)))
       == MenuMerge.Sold(m.cols.price, m.cols.available, !m.cols.available && m.cols.autoOff)
  }

  /** The item bears its category's registered spelling, wherever that is not empty. */
  ghost predicate Spelled(byName: map<string, Entry>, item: MenuItem) {
    var k := Key(item.cols.category);
    k in byName && byName[k].name != "" ==> item.cols.category == byName[k].name
  }

  lemma MenuKept(
    byName: map<string, Entry>, rows: seq<Category>, items: map<Id, MenuItem>, recipes: Recipes,
    now: MenuMerge.MenuState, m: MenuItem)
    requires Describes(byName, rows) && Keyed(items)
    requires MenuMerge.Merged(MenuSets(byName, items),
      MenuMerge.MenuState(FiledMenuTable(byName, items), map[], recipes), now)
    requires m.id in items && items[m.id] == m && MenuActive(m)
    ensures SellsAsBefore(now.items, now.settings, m, KeptId(MenuSets(byName, items), m.id))
    ensures Spelled(byName, now.items[KeptId(MenuSets(byName, items), m.id)])
    ensures KeptId(MenuSets(byName, items), m.id) != m.id ==>
      now.items[m.id] == MenuMerge.Archive(RefileMenu(byName, m))
  {
    hide Key, Canonical, Select, Describes, MenuMerge.SettingAt, MenuMerge.FirstImage, MenuMerge.FirstCost,
         MergePlan.Partition, MenuMerge.SameRecipe, MenuMerge.FirstCook;
    var filed := FiledMenu(byName, Select(items, MenuActive));
    var sets := MenuSets(byName, items);
    var before := MenuMerge.MenuState(FiledMenuTable(byName, items), map[], recipes);
    FiledMenuFacts(byName, items);
    SetsPartition(filed, MenuKey);
    var f := RefileMenu(byName, m);
    MenuMerge.SoldAsBefore(sets, filed, before, now, f);
    var i := SetOfRow(sets, filed, f);
    var head := sets[i][0];
    assert head in sets[i] && f in sets[i] && head in filed;
    assert MenuKey(head) == MenuKey(f);
    CanonicalKey(byName, rows, m.cols.category);
    SetOfMember(sets, filed, i, head);
    assert now.items[head.id] == MenuMerge.Fill(head, sets[i]);
    FiledSpelled(byName, rows, items[head.id]);
  }

  lemma FiledSpelled(byName: map<string, Entry>, rows: seq<Category>, row: MenuItem)
    requires Describes(byName, rows)
    ensures Key(Canonical(byName, row.cols.category)) == Key(row.cols.category)
    ensures Spelled(byName, RefileMenu(byName, row))
  {
  }

  /** Items that were not active stay as they were. */
  lemma MenuUntouched(
    byName: map<string, Entry>, items: map<Id, MenuItem>, recipes: Recipes, now: MenuMerge.MenuState, id: Id)
    requires Keyed(items) && id in items && !MenuActive(items[id])
    requires MenuMerge.Merged(MenuSets(byName, items),
      MenuMerge.MenuState(FiledMenuTable(byName, items), map[], recipes), now)
    ensures id in now.items && now.items[id] == items[id]
  {
    hide Key, Canonical, Select, MergePlan.Partition, MenuMerge.SameRecipe, MenuMerge.SettingAfter, MenuMerge.CookAfter;
    var filed := FiledMenu(byName, Select(items, MenuActive));
    var sets := MenuSets(byName, items);
    FiledMenuFacts(byName, items);
    SetsPartition(filed, MenuKey);
    NotPlanned(sets, filed, id);
  }

  // ----- stock -----

  /**
   * Each level is the sum of the original movements at its outlet over every
   * row merged into its item; every movement has its level; an outlet holds
   * as much as before.
   */
  ghost predicate QuantitiesKept(sets: seq<seq<StockItem>>, movements: seq<StockMerge.Movement>, levels: Levels) {
    && (forall o: Outlet, k: Id :: (o, k) in levels ==>
          Amount(levels[(o, k)].quantity) == MergedSum(sets, movements, o, k))
    && (forall i :: 0 <= i < |movements| ==> (movements[i].outlet, KeptId(sets, movements[i].item)) in levels)
    && (forall o: Outlet :: LevelTotal(levels, set key | key in levels.Keys && key.0 == o) == OutletSum(movements, o))
  }

  /** Every active item's property-wide quantity is the sum of its levels. */
  ghost predicate TotalsAreLevels(items: map<Id, StockItem>, levels: Levels) {
    forall id :: id in items && StockActive(items[id]) ==>
      Amount(items[id].cols.quantity) == LevelTotal(levels, set key | key in levels.Keys && key.1 == id)
  }

  /** Every row's reorder level is found at its outlet, under the item it was merged into. */
  ghost predicate ReordersKept(sets: seq<seq<StockItem>>, before: map<Id, StockItem>, levels: Levels) {
    forall id :: id in before ==>
      && (before[id].outlet, KeptId(sets, id)) in levels
      && levels[(before[id].outlet, KeptId(sets, id))].reorder == before[id].cols.reorder
  }

  /** A dish uses an item exactly when it used one merged into it, in the quantity of the first of those it used. */
  ghost predicate RecipesMapped(sets: seq<seq<StockItem>>, before: Recipes, now: Recipes) {
    && (forall m: Id, k: Id :: (m, k) in now <==> exists x :: (m, x) in before && KeptId(sets, x) == k)
    && (forall m: Id, k: Id :: Lookup(now, (m, k)) == StockMerge.LineAfter(sets, before, m, k))
  }

  /** A row is merged into a row of its name, unit and status, at another outlet unless into itself. */
  ghost predicate StockRowKept(before: map<Id, StockItem>, now: map<Id, StockItem>, id: Id, kept: Id)
    requires id in before
  {
    && kept in before && kept in now && id in now && kept <= id
    && now[kept].cols.status == before[id].cols.status
    && StockKey(now[kept]) == StockKey(before[id])
    && (kept != id ==> !StockActive(now[id]) && before[kept].outlet != before[id].outlet)
  }

  ghost predicate StockRowsKept(sets: seq<seq<StockItem>>, before: map<Id, StockItem>, now: map<Id, StockItem>) {
    forall id :: id in before ==> StockRowKept(before, now, id, KeptId(sets, id))
  }

  lemma StockRowMigrated(
    byName: map<string, Entry>, before: StockMerge.StockState, merged: StockMerge.StockState, id: Id)
    requires Keyed(before.items) && id in before.items
    requires StockMerge.Merged(StockSets(byName, before.items), before.(items := FiledStockTable(byName, before.items)),
      merged)
    ensures StockRowKept(before.items, merged.items, id, KeptId(StockSets(byName, before.items), id))
  {
    hide Key, Canonical, ActiveStock, ArchivedStock, StockMerge.FirstCategory, StockMerge.LineAfter,
         StockMerge.MovementsAfter, StockMerge.LinesAfter, MergePlan.Partition, Ascending;
    var active, sets := ActiveStock(byName, before.items), StockSets(byName, before.items);
    StockSplit(byName, before.items);
    SetsPartition(active, StockKey);
    var x := RefileStock(byName, before.items[id]);
    assert merged.items[id] == StockMerge.ItemAfter(sets, x);
    if StockActive(x) {
      var i := SetOfRow(sets, active, x);
      var head := sets[i][0];
      HeadOfSet(sets[i], active, x);
      SetOfMember(sets, active, i, head);
      assert StockKey(head) == StockKey(x);
      assert head == RefileStock(byName, before.items[head.id]);
      assert merged.items[head.id] == StockMerge.FillCategory(head, sets[i]);
    } else {
      NotPlanned(sets, active, id);
    }
  }

  lemma HeadOfSet(s: seq<StockItem>, rows: seq<StockItem>, x: StockItem)
    requires MergeSet(s, rows) && x in s
    ensures s[0] in s && s[0] in rows && s[0].id <= x.id && (s[0].id != x.id ==> s[0].outlet != x.outlet)
  {
  }

  lemma QuantitiesMigrated(
    byName: map<string, Entry>, before: StockMerge.StockState, merged: StockMerge.StockState, levels: Levels,
    targets: seq<Target>)
    requires Keyed(before.items)
    requires StockMerge.Merged(StockSets(byName, before.items), before.(items := FiledStockTable(byName, before.items)),
      merged)
    requires LevelsBuilt(levels, targets, merged.movements, merged.items)
    ensures QuantitiesKept(StockSets(byName, before.items), before.movements, levels)
  {
    hide Amount, StockMerge.Merged, LevelsBuilt, StockSets;
    var sets := StockSets(byName, before.items);
    var filed := before.(items := FiledStockTable(byName, before.items));
    forall o: Outlet, k: Id | (o, k) in levels
      ensures Amount(levels[(o, k)].quantity) == MergedSum(sets, before.movements, o, k)
    {
      LevelIsMergedSum(levels, targets, sets, filed, merged, o, k);
    }
    forall o: Outlet
      ensures LevelTotal(levels, set key | key in levels.Keys && key.0 == o) == OutletSum(before.movements, o)
    {
      OutletTotalKept(levels, targets, sets, filed, merged, o);
    }
    forall i | 0 <= i < |before.movements|
      ensures (before.movements[i].outlet, KeptId(sets, before.movements[i].item)) in levels
    {
      MovementHasLevel(levels, targets, sets, filed, merged, i);
    }
  }

  lemma MovementHasLevel(
    levels: Levels, targets: seq<Target>, sets: seq<seq<StockItem>>, before: StockMerge.StockState,
    now: StockMerge.StockState, i: nat)
    requires StockMerge.Merged(sets, before, now) && LevelsBuilt(levels, targets, now.movements, now.items)
    requires i < |before.movements|
    ensures (before.movements[i].outlet, KeptId(sets, before.movements[i].item)) in levels
  {
    assert now.movements[i] in now.movements;
  }

  lemma ReordersMigrated(
    byName: map<string, Entry>, before: StockMerge.StockState, merged: StockMerge.StockState, levels: Levels)
    requires Keyed(before.items)
    requires LevelsBuilt(levels, ArchivedTargets(ArchivedStock(byName, before.items))
      + SetsTargets(StockSets(byName, before.items)),
                         merged.movements, merged.items)
    ensures ReordersKept(StockSets(byName, before.items), before.items, levels)
  {
    hide Key, Canonical, ActiveStock, ArchivedStock, LevelsBuilt, MergePlan.Partition, Ascending;
    var sets := StockSets(byName, before.items);
    var active, archived := ActiveStock(byName, before.items), ArchivedStock(byName, before.items);
    StockSplit(byName, before.items);
    SetsPartition(active, StockKey);
    forall id | id in before.items
      ensures (before.items[id].outlet, KeptId(sets, id)) in levels
      ensures levels[(before.items[id].outlet, KeptId(sets, id))].reorder == before.items[id].cols.reorder
    {
      var x := RefileStock(byName, before.items[id]);
      ReorderLevelsKept(levels, archived, active, sets, merged.movements, merged.items, x);
    }
  }

  lemma RecipesMigrated(byName: map<string, Entry>, before: StockMerge.StockState, merged: StockMerge.StockState)
    requires Keyed(before.items)
    requires StockMerge.Merged(StockSets(byName, before.items), before.(items := FiledStockTable(byName, before.items)),
      merged)
    ensures RecipesMapped(StockSets(byName, before.items), before.recipes, merged.recipes)
  {
    hide ActiveStock, MergePlan.Partition, Ascending, StockMerge.Merged, KeptId, StockMerge.LineAfter;
    MergedLines(StockSets(byName, before.items), before.(items := FiledStockTable(byName, before.items)), merged);
    var active, sets := ActiveStock(byName, before.items), StockSets(byName, before.items);
    StockSplit(byName, before.items);
    SetsPartition(active, StockKey);
    forall m: Id, k: Id
      ensures (m, k) in merged.recipes <==> exists x :: (m, x) in before.recipes && KeptId(sets, x) == k
    {
      RecipePairsAreImage(sets, active, before.(items := FiledStockTable(byName, before.items)), merged, m, k);
    }
  }

  lemma MergedLines(sets: seq<seq<StockItem>>, before: StockMerge.StockState, now: StockMerge.StockState)
    requires StockMerge.Merged(sets, before, now)
    ensures forall m: Id, k: Id :: Lookup(now.recipes, (m, k)) == StockMerge.LineAfter(sets, before.recipes, m, k)
  {
  }

  lemma TotalsMigrated(
    merged: StockMerge.StockState, final: map<Id, StockItem>, levels: Levels, targets: seq<Target>)
    requires Keyed(merged.items) && LevelsBuilt(levels, targets, merged.movements, merged.items)
    requires final.Keys == merged.items.Keys
    requires forall id :: id in final ==> final[id] == Totalled(merged.items[id], merged.movements)
    ensures TotalsAreLevels(final, levels)
  {
    hide Amount, Print, ItemSum, LevelsBuilt;
    forall id | id in final && StockActive(final[id])
      ensures Amount(final[id].cols.quantity) == LevelTotal(levels, set key | key in levels.Keys && key.1 == id)
    {
      ItemTotalIsLevels(levels, targets, merged.movements, merged.items, id);
    }
  }

  /** When each take only counted items of its own outlet, the merge cannot make it count an item twice. */
  lemma StockTakesSafe(
    byName: map<string, Entry>, items: map<Id, StockItem>, lines: seq<StockMerge.TakeLine>, takes: map<Id, Outlet>)
    requires Keyed(items) && StockMerge.UniqueLines(lines) && CountedAtOwnOutlet(lines, takes, items)
    ensures StockMerge.UniqueLines(StockMerge.LinesAfter(StockSets(byName, items), lines))
  {
    hide Key, Canonical, ActiveStock, MergePlan.Partition, Ascending, StockMerge.UniqueLines, StockMerge.LinesAfter;
    StockSplit(byName, items);
    SetsPartition(ActiveStock(byName, items), StockKey);
    LinesStayUnique(StockSets(byName, items), ActiveStock(byName, items), lines, takes, items);
  }

  lemma MenuIds(items: map<Id, MenuItem>, rows: seq<MenuItem>)
    requires Keyed(items)
    requires forall x: MenuItem :: x in rows <==> x.id in items && items[x.id] == x && MenuActive(x)
    ensures forall id :: id in items ==> (HasId(rows, id) <==> MenuActive(items[id]))
  {
  }

  lemma StockIds(items: map<Id, StockItem>, rows: seq<StockItem>)
    requires Keyed(items)
    requires forall x: StockItem :: x in rows <==> x.id in items && items[x.id] == x && AnyStock(x)
    ensures forall id :: id in items ==> HasId(rows, id)
  {
  }

  /** The merge as a whole, before the levels are built. */
  lemma StockMigrated(byName: map<string, Entry>, before: StockMerge.StockState, merged: StockMerge.StockState)
    requires Keyed(before.items) && DecimalColumns(before.movements)
    requires forall i :: 0 <= i < |before.movements| ==> before.movements[i].item in before.items
    requires StockMerge.Merged(StockSets(byName, before.items), before.(items := FiledStockTable(byName, before.items)),
      merged)
    ensures var sets := StockSets(byName, before.items);
      && merged.movements == StockMerge.MovementsAfter(sets, before.movements)
           && merged.lines == StockMerge.LinesAfter(sets, before.lines)
      && StockRowsKept(sets, before.items, merged.items) && RecipesMapped(sets, before.recipes, merged.recipes)
    ensures DecimalColumns(merged.movements) && Keyed(merged.items)
    ensures forall i :: 0 <= i < |merged.movements| ==> merged.movements[i].item in merged.items
  {
    hide Key, Units, StockSets, RecipesMapped, StockRowKept, KeptId, DecimalColumns, RefileStock,
         StockMerge.MovementsAfter, StockMerge.LinesAfter, StockMerge.LineAfter, StockMerge.ItemAfter;
    RecipesMigrated(byName, before, merged);
    forall id | id in before.items
      ensures StockRowKept(before.items, merged.items, id, KeptId(StockSets(byName, before.items), id))
    {
      StockRowMigrated(byName, before, merged, id);
    }
    MovementsOfKeptRows(StockSets(byName, before.items), before.items, merged.items, before.movements);
    forall id | id in merged.items ensures merged.items[id].id == id {
      ItemKeepsId(byName, StockSets(byName, before.items), before.items[id]);
    }
  }

  lemma ItemKeepsId(byName: map<string, Entry>, sets: seq<seq<StockItem>>, row: StockItem)
    ensures StockMerge.ItemAfter(sets, RefileStock(byName, row)).id == row.id
  {
  }

  lemma MovementsOfKeptRows(
    sets: seq<seq<StockItem>>, before: map<Id, StockItem>, now: map<Id, StockItem>, movements: seq<StockMerge.Movement>)
    requires DecimalColumns(movements) && StockRowsKept(sets, before, now)
    requires forall i :: 0 <= i < |movements| ==> movements[i].item in before
    ensures DecimalColumns(StockMerge.MovementsAfter(sets, movements))
    ensures |StockMerge.MovementsAfter(sets, movements)| == |movements|
    ensures forall i :: 0 <= i < |movements| ==> StockMerge.MovementsAfter(sets, movements)[i].item in now
  {
  }

  lemma TotalledKeeps(
    sets: seq<seq<StockItem>>, before: map<Id, StockItem>, items: map<Id, StockItem>, final: map<Id, StockItem>,
    movements: seq<StockMerge.Movement>)
    requires StockRowsKept(sets, before, items)
    requires final.Keys == items.Keys && forall id :: id in final ==> final[id] == Totalled(items[id], movements)
    ensures StockRowsKept(sets, before, final)
  {
  }

  lemma InFiledTable(byName: map<string, Entry>, items: map<Id, StockItem>)
    requires Keyed(items)
    ensures Keyed(FiledStockTable(byName, items))
    ensures forall x :: x in ActiveStock(byName, items) ==>
      x.id in FiledStockTable(byName, items) && FiledStockTable(byName, items)[x.id] == x
  {
    StockSplit(byName, items);
  }

  // ----- the property as a whole -----

  lemma InStepNames(byName: map<string, Entry>, rows: seq<Category>)
    requires Describes(byName, rows)
    ensures byName.Keys == NameKeys(rows)
  {
  }

  /** The outlet carries the category the item is filed under, and the item bears its name. */
  ghost predicate CarriesItem(carried: set<(Outlet, Id)>, byName: map<string, Entry>, item: MenuItem, o: Outlet) {
    && Key(item.cols.category) in byName && (o, byName[Key(item.cols.category)].id) in carried
    && Spelled(byName, item)
  }

  lemma MenuMigrated(
    byName: map<string, Entry>, rows: seq<Category>, items: map<Id, MenuItem>, recipes: Recipes,
    now: MenuMerge.MenuState,
    carried: set<(Outlet, Id)>)
    requires Describes(byName, rows) && Keyed(items)
    requires MenuMerge.Merged(MenuSets(byName, items),
      MenuMerge.MenuState(FiledMenuTable(byName, items), map[], recipes), now)
    requires ItemNames(Select(items, MenuActive)) <= byName.Keys
    requires CarryRows(ItemPairs(Select(items, MenuActive)), byName) <= carried
    ensures forall id :: id in items && MenuActive(items[id]) ==>
      var kept := KeptId(MenuSets(byName, items), id);
      SellsAsBefore(now.items, now.settings, items[id], kept)
      && (items[id].cols.category != "" ==> CarriesItem(carried, byName, now.items[kept], items[id].outlet))
    ensures forall id :: id in items && !MenuActive(items[id]) ==> id in now.items && now.items[id] == items[id]
  {
    hide Key, MenuSets, FiledMenuTable, MenuMerge.Merged, Select, Describes, Keyed, KeptId;
    SelectFacts(items, MenuActive);
    forall id | id in items && MenuActive(items[id])
      ensures var kept := KeptId(MenuSets(byName, items), id);
        SellsAsBefore(now.items, now.settings, items[id], kept)
        && (items[id].cols.category != "" ==> CarriesItem(carried, byName, now.items[kept], items[id].outlet))
    {
      KeyedAt(items, id);
      MenuKept(byName, rows, items, recipes, now, items[id]);
      if items[id].cols.category != "" {
        ItemCarried(Select(items, MenuActive), byName, items[id]);
      }
    }
    forall id | id in items && !MenuActive(items[id]) ensures id in now.items && now.items[id] == items[id] {
      MenuUntouched(byName, items, recipes, now, id);
    }
  }

  lemma KeyedAt(items: map<Id, MenuItem>, id: Id)
    requires Keyed(items) && id in items
    ensures items[id].id == id
  {
  }

  lemma ItemCarried(active: seq<MenuItem>, byName: map<string, Entry>, x: MenuItem)
    requires x in active && x.cols.category != "" && ItemNames(active) <= byName.Keys
    ensures Key(x.cols.category) in byName
    ensures (x.outlet, byName[Key(x.cols.category)].id) in CarryRows(ItemPairs(active), byName)
  {
    hide Key;
    ItemNamed(active, x);
    var i :| 0 <= i < |active| && active[i] == x;
    var p := ItemPairs(active)[i];
    assert p in ItemPairs(active) && p.name != "" && p.outlet.Some?;
    assert (p.outlet.value, IdFor(byName, p.name)) in CarryRows(ItemPairs(active), byName);
  }

  /**
   * A dish's recipe afterwards: the recipe of the first row merged into the
   * dish that had one, its ingredients replaced by what they were merged
   * into, each in the quantity of the first such ingredient.
   */
  ghost predicate RecipesMoved(
    menuSets: seq<seq<MenuItem>>, stockSets: seq<seq<StockItem>>, before: Recipes, now: Recipes)
  {
    && (forall m: Id, k: Id :: (m, k) in now <==>
          exists x :: (MenuMerge.CookAfter(menuSets, before, m), x) in before && KeptId(stockSets, x) == k)
    && (forall m: Id, k: Id :: Lookup(now, (m, k)) ==
          StockMerge.LineAfter(stockSets, before, MenuMerge.CookAfter(menuSets, before, m), k))
  }

  lemma RecipesThroughBoth(
    menuSets: seq<seq<MenuItem>>, stockSets: seq<seq<StockItem>>, before: MenuMerge.MenuState, mid: MenuMerge.MenuState,
    now: Recipes)
    requires MenuMerge.Merged(menuSets, before, mid) && RecipesMapped(stockSets, mid.recipes, now)
    ensures RecipesMoved(menuSets, stockSets, before.recipes, now)
  {
    hide KeptId, MenuMerge.CookAfter, MenuMerge.SettingAfter, MenuMerge.ItemAfter, StockMerge.LineAfter;
    forall m: Id, k: Id
      ensures (m, k) in now <==> exists x ::
        (MenuMerge.CookAfter(menuSets, before.recipes, m), x) in before.recipes && KeptId(stockSets, x) == k
      ensures Lookup(now, (m, k)) ==
        StockMerge.LineAfter(stockSets, before.recipes, MenuMerge.CookAfter(menuSets, before.recipes, m), k)
    {
      var c := MenuMerge.CookAfter(menuSets, before.recipes, m);
      assert MenuMerge.SameRecipe(mid.recipes, m, before.recipes, c);
      assert forall x: Id :: (m, x) in mid.recipes <==> (c, x) in before.recipes by {
        forall x: Id ensures (m, x) in mid.recipes <==> (c, x) in before.recipes {
          assert Lookup(mid.recipes, (m, x)) == Lookup(before.recipes, (c, x));
        }
      }
      SameLineAfter(stockSets, mid.recipes, m, before.recipes, c, k);
    }
  }

  lemma SameLineAfter(sets: seq<seq<StockItem>>, r: Recipes, m: Id, q: Recipes, n: Id, k: Id)
    requires MenuMerge.SameRecipe(r, m, q, n)
    ensures StockMerge.LineAfter(sets, r, m, k) == StockMerge.LineAfter(sets, q, n, k)
  {
    if SetOf(sets, k).Some? {
      StockMerge.SameFirstLine(SetOf(sets, k).value, r, m, q, n);
    }
  }
}
