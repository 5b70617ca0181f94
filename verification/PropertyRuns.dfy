/**
 * One property as a value, what one run of the migration makes of it, and
 * what is left to do when it is run again.
 */
module PropertyRuns {
  import opened Tables
  import opened Names
  import opened MergePlan
  import opened MergeColumns
  import opened Categories
  import opened CategoryMerge
  import opened CategoryLists
  import opened CategoryCarry
  import opened ItemFiling
  import opened Quantities
  import opened StockTheorems
  import opened StockLevels
  import opened StockMergeSteps
  import opened CatalogueMeaning
  import MenuMerge
  import StockMerge

  type MenuItem = MenuMerge.MenuItem
  type StockItem = StockMerge.StockItem
  type ItemKey = (string, string)

  // ----- the columns that decide the merges -----

  ghost function MenuPlaces(items: map<Id, MenuItem>): Places<ItemKey> {
    map id | id in items && MenuActive(items[id]) :: Place(MenuKey(items[id]), items[id].outlet)
  }

  ghost function StockPlaces(items: map<Id, StockItem>): Places<ItemKey> {
    map id | id in items && StockActive(items[id]) :: Place(StockKey(items[id]), items[id].outlet)
  }

  /** Filing does not change what a menu item is grouped by. */
  lemma MenuPlaced(byName: map<string, Entry>, rows: seq<Category>, items: map<Id, MenuItem>)
    requires Describes(byName, rows) && Keyed(items)
    ensures Ascending(FiledMenu(byName, Select(items, MenuActive)))
    ensures Placed(MenuPlaces(items), FiledMenu(byName, Select(items, MenuActive)), MenuKey)
  {
    hide Key, Select, Describes, Ascending, Canonical, FiledMenu;
    var filed := FiledMenu(byName, Select(items, MenuActive));
    FiledMenuFacts(byName, items);
    forall x | x in filed ensures MenuKey(x) == MenuKey(items[x.id]) {
      CanonicalKey(byName, rows, items[x.id].cols.category);
    }
    forall id | id in MenuPlaces(items) ensures HasId(filed, id) {
      var x := RefileMenu(byName, items[id]);
      assert x in filed;
      var i :| 0 <= i < |filed| && filed[i] == x;
    }
  }

  lemma StockPlaced(byName: map<string, Entry>, items: map<Id, StockItem>)
    requires Keyed(items)
    ensures Ascending(ActiveStock(byName, items))
    ensures Placed(StockPlaces(items), ActiveStock(byName, items), StockKey)
  {
    hide Key, Canonical, ActiveStock, ArchivedStock, Ascending;
    var active := ActiveStock(byName, items);
    StockSplit(byName, items);
    forall id | id in StockPlaces(items) ensures HasId(active, id) {
      var x := RefileStock(byName, items[id]);
      assert x in active;
      var i :| 0 <= i < |active| && active[i] == x;
    }
  }

  lemma MenuKeptByColumns(byName: map<string, Entry>, rows: seq<Category>, items: map<Id, MenuItem>, id: Id)
    requires Describes(byName, rows) && Keyed(items)
    ensures KeptId(MenuSets(byName, items), id) == Kept(MenuPlaces(items), id)
  {
    hide Placed, MenuPlaces, Sets, Describes, FiledMenu, Select, Ascending, Kept;
    MenuPlaced(byName, rows, items);
    KeptByColumns(MenuPlaces(items), FiledMenu(byName, Select(items, MenuActive)), MenuKey, id);
  }

  lemma StockKeptByColumns(byName: map<string, Entry>, items: map<Id, StockItem>, id: Id)
    requires Keyed(items)
    ensures KeptId(StockSets(byName, items), id) == Kept(StockPlaces(items), id)
  {
    hide Placed, StockPlaces, Sets, ActiveStock, Ascending, Kept;
    StockPlaced(byName, items);
    KeptByColumns(StockPlaces(items), ActiveStock(byName, items), StockKey, id);
  }

  // ----- one run -----

  datatype Property = Property(
    menu: seq<Category>, stock: seq<Category>, carried: set<(Outlet, Id)>,
    menuItems: map<Id, MenuItem>, settings: MenuMerge.Settings, recipes: Recipes,
    stockItems: map<Id, StockItem>, movements: seq<StockMerge.Movement>, takeLines: seq<StockMerge.TakeLine>,
    levels: Levels)

  /** Keys, foreign keys and column types: what the tables guarantee at any time. */
  ghost predicate Sound(p: Property) {
    && AscendingIds(p.menu) && AscendingIds(p.stock) && Keyed(p.menuItems) && Keyed(p.stockItems)
    && CarriedIds(p.carried) <= IdsOf(p.menu)
    && DecimalColumns(p.movements) && StockMerge.UniqueLines(p.takeLines)
    && forall i :: 0 <= i < |p.movements| ==> p.movements[i].item in p.stockItems
  }

  /** A property as the migration first finds it. */
  ghost predicate Fresh(p: Property) {
    Sound(p) && AllAtOutlets(p.menu) && AllAtOutlets(p.stock) && p.carried == {} && p.settings == map[]
      && p.levels == map[]
  }

  /** Every active row of either list with a name has an outlet that can carry it. */
  ghost predicate ListsPlaced(p: Property) {
    AllPlaced(CarriedBy(p.menu)) && AllPlaced(CarriedBy(p.stock))
  }

  /** No category row that an outlet carries would be deleted: each is the one its name keeps. */
  ghost predicate ListsDeletable(p: Property) {
    Deletable(p.menu, CarriedIds(p.carried))
  }

  /** What steps 1 and 2 need. */
  ghost predicate ListsReady(p: Property) {
    ListsDeletable(p) && ListsPlaced(p)
  }

  /** What a run needs, told by the tables it finds. */
  ghost predicate CanRun(p: Property) {
    ListsReady(p) && StockMerge.UniqueLines(LinesMoved(StockPlaces(p.stockItems), p.takeLines))
  }

  ghost function ActiveItems(p: Property): seq<MenuItem> {
    Select(p.menuItems, MenuActive)
  }

  /** Steps 1 and 2. */
  ghost predicate ListsDone(before: Property, now: Property, menuBy: map<string, Entry>, stockBy: map<string, Entry>) {
    var active, names := ActiveItems(before), MenuNames(before.menu, before.stock);
    && AscendingIds(now.menu) && AscendingIds(now.stock)
    && Describes(menuBy, now.menu) && Describes(stockBy, now.stock)
    && AddedRows(before.menu, before.stock, now.menu, names, active)
    && AddedRows(before.stock, before.menu, now.stock, names, active)
    && menuBy.Keys == names + ItemNames(active)
    && stockBy.Keys == StockNames(before.menu, before.stock) + (ItemNames(active) - names)
    && now.carried == before.carried + CarryRows(AllPairs(before.menu, before.stock, active), menuBy)
  }

  ghost function FiledMenuState(p: Property, menuBy: map<string, Entry>): MenuMerge.MenuState {
    MenuMerge.MenuState(FiledMenuTable(menuBy, p.menuItems), p.settings, p.recipes)
  }

  /** Step 3, items and settings. */
  ghost predicate MenuDone(before: Property, now: Property, menuBy: map<string, Entry>) {
    var sets, filed := MenuSets(menuBy, before.menuItems), FiledMenuTable(menuBy, before.menuItems);
    && now.menuItems.Keys == filed.Keys
    && (forall id :: id in filed ==> now.menuItems[id] == MenuMerge.ItemAfter(sets, filed[id]))
    && (forall o: Outlet, k: Id :: Lookup(now.settings, (o, k)) == MenuMerge.SettingAfter(sets, before.settings, o, k))
  }

  /** The stock items once merged, their totals not refreshed yet. */
  ghost function MergedStock(stockBy: map<string, Entry>, items: map<Id, StockItem>): map<Id, StockItem> {
    map id | id in items :: StockMerge.ItemAfter(StockSets(stockBy, items), RefileStock(stockBy, items[id]))
  }

  ghost function Targets(stockBy: map<string, Entry>, items: map<Id, StockItem>): seq<Target> {
    ArchivedTargets(ArchivedStock(stockBy, items)) + SetsTargets(StockSets(stockBy, items))
  }

  /** Step 4, but for the recipes. */
  ghost predicate StockDone(before: Property, now: Property, stockBy: map<string, Entry>) {
    var sets, merged := StockSets(stockBy, before.stockItems), MergedStock(stockBy, before.stockItems);
    && now.stockItems == (map id | id in merged :: Totalled(merged[id], now.movements))
    && now.movements == StockMerge.MovementsAfter(sets, before.movements)
    && now.takeLines == StockMerge.LinesAfter(sets, before.takeLines)
    && LevelsAdded(before.levels, now.levels, Targets(stockBy, before.stockItems), now.movements, merged)
  }

  /** A whole run. */
  ghost predicate Ran(before: Property, now: Property, menuBy: map<string, Entry>, stockBy: map<string, Entry>) {
    && ListsDone(before, now, menuBy, stockBy)
    && MenuDone(before, now, menuBy)
    && StockDone(before, now, stockBy)
    && RecipesMoved(MenuSets(menuBy, before.menuItems), StockSets(stockBy, before.stockItems), before.recipes,
         now.recipes)
  }

  lemma MergedItems(stockBy: map<string, Entry>, before: StockMerge.StockState, merged: StockMerge.StockState)
    requires StockMerge.Merged(StockSets(stockBy, before.items),
      before.(items := FiledStockTable(stockBy, before.items)), merged)
    ensures merged.items == MergedStock(stockBy, before.items)
  {
    hide StockSets, RefileStock, StockMerge.ItemAfter, StockMerge.LineAfter;
  }

  // ----- what a run does to the columns -----

  lemma MenuPlacesAfter(before: Property, now: Property, menuBy: map<string, Entry>)
    requires Keyed(before.menuItems) && Describes(menuBy, now.menu) && MenuDone(before, now, menuBy)
    ensures Keyed(now.menuItems)
    ensures MenuPlaces(now.menuItems) == Survivors(MenuPlaces(before.menuItems))
  {
    hide Key, Canonical, Describes, MenuSets, Survives, Kept, MenuMerge.FirstImage, MenuMerge.FirstCost,
         MenuMerge.SettingAfter;
    var p := MenuPlaces(before.menuItems);
    forall id | id in before.menuItems
      ensures now.menuItems[id].id == id
      ensures MenuActive(now.menuItems[id]) <==> id in p && Survives(p, id)
      ensures MenuActive(now.menuItems[id]) ==> Place(MenuKey(now.menuItems[id]), now.menuItems[id].outlet) == p[id]
    {
      MenuKeptByColumns(menuBy, now.menu, before.menuItems, id);
      CanonicalKey(menuBy, now.menu, before.menuItems[id].cols.category);
      assert now.menuItems[id] ==
        MenuMerge.ItemAfter(MenuSets(menuBy, before.menuItems), FiledMenuTable(menuBy, before.menuItems)[id]);
      if id in p {
        KeptFacts(p, id);
      } else {
        InactiveUnplanned(menuBy, now.menu, before.menuItems, id);
      }
    }
  }

  lemma InactiveUnplanned(byName: map<string, Entry>, rows: seq<Category>, items: map<Id, MenuItem>, id: Id)
    requires Describes(byName, rows) && Keyed(items) && id in items && !MenuActive(items[id])
    ensures SetOf(MenuSets(byName, items), id).None?
  {
    hide Key, Canonical, Select, Partition, Sets, Ascending, FiledMenu;
    var filed := FiledMenu(byName, Select(items, MenuActive));
    FiledMenuFacts(byName, items);
    SetsPartition(filed, MenuKey);
    NotPlanned(MenuSets(byName, items), filed, id);
  }

  lemma ArchivedUnplanned(byName: map<string, Entry>, items: map<Id, StockItem>, id: Id)
    requires Keyed(items) && id in items && !StockActive(items[id])
    ensures SetOf(StockSets(byName, items), id).None?
  {
    hide Key, Canonical, ActiveStock, ArchivedStock, Partition, Sets, Ascending;
    StockSplit(byName, items);
    SetsPartition(ActiveStock(byName, items), StockKey);
    NotPlanned(StockSets(byName, items), ActiveStock(byName, items), id);
  }

  lemma MergedStockRow(stockBy: map<string, Entry>, items: map<Id, StockItem>, id: Id)
    requires Keyed(items) && id in items
    ensures var p, row := StockPlaces(items), MergedStock(stockBy, items)[id];
      && row.id == id && row.outlet == items[id].outlet && row.cols.reorder == items[id].cols.reorder
      && (StockActive(row) <==> id in p && Survives(p, id))
      && StockKey(row) == StockKey(items[id])
  {
    hide Key, Canonical, StockSets, Survives, Kept, StockMerge.FirstCategory;
    StockKeptByColumns(stockBy, items, id);
    if id in StockPlaces(items) {
      KeptFacts(StockPlaces(items), id);
    } else {
      ArchivedUnplanned(stockBy, items, id);
    }
  }

  lemma StockPlacesAfter(before: Property, now: Property, stockBy: map<string, Entry>)
    requires Keyed(before.stockItems) && StockDone(before, now, stockBy)
    ensures Keyed(now.stockItems) && now.stockItems.Keys == before.stockItems.Keys
    ensures StockPlaces(now.stockItems) == Survivors(StockPlaces(before.stockItems))
  {
    hide Key, StockSets, Survives, MergedStock, LevelsAdded, ItemSum, Print, StockMerge.MovementsAfter,
         StockMerge.LinesAfter;
    assert MergedStock(stockBy, before.stockItems).Keys == before.stockItems.Keys by {
      MergedKeys(stockBy, before.stockItems);
    }
    forall id | id in before.stockItems
      ensures now.stockItems[id].id == id
      ensures StockActive(now.stockItems[id]) <==>
        id in StockPlaces(before.stockItems) && Survives(StockPlaces(before.stockItems), id)
      ensures StockKey(now.stockItems[id]) == StockKey(before.stockItems[id])
      ensures now.stockItems[id].outlet == before.stockItems[id].outlet
    {
      MergedStockRow(stockBy, before.stockItems, id);
    }
  }

  lemma MergedKeys(stockBy: map<string, Entry>, items: map<Id, StockItem>)
    ensures MergedStock(stockBy, items).Keys == items.Keys
  {
  }

  // ----- what a run means -----

  lemma FreshIsPlaced(p: Property)
    requires Fresh(p)
    ensures ListsReady(p)
  {
    FreshPlaced(p.menu);
    FreshPlaced(p.stock);
  }

  /** Steps 1 and 2 leave both lists with the same active names. */
  lemma DoneListsMirrored(before: Property, now: Property, menuBy: map<string, Entry>, stockBy: map<string, Entry>)
    requires Sound(before) && ListsDone(before, now, menuBy, stockBy)
    ensures ActiveKeys(now.menu) <= stockBy.Keys && ActiveKeys(now.stock) <= menuBy.Keys
  {
    hide NameKey, ActiveKeys, MenuNames, StockNames, ItemNames, CarryRows, AllPairs, AddedRows, NameKeys, AscendingIds,
         Select, DecimalColumns, StockMerge.UniqueLines, Keyed, Describes;
    InStepNames(menuBy, now.menu);
    InStepNames(stockBy, now.stock);
    ListsMirrored(before.menu, before.stock, now.menu, now.stock, ActiveItems(before));
  }

  lemma MenuOfStep(before: Property, mid: MenuMerge.MenuState, now: Property, menuBy: map<string, Entry>)
    requires MenuMerge.Merged(MenuSets(menuBy, before.menuItems), FiledMenuState(before, menuBy), mid)
    requires mid.items == now.menuItems && mid.settings == now.settings
    ensures MenuDone(before, now, menuBy)
  {
    hide MenuSets, FiledMenuTable, MenuMerge.ItemAfter, MenuMerge.SettingAfter, MenuMerge.CookAfter;
  }

  /** Step 4 reads of the earlier steps only what they did not touch. */
  lemma StockOfStep(before: Property, mid: Property, now: Property, stockBy: map<string, Entry>)
    requires mid.stockItems == before.stockItems && mid.movements == before.movements
    requires mid.takeLines == before.takeLines
    requires mid.levels == before.levels && StockDone(mid, now, stockBy)
    ensures StockDone(before, now, stockBy)
  {
    hide StockSets, MergedStock, Targets, LevelsAdded;
  }

  /** The whole run from its steps. */
  lemma RunOfSteps(
    before: Property, mid: MenuMerge.MenuState, now: Property, menuBy: map<string, Entry>, stockBy: map<string, Entry>)
    requires Sound(before) && ListsDone(before, now, menuBy, stockBy) && StockDone(before, now, stockBy)
    requires MenuMerge.Merged(MenuSets(menuBy, before.menuItems), FiledMenuState(before, menuBy), mid)
    requires mid.items == now.menuItems && mid.settings == now.settings
    requires RecipesMapped(StockSets(stockBy, before.stockItems), mid.recipes, now.recipes)
    ensures Ran(before, now, menuBy, stockBy)
  {
    hide MenuSets, StockSets, FiledMenuTable, AddedRows, MenuNames, StockNames, ItemNames, Describes, AscendingIds,
         CarryRows, AllPairs, MenuMerge.ItemAfter, MenuMerge.SettingAfter, MenuMerge.CookAfter, RecipesMapped,
         RecipesMoved, StockDone, ListsDone;
    RecipesThroughBoth(MenuSets(menuBy, before.menuItems), StockSets(stockBy, before.stockItems),
                       FiledMenuState(before, menuBy), mid, now.recipes);
  }

  /** A run joins all rows it can: no more of a key are left than its busiest outlet had. */
  lemma RunMergesFully(before: Property, now: Property, menuBy: map<string, Entry>, stockBy: map<string, Entry>)
    requires Sound(before) && Ran(before, now, menuBy, stockBy)
    ensures MergedFully(MenuPlaces(before.menuItems), MenuPlaces(now.menuItems))
    ensures MergedFully(StockPlaces(before.stockItems), StockPlaces(now.stockItems))
  {
    hide MergedFully, StockDone, MenuDone, RecipesMoved, Describes, AddedRows, AscendingIds, CarryRows, AllPairs,
         MenuPlaces, StockPlaces, Survivors, DecimalColumns, Keyed, StockMerge.UniqueLines, MenuNames, StockNames,
         ItemNames;
    MenuPlacesAfter(before, now, menuBy);
    StockPlacesAfter(before, now, stockBy);
    FullMerge(MenuPlaces(before.menuItems));
    FullMerge(StockPlaces(before.stockItems));
  }

  /**
   * Every active item is sold as before, through the row its columns merge
   * it into, in a category its outlet carries.
   */
  ghost predicate MenuMeansTheSame(before: Property, now: Property, menuBy: map<string, Entry>) {
    && (forall id :: id in before.menuItems && MenuActive(before.menuItems[id]) ==>
          var m, kept := before.menuItems[id], Kept(MenuPlaces(before.menuItems), id);
          && SellsAsBefore(now.menuItems, now.settings, m, kept)
          && (m.cols.category != "" ==> CarriesItem(now.carried, menuBy, now.menuItems[kept], m.outlet)))
    && (forall id :: id in before.menuItems && !MenuActive(before.menuItems[id]) ==>
          id in now.menuItems && now.menuItems[id] == before.menuItems[id])
  }

  ghost predicate StockMeansTheSame(before: Property, now: Property, stockBy: map<string, Entry>) {
    var sets := StockSets(stockBy, before.stockItems);
    && (forall id :: KeptId(sets, id) == Kept(StockPlaces(before.stockItems), id))
    && QuantitiesKept(sets, before.movements, now.levels) && TotalsAreLevels(now.stockItems, now.levels)
    && ReordersKept(sets, before.stockItems, now.levels) && StockRowsKept(sets, before.stockItems, now.stockItems)
  }

  /** As many rows of a key are left as its busiest outlet had. */
  ghost predicate MergedFully(before: Places<ItemKey>, now: Places<ItemKey>) {
    && now == Survivors(before)
    && forall k: ItemKey :: IsMost(before, k, |Bearing(now, k)|)
  }

  lemma FullMerge(p: Places<ItemKey>)
    ensures MergedFully(p, Survivors(p))
  {
    hide IsMost, Survivors, Bearing;
    forall k: ItemKey ensures IsMost(p, k, |Bearing(Survivors(p), k)|) {
      SurvivorsPerKey(p, k);
    }
  }

  lemma MenuMeaning(before: Property, now: Property, menuBy: map<string, Entry>, stockBy: map<string, Entry>)
    requires Fresh(before) && ListsDone(before, now, menuBy, stockBy) && MenuDone(before, now, menuBy)
    ensures MenuMeansTheSame(before, now, menuBy)
  {
    hide MenuSets, FiledMenuTable, Describes, Keyed, Select, AddedRows, MenuNames, StockNames, MenuMerge.ItemAfter,
         DecimalColumns, MenuMerge.SettingAfter, SellsAsBefore, CarriesItem, CarriedBy, AscendingIds,
         StockMerge.UniqueLines, AllAtOutlets, MenuPlaces, Kept;
    var state := MenuMerge.MenuState(now.menuItems, now.settings, map[]);
    var active := ActiveItems(before);
    PairsOfProperty(before.menu, before.stock, active, menuBy);
    MergedNoRecipes(MenuSets(menuBy, before.menuItems), before, now, menuBy);
    MenuMigrated(menuBy, now.menu, before.menuItems, map[], state, now.carried);
    forall id ensures KeptId(MenuSets(menuBy, before.menuItems), id) == Kept(MenuPlaces(before.menuItems), id) {
      MenuKeptByColumns(menuBy, now.menu, before.menuItems, id);
    }
  }

  lemma MergedNoRecipes(sets: seq<seq<MenuItem>>, before: Property, now: Property, menuBy: map<string, Entry>)
    requires MenuDone(before, now, menuBy) && sets == MenuSets(menuBy, before.menuItems)
    ensures MenuMerge.Merged(sets,
      MenuMerge.MenuState(FiledMenuTable(menuBy, before.menuItems), before.settings, map[]),
                             MenuMerge.MenuState(now.menuItems, now.settings, map[]))
  {
    hide MenuSets, FiledMenuTable, MenuMerge.ItemAfter, MenuMerge.SettingAfter, MenuMerge.CookAfter;
  }

  lemma StockMeaning(before: Property, now: Property, stockBy: map<string, Entry>)
    requires Sound(before) && before.levels == map[] && StockDone(before, now, stockBy)
    ensures StockMeansTheSame(before, now, stockBy)
  {
    hide StockSets, DecimalColumns, Keyed, AscendingIds, StockMerge.UniqueLines, QuantitiesKept, TotalsAreLevels,
         ReordersKept, StockRowsKept, LevelsAdded, ArchivedTargets, SetsTargets, StockPlaces, Kept, Totalled,
         StockMerge.MovementsAfter, StockMerge.LinesAfter, FiledStockTable, MergedStock, RecipesMapped, ArchivedStock;
    var sets, merged := StockSets(stockBy, before.stockItems), MergedStock(stockBy, before.stockItems);
    var was := StockMerge.StockState(before.stockItems, before.movements, before.takeLines, map[]);
    var state := StockMerge.StockState(merged, now.movements, now.takeLines, map[]);
    var targets := Targets(stockBy, before.stockItems);
    MergedStockState(stockBy, was, state);
    StockMigrated(stockBy, was, state);
    assert LevelsBuilt(now.levels, targets, state.movements, state.items);
    QuantitiesMigrated(stockBy, was, state, now.levels, targets);
    ReordersMigrated(stockBy, was, state, now.levels);
    TotalsMigrated(state, now.stockItems, now.levels, targets);
    TotalledKeeps(sets, before.stockItems, merged, now.stockItems, now.movements);
    forall id ensures KeptId(sets, id) == Kept(StockPlaces(before.stockItems), id) {
      StockKeptByColumns(stockBy, before.stockItems, id);
    }
  }

  lemma MergedStockState(stockBy: map<string, Entry>, before: StockMerge.StockState, now: StockMerge.StockState)
    requires before.recipes == map[] && now.recipes == map[]
    requires now.items == MergedStock(stockBy, before.items)
    requires now.movements == StockMerge.MovementsAfter(StockSets(stockBy, before.items), before.movements)
    requires now.lines == StockMerge.LinesAfter(StockSets(stockBy, before.items), before.lines)
    ensures StockMerge.Merged(StockSets(stockBy, before.items),
      before.(items := FiledStockTable(stockBy, before.items)), now)
  {
    hide StockSets, RefileStock, StockMerge.ItemAfter;
    forall m: Id, k: Id ensures StockMerge.LineAfter(StockSets(stockBy, before.items), map[], m, k).None? {
      if SetOf(StockSets(stockBy, before.items), k).Some? {
        NoLines(SetOf(StockSets(stockBy, before.items), k).value, m);
      }
    }
  }

  lemma {:induction false} NoLines(s: seq<StockItem>, m: Id)
    ensures StockMerge.FirstLine(s, map[], m).None?
  {
    if s != [] {
      NoLines(s[..|s| - 1], m);
    }
  }

  lemma SoundAfter(before: Property, now: Property, menuBy: map<string, Entry>, stockBy: map<string, Entry>)
    requires Sound(before) && Ran(before, now, menuBy, stockBy) && CanRun(before)
    ensures Sound(now) && now.takeLines == LinesMoved(StockPlaces(before.stockItems), before.takeLines)
  {
    hide Keyed, AscendingIds, AddedRows, MenuNames, StockNames, ItemNames, CarryRows, MenuDone, RecipesMoved,
         LevelsAdded, Units, CarriedBy, StockPlaces, Sets, MergedStock, Totalled, LinesMoved, ActiveStock, Placed,
         Ascending, StockMerge.UniqueLines, KeptId, Describes, AllPlaced;
    CarriedStaysReferred(before, now, menuBy, stockBy);
    MenuPlacesAfter(before, now, menuBy);
    StockPlacesAfter(before, now, stockBy);
    StockPlaced(stockBy, before.stockItems);
    LinesByColumns(StockPlaces(before.stockItems), ActiveStock(stockBy, before.stockItems), StockKey, before.takeLines);
    forall i | 0 <= i < |now.movements| ensures now.movements[i].item in now.stockItems {
      KeptAmongItems(stockBy, before.stockItems, before.movements[i].item);
    }
  }

  /** After steps 1 and 2 every carried category is still a row of the list. */
  lemma CarriedStaysReferred(before: Property, now: Property, menuBy: map<string, Entry>, stockBy: map<string, Entry>)
    requires Sound(before) && ListsDeletable(before) && ListsDone(before, now, menuBy, stockBy)
    ensures CarriedIds(now.carried) <= IdsOf(now.menu)
  {
    hide NameKey, Key, Merged, CarriedBy, StockNames, MenuNames, ItemNames, PairKeys, Describes, AscendingIds,
         IsKeptRow, KeptFor, Keyed, DecimalColumns, StockMerge.UniqueLines, Select, Extends;
    var pairs := AllPairs(before.menu, before.stock, ActiveItems(before));
    PairsOfProperty(before.menu, before.stock, ActiveItems(before), menuBy);
    forall key | key in before.carried ensures key.1 in IdsOf(now.menu) {
      assert key.1 in CarriedIds(before.carried);
      var c :| c in before.menu && c.id == key.1;
      KeptRowExactly(before.menu, c);
      SurvivesExactly(before.menu, c);
      MergedRowsStay(before.menu, now.menu, c);
    }
    forall key | key in CarryRows(pairs, menuBy) ensures key.1 in IdsOf(now.menu) {
      RowOfPair(pairs, menuBy, now.menu, key);
    }
  }

  lemma MergedRowsStay(own: seq<Category>, now: seq<Category>, c: Category)
    requires Extends(Merged(own), now) && c in Merged(own)
    ensures c in now
  {
    hide Merged;
    var i :| 0 <= i < |Merged(own)| && Merged(own)[i] == c;
    assert now[i] == c;
  }

  lemma RowOfPair(pairs: seq<Carried>, byName: map<string, Entry>, rows: seq<Category>, key: (Outlet, Id))
    requires Describes(byName, rows) && key in CarryRows(pairs, byName) && PairKeys(pairs) <= byName.Keys
    ensures key.1 in IdsOf(rows)
  {
    hide Key, NameKey;
    var p :| p in pairs && p.name != "" && p.outlet.Some? && key == (p.outlet.value, IdFor(byName, p.name));
    assert Key(p.name) in PairKeys(pairs);
    var c :| c in rows && NameKey(c) == Key(p.name);
  }

  lemma KeptAmongItems(stockBy: map<string, Entry>, items: map<Id, StockItem>, id: Id)
    requires Keyed(items) && id in items
    ensures KeptId(StockSets(stockBy, items), id) in items
  {
    hide StockSets, Together, Survives;
    StockKeptByColumns(stockBy, items, id);
    if id in StockPlaces(items) {
      KeptFacts(StockPlaces(items), id);
      assert Kept(StockPlaces(items), id) in StockPlaces(items) by {
        TogetherIn(StockPlaces(items), id, Kept(StockPlaces(items), id));
      }
    }
  }

  lemma TogetherIn<K>(p: Places<K>, x: Id, y: Id)
    requires Together(p, x, y)
    ensures x in p && y in p
  {
  }
}
