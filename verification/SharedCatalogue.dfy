/**
 * 20261108090000, `migrateProperty`: the tables of one property as fields,
 * the migration's steps as methods.
 */
module SharedCatalogue {
  import opened Tables
  import opened Names
  import opened Categories
  import opened Grouping
  import opened OnePerOutlet
  import opened MergePlan
  import opened Quantities
  import opened CategoryMerge
  import opened CategoryLists
  import MenuMerge
  import StockMerge
  import opened StockTheorems
  import opened StockLevels
  import opened CategoryCarry
  import opened ItemFiling
  import opened MenuMergeSteps
  import opened StockMergeSteps
  import opened CatalogueMeaning
  import opened PropertyRuns
  import opened MenuTable
  import opened PropertyTables
  import opened Reruns
  import opened SecondRun
  import opened SecondRunLevels

  type MenuItem = MenuMerge.MenuItem
  type StockItem = StockMerge.StockItem

  class Catalogue {
    const menu: CategoryList
    const stock: CategoryList
    var outletCategories: set<(Outlet, Id)>
    var menuItems: map<Id, MenuItem>
    var settings: map<(Outlet, Id), MenuMerge.Setting>
    var recipes: Recipes
    var stockItems: map<Id, StockItem>
    var movements: seq<StockMerge.Movement>
    var takeLines: seq<StockMerge.TakeLine>
    var levels: Levels

    constructor (menu: CategoryList, stock: CategoryList, menuItems: map<Id, MenuItem>, recipes: Recipes,
                 stockItems: map<Id, StockItem>, movements: seq<StockMerge.Movement>,
                 takeLines: seq<StockMerge.TakeLine>)
      ensures this.menu == menu && this.stock == stock && this.menuItems == menuItems && this.recipes == recipes
      ensures this.stockItems == stockItems && this.movements == movements && this.takeLines == takeLines
      ensures outletCategories == {} && settings == map[] && levels == map[]
    {
      this.menu, this.stock, this.menuItems, this.recipes := menu, stock, menuItems, recipes;
      this.stockItems, this.movements, this.takeLines := stockItems, movements, takeLines;
      outletCategories, settings, levels := {}, map[], map[];
    }

    // ----- step 1: both category lists hold the same names -----

    /** Only the menu list is referred to, by the carry table; a delete there can fail. */
    method MergeCategoryLists() returns (ok: bool, carriedMenu: seq<Carried>, carriedStock: seq<Carried>)
      requires menu != stock && menu.Valid() && stock.Valid()
      modifies menu, stock
      ensures ok <==> Deletable(old(menu.rows), CarriedIds(outletCategories))
      ensures ok ==> carriedMenu == CarriedBy(old(menu.rows)) && carriedStock == CarriedBy(old(stock.rows))
      ensures ok ==> menu.InStep() && stock.InStep()
      ensures ok ==>
        && Mirrors(Merged(old(menu.rows)), menu.rows, Merged(old(stock.rows)), NameKeys(old(menu.rows)))
        && Mirrors(Merged(old(stock.rows)), stock.rows, Merged(old(menu.rows)), NameKeys(old(stock.rows)))
        && menu.byName.Keys == NameKeys(old(menu.rows)) + ActiveKeys(Merged(old(stock.rows)))
        && stock.byName.Keys == NameKeys(old(stock.rows)) + ActiveKeys(Merged(old(menu.rows)))
    {
      hide Key, NameKey, Merged, CarriedBy, IsKeptRow, Deletable, Mirrors, Describes, AscendingIds, IdsBelow,
           UniqueNames, ActiveKeys, CarriedIds;
      MergedFacts(menu.rows);
      MergedFacts(stock.rows);
      NothingReferred(stock.rows);
      carriedStock := [];
      ok, carriedMenu := menu.Merge(CarriedIds(outletCategories));
      if !ok {
        return;
      }
      ok, carriedStock := stock.Merge({});
      menu.Index();
      stock.Index();
      InStepNames(menu.byName, menu.rows);
      InStepNames(stock.byName, stock.rows);
      var menuCats, stockCats := menu.rows, stock.rows;
      stock.AddMissing(menuCats);
      menu.AddMissing(stockCats);
    }

    // ----- step 2: every outlet carries its categories -----

    /** The category of this name, registered on both lists if it is missing. */
    method CategoryFor(name: string) returns (category: Entry)
      requires menu != stock && menu.InStep() && stock.InStep()
      modifies menu, stock
      ensures menu.InStep() && stock.InStep()
      ensures menu.byName.Keys == old(menu.byName.Keys) + {Key(name)} && menu.byName[Key(name)] == category
      ensures stock.byName.Keys == old(stock.byName.Keys) + if Key(name) in old(menu.byName) then {} else {Key(name)}
      ensures forall k :: k in old(menu.byName) ==> menu.byName[k] == old(menu.byName[k])
      ensures Registered(old(menu.rows), menu.rows, name, Key(name) in old(menu.byName))
      ensures Registered(old(stock.rows), stock.rows, name, Key(name) in old(menu.byName)
        || Key(name) in old(stock.byName))
    {
      hide Key, Trim, Describes;
      KeyOfTrim(name);
      if Key(name) !in menu.byName {
        menu.Add(Trim(name), 0);
        if Key(name) !in stock.byName {
          stock.Add(Trim(name), 0);
        }
      }
      category := menu.byName[Key(name)];
    }

    /** UNIQUE(outlet, category): the pair must not be there yet. */
    method InsertOutletCategory(o: Outlet, category: Id)
      requires (o, category) !in outletCategories
      modifies this`outletCategories
      ensures outletCategories == old(outletCategories) + {(o, category)}
    {
      outletCategories := outletCategories + {(o, category)};
    }

    /**
     * The carry loop. It reports failure where the insert would put a null
     * outlet into `pos_outlet_categories`.
     */
    method Carry(pairs: seq<Carried>) returns (ok: bool)
      requires menu != stock && menu.InStep() && stock.InStep()
      modifies menu, stock, this`outletCategories
      ensures menu.InStep() && stock.InStep()
      ensures ok <==> AllPlaced(pairs)
      ensures AddedForPairs(old(menu.rows), menu.rows, pairs, old(menu.byName.Keys))
      ensures AddedForPairs(old(stock.rows), stock.rows, pairs, old(menu.byName.Keys) + old(stock.byName.Keys))
      ensures forall k :: k in old(menu.byName) ==> k in menu.byName && menu.byName[k] == old(menu.byName[k])
      ensures ok ==> menu.byName.Keys == old(menu.byName.Keys) + PairKeys(pairs)
      ensures ok ==> stock.byName.Keys == old(stock.byName.Keys) + (PairKeys(pairs) - old(menu.byName.Keys))
      ensures ok ==> outletCategories == old(outletCategories) + CarryRows(pairs, menu.byName)
    {
      hide Key, Trim, Describes, NameKey, AddedForPairs, Registered, PairKeys, CarryRows;
      var carry: set<(Option<Outlet>, Id)> := {};
      NoPairs(menu.rows, pairs, menu.byName.Keys, menu.byName);
      NoPairs(stock.rows, pairs, menu.byName.Keys + stock.byName.Keys, menu.byName);
      for i := 0 to |pairs|
        invariant menu.InStep() && stock.InStep()
        invariant AllPlaced(pairs[..i])
        invariant AddedForPairs(old(menu.rows), menu.rows, pairs, old(menu.byName.Keys))
        invariant AddedForPairs(old(stock.rows), stock.rows, pairs, old(menu.byName.Keys) + old(stock.byName.Keys))
        invariant forall k :: k in old(menu.byName) ==> k in menu.byName && menu.byName[k] == old(menu.byName[k])
        invariant menu.byName.Keys == old(menu.byName.Keys) + PairKeys(pairs[..i])
        invariant stock.byName.Keys == old(stock.byName.Keys) + (PairKeys(pairs[..i]) - old(menu.byName.Keys))
        invariant outletCategories == old(outletCategories) + CarryRows(pairs[..i], menu.byName)
        invariant forall c :: c in carry ==> c.0.Some? && (c.0.value, c.1) in outletCategories
      {
        var pair := pairs[i];
        if pair.name == "" {
          NextPair(pairs, i, menu.byName);
          continue;
        }
        label L:
        var category := CategoryFor(pair.name);
        AddedMore(old(menu.rows), old@L(menu.rows), menu.rows, pairs, old(menu.byName.Keys), i,
                  Key(pair.name) in old@L(menu.byName));
        AddedMore(old(stock.rows), old@L(stock.rows), stock.rows, pairs, old(menu.byName.Keys)
          + old(stock.byName.Keys), i,
                  Key(pair.name) in old@L(menu.byName) || Key(pair.name) in old@L(stock.byName));
        SameCarryRows(pairs[..i], old@L(menu.byName), menu.byName);
        NextPair(pairs, i, menu.byName);
        if (pair.outlet, category.id) in carry {
          continue;
        }
        carry := carry + {(pair.outlet, category.id)};
        if pair.outlet.None? {
          return false;
        }
        if (pair.outlet.value, category.id) !in outletCategories {
          InsertOutletCategory(pair.outlet.value, category.id);
        }
      }
      assert pairs[..|pairs|] == pairs;
      return true;
    }

    // ----- step 3: menu items -----

    function MenuNow(): MenuMerge.MenuState
      reads this
    {
      MenuMerge.MenuState(menuItems, settings, recipes)
    }

    /** Each active item is filed under its category's registered spelling, in the table and in the list read. */
    method FileMenuItems(active: seq<MenuItem>) returns (filed: seq<MenuItem>)
      requires Ascending(active) && forall x :: x in active ==> x.id in menuItems && menuItems[x.id] == x
      modifies this`menuItems
      ensures filed == FiledMenu(menu.byName, active)
      ensures menuItems.Keys == old(menuItems).Keys
      ensures forall id :: id in menuItems ==>
        menuItems[id] == if HasId(active, id) then RefileMenu(menu.byName, old(menuItems)[id]) else old(menuItems)[id]
    {
      hide Key, Ascending, HasId;
      filed := [];
      NoIds(active);
      for i := 0 to |active|
        invariant filed == FiledMenu(menu.byName, active[..i])
        invariant menuItems.Keys == old(menuItems).Keys
        invariant forall id :: id in menuItems ==>
          menuItems[id] == if HasId(active[..i], id) then RefileMenu(menu.byName, old(menuItems)[id])
            else old(menuItems)[id]
      {
        var item := active[i];
        assert item in active;
        NextId(active, i);
        var canonical := Canonical(menu.byName, item.cols.category);
        if canonical != item.cols.category {
          var row := menuItems[item.id];
          menuItems := menuItems[item.id := row.(cols := row.cols.(category := canonical))];
          item := item.(cols := item.cols.(category := canonical));
        }
        filed := filed + [item];
      }
      assert active[..|active|] == active;
    }

    method UpsertOutletItem(o: Outlet, menuItem: Id, changes: MenuMerge.Changes)
      modifies this`settings
      ensures settings == old(settings)[(o, menuItem) := MenuMerge.Apply(
        if (o, menuItem) in old(settings) then old(settings)[(o, menuItem)] else MenuMerge.DEFAULT_SETTING, changes)]
    {
      if (o, menuItem) in settings {
        settings := settings[(o, menuItem) := MenuMerge.Apply(settings[(o, menuItem)], changes)];
      } else {
        settings := settings[(o, menuItem) := MenuMerge.Apply(MenuMerge.DEFAULT_SETTING, changes)];
      }
    }

    /** The outlets of a set's members keep what differed from the kept item. */
    method KeepDifferences(s: seq<MenuItem>)
      requires s != []
      modifies this`settings
      ensures forall o: Outlet, k: Id :: 
        Lookup(settings, (o, k)) == MenuMerge.SettingInSet(s[0], s, old(settings), o, k)
    {
      for i := 0 to |s|
        invariant forall o: Outlet, k: Id :: 
          Lookup(settings, (o, k)) == MenuMerge.SettingInSet(s[0], s[..i], old(settings), o, k)
      {
        var member := s[i];
        NextSetting(s, old(settings), i);
        var changes := MenuMerge.ChangesFor(s[0], member);
        assert Lookup(settings, (member.outlet, s[0].id)) ==
          MenuMerge.SettingAt(s[0], s[..i], old(settings), member.outlet);
        if changes.price.Some? || changes.off.Some? {
          UpsertOutletItem(member.outlet, s[0].id, changes);
        }
      }
      assert s[..|s|] == s;
    }

    /** The recipe lines of one item are inserted for another that has none. */
    method CopyRecipe(from: Id, to: Id)
      requires from != to && !MenuMerge.HasRecipe(recipes, to)
      modifies this`recipes
      ensures forall m: Id :: MenuMerge.SameRecipe(recipes, m, old(recipes), Source(from, to, m))
    {
      var lines := set line | line in recipes.Keys && line.0 == from;
      var todo := lines;
      while todo != {}
        invariant todo <= lines
        invariant forall m: Id, k: Id :: (m != to || (from, k) !in lines - todo) ==>
          Lookup(recipes, (m, k)) == Lookup(old(recipes), (m, k))
        invariant forall k: Id :: (from, k) in lines - todo ==>
          Lookup(recipes, (to, k)) == Lookup(old(recipes), (from, k))
        decreases todo
      {
        var line :| line in todo;
        assert Lookup(recipes, line) == Lookup(old(recipes), (from, line.1));
        recipes := recipes[(to, line.1) := recipes[line]];
        todo := todo - {line};
      }
      forall m: Id ensures MenuMerge.SameRecipe(recipes, m, old(recipes), Source(from, to, m)) {
        forall k: Id ensures Lookup(recipes, (m, k)) == Lookup(old(recipes), (Source(from, to, m), k)) {
          assert (from, k) in lines <==> (from, k) in old(recipes);
          assert (to, k) in old(recipes).Keys ==> MenuMerge.HasRecipe(old(recipes), to);
        }
      }
    }

    /** The head takes the recipe of the i-th member if it still has none. */
    method TakeRecipe(s: seq<MenuItem>, i: nat, ghost before: Recipes)
      requires 1 <= i < |s| && Ascending(s) && MenuMerge.Cooked(s[..i], before, recipes)
      modifies this`recipes
      ensures MenuMerge.Cooked(s[..i + 1], before, recipes)
    {
      hide MenuMerge.Cooked, MenuMerge.FirstCook, MenuMerge.HasRecipe, MenuMerge.SameRecipe;
      NextCook(s, i, before, recipes);
      if !MenuMerge.HasRecipe(recipes, s[0].id) {
        ghost var now := recipes;
        CopyRecipe(s[i].id, s[0].id);
        CookCopied(s, i, before, now, recipes);
      }
    }

    /** The other members of a set: what they have and the head lacks is noted, the rows are archived. */
    method AbsorbOthers(s: seq<MenuItem>) returns (image: Option<string>, cost: Option<string>)
      requires s != [] && Ascending(s) && Keyed(menuItems)
      requires forall x :: x in s ==> x.id in menuItems && menuItems[x.id] == x
      modifies this`menuItems, this`recipes
      ensures menuItems.Keys == old(menuItems).Keys
      ensures forall id :: id in menuItems ==> menuItems[id] == ArchiveIn(s, s[0].id, old(menuItems)[id])
      ensures MenuMerge.FirstImage(s) == if Truthy(s[0].cols.image) then s[0].cols.image else image
      ensures MenuMerge.FirstCost(s) == if s[0].cols.cost.Some? then s[0].cols.cost else cost
      ensures Truthy(s[0].cols.image) ==> image.None?
      ensures s[0].cols.cost.Some? ==> cost.None?
      ensures MenuMerge.Cooked(s, old(recipes), recipes)
    {
      hide MenuMerge.FirstImage, MenuMerge.FirstCost, MenuMerge.FirstCook, MenuMerge.HasRecipe, MenuMerge.SameRecipe,
           MenuMerge.Cooked, HasId, Ascending;
      var kept := s[0];
      image, cost := None, None;
      HeadOnly(s, recipes);
      for i := 1 to |s|
        invariant menuItems.Keys == old(menuItems).Keys
        invariant forall id :: id in menuItems ==> menuItems[id] == ArchiveIn(s[..i], kept.id, old(menuItems)[id])
        invariant MenuMerge.FirstImage(s[..i]) == if Truthy(kept.cols.image) then kept.cols.image else image
        invariant MenuMerge.FirstCost(s[..i]) == if kept.cols.cost.Some? then kept.cols.cost else cost
        invariant Truthy(kept.cols.image) ==> image.None?
        invariant image.Some? ==> Truthy(image)
        invariant kept.cols.cost.Some? ==> cost.None?
        invariant MenuMerge.Cooked(s[..i], old(recipes), recipes)
      {
        var other := s[i];
        assert other in s;
        NextId(s, i);
        NextImageAndCost(s, i);
        if !Truthy(kept.cols.image) && !Truthy(image) && Truthy(other.cols.image) {
          image := other.cols.image;
        }
        if kept.cols.cost.None? && cost.None? && other.cols.cost.Some? {
          cost := other.cols.cost;
        }
        TakeRecipe(s, i, old(recipes));
        menuItems := menuItems[other.id := MenuMerge.Archive(menuItems[other.id])];
      }
      assert s[..|s|] == s;
    }

    /** One set of menu items becomes one: its head is kept, the others are archived. */
    method MergeMenuSet(s: seq<MenuItem>)
      requires s != [] && Ascending(s) && Keyed(menuItems)
      requires forall x :: x in s ==> x.id in menuItems && menuItems[x.id] == x
      modifies this`menuItems, this`settings, this`recipes
      ensures MenuMerge.SetMerged(s, old(MenuNow()), MenuNow())
    {
      hide MenuMerge.FirstImage, MenuMerge.FirstCost, MenuMerge.Cooked, MenuMerge.SettingInSet;
      var kept := s[0];
      KeepDifferences(s);
      var image, cost := AbsorbOthers(s);
      assert kept in s && HasId(s, kept.id);
      if image.Some? || cost.Some? {
        var row := menuItems[kept.id];
        menuItems := menuItems[kept.id := row.(cols := row.cols.(
          image := if image.Some? then image else row.cols.image,
          cost := if cost.Some? then cost else row.cols.cost))];
      }
      forall id | id in menuItems ensures menuItems[id] == MenuMerge.ItemInSet(s, old(menuItems)[id]) {
      }
    }

    /** The sets planned for one group, merged one after another; `all` is the plan of every group. */
    method MergeMenuSets(
      sets: seq<seq<MenuItem>>, ghost all: seq<seq<MenuItem>>, ghost rows: seq<MenuItem>, ghost n: nat,
                         ghost before: MenuMerge.MenuState)
      requires MergePlan.Partition(all, rows) && Ascending(rows) && Keyed(before.items)
      requires forall x :: x in rows ==> x.id in before.items && before.items[x.id] == x
      requires n + |sets| <= |all| && sets == all[n..n + |sets|]
      requires MenuMerge.Merged(all[..n], before, MenuNow())
      modifies this`menuItems, this`settings, this`recipes
      ensures MenuMerge.Merged(all[..n + |sets|], before, MenuNow())
    {
      hide MenuMerge.Merged, MenuMerge.SetMerged, MergePlan.Partition, Ascending;
      for k := 0 to |sets|
        invariant MenuMerge.Merged(all[..n + k], before, MenuNow())
      {
        assert sets[k] == all[n + k];
        MenuSetUntouched(all, rows, n + k, before, MenuNow());
        label L:
        MergeMenuSet(sets[k]);
        MenuMerge.MergedStep(all, rows, n + k, before, old@L(MenuNow()), MenuNow());
      }
    }

    /** Same-named items of a category become one, at most one per outlet. */
    method MergeMenuItems(filed: seq<MenuItem>)
      requires Ascending(filed) && Keyed(menuItems)
      requires forall x :: x in filed ==> x.id in menuItems && menuItems[x.id] == x
      modifies this`menuItems, this`settings, this`recipes
      ensures MenuMerge.Merged(Sets(filed, MenuKey), old(MenuNow()), MenuNow())
    {
      hide MenuMerge.Merged, MergePlan.Partition, Ascending, MenuKey, PlanAll, Groups, Plan;
      var groups := GroupBy(filed, MenuKey);
      ghost var before, all := MenuNow(), Sets(filed, MenuKey);
      SetsPartition(filed, MenuKey);
      NothingMergedYet(before);
      NothingPlanned(groups, all);
      for g := 0 to |groups|
        invariant |PlanAll(groups[..g])| <= |all|
        invariant MenuMerge.Merged(all[..|PlanAll(groups[..g])|], before, MenuNow())
      {
        var sets := PlanOnePerOutlet(groups[g]);
        NextInPlan(groups, g);
        MergeMenuSets(sets, all, filed, |PlanAll(groups[..g])|, before);
      }
      assert groups[..|groups|] == groups && all[..|all|] == all;
    }

    // ----- step 4: stock items -----

    function StockNow(): StockMerge.StockState
      reads this
    {
      StockMerge.StockState(stockItems, movements, takeLines, recipes)
    }

    /** Every stock item, active or not, is filed under its category's registered spelling. */
    method FileStockItems(rows: seq<StockItem>) returns (filed: seq<StockItem>)
      requires Ascending(rows) && forall x :: x in rows ==> x.id in stockItems && stockItems[x.id] == x
      modifies this`stockItems
      ensures filed == FiledStock(stock.byName, rows)
      ensures stockItems.Keys == old(stockItems).Keys
      ensures forall id :: id in stockItems ==>
        stockItems[id] == if HasId(rows, id) then RefileStock(stock.byName, old(stockItems)[id])
          else old(stockItems)[id]
    {
      hide Key, Ascending, HasId;
      filed := [];
      NoIds(rows);
      for i := 0 to |rows|
        invariant filed == FiledStock(stock.byName, rows[..i])
        invariant stockItems.Keys == old(stockItems).Keys
        invariant forall id :: id in stockItems ==>
          stockItems[id] == if HasId(rows[..i], id) then RefileStock(stock.byName, old(stockItems)[id])
            else old(stockItems)[id]
      {
        var item := rows[i];
        assert item in rows;
        NextId(rows, i);
        var row := RefileStock(stock.byName, item);
        if row.cols.category != item.cols.category {
          var was := stockItems[item.id];
          stockItems := stockItems[item.id := was.(cols := was.cols.(category := row.cols.category))];
          item := row;
        }
        filed := filed + [item];
      }
      assert rows[..|rows|] == rows;
    }

    /** Recipe lines naming a merged-away item name the kept one, or go if the dish already lists it. */
    method RepointRecipes(kept: StockItem, other: StockItem)
      requires kept.id != other.id
      modifies this`recipes
      ensures forall m: Id, k: Id :: Lookup(recipes, (m, k)) == StockMerge.LineInPair(kept, other, old(recipes), m, k)
    {
      var lines := set line | line in recipes.Keys && line.1 == other.id;
      var todo := lines;
      while todo != {}
        invariant todo <= lines
        invariant forall m: Id, k: Id :: (m, other.id) !in lines - todo ==>
          Lookup(recipes, (m, k)) == Lookup(old(recipes), (m, k))
        invariant forall m: Id, k: Id :: (m, other.id) in lines - todo ==>
          Lookup(recipes, (m, k)) == StockMerge.LineInPair(kept, other, old(recipes), m, k)
        decreases todo
      {
        var line :| line in todo;
        assert Lookup(recipes, (line.0, other.id)) == Lookup(old(recipes), (line.0, other.id));
        assert Lookup(recipes, (line.0, kept.id)) == Lookup(old(recipes), (line.0, kept.id));
        var clash := (line.0, kept.id) in recipes;
        var quantity := recipes[line];
        recipes := recipes - {line};
        if !clash {
          recipes := recipes[(line.0, kept.id) := quantity];
        }
        todo := todo - {line};
      }
      forall m: Id, k: Id ensures Lookup(recipes, (m, k)) == StockMerge.LineInPair(kept, other, old(recipes), m, k) {
        assert (m, other.id) in lines <==> (m, other.id) in old(recipes);
      }
    }

    /**
     * One member's references move to the kept row, and it is merged away;
     * false when a stock take would list an item twice.
     */
    method MergeMember(kept: StockItem, other: StockItem, category: Option<string>) returns (ok: bool)
      requires kept.id != other.id && kept.id in stockItems && other.id in stockItems && Keyed(stockItems)
      modifies this`stockItems, this`movements, this`takeLines, this`recipes
      ensures ok <==> StockMerge.UniqueLines(StockMerge.LinesInSet([kept, other], old(takeLines)))
      ensures ok ==> StockMerge.MemberMerged(kept, other, category, old(StockNow()), StockNow())
    {
      movements := StockMerge.MovementsInSet([kept, other], movements);
      var lines := StockMerge.LinesInSet([kept, other], takeLines);
      if !StockMerge.UniqueLines(lines) {
        return false;
      }
      takeLines := lines;
      RepointRecipes(kept, other);
      stockItems := stockItems[other.id := StockMerge.MergeAway(stockItems[other.id])];
      var row := stockItems[kept.id];
      stockItems := stockItems[kept.id := row.(cols := row.cols.(category := category))];
      return true;
    }

    /** One set of stock items becomes one. */
    method MergeStockSet(s: seq<StockItem>) returns (ok: bool)
      requires s != [] && Ascending(s) && Keyed(stockItems) && StockMerge.UniqueLines(takeLines)
      requires forall x :: x in s ==> x.id in stockItems && stockItems[x.id] == x
      modifies this`stockItems, this`movements, this`takeLines, this`recipes
      ensures ok <==> StockMerge.UniqueLines(StockMerge.LinesInSet(s, old(takeLines)))
      ensures ok ==> StockMerge.SetMerged(s, old(StockNow()), StockNow()) && StockMerge.UniqueLines(takeLines)
    {
      hide StockMerge.FirstCategory, StockMerge.SetMerged, StockMerge.MemberMerged, StockMerge.UniqueLines, Ascending,
           StockMerge.LinesInSet;
      var kept := s[0];
      var category := kept.cols.category;
      ghost var before := StockNow();
      assert kept in s;
      StockMerge.HeadAlone(s[..1], before);
      StockHead(s);
      for i := 1 to |s|
        invariant StockMerge.SetMerged(s[..i], before, StockNow())
        invariant StockMerge.UniqueLines(takeLines)
        invariant category == StockMerge.FillCategory(kept, s[..i]).cols.category
      {
        var other := s[i];
        assert other in s;
        NextStock(s, i, before, StockNow());
        if !Truthy(category) && Truthy(other.cols.category) {
          category := other.cols.category;
        }
        label L:
        ok := MergeMember(kept, other, category);
        if !ok {
          CollisionInSet(s, i, before.lines);
          return;
        }
        StockMerge.SetMergedStep(s, i, before, old@L(StockNow()), StockNow());
      }
      assert s[..|s|] == s;
      WholeSetLines(s, before, StockNow());
      return true;
    }

    /** The sets planned for one group; the levels they will need are noted. */
    method MergeStockSets(
      sets: seq<seq<StockItem>>, wanted: seq<Target>, ghost all: seq<seq<StockItem>>, ghost rows: seq<StockItem>,
                          ghost n: nat, ghost before: StockMerge.StockState, ghost first: seq<Target>)
      returns (ok: bool, targets: seq<Target>)
      requires MergePlan.Partition(all, rows) && Ascending(rows) && Keyed(before.items)
      requires forall x :: x in rows ==> x.id in before.items && before.items[x.id] == x
      requires n + |sets| <= |all| && sets == all[n..n + |sets|]
      requires StockMerge.Merged(all[..n], before, StockNow()) && StockMerge.UniqueLines(takeLines)
      requires wanted == first + SetsTargets(all[..n])
      modifies this`stockItems, this`movements, this`takeLines, this`recipes
      ensures !ok ==> !StockMerge.UniqueLines(StockMerge.LinesAfter(all, before.lines))
      ensures ok ==> StockMerge.Merged(all[..n + |sets|], before, StockNow()) && StockMerge.UniqueLines(takeLines)
      ensures ok ==> targets == first + SetsTargets(all[..n + |sets|])
    {
      hide StockMerge.Merged, StockMerge.SetMerged, StockMerge.UniqueLines, MergePlan.Partition, Ascending, SetTargets,
           StockMerge.LinesAfter;
      targets := wanted;
      for k := 0 to |sets|
        invariant StockMerge.Merged(all[..n + k], before, StockNow()) && StockMerge.UniqueLines(takeLines)
        invariant targets == first + SetsTargets(all[..n + k])
      {
        assert sets[k] == all[n + k];
        StockSetUntouched(all, rows, n + k, before, StockNow());
        targets := targets + SetTargets(sets[k]);
        NextTargets(all, n + k, first);
        label L:
        ok := MergeStockSet(sets[k]);
        if !ok {
          CollisionAfter(all, rows, n + k, before, old@L(StockNow()));
          return;
        }
        StockMerge.MergedStep(all, rows, n + k, before, old@L(StockNow()), StockNow());
      }
      ok := true;
    }

    /** Same-named active items of one unit become one, at most one per outlet. */
    method MergeStockItems(active: seq<StockItem>, wanted: seq<Target>) returns (ok: bool, targets: seq<Target>)
      requires Ascending(active) && Keyed(stockItems) && StockMerge.UniqueLines(takeLines)
      requires forall x :: x in active ==> x.id in stockItems && stockItems[x.id] == x
      modifies this`stockItems, this`movements, this`takeLines, this`recipes
      ensures ok <==> StockMerge.UniqueLines(StockMerge.LinesAfter(Sets(active, StockKey), old(takeLines)))
      ensures ok ==> StockMerge.Merged(Sets(active, StockKey), old(StockNow()), StockNow())
      ensures ok ==> targets == wanted + SetsTargets(Sets(active, StockKey))
    {
      hide StockMerge.Merged, StockMerge.UniqueLines, MergePlan.Partition, Ascending, StockKey, SetsTargets,
           StockMerge.LinesAfter, PlanAll, Groups, Plan;
      var groups := GroupBy(active, StockKey);
      ghost var before, all := StockNow(), Sets(active, StockKey);
      SetsPartition(active, StockKey);
      NoStockMergedYet(before, wanted);
      targets := wanted;
      NothingPlanned(groups, all);
      for g := 0 to |groups|
        invariant |PlanAll(groups[..g])| <= |all|
        invariant StockMerge.Merged(all[..|PlanAll(groups[..g])|], before, StockNow())
        invariant StockMerge.UniqueLines(takeLines)
        invariant targets == wanted + SetsTargets(all[..|PlanAll(groups[..g])|])
      {
        var sets := PlanOnePerOutlet(groups[g]);
        NextInPlan(groups, g);
        ok, targets := MergeStockSets(sets, targets, all, active, |PlanAll(groups[..g])|, before, wanted);
        if !ok {
          return;
        }
      }
      assert groups[..|groups|] == groups && all[..|all|] == all;
      AllLines(all, before, StockNow());
      ok := true;
    }

    // ----- the levels and the totals -----

    /** `sumQuantities` of the movements of one item at one outlet. */
    method QuantityAt(o: Outlet, k: Id) returns (quantity: string)
      requires DecimalColumns(movements)
      ensures quantity == Print(SumOver(movements, {(o, k)}))
    {
      hide Print, SumOver, QuantitiesAt, AllUnits, Total;
      QuantitiesAtTotal(movements, o, k);
      var sum := SumQuantities(QuantitiesAt(movements, o, k));
      quantity := sum.value;
    }

    /** A level for every target, the first one counting where an item is wanted twice at an outlet. */
    method InsertWantedLevels(targets: seq<Target>)
      requires DecimalColumns(movements)
      modifies this`levels
      ensures levels.Keys == old(levels).Keys + TargetKeys(targets)
      ensures Derived(old(levels), levels, movements) && Reordered(old(levels), levels, targets, stockItems)
    {
      hide Print, SumOver, DecimalColumns, TargetKeys, Derived, Reordered;
      NoLevels(levels, movements, stockItems);
      assert targets[..0] == [];
      for i := 0 to |targets|
        invariant levels.Keys == old(levels).Keys + TargetKeys(targets[..i])
        invariant Derived(old(levels), levels, movements) && Reordered(old(levels), levels, targets[..i], stockItems)
      {
        var target := targets[i];
        var quantity := QuantityAt(target.outlet, target.item);
        NextTarget(old(levels), targets, i, levels, movements, stockItems, quantity);
        if (target.outlet, target.item) in levels {
          continue;
        }
        levels := levels[(target.outlet, target.item) := Level(quantity, target.reorder)];
      }
      assert targets[..|targets|] == targets;
    }

    /** Then one for every movement whose outlet has no level of its item yet. */
    method InsertLevels(targets: seq<Target>)
      requires DecimalColumns(movements)
      requires forall i :: 0 <= i < |movements| ==> movements[i].item in stockItems
      modifies this`levels
      ensures LevelsAdded(old(levels), levels, targets, movements, stockItems)
    {
      hide Print, SumOver, DecimalColumns, TargetKeys, MovementKeys, Derived, Reordered;
      InsertWantedLevels(targets);
      var pairs := MovementKeys(movements);
      var todo := pairs;
      PairsAreKeys(movements);
      while todo != {}
        invariant todo <= pairs
        invariant levels.Keys == old(levels).Keys + TargetKeys(targets) + (pairs - todo)
        invariant Derived(old(levels), levels, movements) && Reordered(old(levels), levels, targets, stockItems)
        decreases todo
      {
        var pair :| pair in todo;
        todo := todo - {pair};
        if pair in levels {
          continue;
        }
        var quantity := QuantityAt(pair.0, pair.1);
        var level := Level(quantity, stockItems[pair.1].cols.reorder);
        MissingLevel(old(levels), targets, levels, movements, stockItems, pair, level);
        levels := levels[pair := level];
      }
    }

    /** Every active item's property-wide quantity is derived from its movements again. */
    method RefreshTotals()
      requires DecimalColumns(movements) && Keyed(stockItems)
      modifies this`stockItems
      ensures stockItems.Keys == old(stockItems).Keys
      ensures forall id :: id in stockItems ==> stockItems[id] == Totalled(old(stockItems)[id], movements)
    {
      hide Print, ItemSum, QuantitiesOf, AllUnits, Total, DecimalColumns, HasId, Ascending;
      var rows := Select(stockItems, StockActive);
      SelectFacts(stockItems, StockActive);
      NoIds(rows);
      for i := 0 to |rows|
        invariant stockItems.Keys == old(stockItems).Keys
        invariant forall id :: id in stockItems ==>
          stockItems[id] == if HasId(rows[..i], id) then WithTotal(old(stockItems)[id], movements)
            else old(stockItems)[id]
      {
        var item := rows[i];
        assert item in rows;
        NextId(rows, i);
        QuantitiesOfTotal(movements, item.id);
        var sum := SumQuantities(QuantitiesOf(movements, item.id));
        var row := stockItems[item.id];
        stockItems := stockItems[item.id := row.(cols := row.cols.(quantity := sum.value))];
      }
      assert rows[..|rows|] == rows;
      SelectIds(old(stockItems), rows);
    }

    // ----- the whole migration of one property -----

    /**
     * Steps 1 and 2; false where a category that is carried would be deleted,
     * or where `pos_outlet_categories` would get a row without an outlet.
     */
    method MigrateCategories() returns (ok: bool)
      requires menu != stock && menu.Valid() && stock.Valid()
      modifies menu, stock, this`outletCategories
      ensures ok <==>
        && Deletable(old(menu.rows), CarriedIds(old(outletCategories)))
        && AllPlaced(CarriedBy(old(menu.rows))) && AllPlaced(CarriedBy(old(stock.rows)))
      ensures Deletable(old(menu.rows), CarriedIds(old(outletCategories))) ==> menu.InStep() && stock.InStep()
      ensures Deletable(old(menu.rows), CarriedIds(old(outletCategories))) ==>
        var names := MenuNames(old(menu.rows), old(stock.rows)); var active := Select(menuItems, MenuActive);
        && AddedRows(old(menu.rows), old(stock.rows), menu.rows, names, active)
        && AddedRows(old(stock.rows), old(menu.rows), stock.rows, names, active)
        && (ok ==> menu.byName.Keys == names + ItemNames(active))
        && (ok ==> stock.byName.Keys == StockNames(old(menu.rows), old(stock.rows)) + (ItemNames(active) - names))
        && var pairs := AllPairs(old(menu.rows), old(stock.rows), active);
           (ok ==> outletCategories == old(outletCategories) + CarryRows(pairs, menu.byName))
    {
      hide Key, NameKey, Merged, CarriedBy, Extends, Mirrors, CarryRows, ActiveKeys, Select, AllPlaced, ItemPairs,
           PairKeys, AddedForPairs, Describes, AscendingIds, IdsBelow, Deletable, CarriedIds;
      ghost var menu0, stock0 := menu.rows, stock.rows;
      var carriedMenu, carriedStock;
      ok, carriedMenu, carriedStock := MergeCategoryLists();
      if !ok {
        return;
      }
      ghost var menu1, stock1 := menu.rows, stock.rows;
      ghost var menuKeys, stockKeys := menu.byName.Keys, stock.byName.Keys;
      var activeItems := Select(menuItems, MenuActive);
      ok := Carry(carriedMenu + carriedStock + ItemPairs(activeItems));
      PairsOfProperty(menu0, stock0, activeItems, menu.byName);
      AddedInTwoSteps(menu0, stock0, menu0, stock0, activeItems, menu1, menu.rows, menuKeys);
      AddedInTwoSteps(stock0, menu0, menu0, stock0, activeItems, stock1, stock.rows, menuKeys + stockKeys);
    }

    /** Step 3. */
    method MigrateMenu()
      requires menu.InStep() && Keyed(menuItems)
      modifies this`menuItems, this`settings, this`recipes
      ensures MenuMerge.Merged(MenuSets(menu.byName, old(menuItems)),
                               MenuMerge.MenuState(FiledMenuTable(menu.byName, old(menuItems)), old(settings),
                                 old(recipes)), MenuNow())
    {
      hide Key, Canonical, Select, Describes, MenuMerge.Merged, Ascending, HasId, MenuKey;
      var activeItems := Select(menuItems, MenuActive);
      SelectFacts(menuItems, MenuActive);
      FiledMenuFacts(menu.byName, menuItems);
      MenuIds(menuItems, activeItems);
      var filed := FileMenuItems(activeItems);
      assert menuItems == FiledMenuTable(menu.byName, old(menuItems));
      MergeMenuItems(filed);
    }

    /** Step 4; false where a stock take would list an item twice. */
    method MigrateStock() returns (ok: bool)
      requires Sound(Now()) && stock.InStep()
      modifies this`stockItems, this`movements, this`takeLines, this`recipes, this`levels
      ensures ok <==> StockMerge.UniqueLines(LinesMoved(StockPlaces(old(stockItems)), old(takeLines)))
      ensures ok ==> StockDone(old(Now()), Now(), stock.byName)
      ensures ok ==> RecipesMapped(StockSets(stock.byName, old(stockItems)), old(recipes), recipes)
      ensures !ok ==> levels == old(levels)
    {
      hide Key, Canonical, Describes, StockMerge.Merged, Ascending, StockKey, DecimalColumns, StockMerge.UniqueLines,
           Keyed, StockMerge.LinesAfter, LinesMoved, StockPlaces, StockDone, RecipesMapped, AscendingIds, SetsTargets,
           ArchivedTargets, FiledStockRows, FiledStockTable, StockActive, Sets;
      ghost var before, whole := StockNow(), Now();
      var filed := FileAllStock();
      StockSplit(stock.byName, before.items);
      var active := WithKey(filed, StockActive, true);
      var archived := WithKey(filed, StockActive, false);
      InFiledTable(stock.byName, before.items);
      StockPlaced(stock.byName, before.items);
      LinesByColumns(StockPlaces(before.items), active, StockKey, before.lines);
      var targets;
      ok, targets := MergeStockItems(active, ArchivedTargets(archived));
      if ok {
        BuildLevels(targets, before, whole);
      }
    }

    method FileAllStock() returns (filed: seq<StockItem>)
      requires stock.InStep() && Keyed(stockItems)
      modifies this`stockItems
      ensures filed == FiledStockRows(stock.byName, old(stockItems))
      ensures stockItems == FiledStockTable(stock.byName, old(stockItems))
    {
      hide Key, Canonical, Select, Describes, Ascending, HasId, FiledStock;
      var rows := Select(stockItems, AnyStock);
      SelectFacts(stockItems, AnyStock);
      StockIds(stockItems, rows);
      filed := FileStockItems(rows);
    }

    /** The levels and totals, once the items are merged. */
    method BuildLevels(targets: seq<Target>, ghost before: StockMerge.StockState, ghost whole: Property)
      requires Sound(whole)
      requires before == StockMerge.StockState(whole.stockItems, whole.movements, whole.takeLines, whole.recipes)
      requires whole.levels == levels && stock.InStep()
      requires StockMerge.Merged(StockSets(stock.byName, before.items),
                                 before.(items := FiledStockTable(stock.byName, before.items)), StockNow())
      requires targets == Targets(stock.byName, before.items)
      modifies this`stockItems, this`levels
      ensures StockDone(whole, Now(), stock.byName)
      ensures RecipesMapped(StockSets(stock.byName, before.items), before.recipes, recipes)
    {
      hide Key, Canonical, StockMerge.Merged, StockKey, DecimalColumns, StockMerge.LinesAfter,
           StockMerge.MovementsAfter, RecipesMapped, LevelsAdded, Targets, StockSets, Totalled, FiledStockTable,
           MergedStock, StockRowsKept, StockMerge.UniqueLines, AscendingIds;
      ghost var merged := StockNow();
      StockMigrated(stock.byName, before, merged);
      MergedItems(stock.byName, before, merged);
      InsertLevels(targets);
      RefreshTotals();
    }

    // ----- the whole migration of one property -----

    function Now(): Property
      reads this, menu, stock
    {
      Property(menu.rows, stock.rows, outletCategories, menuItems, settings, recipes, stockItems, movements, takeLines,
        levels)
    }

    /** What the tables guarantee before any run. */
    ghost predicate Ready()
      reads this, menu, stock
    {
      menu != stock && menu.Valid() && stock.Valid() && Sound(Now())
    }

    /**
     * `migrateProperty`, on a property at any time. It fails exactly where a
     * category that an outlet carries would be deleted, a pair to be carried
     * has no outlet, or a stock take would list an item twice.
     */
    method MigrateProperty() returns (ok: bool)
      requires Ready()
      modifies this, menu, stock
      ensures ListsDeletable(old(Now())) ==> menu.InStep() && stock.InStep()
      ensures ok <==> CanRun(old(Now()))
      ensures ok ==> Ready() && Ran(old(Now()), Now(), menu.byName, stock.byName)
      ensures ok ==> TablesAfter(old(Now()), Now())
      ensures ok ==> MergedFully(MenuPlaces(old(menuItems)), MenuPlaces(menuItems))
      ensures ok ==> MergedFully(StockPlaces(old(stockItems)), StockPlaces(stockItems))
      ensures ListsReady(old(Now())) ==>
        ListsDone(old(Now()), Now(), menu.byName, stock.byName) && MenuDone(old(Now()), Now(), menu.byName)
        && ListsAfter(old(Now()), Now()) && MenuTableAfter(old(Now()), Now())
      ensures ListsReady(old(Now())) ==>
        ActiveKeys(menu.rows) <= stock.byName.Keys && ActiveKeys(stock.rows) <= menu.byName.Keys
      ensures old(Fresh(Now())) ==> ListsReady(old(Now())) && MenuMeansTheSame(old(Now()), Now(), menu.byName)
      ensures old(Fresh(Now())) && ok ==> StockMeansTheSame(old(Now()), Now(), stock.byName)
      ensures !ok ==> levels == old(levels)
    {
      hide Key, NameKey, Merged, CarriedBy, Extends, CarryRows, Select, AllPlaced, AddedRows, MenuNames, StockNames,
           ItemNames, Describes, AscendingIds, IdsBelow, MenuMerge.Merged, MenuSets, StockSets, FiledMenuTable,
           RecipesMapped, RecipesMoved, StockMerge.UniqueLines, LinesMoved, StockPlaces, MenuPlaces, MenuMeansTheSame,
           StockMeansTheSame, MergedFully, StockDone, MenuDone, Keyed, DecimalColumns, ActiveKeys, AllAtOutlets,
           Deletable, CarriedIds, IdsOf, TablesAfter, ListsAfter, MenuTableAfter;
      ghost var before := Now();
      if Fresh(before) {
        FreshIsPlaced(before);
      }
      ok := MigrateCategories();
      if !ok {
        return;
      }
      MigrateMenu();
      ghost var mid, listed := MenuNow(), Now();
      MenuOfStep(before, mid, listed, menu.byName);
      MenuPlacesAfter(before, listed, menu.byName);
      CarriedStaysReferred(before, listed, menu.byName, stock.byName);
      ok := MigrateStock();
      ghost var now := Now();
      MenuOfStep(before, mid, now, menu.byName);
      ListsExactly(before, now, menu.byName, stock.byName);
      MenuTableExactly(before, now, menu.byName);
      DoneListsMirrored(before, now, menu.byName, stock.byName);
      if Fresh(before) {
        MenuMeaning(before, now, menu.byName, stock.byName);
      }
      if ok {
        StockOfStep(before, listed, now, stock.byName);
        RunOfSteps(before, mid, now, menu.byName, stock.byName);
        TablesExactly(before, now, menu.byName, stock.byName);
        SoundAfter(before, now, menu.byName, stock.byName);
        RunMergesFully(before, now, menu.byName, stock.byName);
        if Fresh(before) {
          StockMeaning(before, now, stock.byName);
        }
      }
    }

    /** The property went through k runs since it was fresh. */
    ghost predicate RanSince(first: Property, k: nat)
      reads this, menu, stock
    {
      Ready() && Fresh(first) && RanTimes(first, k, Now())
    }

    /** The run after k successful ones. */
    method MigrateOnceMore(ghost first: Property, ghost k: nat) returns (ok: bool)
      requires RanSince(first, k)
      modifies this, menu, stock
      ensures ok <==> RunSucceeds(first, k + 1)
      ensures ok ==> RanSince(first, k + 1)
      ensures ok ==> Ran(old(Now()), Now(), menu.byName, stock.byName)
      ensures menu.InStep() && stock.InStep()
    {
      hide Ran, TablesAfter, ListsAfter, MenuTableAfter, RanTimes, RunSucceeds, Fresh, MergedFully, ListsDone, MenuDone,
           MenuMeansTheSame, StockMeansTheSame, ListsReady, ListsDeletable, CanRun, Sound, Describes, AscendingIds,
           IdsBelow, ActiveKeys;
      ghost var before := Now();
      AlwaysDeletable(first, k, before);
      CanRunExactly(first, k, before);
      ok := MigrateProperty();
      if ok {
        RanOnceMore(first, k, before, Now(), menu.byName, stock.byName);
      }
    }

    /**
     * The migration run, and run again on what it left: exactly when the
     * second run succeeds, and what it leaves as it was.
     */
    method MigrateTwice() returns (first: bool, second: bool, ghost once: Property)
      requires Ready() && Fresh(Now())
      modifies this, menu, stock
      ensures first <==> RunSucceeds(old(Now()), 1)
      ensures second <==> RunSucceeds(old(Now()), 2)
      ensures second ==> Ran(old(Now()), once, menu.byName, stock.byName) && Ran(once, Now(), menu.byName, stock.byName)
      ensures second ==> SecondRunLeaves(old(Now()), once, Now()) && SecondRunMoves(old(Now()), once, Now())
    {
      hide Ran, RunSucceeds, RanTimes, Fresh, MergedFully, MenuMeansTheSame, StockMeansTheSame, CanRun, ListsReady,
           SecondRunLeaves, SecondRunMoves, Sound, Describes, AscendingIds, IdsBelow;
      ghost var before := Now();
      NoRunYet(before);
      first := MigrateOnceMore(before, 0);
      once, second := Now(), false;
      if !first {
        NoSecondRun(before);
        return;
      }
      ghost var menuBy, stockBy := menu.byName, stock.byName;
      second := MigrateOnceMore(before, 1);
      if second {
        SecondRunAfter(before, once, Now(), menuBy, stockBy, menu.byName, stock.byName);
        SecondRunMovement(before, once, Now(), menuBy, stockBy);
      }
    }
  }
}
