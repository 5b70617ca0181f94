/** When a second run leaves every recipe as it was. */
module SecondRunRecipes {
  import opened Tables
  import opened Names
  import opened MergePlan
  import opened MergeColumns
  import opened Categories
  import opened CategoryLists
  import opened ItemFiling
  import opened StockTheorems
  import opened CatalogueMeaning
  import opened PropertyRuns
  import opened SecondRun
  import MenuMerge
  import StockMerge

  /** An active dish with a recipe. */
  ghost predicate Cooks(p: Property, id: Id) {
    id in p.menuItems && MenuActive(p.menuItems[id]) && MenuMerge.HasRecipe(p.recipes, id)
  }

  /** No kept dish without a recipe takes over another's. */
  ghost predicate CooksSettled(once: Property) {
    forall id :: Cooks(once, id) ==> MenuMerge.HasRecipe(once.recipes, Kept(MenuPlaces(once.menuItems), id))
  }

  /** Nor does a line name a stock item still to be merged away. */
  ghost predicate RecipesSettled(once: Property) {
    (forall line :: line in once.recipes ==> Kept(StockPlaces(once.stockItems), line.1) == line.1) && CooksSettled(once)
  }

  /** Without lines to move, a line stays where it is. */
  lemma LineStaysExactly(once: Property, stockBy: map<string, Entry>, m: Id, k: Id)
    requires Keyed(once.stockItems)
    requires forall line :: line in once.recipes ==> Kept(StockPlaces(once.stockItems), line.1) == line.1
    ensures StockMerge.LineAfter(StockSets(stockBy, once.stockItems), once.recipes, m, k) ==
      Lookup(once.recipes, (m, k))
  {
    hide StockSets, StockPlaces, Kept, StockMerge.FirstLine;
    var sets := StockSets(stockBy, once.stockItems);
    StockKeptByColumns(stockBy, once.stockItems, k);
    if SetOf(sets, k).Some? && KeptId(sets, k) == k {
      var s := SetOf(sets, k).value;
      StockSetFacts(stockBy, once.stockItems, k);
      assert s[0] in s && s[0].id == k;
      FirstLineExact(s, once.recipes, m);
      if StockMerge.FirstLine(s, once.recipes, m).Some? {
        var i :| 0 <= i < |s| && Lookup(once.recipes, (m, s[i].id)) == StockMerge.FirstLine(s, once.recipes, m);
        assert (m, s[i].id) in once.recipes;
        assert s[i] in s;
      }
    }
  }

  /** The set found for an id: its head is the kept row, and every member is merged into it. */
  lemma StockSetFacts(stockBy: map<string, Entry>, items: map<Id, StockItem>, k: Id)
    requires Keyed(items) && SetOf(StockSets(stockBy, items), k).Some?
    ensures var s := SetOf(StockSets(stockBy, items), k).value;
      && s != [] && s[0].id == Kept(StockPlaces(items), k) && HasId(s, k)
      && forall x :: x in s ==> Kept(StockPlaces(items), x.id) == Kept(StockPlaces(items), k)
  {
    hide Key, Canonical, ActiveStock, ArchivedStock, Partition, Sets, Ascending, StockPlaces, Kept;
    var sets := StockSets(stockBy, items);
    StockSplit(stockBy, items);
    SetsPartition(ActiveStock(stockBy, items), StockKey);
    var i := SetOfIsASet(sets, k);
    assert MergeSet(sets[i], ActiveStock(stockBy, items));
    StockKeptByColumns(stockBy, items, k);
    forall x: StockItem | x in sets[i] ensures Kept(StockPlaces(items), x.id) == Kept(StockPlaces(items), k) {
      SetOfMember(sets, ActiveStock(stockBy, items), i, x);
      StockKeptByColumns(stockBy, items, x.id);
    }
  }

  lemma MenuSetFacts(menuBy: map<string, Entry>, once: Property, k: Id)
    requires Keyed(once.menuItems) && Describes(menuBy, once.menu) && SetOf(MenuSets(menuBy, once.menuItems), k).Some?
    ensures var s := SetOf(MenuSets(menuBy, once.menuItems), k).value;
      && s != [] && s[0].id == Kept(MenuPlaces(once.menuItems), k) && HasId(s, k)
      && forall x :: x in s ==>
           Kept(MenuPlaces(once.menuItems), x.id) == Kept(MenuPlaces(once.menuItems), k)
           && x.id in once.menuItems && MenuActive(once.menuItems[x.id])
  {
    hide Key, Canonical, Select, FiledMenu, Partition, Sets, Ascending, MenuPlaces, Kept, Describes;
    var filed, sets := FiledMenu(menuBy, Select(once.menuItems, MenuActive)), MenuSets(menuBy, once.menuItems);
    FiledMenuFacts(menuBy, once.menuItems);
    SetsPartition(filed, MenuKey);
    var i := SetOfIsASet(sets, k);
    assert MergeSet(sets[i], filed);
    MenuKeptByColumns(menuBy, once.menu, once.menuItems, k);
    forall x: MenuItem | x in sets[i]
      ensures Kept(MenuPlaces(once.menuItems), x.id) == Kept(MenuPlaces(once.menuItems), k)
      ensures x.id in once.menuItems && MenuActive(once.menuItems[x.id])
    {
      SetOfMember(sets, filed, i, x);
      MenuKeptByColumns(menuBy, once.menu, once.menuItems, x.id);
    }
  }

  /** A dish keeps its own recipe, or has none either way, exactly when it takes over none. */
  lemma CookStaysExactly(menuBy: map<string, Entry>, once: Property, m: Id)
    requires Keyed(once.menuItems) && Describes(menuBy, once.menu)
    requires CooksSettled(once)
    ensures MenuMerge.CookAfter(MenuSets(menuBy, once.menuItems), once.recipes, m) == m
  {
    hide MenuSets, MenuPlaces, Kept, Describes, MenuMerge.HasRecipe, MenuMerge.FirstCook;
    var sets := MenuSets(menuBy, once.menuItems);
    if SetOf(sets, m).Some? {
      var s := SetOf(sets, m).value;
      MenuSetFacts(menuBy, once, m);
      MenuMerge.FirstCookExact(s, once.recipes);
      if m == s[0].id && MenuMerge.FirstCook(s, once.recipes).Some? {
        var c := MenuMerge.FirstCook(s, once.recipes).value;
        var i :| 0 <= i < |s| && s[i].id == c && MenuMerge.HasRecipe(once.recipes, c)
          && forall j :: 0 <= j < i ==> !MenuMerge.HasRecipe(once.recipes, s[j].id);
        assert s[i] in s;
        assert Cooks(once, c);
      }
    }
  }

  lemma LineMovedAway(once: Property, stockBy: map<string, Entry>, m: Id, k: Id)
    requires Keyed(once.stockItems) && Kept(StockPlaces(once.stockItems), k) != k
    ensures StockMerge.LineAfter(StockSets(stockBy, once.stockItems), once.recipes, m, k).None?
  {
    hide StockSets, StockPlaces, Kept;
    StockKeptByColumns(stockBy, once.stockItems, k);
  }

  /** A kept dish without a recipe takes over that of a dish merged into it. */
  lemma CookMoves(menuBy: map<string, Entry>, once: Property, id: Id) returns (c: Id)
    requires Keyed(once.menuItems) && Describes(menuBy, once.menu)
    requires Cooks(once, id)
    requires !MenuMerge.HasRecipe(once.recipes, Kept(MenuPlaces(once.menuItems), id))
    ensures c == MenuMerge.CookAfter(MenuSets(menuBy, once.menuItems), once.recipes,
                                     Kept(MenuPlaces(once.menuItems), id))
    ensures MenuMerge.HasRecipe(once.recipes, c)
  {
    hide MenuSets, MenuPlaces, Kept, Describes, MenuMerge.HasRecipe, MenuMerge.FirstCook;
    var sets, kept := MenuSets(menuBy, once.menuItems), Kept(MenuPlaces(once.menuItems), id);
    c := MenuMerge.CookAfter(sets, once.recipes, kept);
    MenuKeptByColumns(menuBy, once.menu, once.menuItems, id);
    MenuSetFacts(menuBy, once, id);
    var s := SetOf(sets, id).value;
    HeadsSet(menuBy, once, id);
    MenuMerge.FirstCookExact(s, once.recipes);
    var j :| 0 <= j < |s| && s[j].id == id;
    assert s[j] in s;
  }

  lemma HeadsSet(menuBy: map<string, Entry>, once: Property, id: Id)
    requires Keyed(once.menuItems) && Describes(menuBy, once.menu) && SetOf(MenuSets(menuBy, once.menuItems), id).Some?
    ensures SetOf(MenuSets(menuBy, once.menuItems), Kept(MenuPlaces(once.menuItems), id)) ==
            SetOf(MenuSets(menuBy, once.menuItems), id)
  {
    hide Key, Canonical, Select, FiledMenu, Partition, Sets, Ascending, MenuPlaces, Kept, Describes;
    var filed, sets := FiledMenu(menuBy, Select(once.menuItems, MenuActive)), MenuSets(menuBy, once.menuItems);
    FiledMenuFacts(menuBy, once.menuItems);
    SetsPartition(filed, MenuKey);
    var i := SetOfIsASet(sets, id);
    assert MergeSet(sets[i], filed);
    MenuKeptByColumns(menuBy, once.menu, once.menuItems, id);
    assert sets[i][0] in sets[i];
    SetOfMember(sets, filed, i, sets[i][0]);
  }

  lemma LinesSettledAfter(once: Property, twice: Property, menuBy: map<string, Entry>, stockBy: map<string, Entry>)
    requires Sound(once) && Describes(menuBy, once.menu)
    requires RecipesMoved(MenuSets(menuBy, once.menuItems), StockSets(stockBy, once.stockItems), once.recipes,
      twice.recipes)
    requires twice.recipes == once.recipes
    ensures forall line :: line in once.recipes ==> Kept(StockPlaces(once.stockItems), line.1) == line.1
  {
    hide Describes, MenuSets, StockSets, MenuPlaces, StockPlaces, Kept, KeptId, MenuMerge.CookAfter,
         StockMerge.LineAfter, MenuMerge.HasRecipe, DecimalColumns, StockMerge.UniqueLines, AscendingIds, CooksSettled,
         RecipesMapped;
    forall line | line in once.recipes ensures Kept(StockPlaces(once.stockItems), line.1) == line.1 {
      assert line == (line.0, line.1);
      if Kept(StockPlaces(once.stockItems), line.1) != line.1 {
        var c := MenuMerge.CookAfter(MenuSets(menuBy, once.menuItems), once.recipes, line.0);
        assert Lookup(twice.recipes, (line.0, line.1)) ==
          StockMerge.LineAfter(StockSets(stockBy, once.stockItems), once.recipes, c, line.1);
        LineMovedAway(once, stockBy, c, line.1);
      }
    }
  }

  lemma CooksSettledAfter(once: Property, twice: Property, menuBy: map<string, Entry>, stockBy: map<string, Entry>)
    requires Sound(once) && Describes(menuBy, once.menu)
    requires RecipesMoved(MenuSets(menuBy, once.menuItems), StockSets(stockBy, once.stockItems), once.recipes,
      twice.recipes)
    requires twice.recipes == once.recipes
    requires forall line :: line in once.recipes ==> Kept(StockPlaces(once.stockItems), line.1) == line.1
    ensures CooksSettled(once)
  {
    hide Describes, MenuSets, StockSets, MenuPlaces, StockPlaces, Kept, KeptId, MenuMerge.CookAfter,
         StockMerge.LineAfter, MenuMerge.HasRecipe, DecimalColumns, StockMerge.UniqueLines, AscendingIds, Cooks,
         RecipesMapped;
    forall id | Cooks(once, id) ensures MenuMerge.HasRecipe(once.recipes, Kept(MenuPlaces(once.menuItems), id)) {
      var kept := Kept(MenuPlaces(once.menuItems), id);
      if !MenuMerge.HasRecipe(once.recipes, kept) {
        var c := CookMoves(menuBy, once, id);
        var x := SomeLine(once.recipes, c);
        LineStaysExactly(once, stockBy, c, x);
        assert Lookup(twice.recipes, (kept, x)) ==
          StockMerge.LineAfter(StockSets(stockBy, once.stockItems), once.recipes, c, x);
        LineIsRecipe(once.recipes, kept, x);
      }
    }
  }

  /** The second run leaves the recipes as they are exactly when there is nothing to move in them. */
  lemma RecipesStayExactly(once: Property, twice: Property, menuBy: map<string, Entry>, stockBy: map<string, Entry>)
    requires Sound(once) && Describes(menuBy, once.menu)
    requires RecipesMoved(MenuSets(menuBy, once.menuItems), StockSets(stockBy, once.stockItems), once.recipes,
      twice.recipes)
    ensures twice.recipes == once.recipes <==> RecipesSettled(once)
  {
    hide Describes, MenuSets, StockSets, MenuPlaces, StockPlaces, Kept, KeptId, MenuMerge.CookAfter,
         StockMerge.LineAfter, MenuMerge.HasRecipe, DecimalColumns, StockMerge.UniqueLines, AscendingIds, CooksSettled,
         RecipesMapped;
    if RecipesSettled(once) {
      forall m: Id, k: Id ensures Lookup(twice.recipes, (m, k)) == Lookup(once.recipes, (m, k)) {
        CookStaysExactly(menuBy, once, m);
        LineStaysExactly(once, stockBy, m, k);
      }
      SameTable(twice.recipes, once.recipes);
    }
    if twice.recipes == once.recipes {
      LinesSettledAfter(once, twice, menuBy, stockBy);
      CooksSettledAfter(once, twice, menuBy, stockBy);
    }
  }

  lemma SomeLine(recipes: Recipes, m: Id) returns (x: Id)
    requires MenuMerge.HasRecipe(recipes, m)
    ensures (m, x) in recipes
  {
    var line :| line in recipes.Keys && line.0 == m;
    x := line.1;
  }

  lemma LineIsRecipe(recipes: Recipes, m: Id, x: Id)
    requires (m, x) in recipes
    ensures MenuMerge.HasRecipe(recipes, m)
  {
    assert (m, x) in recipes.Keys;
  }
}
