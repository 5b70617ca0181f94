/** The recipe lines after a run, told by the dishes, items and lines before it. */
module RecipeTable {
  import opened Tables
  import opened Names
  import opened MergePlan
  import opened MergeColumns
  import opened CategoryLists
  import opened ItemFiling
  import opened StockTheorems
  import opened CatalogueMeaning
  import opened PropertyRuns
  import opened MenuTable
  import opened StockTable
  import opened SecondRun
  import opened SecondRunRecipes
  import MenuMerge
  import StockMerge

  ghost predicate HasLine(recipes: Recipes, m: Id) {
    exists x: Id :: (m, x) in recipes
  }

  /** m ends up with the recipe of c: the first row merged into m that has one, or its own. */
  ghost predicate CooksAs(before: Property, m: Id, c: Id) {
    || (DishInto(before.menuItems, c, m) && HasLine(before.recipes, c)
        && forall y: Id :: y < c && DishInto(before.menuItems, y, m) ==> !HasLine(before.recipes, y))
    || (c == m && forall y: Id :: DishInto(before.menuItems, y, m) ==> !HasLine(before.recipes, y))
  }

  /** Of the items of c that go into k, x is the first. */
  ghost predicate FirstUse(before: Property, c: Id, x: Id, k: Id) {
    && (c, x) in before.recipes && MovesTo(before.stockItems, x, k)
    && forall y: Id :: y < x && MovesTo(before.stockItems, y, k) ==> (c, y) !in before.recipes
  }

  /**
   * Dish m has exactly the lines of c, each naming the row its item went
   * into, in the quantity of the first of them.
   */
  ghost predicate LinesOf(before: Property, now: Property, m: Id, c: Id) {
    && (forall k: Id :: (m, k) in now.recipes ==>
          exists x: Id :: (c, x) in before.recipes && MovesTo(before.stockItems, x, k))
    && (forall x: Id, k: Id :: (c, x) in before.recipes && MovesTo(before.stockItems, x, k) ==> (m, k) in now.recipes)
    && (forall x: Id, k: Id :: FirstUse(before, c, x, k) ==>
          Lookup(now.recipes, (m, k)) == Some(before.recipes[(c, x)]))
  }

  ghost predicate RecipesAfter(before: Property, now: Property) {
    forall m: Id, c: Id :: CooksAs(before, m, c) ==> LinesOf(before, now, m, c)
  }

  lemma LinesAreRecipe(recipes: Recipes, m: Id)
    ensures HasLine(recipes, m) <==> MenuMerge.HasRecipe(recipes, m)
  {
    if MenuMerge.HasRecipe(recipes, m) {
      var line :| line in recipes.Keys && line.0 == m;
      assert (m, line.1) in recipes;
    }
    if x: Id :| (m, x) in recipes {
      assert (m, x) in recipes.Keys;
    }
  }

  /** The head of a set has the recipe the columns name. */
  lemma CookOfSet(before: Property, byName: map<string, Entry>, m: Id, s: seq<MenuItem>)
    requires IsMenuSet(byName, before.menuItems, m, s) && s != [] && s[0].id == m
    ensures CooksAs(before, m, MenuMerge.Cook(s, before.recipes, m))
  {
    hide Key, DishInto, Canonical, MenuMerge.FirstCook, MenuMerge.HasRecipe, HasLine, Ascending;
    MenuMerge.FirstCookExact(s, before.recipes);
    forall y ensures HasLine(before.recipes, y) <==> MenuMerge.HasRecipe(before.recipes, y) {
      LinesAreRecipe(before.recipes, y);
    }
    if MenuMerge.FirstCook(s, before.recipes).Some? {
      var d := MenuMerge.FirstCook(s, before.recipes).value;
      var i :| 0 <= i < |s| && s[i].id == d && MenuMerge.HasRecipe(before.recipes, d)
        && forall j :: 0 <= j < i ==> !MenuMerge.HasRecipe(before.recipes, s[j].id);
      assert HasId(s, d);
      forall y: Id | y < d && DishInto(before.menuItems, y, m) ensures !HasLine(before.recipes, y) {
        var j := IndexInSet(byName, before.menuItems, m, s, y);
        InOrder(s, j, i);
      }
    } else {
      forall y: Id | DishInto(before.menuItems, y, m) ensures !HasLine(before.recipes, y) {
        var j := IndexInSet(byName, before.menuItems, m, s, y);
        assert s[j] in s;
      }
    }
  }

  lemma CookByColumns(before: Property, now: Property, menuBy: map<string, Entry>, m: Id)
    requires Keyed(before.menuItems) && Describes(menuBy, now.menu)
    ensures CooksAs(before, m, MenuMerge.CookAfter(MenuSets(menuBy, before.menuItems), before.recipes, m))
  {
    hide Key, Describes, MenuSets, DishInto, DishesMerge, MenuMerge.Cook, HasLine, IsMenuSet, Kept, MenuPlaces,
         Ascending;
    var items, sets := before.menuItems, MenuSets(menuBy, before.menuItems);
    if m in items && items[m].cols.status.Active? && DishInto(items, m, m) {
      MenuSetByColumns(menuBy, now.menu, items, m);
      var s := SetOf(sets, m).value;
      SetIsMenuSet(menuBy, items, m, s);
      DishIntoExactly(items, m, m);
      MenuKeptByColumns(menuBy, now.menu, items, m);
      SetNotEmpty(menuBy, items, m, s);
      CookOfSet(before, menuBy, m, s);
    } else {
      forall y: Id ensures !DishInto(items, y, m) {
        if DishInto(items, y, m) {
          MergedIntoIsActive(items, y, m);
          IntoItself(items, y, m);
        }
      }
      NotHead(before, now, menuBy, m);
    }
  }

  lemma SetNotEmpty(byName: map<string, Entry>, items: map<Id, MenuItem>, m: Id, s: seq<MenuItem>)
    requires IsMenuSet(byName, items, m, s)
    ensures s != []
  {
  }

  /** What others are merged into is merged into itself. */
  lemma IntoItself(items: map<Id, MenuItem>, y: Id, m: Id)
    requires DishInto(items, y, m)
    ensures DishInto(items, m, m)
  {
    hide Key, DishInto, Kept, MenuPlaces;
    MergedIntoIsActive(items, y, m);
    DishIntoExactly(items, y, m);
    KeptTwice(MenuPlaces(items), y);
    DishIntoExactly(items, m, m);
  }

  lemma NotHead(before: Property, now: Property, menuBy: map<string, Entry>, m: Id)
    requires Keyed(before.menuItems) && Describes(menuBy, now.menu)
    requires !(m in before.menuItems && before.menuItems[m].cols.status.Active? && DishInto(before.menuItems, m, m))
    ensures MenuMerge.CookAfter(MenuSets(menuBy, before.menuItems), before.recipes, m) == m
  {
    hide Key, Describes, MenuSets, DishInto, Kept, MenuPlaces;
    if m in before.menuItems {
      if before.menuItems[m].cols.status.Active? {
        DishIntoExactly(before.menuItems, m, m);
        MenuKeptByColumns(menuBy, now.menu, before.menuItems, m);
      } else {
        InactiveUnplanned(menuBy, now.menu, before.menuItems, m);
      }
    } else {
      NoMenuSet(menuBy, before.menuItems, m);
    }
  }

  lemma CooksOnce(before: Property, m: Id, c: Id, d: Id)
    requires CooksAs(before, m, c) && CooksAs(before, m, d)
    ensures c == d
  {
    hide DishInto, HasLine;
  }

  // ----- the lines -----

  /** Where a line of dish c for an item of k goes. */
  lemma LineByColumns(before: Property, stockBy: map<string, Entry>, c: Id, k: Id)
    requires Keyed(before.stockItems)
    ensures var line := StockMerge.LineAfter(StockSets(stockBy, before.stockItems), before.recipes, c, k);
      && (line.Some? <==> exists x: Id :: (c, x) in before.recipes && MovesTo(before.stockItems, x, k))
      && forall x: Id :: FirstUse(before, c, x, k) ==> line == Some(before.recipes[(c, x)])
  {
    hide StockSets, MovesTo, Kept, StockPlaces, StockMerge.FirstLine;
    var sets, items := StockSets(stockBy, before.stockItems), before.stockItems;
    forall x: Id ensures MovesTo(items, x, k) <==> KeptId(sets, x) == k {
      MovesToExactly(items, x, k);
      StockKeptByColumns(stockBy, items, x);
    }
    if SetOf(sets, k).Some? {
      var s := SetOf(sets, k).value;
      StockSetFacts(stockBy, items, k);
      StockKeptByColumns(stockBy, items, k);
      SetInOrder(stockBy, items, k);
      if KeptId(sets, k) == k {
        forall y: Id ensures HasId(s, y) <==> MovesTo(items, y, k) {
          StockKeptByColumns(stockBy, items, y);
          if HasId(s, y) {
            var x := MemberWithId(s, y);
          }
        }
        LineOfSet(before, c, k, s);
      } else {
        forall x: Id ensures !MovesTo(items, x, k) {
          StockKeptByColumns(stockBy, items, x);
          KeptTwice(StockPlaces(items), x);
        }
      }
    } else {
      OnlyItself(stockBy, items, k);
    }
  }

  lemma SetInOrder(stockBy: map<string, Entry>, items: map<Id, StockItem>, k: Id)
    requires Keyed(items) && SetOf(StockSets(stockBy, items), k).Some?
    ensures var s := SetOf(StockSets(stockBy, items), k).value;
      Ascending(s) && forall y: Id :: Kept(StockPlaces(items), y) == Kept(StockPlaces(items), k) ==> HasId(s, y)
  {
    hide Key, Canonical, ActiveStock, ArchivedStock, Partition, Sets, Kept, StockPlaces;
    var active, sets := ActiveStock(stockBy, items), StockSets(stockBy, items);
    StockSplit(stockBy, items);
    SetsPartition(active, StockKey);
    var i := SetOfIsASet(sets, k);
    assert MergeSet(sets[i], active);
    forall y: Id | Kept(StockPlaces(items), y) == Kept(StockPlaces(items), k) ensures HasId(sets[i], y) {
      StockKeptByColumns(stockBy, items, y);
      StockKeptByColumns(stockBy, items, k);
      SameKeptId(sets, active, y, k);
      var j := SetOfIsASet(sets, k);
      if y != k {
        var n := SetOfIsASet(sets, y);
      }
    }
  }

  lemma OnlyItself(stockBy: map<string, Entry>, items: map<Id, StockItem>, k: Id)
    requires Keyed(items) && SetOf(StockSets(stockBy, items), k).None?
    ensures forall x: Id :: KeptId(StockSets(stockBy, items), x) == k <==> x == k
  {
    hide Key, Canonical, ActiveStock, ArchivedStock, Partition, Sets;
    var active, sets := ActiveStock(stockBy, items), StockSets(stockBy, items);
    StockSplit(stockBy, items);
    SetsPartition(active, StockKey);
    forall x: Id | KeptId(sets, x) == k ensures x == k {
      SameKeptId(sets, active, x, k);
    }
  }

  lemma LineOfSet(before: Property, c: Id, k: Id, s: seq<StockItem>)
    requires Ascending(s) && forall y: Id :: HasId(s, y) <==> MovesTo(before.stockItems, y, k)
    ensures var line := StockMerge.FirstLine(s, before.recipes, c);
      && (line.Some? <==> exists x: Id :: (c, x) in before.recipes && MovesTo(before.stockItems, x, k))
      && forall x: Id :: FirstUse(before, c, x, k) ==> line == Some(before.recipes[(c, x)])
  {
    hide MovesTo, StockMerge.FirstLine;
    FirstLineExact(s, before.recipes, c);
    if x: Id :| (c, x) in before.recipes && MovesTo(before.stockItems, x, k) {
      var y := MemberWithId(s, x);
    }
    if y :| y in s && (c, y.id) in before.recipes {
      var j :| 0 <= j < |s| && s[j] == y;
      assert HasId(s, y.id);
    }
    forall x: Id | FirstUse(before, c, x, k)
      ensures StockMerge.FirstLine(s, before.recipes, c) == Some(before.recipes[(c, x)])
    {
      var j :| 0 <= j < |s| && s[j].id == x;
      assert s[j] in s;
      var i :| 0 <= i < |s| && Lookup(before.recipes, (c, s[i].id)) == StockMerge.FirstLine(s, before.recipes, c)
        && forall n :: 0 <= n < i ==> (c, s[n].id) !in before.recipes;
      assert HasId(s, s[i].id);
    }
  }

  lemma RecipesExactly(before: Property, now: Property, menuBy: map<string, Entry>, stockBy: map<string, Entry>)
    requires Keyed(before.menuItems) && Keyed(before.stockItems) && Describes(menuBy, now.menu)
    requires RecipesMoved(MenuSets(menuBy, before.menuItems), StockSets(stockBy, before.stockItems),
                          before.recipes, now.recipes)
    ensures RecipesAfter(before, now)
  {
    hide Describes, MenuSets, StockSets, CooksAs, MovesTo, MenuMerge.CookAfter, StockMerge.LineAfter, KeptId;
    forall m: Id, c: Id | CooksAs(before, m, c) ensures LinesOf(before, now, m, c) {
      CookByColumns(before, now, menuBy, m);
      CooksOnce(before, m, c, MenuMerge.CookAfter(MenuSets(menuBy, before.menuItems), before.recipes, m));
      forall k: Id
        ensures Lookup(now.recipes, (m, k)) ==
          StockMerge.LineAfter(StockSets(stockBy, before.stockItems), before.recipes, c, k)
        ensures (m, k) in now.recipes <==> exists x: Id :: (c, x) in before.recipes && MovesTo(before.stockItems, x, k)
        ensures forall x: Id :: FirstUse(before, c, x, k) ==>
          Lookup(now.recipes, (m, k)) == Some(before.recipes[(c, x)])
      {
        LineByColumns(before, stockBy, c, k);
      }
    }
  }
}
