/** All tables of a property after a run, told by the columns of the tables before it. */
module PropertyTables {
  import opened Tables
  import opened Names
  import opened Categories
  import opened CategoryMerge
  import opened CategoryLists
  import opened CategoryCarry
  import opened ItemFiling
  import opened StockTheorems
  import opened CatalogueMeaning
  import opened PropertyRuns
  import opened Reruns
  import opened MenuTable
  import opened StockTable
  import opened RecipeTable
  import MenuMerge
  import StockMerge

  /** Of the old rows those are left that their names keep; a new one is active, at no outlet, and new by name. */
  ghost predicate RowsAfter(own: seq<Category>, now: seq<Category>) {
    && (forall c :: c in own ==> (c in now <==> IsKeptRow(own, c)))
    && (forall r :: r in now && r !in own ==>
          r.status == Active && r.outlet == None && forall c :: c in own ==> Key(c.name) != Key(r.name))
    && (forall q, r :: q in now && r in now && Key(q.name) == Key(r.name) ==> q == r)
  }

  /** An active item that names a category. */
  ghost predicate NamesCategory(items: map<Id, MenuItem>, x: Id) {
    x in items && items[x].cols.status == Active && items[x].cols.category != ""
  }

  /** Where a new row comes from: a row the other list keeps, or the category of an active item. */
  ghost predicate ComesFrom(r: Category, others: seq<Category>, items: map<Id, MenuItem>) {
    || (exists c :: IsKeptRow(others, c) && c.status == Active && r.name == c.name && r.sortOrder == c.sortOrder)
    || (exists x :: NamesCategory(items, x) && r.name == Trim(items[x].cols.category) && r.sortOrder == 0)
  }

  ghost predicate NamedOn(c: Category, rows: seq<Category>) {
    exists d :: d in rows && Key(d.name) == Key(c.name)
  }

  ghost predicate ListsAfter(before: Property, now: Property) {
    && RowsAfter(before.menu, now.menu) && RowsAfter(before.stock, now.stock)
    && (forall r :: r in now.menu && r !in before.menu ==> ComesFrom(r, before.stock, before.menuItems))
    && (forall r :: r in now.stock && r !in before.stock ==> ComesFrom(r, before.menu, before.menuItems))
    && (forall c :: c in now.menu && c.status == Active ==> NamedOn(c, now.stock))
    && (forall c :: c in now.stock && c.status == Active ==> NamedOn(c, now.menu))
    && (forall x :: NamesCategory(before.menuItems, x) ==>
          exists c :: c in now.menu && Key(c.name) == Key(before.menuItems[x].cols.category))
  }

  lemma RowOrigin(
    own: seq<Category>, others: seq<Category>, now: seq<Category>, known: set<string>, items: map<Id, MenuItem>,
    r: Category)
    requires AscendingIds(own) && AscendingIds(others) && Keyed(items) && r in now
    requires AddedRows(own, others, now, known, Select(items, MenuActive))
    ensures r in Merged(own)
      || (r !in own && AddedRow(r) && NameKey(r) !in NameKeys(own) && ComesFrom(r, others, items))
  {
    hide Key, NameKey, Merged, Select, AscendingIds, ComesFrom, BearsActiveName, FromItem, NameKeys, AddedRow;
    var i :| 0 <= i < |now| && now[i] == r;
    if i < |Merged(own)| {
      assert now[i] == Merged(own)[i];
    } else {
      NewByName(own, r);
      OriginOf(r, others, items);
    }
  }

  lemma OneListExactly(
    own: seq<Category>, others: seq<Category>, now: seq<Category>, known: set<string>, items: map<Id, MenuItem>)
    requires AscendingIds(own) && AscendingIds(others) && Keyed(items)
    requires AddedRows(own, others, now, known, Select(items, MenuActive)) && UniqueNames(now)
    ensures RowsAfter(own, now)
    ensures forall r :: r in now && r !in own ==> ComesFrom(r, others, items)
  {
    hide Key, Merged, KeptFor, Select, IsKeptRow, AscendingIds, ComesFrom, BearsActiveName, FromItem, NameKeys,
         UniqueNames;
    MergedFacts(own);
    forall c | c in own ensures c in now <==> IsKeptRow(own, c) {
      KeptRowExactly(own, c);
      SurvivesExactly(own, c);
      if c in Merged(own) {
        MergedRowsStay(own, now, c);
      }
      if c in now {
        RowOrigin(own, others, now, known, items, c);
      }
    }
    forall r | r in now && r !in own
      ensures r.status == Active && r.outlet == None && ComesFrom(r, others, items)
      ensures forall c :: c in own ==> Key(c.name) != Key(r.name)
    {
      RowOrigin(own, others, now, known, items, r);
      KeysOfNames(own, r);
    }
    forall q, r | q in now && r in now && Key(q.name) == Key(r.name) ensures q == r {
      OneOfAName(now, q, r);
    }
  }

  lemma NewByName(own: seq<Category>, r: Category)
    requires NameKey(r) !in NameKeys(own)
    ensures r !in own
  {
    hide Key;
  }

  lemma KeysOfNames(own: seq<Category>, r: Category)
    requires NameKey(r) !in NameKeys(own)
    ensures forall c :: c in own ==> Key(c.name) != Key(r.name)
  {
    hide Key;
    forall c | c in own ensures Key(c.name) != Key(r.name) {
      assert NameKey(c) in NameKeys(own);
    }
  }

  lemma OriginOf(r: Category, others: seq<Category>, items: map<Id, MenuItem>)
    requires AscendingIds(others) && Keyed(items)
    requires BearsActiveName(r, Merged(others)) || FromItem(r, Select(items, MenuActive))
    ensures ComesFrom(r, others, items)
  {
    hide Key, Merged, KeptFor, Select, IsKeptRow, AscendingIds, Trim;
    MergedFacts(others);
    SelectFacts(items, MenuActive);
    if BearsActiveName(r, Merged(others)) {
      var c :| c in Merged(others) && c.status.Active? && c.name == r.name && c.sortOrder == r.sortOrder;
      KeptRowExactly(others, c);
      SurvivesExactly(others, c);
    } else {
      var x :| x in Select(items, MenuActive) && x.cols.category != "" && r.name == Trim(x.cols.category);
      assert x.id in items && items[x.id] == x;
    }
  }

  lemma ListsExactly(before: Property, now: Property, menuBy: map<string, Entry>, stockBy: map<string, Entry>)
    requires Sound(before) && ListsDone(before, now, menuBy, stockBy)
    ensures ListsAfter(before, now)
  {
    hide Key, Describes, AddedRows, MenuNames, StockNames, ItemNames, CarryRows, AllPairs, DecimalColumns,
         StockMerge.UniqueLines, RowsAfter, ComesFrom, Select, CarriedIds, IdsOf, AscendingIds, UniqueNames;
    DescribedNames(menuBy, now.menu);
    DescribedNames(stockBy, now.stock);
    var names := MenuNames(before.menu, before.stock);
    OneListExactly(before.menu, before.stock, now.menu, names, before.menuItems);
    OneListExactly(before.stock, before.menu, now.stock, names, before.menuItems);
    DoneListsMirrored(before, now, menuBy, stockBy);
    SelectFacts(before.menuItems, MenuActive);
    forall c | c in now.menu && c.status == Active ensures NamedOn(c, now.stock) {
      assert NameKey(c) in ActiveKeys(now.menu);
    }
    forall c | c in now.stock && c.status == Active ensures NamedOn(c, now.menu) {
      assert NameKey(c) in ActiveKeys(now.stock);
    }
    forall x | NamesCategory(before.menuItems, x)
      ensures exists c :: c in now.menu && Key(c.name) == Key(before.menuItems[x].cols.category)
    {
      assert before.menuItems[x] in ActiveItems(before);
      ItemNamed(ActiveItems(before), before.menuItems[x]);
    }
  }

  ghost predicate StockTableAfter(before: Property, now: Property) {
    && now.stockItems.Keys == before.stockItems.Keys
    && (forall id :: id in before.stockItems ==> StockRowAfter(before, now, id))
    && ReferencesAfter(before, now)
  }

  /** Lists, items, settings, references and recipes; and the levels, where there were none. */
  ghost predicate TablesAfter(before: Property, now: Property) {
    && ListsAfter(before, now) && MenuTableAfter(before, now) && StockTableAfter(before, now)
         && RecipesAfter(before, now)
    && (before.levels == map[] ==> LevelsAfter(before, now))
  }

  lemma StockTableExactly(before: Property, now: Property, stockBy: map<string, Entry>)
    requires Keyed(before.stockItems) && Describes(stockBy, now.stock) && StockDone(before, now, stockBy)
    ensures StockTableAfter(before, now)
  {
    hide Describes, StockRowAfter, ReferencesAfter, StockDone;
    StockPlacesAfter(before, now, stockBy);
    ReferencesMove(before, now, stockBy);
    forall id | id in before.stockItems ensures StockRowAfter(before, now, id) {
      StockRowExactly(before, now, stockBy, id);
    }
  }

  /** A run leaves every table as the columns say. */
  lemma TablesExactly(before: Property, now: Property, menuBy: map<string, Entry>, stockBy: map<string, Entry>)
    requires Sound(before) && Ran(before, now, menuBy, stockBy)
    ensures TablesAfter(before, now)
  {
    hide Describes, AddedRows, MenuNames, StockNames, ItemNames, CarryRows, AllPairs, AscendingIds, MenuDone, StockDone,
         RecipesMoved, MenuSets, StockSets, ListsAfter, MenuTableAfter, StockTableAfter, RecipesAfter, LevelsAfter,
         Keyed, DecimalColumns, StockMerge.UniqueLines, CarriedIds, IdsOf;
    ListsExactly(before, now, menuBy, stockBy);
    MenuTableExactly(before, now, menuBy);
    StockTableExactly(before, now, stockBy);
    RecipesExactly(before, now, menuBy, stockBy);
    if before.levels == map[] {
      LevelsExactly(before, now, stockBy);
    }
  }
}
