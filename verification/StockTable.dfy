/** The stock tables after a run, row by row and column by column, told by the rows before it. */
module StockTable {
  import opened Tables
  import opened Names
  import opened MergePlan
  import opened MergeColumns
  import opened Categories
  import opened CategoryLists
  import opened ItemFiling
  import opened Quantities
  import opened StockTheorems
  import opened StockLevels
  import opened StockMergeSteps
  import opened CatalogueMeaning
  import opened PropertyRuns
  import opened MenuTable
  import opened SecondRunLevels
  import StockMerge

  // ----- which items become one -----

  /** Two active items of the same name and unit, up to case and outer blanks. */
  ghost predicate SameGood(items: map<Id, StockItem>, x: Id, y: Id) {
    && x in items && y in items && items[x].cols.status.Active? && items[y].cols.status.Active?
    && Key(items[x].cols.name) == Key(items[y].cols.name)
    && Key(items[x].cols.unit) == Key(items[y].cols.unit)
  }

  ghost function GoodsBefore(items: map<Id, StockItem>, x: Id): set<Id>
    requires x in items
  {
    set z | z in items && z < x && SameGood(items, z, x) && items[z].outlet == items[x].outlet
  }

  /** They merge when each has as many of the same before it at its own outlet. */
  ghost predicate GoodsMerge(items: map<Id, StockItem>, x: Id, y: Id) {
    SameGood(items, x, y) && |GoodsBefore(items, x)| == |GoodsBefore(items, y)|
  }

  /** x is merged into k: the lowest id it merges with. */
  ghost predicate GoodInto(items: map<Id, StockItem>, x: Id, k: Id) {
    GoodsMerge(items, x, k) && forall y :: GoodsMerge(items, x, y) ==> k <= y
  }

  /** Where references to x point afterwards: to the row it is merged into, or still to x if it is not active. */
  ghost predicate MovesTo(items: map<Id, StockItem>, x: Id, k: Id) {
    if x in items && items[x].cols.status.Active? then GoodInto(items, x, k) else k == x
  }

  lemma GoodsTogether(items: map<Id, StockItem>, x: Id, y: Id)
    ensures Together(StockPlaces(items), x, y) <==> GoodsMerge(items, x, y)
  {
    hide Key;
    var p := StockPlaces(items);
    if x in p {
      assert Earlier(p, x) == GoodsBefore(items, x);
    }
    if y in p {
      assert Earlier(p, y) == GoodsBefore(items, y);
    }
  }

  /** The columns name the row every reference moves to. */
  lemma MovesToExactly(items: map<Id, StockItem>, x: Id, k: Id)
    ensures Kept(StockPlaces(items), x) == k <==> MovesTo(items, x, k)
  {
    hide Key, Rank, Together, Kept, GoodsMerge;
    var p := StockPlaces(items);
    if x in items && items[x].cols.status.Active? {
      KeptFacts(p, x);
      forall y ensures Together(p, x, y) <==> GoodsMerge(items, x, y) {
        GoodsTogether(items, x, y);
      }
      forall y | Together(p, x, y) ensures Kept(p, x) <= y {
        TogetherIn(p, x, y);
        KeptFacts(p, y);
      }
    } else {
      KeptOutside(p, x);
    }
  }

  lemma KeptOutside<K>(p: Places<K>, x: Id)
    requires x !in p
    ensures Kept(p, x) == x
  {
  }

  // ----- the item table -----

  /** A category text as filed under the registered spelling. */
  ghost predicate FiledBy(rows: seq<Category>, was: Option<string>, now: Option<string>) {
    if NoText(was) then now == was else now.Some? && SpelledBy(rows, was.value, now.value)
  }

  /** The category of the first row merged into k that has one, as filed. */
  ghost predicate TakesCategory(rows: seq<Category>, items: map<Id, StockItem>, k: Id, category: Option<string>)
    requires k in items
  {
    || (exists x :: GoodInto(items, x, k) && !NoText(items[x].cols.category)
          && FiledBy(rows, items[x].cols.category, category)
          && forall y :: y < x && GoodInto(items, y, k) ==> NoText(items[y].cols.category))
    || ((forall y :: GoodInto(items, y, k) ==> NoText(items[y].cols.category)) && category == items[k].cols.category)
  }

  /** What the movements of every row merged into k add up to. */
  ghost function TotalInto(items: map<Id, StockItem>, movements: seq<StockMerge.Movement>, k: Id): int {
    if movements == [] then 0
    else
      var last := movements[|movements| - 1];
      TotalInto(items, movements[..|movements| - 1], k) + if MovesTo(items, last.item, k) then Amount(last.quantity)
        else 0
  }

  /** One row of `stock_items` after the run. */
  ghost predicate StockRowAfter(before: Property, now: Property, id: Id)
    requires id in before.stockItems
  {
    var was := before.stockItems[id].cols;
    && id in now.stockItems && now.stockItems[id].id == id && now.stockItems[id].outlet == before.stockItems[id].outlet
    && var row := now.stockItems[id].cols;
       && row.name == was.name && row.unit == was.unit && row.reorder == was.reorder
       && (was.status.Archived? ==>
             row.status == Archived && row.quantity == was.quantity && FiledBy(now.stock, was.category, row.category))
       && (was.status.Active? && GoodInto(before.stockItems, id, id) ==>
             row.status == Active && TakesCategory(now.stock, before.stockItems, id, row.category)
             && row.quantity == Print(TotalInto(before.stockItems, before.movements, id)))
       && (was.status.Active? && !GoodInto(before.stockItems, id, id) ==>
             row.status == Archived && row.quantity == "0.000" && FiledBy(now.stock, was.category, row.category))
  }

  lemma RefiledBy(byName: map<string, Entry>, rows: seq<Category>, row: StockItem)
    requires Describes(byName, rows)
    ensures FiledBy(rows, row.cols.category, RefileStock(byName, row).cols.category)
    ensures NoText(RefileStock(byName, row).cols.category) <==> NoText(row.cols.category)
  {
    hide Key, SpelledBy;
    if Truthy(row.cols.category) {
      CanonicalSpells(byName, rows, row.cols.category.value);
    }
  }

  lemma {:induction false} FirstCategoryExact(s: seq<StockItem>)
    ensures StockMerge.FirstCategory(s).None? ==> forall x :: x in s ==> NoText(x.cols.category)
    ensures StockMerge.FirstCategory(s).Some? ==> exists i ::
      0 <= i < |s| && !NoText(s[i].cols.category) && StockMerge.FirstCategory(s) == s[i].cols.category
      && forall j :: 0 <= j < i ==> NoText(s[j].cols.category)
  {
    if s != [] {
      var n := |s| - 1;
      var init := s[..n];
      FirstCategoryExact(init);
      assert forall x :: x in s <==> x in init || x == s[n];
      if StockMerge.FirstCategory(init).Some? {
        var i :| 0 <= i < n && !NoText(init[i].cols.category)
          && StockMerge.FirstCategory(init) == init[i].cols.category
          && forall j :: 0 <= j < i ==> NoText(init[j].cols.category);
        assert s[i] == init[i] && forall j :: 0 <= j < i ==> s[j] == init[j];
      } else {
        assert forall j :: 0 <= j < n ==> s[j] in init;
      }
    }
  }

  /** The set merged into k: its rows filed, in id order. */
  ghost predicate IsStockSet(byName: map<string, Entry>, items: map<Id, StockItem>, k: Id, s: seq<StockItem>) {
    && Ascending(s)
    && (forall x :: x in s ==> x.id in items && x == RefileStock(byName, items[x.id]))
    && (forall y :: HasId(s, y) <==> GoodInto(items, y, k))
  }

  lemma SetIsStockSet(byName: map<string, Entry>, items: map<Id, StockItem>, k: Id)
    requires Keyed(items) && k in items && items[k].cols.status.Active? && GoodInto(items, k, k)
    ensures SetOf(StockSets(byName, items), k).Some?
    ensures IsStockSet(byName, items, k, SetOf(StockSets(byName, items), k).value)
  {
    hide Key, Canonical, ActiveStock, ArchivedStock, Partition, Sets, StockPlaces, Kept, GoodInto, Rank;
    var active, sets := ActiveStock(byName, items), StockSets(byName, items);
    StockSplit(byName, items);
    SetsPartition(active, StockKey);
    var row := RefileStock(byName, items[k]);
    var i := SetOfRow(sets, active, row);
    var s := sets[i];
    MovesToExactly(items, k, k);
    StockKeptByColumns(byName, items, k);
    forall y ensures HasId(s, y) <==> GoodInto(items, y, k) {
      if HasId(s, y) {
        var x := MemberWithId(s, y);
        SetOfMember(sets, active, i, x);
        StockKeptByColumns(byName, items, y);
        MovesToExactly(items, y, k);
      }
      if GoodInto(items, y, k) {
        GoodIsActive(items, y, k);
        MovesToExactly(items, y, k);
        StockKeptByColumns(byName, items, y);
        var x := RefileStock(byName, items[y]);
        var j := SetOfRow(sets, active, x);
        assert sets[j][0] in sets[j] && s[0] in s;
        assert sets[j][0].id == k == s[0].id;
        SetOfMember(sets, active, j, sets[j][0]);
        SetOfMember(sets, active, i, s[0]);
        var n :| 0 <= n < |s| && s[n] == x;
      }
    }
  }

  lemma GoodIsActive(items: map<Id, StockItem>, x: Id, k: Id)
    requires GoodInto(items, x, k)
    ensures x in items && items[x].cols.status.Active? && k in items && items[k].cols.status.Active?
  {
  }

  lemma CategoryFromSet(
    byName: map<string, Entry>, rows: seq<Category>, items: map<Id, StockItem>, k: Id, s: seq<StockItem>)
    requires Describes(byName, rows) && Keyed(items) && k in items && IsStockSet(byName, items, k, s)
    requires GoodInto(items, k, k)
    ensures TakesCategory(rows, items, k, StockMerge.FillCategory(RefileStock(byName, items[k]), s).cols.category)
  {
    hide Key, GoodInto, Describes, StockMerge.FirstCategory, NoText, FiledBy, Ascending, RefileStock;
    FirstCategoryExact(s);
    RefiledBy(byName, rows, items[k]);
    RefileKeepsRest(byName, items[k]);
    if StockMerge.FirstCategory(s).Some? {
      var i :| 0 <= i < |s| && !NoText(s[i].cols.category) && StockMerge.FirstCategory(s) == s[i].cols.category
        && forall j :: 0 <= j < i ==> NoText(s[j].cols.category);
      var x := s[i].id;
      assert s[i] in s && HasId(s, x);
      RefiledBy(byName, rows, items[x]);
      forall y | y < x && GoodInto(items, y, k) ensures y in items && NoText(items[y].cols.category) {
        var j := IndexOf(byName, rows, items, k, s, y);
        GoodsInOrder(s, j, i);
      }
    } else {
      forall y | GoodInto(items, y, k) ensures y in items && NoText(items[y].cols.category) {
        var j := IndexOf(byName, rows, items, k, s, y);
        assert s[j] in s;
      }
      NothingToFile(byName, items[k]);
    }
  }

  lemma IndexOf(
    byName: map<string, Entry>, rows: seq<Category>, items: map<Id, StockItem>, k: Id, s: seq<StockItem>, y: Id)
    returns (j: nat)
    requires Describes(byName, rows) && IsStockSet(byName, items, k, s) && GoodInto(items, y, k)
    ensures j < |s| && s[j].id == y && y in items
    ensures NoText(s[j].cols.category) <==> NoText(items[y].cols.category)
  {
    hide Key, GoodInto, Describes, RefileStock, NoText, Ascending;
    assert HasId(s, y);
    j :| 0 <= j < |s| && s[j].id == y;
    assert s[j] in s;
    RefiledBy(byName, rows, items[y]);
  }

  lemma GoodsInOrder(s: seq<StockItem>, j: nat, i: nat)
    requires Ascending(s) && j < |s| && i < |s| && s[j].id < s[i].id
    ensures j < i
  {
  }

  lemma NothingToFile(byName: map<string, Entry>, row: StockItem)
    requires NoText(row.cols.category)
    ensures RefileStock(byName, row) == row
  {
  }

  lemma RefileKeepsRest(byName: map<string, Entry>, row: StockItem)
    ensures RefileStock(byName, row) == row.(cols := row.cols.(category := RefileStock(byName, row).cols.category))
  {
  }

  lemma {:induction false} TotalIntoIs(
    items: map<Id, StockItem>, before: seq<StockMerge.Movement>, now: seq<StockMerge.Movement>, k: Id)
    requires |now| == |before|
    requires forall i :: 0 <= i < |before| ==>
      now[i] == before[i].(item := now[i].item) && MovesTo(items, before[i].item, now[i].item)
    ensures ItemSum(now, k) == TotalInto(items, before, k)
  {
    hide Amount, MovesTo;
    if before != [] {
      var n := |before| - 1;
      TotalIntoIs(items, before[..n], now[..n], k);
      MovesOnce(items, before[n].item, now[n].item, k);
    }
  }

  lemma MovesOnce(items: map<Id, StockItem>, x: Id, j: Id, k: Id)
    requires MovesTo(items, x, j)
    ensures MovesTo(items, x, k) <==> j == k
  {
    hide MovesTo, Kept, StockPlaces;
    MovesToExactly(items, x, j);
    MovesToExactly(items, x, k);
  }

  /** Every row of the table after the run. */
  lemma StockRowExactly(before: Property, now: Property, stockBy: map<string, Entry>, id: Id)
    requires Keyed(before.stockItems) && Describes(stockBy, now.stock) && StockDone(before, now, stockBy)
    requires id in before.stockItems
    ensures StockRowAfter(before, now, id)
  {
    hide Key, Canonical, Describes, StockSets, SpelledBy, GoodInto, TakesCategory, FiledBy, StockPlaces, Kept,
         IsStockSet, StockMerge.FirstCategory, LevelsAdded, Print, ItemSum, TotalInto, RefileStock, MovesTo;
    var items := before.stockItems;
    var row := RefileStock(stockBy, items[id]);
    RefiledBy(stockBy, now.stock, items[id]);
    RefileKeepsRest(stockBy, items[id]);
    assert now.stockItems[id] == Totalled(StockMerge.ItemAfter(StockSets(stockBy, items), row), now.movements);
    if items[id].cols.status.Active? {
      StockKeptByColumns(stockBy, items, id);
      MovesToExactly(items, id, id);
      ActiveMovesInto(items, id, id);
      if GoodInto(items, id, id) {
        SetIsStockSet(stockBy, items, id);
        CategoryFromSet(stockBy, now.stock, items, id, SetOf(StockSets(stockBy, items), id).value);
        ReferencesMove(before, now, stockBy);
        TotalIntoIs(items, before.movements, now.movements, id);
      }
    } else {
      ArchivedUnplanned(stockBy, items, id);
    }
  }

  lemma ActiveMovesInto(items: map<Id, StockItem>, x: Id, k: Id)
    requires x in items && items[x].cols.status.Active?
    ensures MovesTo(items, x, k) <==> GoodInto(items, x, k)
  {
  }

  // ----- movements and take lines -----

  /** Every movement and every take line names the row its item went into, and is otherwise as it was. */
  ghost predicate ReferencesAfter(before: Property, now: Property) {
    && |now.movements| == |before.movements| && |now.takeLines| == |before.takeLines|
    && (forall i :: 0 <= i < |before.movements| ==>
          now.movements[i] == before.movements[i].(item := now.movements[i].item)
          && MovesTo(before.stockItems, before.movements[i].item, now.movements[i].item))
    && (forall i :: 0 <= i < |before.takeLines| ==>
          now.takeLines[i] == before.takeLines[i].(item := now.takeLines[i].item)
          && MovesTo(before.stockItems, before.takeLines[i].item, now.takeLines[i].item))
  }

  lemma ReferencesMove(before: Property, now: Property, stockBy: map<string, Entry>)
    requires Keyed(before.stockItems) && StockDone(before, now, stockBy)
    ensures ReferencesAfter(before, now)
  {
    hide StockSets, StockPlaces, Kept, KeptId, MergedStock, Totalled, LevelsAdded, MovesTo;
    forall x ensures MovesTo(before.stockItems, x, KeptId(StockSets(stockBy, before.stockItems), x)) {
      StockKeptByColumns(stockBy, before.stockItems, x);
      MovesToExactly(before.stockItems, x, KeptId(StockSets(stockBy, before.stockItems), x));
    }
  }

  // ----- levels -----

  /** What the movements at an outlet add up to, over every row merged into k. */
  ghost function TotalAt(items: map<Id, StockItem>, movements: seq<StockMerge.Movement>, o: Outlet, k: Id): int {
    if movements == [] then 0
    else
      var last := movements[|movements| - 1];
      TotalAt(items, movements[..|movements| - 1], o, k)
      + if last.outlet == o && MovesTo(items, last.item, k) then Amount(last.quantity) else 0
  }

  /** A row stood, or a movement took place, at the outlet, of an item that went into k. */
  ghost predicate Stocks(before: Property, o: Outlet, k: Id) {
    || (exists x :: x in before.stockItems && before.stockItems[x].outlet == o && MovesTo(before.stockItems, x, k))
    || (exists m :: m in before.movements && m.outlet == o && MovesTo(before.stockItems, m.item, k))
  }

  /** The levels, where there were none: one for each, with its sum and its row's reorder level. */
  ghost predicate LevelsAfter(before: Property, now: Property) {
    && (forall o: Outlet, k: Id :: (o, k) in now.levels <==> Stocks(before, o, k))
    && (forall o: Outlet, k: Id :: (o, k) in now.levels ==>
          now.levels[(o, k)].quantity == Print(TotalAt(before.stockItems, before.movements, o, k)))
    && (forall x: Id, k: Id :: x in before.stockItems && MovesTo(before.stockItems, x, k) ==>
          var key := (before.stockItems[x].outlet, k);
          key in now.levels && now.levels[key].reorder == before.stockItems[x].cols.reorder)
  }

  lemma {:induction false} TotalAtIs(
    items: map<Id, StockItem>, before: seq<StockMerge.Movement>, now: seq<StockMerge.Movement>, o: Outlet, k: Id)
    requires |now| == |before|
    requires forall i :: 0 <= i < |before| ==>
      now[i] == before[i].(item := now[i].item) && MovesTo(items, before[i].item, now[i].item)
    ensures SumOver(now, {(o, k)}) == TotalAt(items, before, o, k)
  {
    hide Amount, MovesTo;
    if before != [] {
      var n := |before| - 1;
      TotalAtIs(items, before[..n], now[..n], o, k);
      MovesOnce(items, before[n].item, now[n].item, k);
    }
  }

  lemma LevelKeysExactly(before: Property, o: Outlet, k: Id)
    ensures (o, k) in FirstLevelKeys(before) <==> Stocks(before, o, k)
  {
    hide StockPlaces, Kept, MovesTo;
    forall x: Id ensures MovesTo(before.stockItems, x, k) <==> Kept(StockPlaces(before.stockItems), x) == k {
      MovesToExactly(before.stockItems, x, k);
    }
  }

  lemma LevelSums(before: Property, now: Property, stockBy: map<string, Entry>)
    requires Keyed(before.stockItems) && before.levels == map[] && StockDone(before, now, stockBy)
    ensures forall o: Outlet, k: Id :: (o, k) in now.levels ==>
      now.levels[(o, k)].quantity == Print(TotalAt(before.stockItems, before.movements, o, k))
  {
    hide StockSets, MovesTo, SumOver, Print, TotalAt, MergedStock, Totalled, Targets, Reordered,
         StockMerge.MovementsAfter, StockMerge.LinesAfter;
    ReferencesMove(before, now, stockBy);
    forall o: Outlet, k: Id
      ensures SumOver(now.movements, {(o, k)}) == TotalAt(before.stockItems, before.movements, o, k)
    {
      TotalAtIs(before.stockItems, before.movements, now.movements, o, k);
    }
  }

  lemma LevelReorders(before: Property, now: Property, stockBy: map<string, Entry>, x: Id, k: Id)
    requires Sound(before) && before.levels == map[] && StockDone(before, now, stockBy)
    requires x in before.stockItems && MovesTo(before.stockItems, x, k)
    ensures var key := (before.stockItems[x].outlet, k);
      key in now.levels && now.levels[key].reorder == before.stockItems[x].cols.reorder
  {
    hide StockSets, StockPlaces, Kept, KeptId, MovesTo, Amount, SumOver, Print, Keyed, DecimalColumns,
         StockMerge.UniqueLines, StockDone, QuantitiesKept, TotalsAreLevels, StockRowsKept, TotalAt;
    StockMeaning(before, now, stockBy);
    MovesToExactly(before.stockItems, x, k);
  }

  lemma LevelsExactly(before: Property, now: Property, stockBy: map<string, Entry>)
    requires Sound(before) && before.levels == map[] && StockDone(before, now, stockBy)
    ensures LevelsAfter(before, now)
  {
    hide StockSets, StockPlaces, Kept, KeptId, MovesTo, Amount, SumOver, Print, Keyed, DecimalColumns,
         StockMerge.UniqueLines, StockDone, QuantitiesKept, TotalsAreLevels, StockRowsKept, TotalAt, Stocks,
         FirstLevelKeys;
    FirstLevelsExactly(before, now, stockBy);
    assert Keyed(before.stockItems);
    LevelSums(before, now, stockBy);
    forall o: Outlet, k: Id ensures (o, k) in now.levels <==> Stocks(before, o, k) {
      LevelKeysExactly(before, o, k);
    }
    forall x: Id, k: Id | x in before.stockItems && MovesTo(before.stockItems, x, k)
      ensures var key := (before.stockItems[x].outlet, k);
        key in now.levels && now.levels[key].reorder == before.stockItems[x].cols.reorder
    {
      LevelReorders(before, now, stockBy, x, k);
    }
  }
}
