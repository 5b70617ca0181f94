/** `menuItemsForOutlet`: the whole menu of an outlet after the first run, told by the property before it. */
module OutletMenus {
  import opened Tables
  import opened Names
  import opened MergePlan
  import opened MergeColumns
  import opened Categories
  import opened CategoryMerge
  import opened CategoryLists
  import opened CategoryCarry
  import opened ItemFiling
  import opened StockTheorems
  import opened CatalogueMeaning
  import opened PropertyRuns
  import opened Reruns
  import opened SecondRun
  import MenuMerge
  import StockMerge

  /** The outlet sells every active item filed under a category it carries. */
  ghost predicate Sells(p: Property, o: Outlet, id: Id) {
    id in p.menuItems && MenuActive(p.menuItems[id]) && CarriesName(p, o, p.menuItems[id].cols.category)
  }

  /** An active row of a list stood at the outlet, and the name kept for it is not empty. */
  ghost predicate RowAt(rows: seq<Category>, o: Outlet, k: string) {
    exists c :: c in rows && c.status.Active? && c.outlet == Some(o) && NameKey(c) == k && KeptFor(rows, c).name != ""
  }

  ghost predicate ItemAt(items: seq<MenuItem>, o: Outlet, k: string) {
    exists x :: x in items && x.outlet == o && x.cols.category != "" && Key(x.cols.category) == k
  }

  /** What made the outlet carry a category: a menu or stock category of that name there, or an item filed under it. */
  ghost predicate CarriedFor(before: Property, o: Outlet, k: string) {
    RowAt(before.menu, o, k) || RowAt(before.stock, o, k) || ItemAt(ActiveItems(before), o, k)
  }

  /** A pair asks for the category of this name at the outlet. */
  ghost predicate PairAt(pairs: seq<Carried>, o: Outlet, k: string) {
    exists p :: p in pairs && p.name != "" && p.outlet == Some(o) && Key(p.name) == k
  }

  lemma PairsOfRows(rows: seq<Category>, o: Outlet, k: string)
    ensures PairAt(CarriedBy(rows), o, k) <==> RowAt(rows, o, k)
  {
    hide Key, CarriedBy, KeptFor;
    if PairAt(CarriedBy(rows), o, k) {
      var p :| p in CarriedBy(rows) && p.name != "" && p.outlet == Some(o) && Key(p.name) == k;
      CarriedExactly(rows, p);
      var c :| c in rows && c.status.Active? && c.outlet == p.outlet && p.name == KeptFor(rows, c).name;
      KeptForFacts(rows, c);
    }
    if RowAt(rows, o, k) {
      var c :| c in rows && c.status.Active? && c.outlet == Some(o) && NameKey(c) == k && KeptFor(rows, c).name != "";
      KeptForFacts(rows, c);
      CarriedExactly(rows, Carried(KeptFor(rows, c).name, Some(o)));
    }
  }

  lemma PairsOfItems(items: seq<MenuItem>, o: Outlet, k: string)
    ensures PairAt(ItemPairs(items), o, k) <==> ItemAt(items, o, k)
  {
    hide Key;
    if PairAt(ItemPairs(items), o, k) {
      var p :| p in ItemPairs(items) && p.name != "" && p.outlet == Some(o) && Key(p.name) == k;
      var i :| 0 <= i < |items| && ItemPairs(items)[i] == p;
      assert items[i] in items;
    }
    if ItemAt(items, o, k) {
      var x :| x in items && x.outlet == o && x.cols.category != "" && Key(x.cols.category) == k;
      var i :| 0 <= i < |items| && items[i] == x;
      assert ItemPairs(items)[i] in ItemPairs(items);
    }
  }

  lemma PairsOfAll(before: Property, o: Outlet, k: string)
    ensures PairAt(AllPairs(before.menu, before.stock, ActiveItems(before)), o, k) <==> CarriedFor(before, o, k)
  {
    hide Key, CarriedBy, ItemPairs, RowAt, ItemAt, ActiveItems;
    PairsOfRows(before.menu, o, k);
    PairsOfRows(before.stock, o, k);
    PairsOfItems(ActiveItems(before), o, k);
    var a, b, c := CarriedBy(before.menu), CarriedBy(before.stock), ItemPairs(ActiveItems(before));
    assert forall p :: p in a + b + c <==> p in a || p in b || p in c;
  }

  /** A row of the carry table is a pair's exactly when the names agree. */
  lemma CarriedRowIsPair(
    pairs: seq<Carried>, byName: map<string, Entry>, rows: seq<Category>, c: Category, o: Outlet)
    requires Describes(byName, rows) && AscendingIds(rows) && c in rows && PairKeys(pairs) <= byName.Keys
    ensures (o, c.id) in CarryRows(pairs, byName) <==> PairAt(pairs, o, NameKey(c))
  {
    hide Key, AscendingIds;
    forall p | p in pairs && p.name != "" ensures IdFor(byName, p.name) == c.id <==> Key(p.name) == NameKey(c) {
      assert Key(p.name) in PairKeys(pairs);
      var d :| d in rows && NameKey(d) == Key(p.name);
      if d.id == c.id {
        SameIdSameCategory(rows, c, d);
      } else if NameKey(d) == NameKey(c) {
        OneOfAName(rows, c, d);
      }
    }
  }

  /** After the first run an outlet carries the category of a name exactly when something there asked for it. */
  lemma CarriesExactly(
    before: Property, now: Property, menuBy: map<string, Entry>, stockBy: map<string, Entry>, o: Outlet, name: string)
    requires Fresh(before) && ListsDone(before, now, menuBy, stockBy)
    ensures CarriesName(now, o, name) <==> CarriedFor(before, o, Key(name))
  {
    hide Key, CarriedBy, ItemPairs, AddedRows, StockNames, ItemNames, AscendingIds, PairKeys, CarryRows, NameKeys,
         AllAtOutlets, DecimalColumns, Keyed, StockMerge.UniqueLines, CarriedFor, PairAt, ActiveKeys, Describes,
         MenuNames, ActiveItems, CarriedIds, IdsOf;
    var pairs := AllPairs(before.menu, before.stock, ActiveItems(before));
    PairsOfProperty(before.menu, before.stock, ActiveItems(before), menuBy);
    PairsOfAll(before, o, Key(name));
    if c :| c in now.menu && NameKey(c) == Key(name) {
      CarriedRowIsPair(pairs, menuBy, now.menu, c, o);
      forall d | d in now.menu && NameKey(d) == Key(name) ensures d == c {
        DescribedNames(menuBy, now.menu);
        OneOfAName(now.menu, c, d);
      }
    } else if PairAt(pairs, o, Key(name)) {
      PairHasRow(pairs, menuBy, now.menu, o, Key(name));
    }
  }

  lemma PairHasRow(pairs: seq<Carried>, byName: map<string, Entry>, rows: seq<Category>, o: Outlet, k: string)
    requires Describes(byName, rows) && PairKeys(pairs) <= byName.Keys && PairAt(pairs, o, k)
    ensures exists c :: c in rows && NameKey(c) == k
  {
    hide Key;
    var p :| p in pairs && p.name != "" && p.outlet == Some(o) && Key(p.name) == k;
    assert Key(p.name) in PairKeys(pairs);
  }

  /** An active item of the outlet merged into the item of this id. */
  ghost predicate MergedFrom(before: Property, o: Outlet, id: Id, m: Id) {
    m in before.menuItems && MenuActive(before.menuItems[m]) && before.menuItems[m].outlet == o
    && Kept(MenuPlaces(before.menuItems), m) == id
  }

  /** A setting is there only for an outlet with an active row merged into its item. */
  lemma SettingFromMember(
    before: Property, now: Property, menuBy: map<string, Entry>, o: Outlet, id: Id) returns (m: Id)
    requires Keyed(before.menuItems) && before.settings == map[] && Describes(menuBy, now.menu)
    requires MenuDone(before, now, menuBy) && (o, id) in now.settings
    ensures MergedFrom(before, o, id, m)
  {
    hide Key, Canonical, Select, Describes, Ascending, FiledMenu, Partition, Sets, MenuMerge.SettingAt,
         MenuMerge.ItemAfter, MenuPlaces, Kept;
    var filed, sets := FiledMenu(menuBy, Select(before.menuItems, MenuActive)), MenuSets(menuBy, before.menuItems);
    FiledMenuFacts(menuBy, before.menuItems);
    SetsPartition(filed, MenuKey);
    assert Lookup(now.settings, (o, id)) == MenuMerge.SettingAfter(sets, map[], o, id);
    var i := SetOfIsASet(sets, id);
    var s := sets[i];
    assert MergeSet(s, filed);
    MenuMerge.SettingOnlyOfMember(s[0], s, map[], o);
    var j :| 0 <= j < |s| && s[j].outlet == o;
    assert s[j] in s && s[j] in filed;
    m := s[j].id;
    SetOfMember(sets, filed, i, s[j]);
    MenuKeptByColumns(menuBy, now.menu, before.menuItems, m);
  }

  lemma KeptRowColumns(before: Property, now: Property, menuBy: map<string, Entry>, id: Id)
    requires Keyed(before.menuItems) && Describes(menuBy, now.menu) && MenuDone(before, now, menuBy)
    requires id in now.menuItems
    ensures id in before.menuItems && now.menuItems[id].cols.price == before.menuItems[id].cols.price
    ensures Key(now.menuItems[id].cols.category) == Key(before.menuItems[id].cols.category)
  {
    hide Key, Canonical, Describes, MenuSets, MenuMerge.FirstImage, MenuMerge.FirstCost, MenuMerge.SettingAfter, KeptId;
    CanonicalKey(menuBy, now.menu, before.menuItems[id].cols.category);
    assert now.menuItems[id] ==
      MenuMerge.ItemAfter(MenuSets(menuBy, before.menuItems), FiledMenuTable(menuBy, before.menuItems)[id]);
  }

  /**
   * The whole menu: an outlet sells exactly the kept items whose category
   * something at the outlet asked for; an item that was merged from a row of
   * the outlet as that row was sold, any other one, newly sold there, at its
   * main price and available.
   */
  lemma OutletMenuExactly(
    before: Property, now: Property, menuBy: map<string, Entry>, stockBy: map<string, Entry>, o: Outlet, id: Id)
    requires Fresh(before) && ListsDone(before, now, menuBy, stockBy) && MenuDone(before, now, menuBy)
    ensures Sells(now, o, id) <==>
      && id in MenuPlaces(before.menuItems) && Survives(MenuPlaces(before.menuItems), id)
      && CarriedFor(before, o, Key(before.menuItems[id].cols.category))
    ensures forall m :: MergedFrom(before, o, id, m) ==>
      var row := before.menuItems[m].cols;
      && id in now.menuItems
      && MenuMerge.AsSold(now.menuItems[id], Lookup(now.settings, (o, id))) ==
         MenuMerge.Sold(row.price, row.available, !row.available && row.autoOff)
      && (row.category != "" ==> Sells(now, o, id))
    ensures Sells(now, o, id) && (forall m :: !MergedFrom(before, o, id, m)) ==>
      MenuMerge.AsSold(now.menuItems[id], Lookup(now.settings, (o, id))) ==
      MenuMerge.Sold(before.menuItems[id].cols.price, true, false)
  {
    hide Key, Describes, AddedRows, MenuNames, StockNames, ItemNames, AscendingIds, CarryRows, AllPairs, MenuDone,
         Survives, DecimalColumns, Keyed, StockMerge.UniqueLines, AllAtOutlets, CarriedFor, CarriesName, Kept,
         CarriedIds, IdsOf, Spelled;
    MenuPlacesAfter(before, now, menuBy);
    assert id in now.menuItems && MenuActive(now.menuItems[id]) <==>
      id in MenuPlaces(before.menuItems) && Survives(MenuPlaces(before.menuItems), id) by {
      assert id in MenuPlaces(now.menuItems) <==> id in Survivors(MenuPlaces(before.menuItems));
    }
    if id in now.menuItems {
      KeptRowColumns(before, now, menuBy, id);
      CarriesExactly(before, now, menuBy, stockBy, o, now.menuItems[id].cols.category);
    }
    MenuMeaning(before, now, menuBy, stockBy);
    forall m | MergedFrom(before, o, id, m)
      ensures var row := before.menuItems[m].cols;
        && id in now.menuItems
        && MenuMerge.AsSold(now.menuItems[id], Lookup(now.settings, (o, id))) ==
           MenuMerge.Sold(row.price, row.available, !row.available && row.autoOff)
        && (row.category != "" ==> Sells(now, o, id))
    {
      CarriedIsName(now, menuBy, o, id);
    }
    if Lookup(now.settings, (o, id)).Some? {
      var m := SettingFromMember(before, now, menuBy, o, id);
    }
  }

  lemma CarriedIsName(p: Property, byName: map<string, Entry>, o: Outlet, id: Id)
    requires Describes(byName, p.menu) && id in p.menuItems
    ensures CarriesItem(p.carried, byName, p.menuItems[id], o) ==> CarriesName(p, o, p.menuItems[id].cols.category)
  {
    hide Key;
    if CarriesItem(p.carried, byName, p.menuItems[id], o) {
      CarriesNameIs(p, byName, o, p.menuItems[id].cols.category);
    }
  }
}
