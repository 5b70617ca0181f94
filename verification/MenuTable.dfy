/** The menu tables after a run, row by row and column by column, told by the rows before it. */
module MenuTable {
  import opened Tables
  import opened Names
  import opened MergePlan
  import opened MergeColumns
  import opened Categories
  import opened CategoryMerge
  import opened CategoryLists
  import opened ItemFiling
  import opened CatalogueMeaning
  import opened PropertyRuns
  import MenuMerge

  // ----- which dishes become one -----

  /** Two active items of the same name and category, up to case and outer blanks. */
  ghost predicate SameDish(items: map<Id, MenuItem>, x: Id, y: Id) {
    && x in items && y in items && items[x].cols.status.Active? && items[y].cols.status.Active?
    && Key(items[x].cols.name) == Key(items[y].cols.name)
    && Key(items[x].cols.category) == Key(items[y].cols.category)
  }

  ghost function DishesBefore(items: map<Id, MenuItem>, x: Id): set<Id>
    requires x in items
  {
    set z | z in items && z < x && SameDish(items, z, x) && items[z].outlet == items[x].outlet
  }

  /** They merge when each has as many of the same before it at its own outlet. */
  ghost predicate DishesMerge(items: map<Id, MenuItem>, x: Id, y: Id) {
    SameDish(items, x, y) && |DishesBefore(items, x)| == |DishesBefore(items, y)|
  }

  /** x is merged into k: the lowest id it merges with. */
  ghost predicate DishInto(items: map<Id, MenuItem>, x: Id, k: Id) {
    DishesMerge(items, x, k) && forall y :: DishesMerge(items, x, y) ==> k <= y
  }

  lemma DishesTogether(items: map<Id, MenuItem>, x: Id, y: Id)
    ensures Together(MenuPlaces(items), x, y) <==> DishesMerge(items, x, y)
  {
    hide Key;
    var p := MenuPlaces(items);
    if x in p {
      assert Earlier(p, x) == DishesBefore(items, x);
    }
    if y in p {
      assert Earlier(p, y) == DishesBefore(items, y);
    }
  }

  /** The columns name the row every active dish is merged into. */
  lemma DishIntoExactly(items: map<Id, MenuItem>, x: Id, k: Id)
    requires x in items && items[x].cols.status.Active?
    ensures Kept(MenuPlaces(items), x) == k <==> DishInto(items, x, k)
  {
    hide Key, Rank, Together, Kept, DishesMerge;
    var p := MenuPlaces(items);
    KeptFacts(p, x);
    forall y ensures Together(p, x, y) <==> DishesMerge(items, x, y) {
      DishesTogether(items, x, y);
    }
    forall y | Together(p, x, y) ensures Kept(p, x) <= y {
      TogetherIn(p, x, y);
      KeptFacts(p, y);
    }
  }

  // ----- the item table -----

  /** The text becomes the registered spelling of its key, where that is not empty. */
  ghost predicate SpelledBy(rows: seq<Category>, was: string, now: string) {
    && (forall c :: c in rows && Key(c.name) == Key(was) ==> now == if c.name != "" then c.name else was)
    && ((forall c :: c in rows ==> Key(c.name) != Key(was)) ==> now == was)
  }

  ghost predicate NoText(text: Option<string>) {
    text == None || text == Some("")
  }

  /** The image of the first row merged into k that has one, or the row's own. */
  ghost predicate TakesImage(items: map<Id, MenuItem>, k: Id, image: Option<string>)
    requires k in items
  {
    || (exists x :: DishInto(items, x, k) && !NoText(items[x].cols.image) && image == items[x].cols.image
          && forall y :: y < x && DishInto(items, y, k) ==> NoText(items[y].cols.image))
    || ((forall y :: DishInto(items, y, k) ==> NoText(items[y].cols.image)) && image == items[k].cols.image)
  }

  /** Likewise the cost price. */
  ghost predicate TakesCost(items: map<Id, MenuItem>, k: Id, cost: Option<string>)
    requires k in items
  {
    || (exists x :: DishInto(items, x, k) && items[x].cols.cost != None && cost == items[x].cols.cost
          && forall y :: y < x && DishInto(items, y, k) ==> items[y].cols.cost == None)
    || ((forall y :: DishInto(items, y, k) ==> items[y].cols.cost == None) && cost == None)
  }

  /** One row of `pos_menu_items` after the run. */
  ghost predicate MenuRowAfter(before: Property, now: Property, id: Id)
    requires id in before.menuItems
  {
    var was := before.menuItems[id].cols;
    && id in now.menuItems && now.menuItems[id].id == id && now.menuItems[id].outlet == before.menuItems[id].outlet
    && var row := now.menuItems[id].cols;
       && (was.status.Archived? ==> row == was)
       && (was.status.Active? ==>
             && row.name == was.name && row.price == was.price
             && row.available == was.available && row.autoOff == was.autoOff
             && SpelledBy(now.menu, was.category, row.category)
             && (DishInto(before.menuItems, id, id) ==>
                   row.status == Active && TakesImage(before.menuItems, id, row.image)
                   && TakesCost(before.menuItems, id, row.cost))
             && (!DishInto(before.menuItems, id, id) ==>
                   row.status == Archived && row.image == was.image && row.cost == was.cost))
  }

  lemma CanonicalSpells(byName: map<string, Entry>, rows: seq<Category>, text: string)
    requires Describes(byName, rows)
    ensures SpelledBy(rows, text, Canonical(byName, text))
  {
    hide Key;
    forall c | c in rows && Key(c.name) == Key(text)
      ensures Canonical(byName, text) == if c.name != "" then c.name else text
    {
      assert NameKey(c) == Key(text);
    }
    if forall c :: c in rows ==> Key(c.name) != Key(text) {
      assert Key(text) !in NameKeys(rows);
    }
  }

  lemma {:induction false} FirstImageExact(s: seq<MenuItem>)
    ensures MenuMerge.FirstImage(s).None? ==> forall x :: x in s ==> NoText(x.cols.image)
    ensures MenuMerge.FirstImage(s).Some? ==> exists i ::
      0 <= i < |s| && !NoText(s[i].cols.image) && MenuMerge.FirstImage(s) == s[i].cols.image
        && forall j :: 0 <= j < i ==> NoText(s[j].cols.image)
  {
    if s != [] {
      var n := |s| - 1;
      var init := s[..n];
      FirstImageExact(init);
      assert forall x :: x in s <==> x in init || x == s[n];
      if MenuMerge.FirstImage(init).Some? {
        var i :| 0 <= i < n && !NoText(init[i].cols.image) && MenuMerge.FirstImage(init) == init[i].cols.image
          && forall j :: 0 <= j < i ==> NoText(init[j].cols.image);
        assert s[i] == init[i] && forall j :: 0 <= j < i ==> s[j] == init[j];
      } else {
        assert forall j :: 0 <= j < n ==> s[j] in init;
      }
    }
  }

  lemma {:induction false} FirstCostExact(s: seq<MenuItem>)
    ensures MenuMerge.FirstCost(s).None? ==> forall x :: x in s ==> x.cols.cost == None
    ensures MenuMerge.FirstCost(s).Some? ==> exists i ::
      0 <= i < |s| && s[i].cols.cost != None && MenuMerge.FirstCost(s) == s[i].cols.cost && forall j :: 0 <= j < i ==>
        s[j].cols.cost == None
  {
    if s != [] {
      var n := |s| - 1;
      var init := s[..n];
      FirstCostExact(init);
      assert forall x :: x in s <==> x in init || x == s[n];
      if MenuMerge.FirstCost(init).Some? {
        var i :| 0 <= i < n && init[i].cols.cost != None && MenuMerge.FirstCost(init) == init[i].cols.cost
          && forall j :: 0 <= j < i ==> init[j].cols.cost == None;
        assert s[i] == init[i] && forall j :: 0 <= j < i ==> s[j] == init[j];
      } else {
        assert forall j :: 0 <= j < n ==> s[j] in init;
      }
    }
  }

  /** The set of an active row: ascending, exactly the rows merged into the same one, filed. */
  lemma MenuSetByColumns(byName: map<string, Entry>, rows: seq<Category>, items: map<Id, MenuItem>, id: Id)
    requires Describes(byName, rows) && Keyed(items) && id in items && items[id].cols.status.Active?
    ensures SetOf(MenuSets(byName, items), id).Some?
    ensures var s := SetOf(MenuSets(byName, items), id).value;
      && Ascending(s)
      && (forall x :: x in s ==> x.id in items && x == RefileMenu(byName, items[x.id]))
      && (forall y :: HasId(s, y) <==> DishesMerge(items, id, y))
  {
    hide Key, Canonical, Select, Describes, Partition, Sets, FiledMenu, DishesMerge, MenuPlaces, Rank, Placed;
    var filed, sets := FiledMenu(byName, Select(items, MenuActive)), MenuSets(byName, items);
    FiledMenuFacts(byName, items);
    SetsPartition(filed, MenuKey);
    MenuPlaced(byName, rows, items);
    var row := RefileMenu(byName, items[id]);
    var i := SetOfRow(sets, filed, row);
    var s := sets[i];
    forall y ensures HasId(s, y) <==> DishesMerge(items, id, y) {
      DishesTogether(items, id, y);
      if HasId(s, y) {
        var x := MemberWithId(s, y);
        SetOfMember(sets, filed, i, x);
        SameSetExactly(MenuPlaces(items), filed, MenuKey, row, x);
      }
      if DishesMerge(items, id, y) {
        DishIsFiled(byName, items, id, y);
        var x := RefileMenu(byName, items[y]);
        SameSetExactly(MenuPlaces(items), filed, MenuKey, row, x);
        var k := SetOfRow(sets, filed, x);
        var j :| 0 <= j < |s| && s[j] == x;
      }
    }
  }

  lemma DishIsFiled(byName: map<string, Entry>, items: map<Id, MenuItem>, id: Id, y: Id)
    requires Keyed(items) && DishesMerge(items, id, y)
    ensures y in items && RefileMenu(byName, items[y]) in FiledMenu(byName, Select(items, MenuActive))
  {
    hide Key, Canonical, Select, FiledMenu;
    FiledMenuFacts(byName, items);
  }

  /** In the set of k, the one merged into k is exactly each member. */
  lemma MembersGoInto(items: map<Id, MenuItem>, k: Id, y: Id)
    requires k in items && items[k].cols.status.Active? && DishInto(items, k, k)
    ensures DishInto(items, y, k) <==> DishesMerge(items, k, y)
  {
    hide Key, DishesMerge, Kept, Together, MenuPlaces;
    DishIntoExactly(items, k, k);
    DishesTogether(items, k, y);
    DishesTogether(items, y, k);
    KeptOfMate(items, k, y);
  }

  lemma KeptOfMate(items: map<Id, MenuItem>, k: Id, y: Id)
    requires k in items && items[k].cols.status.Active? && Kept(MenuPlaces(items), k) == k
    ensures DishInto(items, y, k) <==> Together(MenuPlaces(items), k, y)
  {
    hide Key, DishesMerge, Kept, Rank;
    var p := MenuPlaces(items);
    KeptFacts(p, k);
    DishesTogether(items, y, k);
    if Together(p, k, y) {
      DishIntoExactly(items, y, k);
    }
    if DishInto(items, y, k) {
      MergedIsActive(items, y, k);
      DishIntoExactly(items, y, k);
    }
  }

  lemma MergedIsActive(items: map<Id, MenuItem>, x: Id, y: Id)
    requires DishesMerge(items, x, y)
    ensures x in items && items[x].cols.status.Active? && y in items && items[y].cols.status.Active?
  {
  }

  /** The set merged into k: its rows filed, in id order. */
  ghost predicate IsMenuSet(byName: map<string, Entry>, items: map<Id, MenuItem>, k: Id, s: seq<MenuItem>) {
    && Ascending(s)
    && (forall x :: x in s ==> x.id in items && x == RefileMenu(byName, items[x.id]))
    && (forall y :: HasId(s, y) <==> DishInto(items, y, k))
    && HasId(s, k)
  }

  lemma IndexInSet(
    byName: map<string, Entry>, items: map<Id, MenuItem>, k: Id, s: seq<MenuItem>, y: Id) returns (j: nat)
    requires IsMenuSet(byName, items, k, s) && DishInto(items, y, k)
    ensures j < |s| && s[j].id == y && y in items
    ensures s[j].cols.image == items[y].cols.image && s[j].cols.cost == items[y].cols.cost
  {
    hide Key, DishInto, Canonical, Ascending;
    assert HasId(s, y);
    j :| 0 <= j < |s| && s[j].id == y;
    assert s[j] in s;
  }

  lemma InOrder(s: seq<MenuItem>, j: nat, i: nat)
    requires Ascending(s) && j < |s| && i < |s| && s[j].id < s[i].id
    ensures j < i
  {
  }

  lemma SelfIn(byName: map<string, Entry>, items: map<Id, MenuItem>, k: Id, s: seq<MenuItem>)
    requires IsMenuSet(byName, items, k, s)
    ensures DishInto(items, k, k)
  {
    hide Key, DishInto, Canonical, Ascending;
  }

  lemma ImageFromSet(byName: map<string, Entry>, items: map<Id, MenuItem>, k: Id, s: seq<MenuItem>)
    requires k in items && IsMenuSet(byName, items, k, s)
    ensures TakesImage(items, k, if MenuMerge.FirstImage(s).Some? then MenuMerge.FirstImage(s) else items[k].cols.image)
  {
    hide Key, DishesMerge, DishInto, Canonical, MenuMerge.FirstImage, NoText, Ascending;
    FirstImageExact(s);
    if MenuMerge.FirstImage(s).Some? {
      var i :| 0 <= i < |s| && !NoText(s[i].cols.image) && MenuMerge.FirstImage(s) == s[i].cols.image
        && forall j :: 0 <= j < i ==> NoText(s[j].cols.image);
      var x := s[i].id;
      assert s[i] in s && HasId(s, x);
      forall y | y < x && DishInto(items, y, k) ensures NoText(items[y].cols.image) {
        var j := IndexInSet(byName, items, k, s, y);
        InOrder(s, j, i);
      }
    } else {
      forall y | DishInto(items, y, k) ensures NoText(items[y].cols.image) {
        var j := IndexInSet(byName, items, k, s, y);
        assert s[j] in s;
      }
      SelfIn(byName, items, k, s);
    }
  }

  lemma CostFromSet(byName: map<string, Entry>, items: map<Id, MenuItem>, k: Id, s: seq<MenuItem>)
    requires k in items && IsMenuSet(byName, items, k, s)
    ensures TakesCost(items, k, if MenuMerge.FirstCost(s).Some? then MenuMerge.FirstCost(s) else items[k].cols.cost)
  {
    hide Key, DishesMerge, DishInto, Canonical, MenuMerge.FirstCost, NoText, Ascending;
    FirstCostExact(s);
    if MenuMerge.FirstCost(s).Some? {
      var i :| 0 <= i < |s| && s[i].cols.cost != None && MenuMerge.FirstCost(s) == s[i].cols.cost
        && forall j :: 0 <= j < i ==> s[j].cols.cost == None;
      var x := s[i].id;
      assert s[i] in s && HasId(s, x);
      forall y | y < x && DishInto(items, y, k) ensures items[y].cols.cost == None {
        var j := IndexInSet(byName, items, k, s, y);
        InOrder(s, j, i);
      }
    } else {
      forall y | DishInto(items, y, k) ensures items[y].cols.cost == None {
        var j := IndexInSet(byName, items, k, s, y);
        assert s[j] in s;
      }
      SelfIn(byName, items, k, s);
    }
  }

  lemma SetIsMenuSet(byName: map<string, Entry>, items: map<Id, MenuItem>, k: Id, s: seq<MenuItem>)
    requires k in items && items[k].cols.status.Active? && DishInto(items, k, k)
    requires Ascending(s) && forall x :: x in s ==> x.id in items && x == RefileMenu(byName, items[x.id])
    requires forall y :: HasId(s, y) <==> DishesMerge(items, k, y)
    ensures IsMenuSet(byName, items, k, s)
  {
    hide Key, DishesMerge, DishInto, Canonical, Ascending;
    SelfMerges(items, k);
    forall y ensures DishInto(items, y, k) <==> HasId(s, y) {
      MembersGoInto(items, k, y);
    }
  }

  lemma SelfMerges(items: map<Id, MenuItem>, k: Id)
    requires k in items && items[k].cols.status.Active?
    ensures DishesMerge(items, k, k)
  {
  }

  /** Every row of the table after the run. */
  lemma MenuRowExactly(before: Property, now: Property, menuBy: map<string, Entry>, id: Id)
    requires Keyed(before.menuItems) && Describes(menuBy, now.menu) && MenuDone(before, now, menuBy)
    requires id in before.menuItems
    ensures MenuRowAfter(before, now, id)
  {
    hide Key, Canonical, Describes, MenuSets, SpelledBy, DishInto, DishesMerge, TakesImage, TakesCost, MenuPlaces, Kept,
         IsMenuSet, MenuMerge.FirstImage, MenuMerge.FirstCost, MenuMerge.SettingAfter;
    var sets, row := MenuSets(menuBy, before.menuItems), before.menuItems[id];
    assert now.menuItems[id] == MenuMerge.ItemAfter(sets, FiledMenuTable(menuBy, before.menuItems)[id]);
    if row.cols.status.Active? {
      CanonicalSpells(menuBy, now.menu, row.cols.category);
      MenuSetByColumns(menuBy, now.menu, before.menuItems, id);
      MenuKeptByColumns(menuBy, now.menu, before.menuItems, id);
      DishIntoExactly(before.menuItems, id, id);
      if DishInto(before.menuItems, id, id) {
        var s := SetOf(sets, id).value;
        SetIsMenuSet(menuBy, before.menuItems, id, s);
        ImageFromSet(menuBy, before.menuItems, id, s);
        CostFromSet(menuBy, before.menuItems, id, s);
      }
    } else {
      InactiveUnplanned(menuBy, now.menu, before.menuItems, id);
    }
  }

  // ----- the settings -----

  /** What the outlet of x stores for the row x is merged into: price and switch where they differ, else what it had. */
  ghost predicate SettingAfterMerge(before: Property, now: Property, x: Id, k: Id)
    requires x in before.menuItems && k in before.menuItems
  {
    var row, kept, o := before.menuItems[x].cols, before.menuItems[k].cols, before.menuItems[x].outlet;
    var dearer := x != k && row.price != kept.price;
    if !dearer && row.available then Lookup(now.settings, (o, k)) == Lookup(before.settings, (o, k))
    else
      var had := Lookup(before.settings, (o, k));
      Lookup(now.settings, (o, k)) == Some(MenuMerge.Setting(
        if dearer then Some(row.price) else if had.Some? then had.value.price else None,
        row.available && (had.Some? ==> had.value.available),
        if row.available then had.Some? && had.value.autoOff else row.autoOff))
  }

  /** The settings change only for rows merged at their outlet, and as those rows say. */
  ghost predicate SettingsAfter(before: Property, now: Property) {
    && (forall x: Id, k: Id :: DishInto(before.menuItems, x, k) ==>
          x in before.menuItems && k in before.menuItems && SettingAfterMerge(before, now, x, k))
    && (forall o: Outlet, k: Id :: Lookup(now.settings, (o, k)) != Lookup(before.settings, (o, k)) ==>
          exists x :: DishInto(before.menuItems, x, k) && before.menuItems[x].outlet == o)
  }

  lemma MergedSetting(before: Property, now: Property, menuBy: map<string, Entry>, x: Id, k: Id)
    requires Keyed(before.menuItems) && Describes(menuBy, now.menu) && MenuDone(before, now, menuBy)
    requires DishInto(before.menuItems, x, k)
    ensures x in before.menuItems && k in before.menuItems && SettingAfterMerge(before, now, x, k)
  {
    hide Key, Canonical, Select, Describes, Ascending, FiledMenu, Partition, Sets, MenuMerge.SettingAt,
         MenuMerge.ItemAfter, MenuPlaces, Kept, DishInto, DishesMerge;
    MergedIntoIsActive(before.menuItems, x, k);
    DishIntoExactly(before.menuItems, x, k);
    var filed, sets := FiledMenu(menuBy, Select(before.menuItems, MenuActive)), MenuSets(menuBy, before.menuItems);
    FiledMenuFacts(menuBy, before.menuItems);
    SetsPartition(filed, MenuKey);
    var y := RefileMenu(menuBy, before.menuItems[x]);
    var i := SetOfRow(sets, filed, y);
    var s := sets[i];
    assert s[0] in s && s[0] in filed;
    SetOfMember(sets, filed, i, s[0]);
    MenuKeptByColumns(menuBy, now.menu, before.menuItems, x);
    var j :| 0 <= j < |s| && s[j] == y;
    MenuMerge.SettingOfMember(s[0], s, before.settings, j);
    assert Lookup(now.settings, (y.outlet, k)) == MenuMerge.SettingAfter(sets, before.settings, y.outlet, k);
  }

  lemma MergedIntoIsActive(items: map<Id, MenuItem>, x: Id, k: Id)
    requires DishInto(items, x, k)
    ensures x in items && items[x].cols.status.Active? && k in items && items[k].cols.status.Active?
  {
  }

  lemma SettingsExactly(before: Property, now: Property, menuBy: map<string, Entry>)
    requires Keyed(before.menuItems) && Describes(menuBy, now.menu) && MenuDone(before, now, menuBy)
    ensures SettingsAfter(before, now)
  {
    hide Key, Describes, MenuDone, DishInto, SettingAfterMerge;
    forall x: Id, k: Id | DishInto(before.menuItems, x, k)
      ensures x in before.menuItems && k in before.menuItems && SettingAfterMerge(before, now, x, k)
    {
      MergedSetting(before, now, menuBy, x, k);
    }
    forall o: Outlet, k: Id | Lookup(now.settings, (o, k)) != Lookup(before.settings, (o, k))
      ensures exists x :: DishInto(before.menuItems, x, k) && before.menuItems[x].outlet == o
    {
      var x := ChangedByMember(before, now, menuBy, o, k);
    }
  }

  lemma ChangedByMember(before: Property, now: Property, menuBy: map<string, Entry>, o: Outlet, k: Id) returns (x: Id)
    requires Keyed(before.menuItems) && Describes(menuBy, now.menu) && MenuDone(before, now, menuBy)
    requires Lookup(now.settings, (o, k)) != Lookup(before.settings, (o, k))
    ensures DishInto(before.menuItems, x, k) && x in before.menuItems && before.menuItems[x].outlet == o
  {
    hide Key, Canonical, Select, Describes, Ascending, FiledMenu, Partition, Sets, MenuMerge.SettingAt,
         MenuMerge.ItemAfter, MenuPlaces, Kept, DishInto, DishesMerge;
    var filed, sets := FiledMenu(menuBy, Select(before.menuItems, MenuActive)), MenuSets(menuBy, before.menuItems);
    FiledMenuFacts(menuBy, before.menuItems);
    SetsPartition(filed, MenuKey);
    assert Lookup(now.settings, (o, k)) == MenuMerge.SettingAfter(sets, before.settings, o, k);
    var i := SetOfIsASet(sets, k);
    var s := sets[i];
    assert MergeSet(s, filed);
    MenuMerge.SettingOnlyOfMember(s[0], s, before.settings, o);
    var j :| 0 <= j < |s| && s[j].outlet == o;
    assert s[j] in s && s[j] in filed;
    x := s[j].id;
    SetOfMember(sets, filed, i, s[j]);
    MenuKeptByColumns(menuBy, now.menu, before.menuItems, x);
    DishIntoExactly(before.menuItems, x, k);
  }

  // ----- the whole -----

  ghost predicate MenuTableAfter(before: Property, now: Property) {
    && now.menuItems.Keys == before.menuItems.Keys
    && (forall id :: id in before.menuItems ==> MenuRowAfter(before, now, id))
    && SettingsAfter(before, now)
  }

  lemma MenuTableExactly(before: Property, now: Property, menuBy: map<string, Entry>)
    requires Keyed(before.menuItems) && Describes(menuBy, now.menu) && MenuDone(before, now, menuBy)
    ensures MenuTableAfter(before, now)
  {
    hide Key, Describes, MenuRowAfter, SettingsAfter, MenuSets, MenuMerge.ItemAfter, MenuMerge.SettingAfter;
    forall id | id in before.menuItems ensures MenuRowAfter(before, now, id) {
      MenuRowExactly(before, now, menuBy, id);
    }
    SettingsExactly(before, now, menuBy);
  }
}
