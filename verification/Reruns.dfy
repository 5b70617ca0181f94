/** When the migration of a property can be run again, told by the property as it was before the first run. */
module Reruns {
  import opened Tables
  import opened Names
  import opened MergePlan
  import opened MergeColumns
  import opened Categories
  import opened CategoryMerge
  import opened CategoryLists
  import opened CategoryCarry
  import opened ItemFiling
  import opened StockTheorems
  import opened CatalogueMeaning
  import opened PropertyRuns
  import MenuMerge
  import StockMerge

  /** The places left once k runs merged their rows. */
  ghost function AfterRuns<K>(p: Places<K>, k: nat): Places<K> {
    if k == 0 then p else Survivors(AfterRuns(p, k - 1))
  }

  ghost function LinesAfterRuns<K>(p: Places<K>, lines: seq<StockMerge.TakeLine>, k: nat): seq<StockMerge.TakeLine> {
    if k == 0 then lines else LinesMoved(AfterRuns(p, k - 1), LinesAfterRuns(p, lines, k - 1))
  }

  /** What the k-th run needs, told by the tables before the first. */
  ghost predicate RunSucceeds(first: Property, k: nat) {
    && (k > 1 ==> NothingToAdd(first.menu, first.stock, ActiveItems(first)))
    && StockMerge.UniqueLines(LinesAfterRuns(StockPlaces(first.stockItems), first.takeLines, k))
  }

  /** Both lists as a successful first run leaves them. */
  ghost predicate ListsSettled(first: Property, now: Property) {
    var active, names := ActiveItems(first), MenuNames(first.menu, first.stock);
    && AscendingIds(now.menu) && AscendingIds(now.stock) && UniqueNames(now.menu) && UniqueNames(now.stock)
    && AddedRows(first.menu, first.stock, now.menu, names, active)
    && AddedRows(first.stock, first.menu, now.stock, names, active)
    && NameKeys(now.menu) == names + ItemNames(active)
    && NameKeys(now.stock) == StockNames(first.menu, first.stock) + (ItemNames(active) - names)
    && ItemNames(ActiveItems(now)) <= NameKeys(now.menu)
  }

  /** The property after k successful runs, as far as the next one depends on it. */
  ghost predicate RanTimes(first: Property, k: nat, now: Property) {
    && Sound(now)
    && StockPlaces(now.stockItems) == AfterRuns(StockPlaces(first.stockItems), k)
    && now.takeLines == LinesAfterRuns(StockPlaces(first.stockItems), first.takeLines, k)
    && if k == 0 then now == first else ListsSettled(first, now)
  }

  /** Before the first run nothing is carried, and after it no name is repeated: no run deletes a carried category. */
  lemma AlwaysDeletable(first: Property, k: nat, now: Property)
    requires Fresh(first) && RanTimes(first, k, now)
    ensures ListsDeletable(now)
  {
    hide IsKeptRow, StockPlaces, LinesMoved, AddedRows, MenuNames, StockNames, ItemNames, NameKeys, ActiveItems,
         StockMerge.UniqueLines, DecimalColumns, Keyed, AscendingIds, AllAtOutlets, UniqueNames;
    if k > 0 {
      UniqueIsDeletable(now.menu, CarriedIds(now.carried));
    }
  }

  /** The k-th run succeeds exactly when the property, before the first one, says so. */
  lemma CanRunExactly(first: Property, k: nat, now: Property)
    requires Fresh(first) && RanTimes(first, k, now)
    ensures CanRun(now) <==> RunSucceeds(first, k + 1)
  {
    hide ListsDeletable, StockPlaces, LinesMoved, AllPlaced, CarriedBy, NothingToAdd, AddedRows, MenuNames, StockNames,
         ItemNames, NameKeys, ActiveItems, StockMerge.UniqueLines, DecimalColumns, Keyed, AscendingIds, AllAtOutlets,
         UniqueNames;
    AlwaysDeletable(first, k, now);
    if k == 0 {
      FreshPlaced(first.menu);
      FreshPlaced(first.stock);
    } else {
      SecondRunExactly(first.menu, first.stock, now.menu, now.stock, ActiveItems(first));
    }
  }

  // ----- the lists do not change again -----

  lemma SameByName(a: map<string, Entry>, b: map<string, Entry>, rows: seq<Category>)
    requires Describes(a, rows) && Describes(b, rows)
    ensures a == b
  {
  }

  /** Where all names are distinct already, merging the list deletes nothing. */
  lemma MergedIsSame(rows: seq<Category>)
    requires AscendingIds(rows) && UniqueNames(rows)
    ensures Merged(rows) == rows
  {
    hide NameKey, KeptFor, Merged;
    forall c | c in rows ensures c in Merged(rows) {
      KeptForFacts(rows, c);
      OneOfAName(rows, c, KeptFor(rows, c));
      SurvivesExactly(rows, c);
    }
    MergedFacts(rows);
    SameMembersSameRows(Merged(rows), rows);
  }

  lemma {:induction false} SameMembersSameRows(a: seq<Category>, b: seq<Category>)
    requires AscendingIds(a) && AscendingIds(b) && forall c :: c in a <==> c in b
    ensures a == b
  {
    assert a != [] ==> a[0] in b;
    assert b != [] ==> b[0] in a;
    if a != [] && b != [] {
      assert a[0] == b[0];
      assert forall c :: c in a <==> c == a[0] || c in a[1..];
      assert forall c :: c in b <==> c == b[0] || c in b[1..];
      assert a[0] !in a[1..] && b[0] !in b[1..];
      SameMembersSameRows(a[1..], b[1..]);
    }
  }

  lemma NothingAdded(
    own: seq<Category>, others: seq<Category>, now: seq<Category>, known: set<string>, active: seq<MenuItem>)
    requires AscendingIds(own) && UniqueNames(own) && AscendingIds(others) && UniqueNames(others)
    requires AddedRows(own, others, now, known, active)
    requires ActiveKeys(others) <= NameKeys(own) && ItemNames(active) <= known
    ensures now == own
  {
    hide Key, NameKey, AddedRow, ItemNames, BearsActiveName, FromItem;
    MergedIsSame(own);
    MergedIsSame(others);
    if |now| > |own| {
      var r := now[|own|];
      if BearsActiveName(r, others) {
        MirrorKnown(r, others);
      } else {
        RegisteredKnown(r, active);
      }
      assert false;
    }
  }

  lemma MirrorKnown(r: Category, others: seq<Category>)
    requires BearsActiveName(r, others)
    ensures NameKey(r) in ActiveKeys(others)
  {
  }

  lemma RegisteredKnown(r: Category, active: seq<MenuItem>)
    requires FromItem(r, active)
    ensures NameKey(r) in ItemNames(active)
  {
    hide Key, ItemNames;
    var x :| x in active && x.cols.category != "" && r.name == Trim(x.cols.category);
    KeyOfTrim(x.cols.category);
    ItemNamed(active, x);
  }

  /** A run on lists that a run left behind leaves them as they are. */
  lemma ListsStay(
    first: Property, before: Property, now: Property, menuBy: map<string, Entry>, stockBy: map<string, Entry>)
    requires AscendingIds(first.menu) && AscendingIds(first.stock)
    requires ListsSettled(first, before) && ListsDone(before, now, menuBy, stockBy)
    ensures now.menu == before.menu && now.stock == before.stock && menuBy.Keys == NameKeys(before.menu)
  {
    hide NameKey, AddedRows, ItemNames, ActiveItems, NameKeys, AscendingIds, UniqueNames, ActiveKeys, Merged, CarryRows,
         AllPairs;
    ListsMirrored(first.menu, first.stock, before.menu, before.stock, ActiveItems(first));
    MergedIsSame(before.menu);
    MergedIsSame(before.stock);
    NothingAdded(before.menu, before.stock, now.menu, MenuNames(before.menu, before.stock), ActiveItems(before));
    NothingAdded(before.stock, before.menu, now.stock, MenuNames(before.menu, before.stock), ActiveItems(before));
    DescribedNames(menuBy, now.menu);
  }

  lemma DescribedNames(byName: map<string, Entry>, rows: seq<Category>)
    requires Describes(byName, rows)
    ensures byName.Keys == NameKeys(rows) && UniqueNames(rows)
  {
  }

  // ----- one more run -----

  lemma ItemNamesKnown(before: Property, now: Property, menuBy: map<string, Entry>)
    requires Keyed(before.menuItems) && Describes(menuBy, now.menu) && MenuDone(before, now, menuBy)
    requires ItemNames(ActiveItems(before)) <= menuBy.Keys
    ensures ItemNames(ActiveItems(now)) <= menuBy.Keys
  {
    hide Key, Canonical, Describes, MenuSets, FiledMenuTable, Select, ItemNames, MenuMerge.FirstImage,
         MenuMerge.FirstCost, MenuMerge.SettingAfter, KeptId;
    MenuPlacesAfter(before, now, menuBy);
    SelectFacts(now.menuItems, MenuActive);
    SelectFacts(before.menuItems, MenuActive);
    forall x | x in ActiveItems(now) && x.cols.category != "" ensures Key(x.cols.category) in menuBy {
      ActiveBefore(before, now, menuBy, x.id);
      var row := before.menuItems[x.id];
      CanonicalKnown(menuBy, now.menu, row.cols.category);
      if row.cols.category != "" {
        ItemNamed(ActiveItems(before), row);
      }
    }
    NamesOfItems(ActiveItems(now), menuBy.Keys);
  }

  lemma NamesOfItems(items: seq<MenuItem>, known: set<string>)
    requires forall x :: x in items && x.cols.category != "" ==> Key(x.cols.category) in known
    ensures ItemNames(items) <= known
  {
  }

  /** An empty text is replaced only by a registered name. */
  lemma CanonicalKnown(byName: map<string, Entry>, rows: seq<Category>, category: string)
    requires Describes(byName, rows)
    ensures Key(Canonical(byName, category)) == Key(category)
    ensures category == "" && Canonical(byName, category) != "" ==> Key(category) in byName
  {
  }

  /** An item active after a run was active before, under the same key, filed. */
  lemma ActiveBefore(before: Property, now: Property, menuBy: map<string, Entry>, id: Id)
    requires Keyed(before.menuItems) && Describes(menuBy, now.menu) && MenuDone(before, now, menuBy)
    requires id in now.menuItems && MenuActive(now.menuItems[id])
    ensures id in before.menuItems && MenuActive(before.menuItems[id])
    ensures now.menuItems[id].cols.category == Canonical(menuBy, before.menuItems[id].cols.category)
  {
  }

  /** Every successful run counts one more. */
  lemma RanOnceMore(
    first: Property, k: nat, before: Property, now: Property, menuBy: map<string, Entry>, stockBy: map<string, Entry>)
    requires Fresh(first) && RanTimes(first, k, before)
    requires CanRun(before) && Ran(before, now, menuBy, stockBy)
    ensures RanTimes(first, k + 1, now)
  {
    hide Keyed, AscendingIds, AddedRows, MenuNames, StockNames, ItemNames, CarryRows, MenuDone, RecipesMoved, StockDone,
         Describes, AllPlaced, CarriedBy, StockPlaces, LinesMoved, Survivors, StockMerge.UniqueLines, DecimalColumns,
         UniqueNames, AllAtOutlets, NameKeys, ActiveItems, CanRun, AllPairs;
    SoundAfter(before, now, menuBy, stockBy);
    StockPlacesAfter(before, now, stockBy);
    DescribedNames(menuBy, now.menu);
    DescribedNames(stockBy, now.stock);
    if k > 0 {
      ListsStay(first, before, now, menuBy, stockBy);
    }
    ItemNamesKnown(before, now, menuBy);
  }

  /** A collision stays, so a run that succeeds would have succeeded before. */
  lemma EarlierRunSucceeds(first: Property, k: nat)
    requires k >= 1 && RunSucceeds(first, k + 1)
    ensures RunSucceeds(first, k)
  {
    hide StockPlaces, NothingToAdd, Kept;
    var p, lines := StockPlaces(first.stockItems), LinesAfterRuns(StockPlaces(first.stockItems), first.takeLines, k);
    var next := LinesMoved(AfterRuns(p, k), lines);
    forall i, j | 0 <= i < j < |lines| ensures lines[i] != lines[j] {
      assert next[i] != next[j];
    }
  }

  lemma NoRunYet(first: Property)
    requires Sound(first)
    ensures RanTimes(first, 0, first)
  {
  }

  lemma NoSecondRun(first: Property)
    requires !RunSucceeds(first, 1)
    ensures !RunSucceeds(first, 2)
  {
    hide RunSucceeds;
    if RunSucceeds(first, 2) {
      EarlierRunSucceeds(first, 1);
    }
  }

  /**
   * Two runs collide exactly when two lines of one take name items that the
   * first run joins, or whose kept rows the second one joins.
   */
  lemma SecondCollisionExactly<K>(p: Places<K>, lines: seq<StockMerge.TakeLine>)
    requires StockMerge.UniqueLines(lines)
    ensures !StockMerge.UniqueLines(LinesAfterRuns(p, lines, 2)) <==> exists i, j ::
      0 <= i < j < |lines| && lines[i].take == lines[j].take
      && (Together(p, lines[i].item, lines[j].item)
          || Together(Survivors(p), Kept(p, lines[i].item), Kept(p, lines[j].item)))
  {
    hide Together, Kept, Survivors;
    var now := LinesAfterRuns(p, lines, 2);
    TwoRuns(p, lines);
    forall i, j | 0 <= i < j < |lines|
      ensures now[i] == now[j] <==>
        lines[i].take == lines[j].take
        && (Together(p, lines[i].item, lines[j].item)
            || Together(Survivors(p), Kept(p, lines[i].item), Kept(p, lines[j].item)))
    {
      SameKeptExactly(p, lines[i].item, lines[j].item);
      SameKeptExactly(Survivors(p), Kept(p, lines[i].item), Kept(p, lines[j].item));
    }
  }

  lemma TwoRuns<K>(p: Places<K>, lines: seq<StockMerge.TakeLine>)
    ensures LinesAfterRuns(p, lines, 2) == LinesMoved(Survivors(p), LinesMoved(p, lines))
  {
    assert AfterRuns(p, 0) == p && AfterRuns(p, 1) == Survivors(p);
    assert LinesAfterRuns(p, lines, 1) == LinesMoved(p, lines);
  }

  // ----- inputs on which the second run fails -----

  ghost function EmptyProperty(): Property {
    Property([], [], {}, map[], map[], map[], map[], [], [], map[])
  }

  lemma {:induction false} NoLinesMoved<K>(p: Places<K>, k: nat)
    ensures LinesAfterRuns(p, [], k) == []
  {
    if k > 0 {
      NoLinesMoved(p, k - 1);
    }
  }

  lemma MirrorMissing(c: Category)
    requires c.status.Active? && c.name != ""
    ensures !NothingToAdd([c], [], [])
  {
    hide Key;
    MergedIsSame([c]);
    assert c in Merged([c]) && NameKey(c) !in NameKeys([]);
  }

  /** One menu category and no stock category: the mirrored row has no outlet when it is carried again. */
  lemma MirroredRowFails(property: Id, o: Outlet, name: string)
    requires name != ""
    ensures var first := EmptyProperty().(menu := [Category(1, property, Some(o), name, 0, Active)]);
      Fresh(first) && RunSucceeds(first, 1) && !RunSucceeds(first, 2)
  {
    hide Key, Merged, CarriedBy, NothingToAdd, LinesAfterRuns, StockPlaces, Select;
    var c := Category(1, property, Some(o), name, 0, Active);
    var first := EmptyProperty().(menu := [c]);
    NoLinesMoved(StockPlaces(first.stockItems), 1);
    NoLinesMoved(StockPlaces(first.stockItems), 2);
    NoItems();
    MirrorMissing(c);
  }

  lemma NoItems()
    ensures Select(map[], MenuActive) == []
  {
  }

  /**
   * After a first run "Drinks" is archived at its outlet, which carries it,
   * and registered again at another: the merge would keep the new row and
   * delete the carried one.
   */
  lemma CarriedRowFails(property: Id, a: Outlet, b: Outlet)
    ensures var p := EmptyProperty().(
        menu := [Category(1, property, Some(a), "Drinks", 0, Archived),
          Category(9, property, Some(b), "Drinks", 0, Active)],
        carried := {(a, 1)});
      Sound(p) && ListsPlaced(p) && !CanRun(p)
  {
    hide Key, CarriedBy, StockPlaces;
    var before, again :=
      Category(1, property, Some(a), "Drinks", 0, Archived), Category(9, property, Some(b), "Drinks", 0, Active);
    var p := EmptyProperty().(menu := [before, again], carried := {(a, 1)});
    assert before in p.menu && again in p.menu;
    assert (a, 1) in p.carried;
    assert !IsKeptRow(p.menu, before);
    FreshPlaced(p.menu);
    FreshPlaced(p.stock);
  }

  lemma NothingMissing()
    ensures NothingToAdd([], [], [])
  {
  }

  ghost function ABB<K>(k: K, a: Outlet, b: Outlet): Places<K> {
    map[1 := Place(k, a), 2 := Place(k, b), 3 := Place(k, b)]
  }

  /** Rows at outlets A, B, B: the first run merges the first two, the second the two kept. */
  lemma MergesABB<K>(k: K, a: Outlet, b: Outlet)
    requires a != b
    ensures var p, q := ABB(k, a, b), map[1 := Place(k, a), 3 := Place(k, b)];
      && Kept(p, 2) == 1 && Kept(p, 3) == 3 && Survivors(p) == q && Kept(q, 1) == 1 && Kept(q, 3) == 1
  {
    var p, q := ABB(k, a, b), map[1 := Place(k, a), 3 := Place(k, b)];
    assert Earlier(p, 1) == {} && Earlier(p, 2) == {} && Earlier(p, 3) == {2};
    assert Mates(p, 1) == {1, 2} && Mates(p, 2) == {1, 2} && Mates(p, 3) == {3};
    assert IsLowest(1, Mates(p, 1)) && IsLowest(3, Mates(p, 3));
    assert Earlier(q, 1) == {} && Earlier(q, 3) == {};
    assert Mates(q, 1) == {1, 3} && Mates(q, 3) == {1, 3};
    assert IsLowest(1, Mates(q, 1));
    HasLowest({1, 2});
    HasLowest({3});
    HasLowest({1, 3});
  }

  lemma LinesABB<K>(k: K, a: Outlet, b: Outlet, take: Id)
    requires a != b
    ensures var lines := [StockMerge.TakeLine(take, 2), StockMerge.TakeLine(take, 3)];
      && StockMerge.UniqueLines(LinesAfterRuns(ABB(k, a, b), lines, 1))
      && !StockMerge.UniqueLines(LinesAfterRuns(ABB(k, a, b), lines, 2))
  {
    hide Kept, Survivors;
    MergesABB(k, a, b);
    var p, lines := ABB(k, a, b), [StockMerge.TakeLine(take, 2), StockMerge.TakeLine(take, 3)];
    assert AfterRuns(p, 0) == p && AfterRuns(p, 1) == Survivors(p);
    assert LinesAfterRuns(p, lines, 0) == lines;
    assert LinesAfterRuns(p, lines, 1) == [StockMerge.TakeLine(take, 1), StockMerge.TakeLine(take, 3)];
    var twice := LinesAfterRuns(p, lines, 2);
    assert twice == [StockMerge.TakeLine(take, 1), StockMerge.TakeLine(take, 1)];
    assert twice[0] == twice[1];
  }

  ghost function Stocked(id: Id, o: Outlet): StockItem {
    Row(id, o, StockMerge.StockCols("Rice", "kg", None, "0.000", "0.000", Active))
  }

  /**
   * Items 1 at outlet A, 2 and 3 at outlet B, and a take at B listing 2 and
   * 3: nothing is missing on the lists and the first run succeeds, but the
   * second merges 3 into 1, which the take lists already.
   */
  lemma SecondMergeFails(a: Outlet, b: Outlet, take: Id)
    requires a != b
    ensures var first := EmptyProperty().(
        stockItems := map[1 := Stocked(1, a), 2 := Stocked(2, b), 3 := Stocked(3, b)],
        takeLines := [StockMerge.TakeLine(take, 2), StockMerge.TakeLine(take, 3)]);
      && Fresh(first) && NothingToAdd(first.menu, first.stock, ActiveItems(first))
      && RunSucceeds(first, 1) && !RunSucceeds(first, 2)
  {
    hide Key, NothingToAdd, LinesAfterRuns, Select;
    var items := map[1 := Stocked(1, a), 2 := Stocked(2, b), 3 := Stocked(3, b)];
    NothingMissing();
    NoItems();
    assert StockPlaces(items) == ABB((Key("Rice"), Key("kg")), a, b);
    LinesABB((Key("Rice"), Key("kg")), a, b, take);
  }

  /** Items at outlets A and B and a take listing both: the first run already fails. */
  lemma FirstMergeFails(a: Outlet, b: Outlet, take: Id)
    requires a != b
    ensures var first := EmptyProperty().(
        stockItems := map[1 := Stocked(1, a), 2 := Stocked(2, b)],
        takeLines := [StockMerge.TakeLine(take, 1), StockMerge.TakeLine(take, 2)]);
      Fresh(first) && !RunSucceeds(first, 1)
  {
    hide Key, NothingToAdd, LinesAfterRuns, LinesMoved, Select;
    var items := map[1 := Stocked(1, a), 2 := Stocked(2, b)];
    var lines := [StockMerge.TakeLine(take, 1), StockMerge.TakeLine(take, 2)];
    var k := (Key("Rice"), Key("kg"));
    assert StockPlaces(items) == map[1 := Place(k, a), 2 := Place(k, b)];
    LinesCanCollide(k, a, b, take);
    OneRun(StockPlaces(items), lines);
  }

  lemma OneRun<K>(p: Places<K>, lines: seq<StockMerge.TakeLine>)
    ensures LinesAfterRuns(p, lines, 1) == LinesMoved(p, lines)
  {
    assert AfterRuns(p, 0) == p && LinesAfterRuns(p, lines, 0) == lines;
  }
}
