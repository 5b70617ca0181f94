/** Which outlets come to carry which categories: the pairs the carry loop works off. */
module CategoryCarry {
  import opened Tables
  import opened Names
  import opened Categories
  import opened CategoryMerge
  import opened CategoryLists
  import MenuMerge

  type MenuItem = MenuMerge.MenuItem

  function PairKeys(pairs: seq<Carried>): set<string> {
    set p | p in pairs && p.name != "" :: Key(p.name)
  }

  function IdFor(byName: map<string, Entry>, name: string): Id {
    if Key(name) in byName then byName[Key(name)].id else 0
  }

  function CarryRows(pairs: seq<Carried>, byName: map<string, Entry>): set<(Outlet, Id)> {
    set p | p in pairs && p.name != "" && p.outlet.Some? :: (p.outlet.value, IdFor(byName, p.name))
  }

  /** The category rows that `pos_outlet_categories` refers to. */
  function CarriedIds(carried: set<(Outlet, Id)>): set<Id> {
    set p | p in carried :: p.1
  }

  predicate AllPlaced(pairs: seq<Carried>) {
    forall p :: p in pairs && p.name != "" ==> p.outlet.Some?
  }

  function ItemPairs(items: seq<MenuItem>): seq<Carried> {
    seq(|items|, i requires 0 <= i < |items| => Carried(items[i].cols.category, Some(items[i].outlet)))
  }

  /** The rows one carry loop adds to the menu list bear the trimmed names of pairs no row had a key for. */
  ghost predicate AddedForPairs(before: seq<Category>, now: seq<Category>, pairs: seq<Carried>, known: set<string>) {
    && Extends(before, now)
    && forall i :: |before| <= i < |now| ==>
         && NameKey(now[i]) !in known && now[i].sortOrder == 0
         && exists p :: p in pairs && p.name != "" && now[i].name == Trim(p.name)
  }

  /** At most one row is added, for a name not known yet, under its trimmed form and at place 0. */
  ghost predicate Registered(before: seq<Category>, now: seq<Category>, name: string, known: bool) {
    || now == before
    || (!known && |now| == |before| + 1 && now[..|before|] == before
        && AddedRow(now[|before|]) && now[|before|].name == Trim(name) && now[|before|].sortOrder == 0)
  }

  lemma NoPairs(rows: seq<Category>, pairs: seq<Carried>, known: set<string>, byName: map<string, Entry>)
    ensures AddedForPairs(rows, rows, pairs, known)
    ensures PairKeys(pairs[..0]) == {} && CarryRows(pairs[..0], byName) == {}
  {
  }

  lemma NextPair(pairs: seq<Carried>, i: nat, byName: map<string, Entry>)
    requires i < |pairs|
    ensures pairs[i].name == "" ==>
      PairKeys(pairs[..i + 1]) == PairKeys(pairs[..i])
        && CarryRows(pairs[..i + 1], byName) == CarryRows(pairs[..i], byName)
    ensures pairs[i].name != "" ==> PairKeys(pairs[..i + 1]) == PairKeys(pairs[..i]) + {Key(pairs[i].name)}
    ensures pairs[i].name != "" && pairs[i].outlet.Some? ==>
      CarryRows(pairs[..i + 1], byName) ==
        CarryRows(pairs[..i], byName) + {(pairs[i].outlet.value, IdFor(byName, pairs[i].name))}
    ensures forall p :: p in pairs[..i + 1] <==> p in pairs[..i] || p == pairs[i]
  {
  }

  lemma AddedMore(
    before: seq<Category>, now: seq<Category>, next: seq<Category>, pairs: seq<Carried>, known: set<string>, i: nat,
    present: bool)
    requires i < |pairs| && pairs[i].name != ""
    requires AddedForPairs(before, now, pairs, known)
    requires Registered(now, next, pairs[i].name, present) && (Key(pairs[i].name) in known ==> present)
    ensures AddedForPairs(before, next, pairs, known)
  {
    hide Key, Trim, AddedRow;
    KeyOfTrim(pairs[i].name);
    if |next| > |now| {
      assert NameKey(next[|now|]) == Key(pairs[i].name);
      assert before <= next;
      forall j | |before| <= j < |next|
        ensures AddedRow(next[j]) && NameKey(next[j]) !in known && next[j].sortOrder == 0
        ensures exists p :: p in pairs && p.name != "" && next[j].name == Trim(p.name)
      {
        if j < |now| {
          assert next[j] == now[j];
        } else {
          assert pairs[i] in pairs;
        }
      }
    }
  }

  lemma SameCarryRows(pairs: seq<Carried>, before: map<string, Entry>, now: map<string, Entry>)
    requires PairKeys(pairs) <= before.Keys && forall k :: k in before ==> k in now && now[k] == before[k]
    ensures CarryRows(pairs, before) == CarryRows(pairs, now)
  {
  }

  // ----- the lists after mirroring and carrying -----

  /** The names of the menu list once the stock list's active ones were added. */
  ghost function MenuNames(menu0: seq<Category>, stock0: seq<Category>): set<string> {
    NameKeys(menu0) + ActiveKeys(Merged(stock0))
  }

  ghost function StockNames(menu0: seq<Category>, stock0: seq<Category>): set<string> {
    NameKeys(stock0) + ActiveKeys(Merged(menu0))
  }

  function ItemNames(active: seq<MenuItem>): set<string> {
    PairKeys(ItemPairs(active))
  }

  ghost function AllPairs(menu0: seq<Category>, stock0: seq<Category>, active: seq<MenuItem>): seq<Carried> {
    CarriedBy(menu0) + CarriedBy(stock0) + ItemPairs(active)
  }

  /** The row registers the category of an active item, trimmed, at place 0. */
  ghost predicate FromItem(r: Category, active: seq<MenuItem>) {
    r.sortOrder == 0 && exists x :: x in active && x.cols.category != "" && r.name == Trim(x.cols.category)
  }

  /**
   * Every row beyond the merged ones is new by name, at no outlet, and
   * mirrors a row or registers an item's category.
   */
  ghost predicate AddedRows(
    own: seq<Category>, others: seq<Category>, now: seq<Category>, known: set<string>, active: seq<MenuItem>)
  {
    && Extends(Merged(own), now)
    && forall i :: |Merged(own)| <= i < |now| ==>
         && NameKey(now[i]) !in NameKeys(own)
         && (BearsActiveName(now[i], Merged(others)) || (NameKey(now[i]) !in known && FromItem(now[i], active)))
  }

  lemma CarriedNamesKnown(rows: seq<Category>)
    requires AscendingIds(rows)
    ensures PairKeys(CarriedBy(rows)) <= ActiveKeys(Merged(rows)) <= NameKeys(rows)
  {
    hide Key, Merged, CarriedBy, KeptFor;
    MergedFacts(rows);
    forall p | p in CarriedBy(rows) ensures Key(p.name) in ActiveKeys(Merged(rows)) {
      CarriedExactly(rows, p);
      var c :| c in rows && c.status.Active? && c.outlet == p.outlet && p.name == KeptFor(rows, c).name;
      KeptForFacts(rows, c);
    }
  }

  lemma PairKeysAppend(a: seq<Carried>, b: seq<Carried>, byName: map<string, Entry>)
    ensures PairKeys(a + b) == PairKeys(a) + PairKeys(b)
    ensures CarryRows(a + b, byName) == CarryRows(a, byName) + CarryRows(b, byName)
    ensures AllPlaced(a + b) <==> AllPlaced(a) && AllPlaced(b)
  {
  }

  /** Which names, rows and failures the pairs of a property bring. */
  lemma PairsOfProperty(menu0: seq<Category>, stock0: seq<Category>, active: seq<MenuItem>, byName: map<string, Entry>)
    requires AscendingIds(menu0) && AscendingIds(stock0)
    ensures var pairs := AllPairs(menu0, stock0, active);
      && MenuNames(menu0, stock0) + PairKeys(pairs) == MenuNames(menu0, stock0) + ItemNames(active)
      && PairKeys(pairs) - MenuNames(menu0, stock0) == ItemNames(active) - MenuNames(menu0, stock0)
      && CarryRows(pairs, byName) == CarryRows(CarriedBy(menu0), byName) + CarryRows(CarriedBy(stock0), byName)
                                     + CarryRows(ItemPairs(active), byName)
      && (AllPlaced(pairs) <==> AllPlaced(CarriedBy(menu0)) && AllPlaced(CarriedBy(stock0)))
  {
    hide Key, CarriedBy, Merged, PairKeys, CarryRows, ActiveKeys;
    CarriedNamesKnown(menu0);
    CarriedNamesKnown(stock0);
    PairKeysAppend(CarriedBy(menu0), CarriedBy(stock0), byName);
    PairKeysAppend(CarriedBy(menu0) + CarriedBy(stock0), ItemPairs(active), byName);
    assert AllPlaced(ItemPairs(active));
  }

  /** Rows added for pairs whose names the lists did not know come from items. */
  lemma AddedInTwoSteps(
    own: seq<Category>, others: seq<Category>, menu0: seq<Category>, stock0: seq<Category>, active: seq<MenuItem>,
    mid: seq<Category>, now: seq<Category>, known: set<string>)
    requires AscendingIds(menu0) && AscendingIds(stock0)
    requires Mirrors(Merged(own), mid, Merged(others), NameKeys(own))
    requires AddedForPairs(mid, now, AllPairs(menu0, stock0, active), known)
    requires MenuNames(menu0, stock0) <= known && NameKeys(own) <= known
    ensures AddedRows(own, others, now, MenuNames(menu0, stock0), active)
  {
    hide Key, NameKey, CarriedBy, Merged, BearsActiveName, Trim, NameKeys, AddedRow, ActiveKeys;
    CarriedNamesKnown(menu0);
    CarriedNamesKnown(stock0);
    forall i | |Merged(own)| <= i < |now|
      ensures AddedRow(now[i]) && NameKey(now[i]) !in NameKeys(own)
      ensures BearsActiveName(now[i], Merged(others))
        || (NameKey(now[i]) !in MenuNames(menu0, stock0) && FromItem(now[i], active))
    {
      if i < |mid| {
        assert now[i] == mid[i];
      } else {
        var p :| p in AllPairs(menu0, stock0, active) && p.name != "" && now[i].name == Trim(p.name);
        KeyOfTrim(p.name);
        assert NameKey(now[i]) == Key(p.name) by { NameKeyOf(now[i]); }
        if j :| 0 <= j < |active| && ItemPairs(active)[j] == p {
          assert active[j] in active;
        }
      }
    }
  }

  lemma NameKeyOf(c: Category)
    ensures NameKey(c) == Key(c.name)
  {
  }

  /** Every active name of one list is on the other. */
  lemma ListsMirrored(
    menu0: seq<Category>, stock0: seq<Category>, menu: seq<Category>, stock: seq<Category>, active: seq<MenuItem>)
    requires AscendingIds(menu0) && AscendingIds(stock0)
    requires AddedRows(menu0, stock0, menu, MenuNames(menu0, stock0), active)
    requires AddedRows(stock0, menu0, stock, MenuNames(menu0, stock0), active)
    requires NameKeys(menu) == MenuNames(menu0, stock0) + ItemNames(active)
    requires NameKeys(stock) == StockNames(menu0, stock0) + (ItemNames(active) - MenuNames(menu0, stock0))
    ensures ActiveKeys(menu) <= NameKeys(stock) && ActiveKeys(stock) <= NameKeys(menu)
  {
    hide Key, NameKey, Merged, FromItem, ItemNames, NameKeys, AddedRow;
    forall c | c in menu && c.status.Active? ensures NameKey(c) in NameKeys(stock) {
      RowNames(menu0, stock0, menu, active, c, stock0, menu0);
    }
    forall c | c in stock && c.status.Active? ensures NameKey(c) in NameKeys(menu) {
      RowNames(stock0, menu0, stock, active, c, stock0, menu0);
    }
  }

  /** An active row of a list is known to the other list, by an old row, a mirrored one, or an item. */
  lemma RowNames(
    own: seq<Category>, others: seq<Category>, now: seq<Category>, active: seq<MenuItem>, c: Category,
    stock0: seq<Category>, menu0: seq<Category>)
    requires AscendingIds(own) && AscendingIds(others) && c in now && c.status.Active?
    requires AddedRows(own, others, now, MenuNames(menu0, stock0), active)
    ensures NameKey(c) in ActiveKeys(Merged(own)) || NameKey(c) in NameKeys(others)
            || (NameKey(c) in ItemNames(active) - MenuNames(menu0, stock0))
  {
    hide Key, Merged, Trim;
    MergedFacts(own);
    MergedFacts(others);
    var i :| 0 <= i < |now| && now[i] == c;
    if i < |Merged(own)| {
      assert c == Merged(own)[i];
    } else if x :|
        x in active && x.cols.category != "" && c.name == Trim(x.cols.category)
        && NameKey(c) !in MenuNames(menu0, stock0) {
      KeyOfTrim(x.cols.category);
      var j :| 0 <= j < |active| && active[j] == x;
      assert ItemPairs(active)[j] in ItemPairs(active);
    }
  }

  /** An outlet with an active row of either list carries the category of that name. */
  lemma RowCarried(rows: seq<Category>, byName: map<string, Entry>, c: Category)
    requires c in rows && c.status.Active? && c.outlet.Some? && KeptFor(rows, c).name != ""
    ensures (c.outlet.value, IdFor(byName, c.name)) in CarryRows(CarriedBy(rows), byName)
  {
    hide Key, CarriedBy, KeptFor;
    var p := Carried(KeptFor(rows, c).name, c.outlet);
    KeptForFacts(rows, c);
    CarriedExactly(rows, p);
    assert p in CarriedBy(rows) && IdFor(byName, p.name) == IdFor(byName, c.name);
  }

  /** Nothing else is carried: there was an active row or an active item of that name at the outlet. */
  lemma CarriedOnlyFor(
    menu0: seq<Category>, stock0: seq<Category>, active: seq<MenuItem>, byName: map<string, Entry>, o: Outlet, id: Id)
    requires (o, id) in CarryRows(AllPairs(menu0, stock0, active), byName)
    ensures (exists c ::
              (c in menu0 || c in stock0) && c.status.Active? && c.outlet == Some(o) && id == IdFor(byName, c.name))
            || (exists x :: x in active && x.outlet == o && id == IdFor(byName, x.cols.category))
  {
    hide Key, CarriedBy, KeptFor;
    var p :| p in AllPairs(menu0, stock0, active) && p.name != "" && p.outlet == Some(o) && IdFor(byName, p.name) == id;
    if p in CarriedBy(menu0) {
      var c := CarriedRow(menu0, byName, p);
    } else if p in CarriedBy(stock0) {
      var c := CarriedRow(stock0, byName, p);
    } else {
      var i :| 0 <= i < |active| && ItemPairs(active)[i] == p;
      assert active[i] in active;
    }
  }

  lemma CarriedRow(rows: seq<Category>, byName: map<string, Entry>, p: Carried) returns (c: Category)
    requires p in CarriedBy(rows)
    ensures c in rows && c.status.Active? && c.outlet == p.outlet && IdFor(byName, c.name) == IdFor(byName, p.name)
  {
    hide Key, CarriedBy, KeptFor;
    CarriedExactly(rows, p);
    c :| c in rows && c.status.Active? && c.outlet == p.outlet && p.name == KeptFor(rows, c).name;
    KeptForFacts(rows, c);
  }

  // ----- a second run -----

  /** Every row has its outlet, as before the migration first ran. */
  ghost predicate AllAtOutlets(rows: seq<Category>) {
    forall c :: c in rows ==> c.outlet.Some?
  }

  /** Nothing with a name is missing on either list: checked on the data before the first run. */
  ghost predicate NothingToAdd(menu0: seq<Category>, stock0: seq<Category>, active: seq<MenuItem>) {
    && (forall c :: c in Merged(menu0) && c.status.Active? && NameKey(c) !in NameKeys(stock0) ==> c.name == "")
    && (forall c :: c in Merged(stock0) && c.status.Active? && NameKey(c) !in NameKeys(menu0) ==> c.name == "")
    && (forall x :: x in active && x.cols.category != "" && Key(x.cols.category) !in MenuNames(menu0, stock0) ==>
          Trim(x.cols.category) == "")
  }

  lemma PlacedExactly(rows: seq<Category>)
    requires AscendingIds(rows) && UniqueNames(rows)
    ensures AllPlaced(CarriedBy(rows)) <==> forall c :: c in rows && c.status.Active? && c.name != "" ==> c.outlet.Some?
  {
    hide NameKey, CarriedBy, KeptFor, AscendingIds;
    forall c | c in rows ensures KeptFor(rows, c) == c {
      KeptForFacts(rows, c);
      OneOfAName(rows, c, KeptFor(rows, c));
    }
    forall p | p in CarriedBy(rows)
      ensures exists c :: c in rows && c.status.Active? && c.outlet == p.outlet && c.name == p.name
    {
      CarriedExactly(rows, p);
    }
    forall c | c in rows && c.status.Active? ensures Carried(c.name, c.outlet) in CarriedBy(rows) {
      CarriedExactly(rows, Carried(c.name, c.outlet));
    }
  }

  lemma OneOfAName(rows: seq<Category>, c: Category, d: Category)
    requires UniqueNames(rows) && c in rows && d in rows && NameKey(c) == NameKey(d)
    ensures c == d
  {
  }

  lemma FreshPlaced(rows: seq<Category>)
    requires AscendingIds(rows) && AllAtOutlets(rows)
    ensures AllPlaced(CarriedBy(rows))
  {
    hide NameKey, CarriedBy, KeptFor, AscendingIds;
    forall p | p in CarriedBy(rows) ensures p.outlet.Some? {
      CarriedExactly(rows, p);
    }
  }

  /** After a first run, the active named rows without an outlet are the ones it added. */
  lemma PlacedAfterRun(
    own: seq<Category>, others: seq<Category>, now: seq<Category>, known: set<string>, active: seq<MenuItem>)
    requires AscendingIds(own) && AllAtOutlets(own) && AscendingIds(now) && UniqueNames(now)
    requires AddedRows(own, others, now, known, active)
    ensures AllPlaced(CarriedBy(now)) <==> forall i :: |Merged(own)| <= i < |now| ==> now[i].name == ""
  {
    hide NameKey, CarriedBy, Merged, BearsActiveName, FromItem, AscendingIds;
    PlacedExactly(now);
    MergedFacts(own);
    assert forall i :: 0 <= i < |now| ==> now[i] in now;
    forall c | c in Merged(own) ensures c.outlet.Some? {}
    assert forall i :: 0 <= i < |Merged(own)| ==> now[i] == Merged(own)[i] && Merged(own)[i] in Merged(own);
  }

  /** The row a first run added for a name. */
  lemma AddedFor(own: seq<Category>, now: seq<Category>, k: string) returns (i: nat)
    requires AscendingIds(own) && Merged(own) <= now && k in NameKeys(now) && k !in NameKeys(own)
    ensures |Merged(own)| <= i < |now| && NameKey(now[i]) == k
  {
    hide NameKey, Merged;
    MergedFacts(own);
    var c :| c in now && NameKey(c) == k;
    i :| i < |now| && now[i] == c;
    assert forall j :: 0 <= j < |Merged(own)| ==> now[j] in Merged(own);
  }

  lemma NamelessMirror(
    own: seq<Category>, others: seq<Category>, now: seq<Category>, known: set<string>, active: seq<MenuItem>,
    c: Category)
    requires AscendingIds(own) && AscendingIds(others) && AddedRows(own, others, now, known, active)
    requires ActiveKeys(Merged(others)) <= NameKeys(now) * known
    requires forall i :: |Merged(own)| <= i < |now| ==> now[i].name == ""
    requires c in Merged(others) && c.status.Active? && NameKey(c) !in NameKeys(own)
    ensures c.name == ""
  {
    hide Key, Merged, FromItem, NameKeys;
    MergedFacts(others);
    assert NameKey(c) in ActiveKeys(Merged(others));
    var i := AddedFor(own, now, NameKey(c));
    var d :| d in Merged(others) && d.status.Active? && d.name == now[i].name;
    OneOfAName(Merged(others), c, d);
  }

  lemma NamelessItem(
    own: seq<Category>, others: seq<Category>, now: seq<Category>, known: set<string>, active: seq<MenuItem>,
    x: MenuItem)
    requires AscendingIds(own) && AddedRows(own, others, now, known, active) && NameKeys(own) <= known
    requires Key(x.cols.category) in NameKeys(now) && Key(x.cols.category) !in known
    requires forall i :: |Merged(own)| <= i < |now| ==> now[i].name == ""
    ensures Trim(x.cols.category) == ""
  {
    var i := AddedFor(own, now, Key(x.cols.category));
    assert |Key(now[i].name)| == 0;
  }

  lemma NamelessAdded(
    own: seq<Category>, others: seq<Category>, now: seq<Category>, known: set<string>, active: seq<MenuItem>)
    requires AddedRows(own, others, now, known, active)
    requires forall c :: c in Merged(others) && c.status.Active? && NameKey(c) !in NameKeys(own) ==> c.name == ""
    requires forall x :: x in active && x.cols.category != "" && Key(x.cols.category) !in known ==>
      Trim(x.cols.category) == ""
    ensures forall i :: |Merged(own)| <= i < |now| ==> now[i].name == ""
  {
    hide Key, Merged, Trim, NameKeys;
    forall i | |Merged(own)| <= i < |now| ensures now[i].name == "" {
      if c :| c in Merged(others) && c.status.Active? && c.name == now[i].name {
        assert NameKey(c) == NameKey(now[i]);
      } else {
        var x :| x in active && x.cols.category != "" && now[i].name == Trim(x.cols.category);
        KeyOfTrim(x.cols.category);
      }
    }
  }

  /**
   * Running steps 1 and 2 of a property a second time puts a null outlet
   * into the carry table unless nothing named had been missing on either list.
   */
  lemma SecondRunExactly(
    menu0: seq<Category>, stock0: seq<Category>, menu: seq<Category>, stock: seq<Category>, active: seq<MenuItem>)
    requires AscendingIds(menu0) && AscendingIds(stock0) && AllAtOutlets(menu0) && AllAtOutlets(stock0)
    requires AscendingIds(menu) && UniqueNames(menu) && AscendingIds(stock) && UniqueNames(stock)
    requires AddedRows(menu0, stock0, menu, MenuNames(menu0, stock0), active)
    requires AddedRows(stock0, menu0, stock, MenuNames(menu0, stock0), active)
    requires NameKeys(menu) == MenuNames(menu0, stock0) + ItemNames(active)
    requires NameKeys(stock) == StockNames(menu0, stock0) + (ItemNames(active) - MenuNames(menu0, stock0))
    ensures AllPlaced(CarriedBy(menu)) && AllPlaced(CarriedBy(stock)) <==> NothingToAdd(menu0, stock0, active)
  {
    hide Key, NameKey, Merged, CarriedBy, FromItem, BearsActiveName, AscendingIds, UniqueNames, AllPlaced, AddedRows,
         NameKeys, Trim;
    var known := MenuNames(menu0, stock0);
    PlacedAfterRun(menu0, stock0, menu, known, active);
    PlacedAfterRun(stock0, menu0, stock, known, active);
    CarriedNamesKnown(menu0);
    CarriedNamesKnown(stock0);
    if AllPlaced(CarriedBy(menu)) && AllPlaced(CarriedBy(stock)) {
      forall c | c in Merged(menu0) && c.status.Active? && NameKey(c) !in NameKeys(stock0) ensures c.name == "" {
        NamelessMirror(stock0, menu0, stock, known, active, c);
      }
      forall c | c in Merged(stock0) && c.status.Active? && NameKey(c) !in NameKeys(menu0) ensures c.name == "" {
        NamelessMirror(menu0, stock0, menu, known, active, c);
      }
      forall x | x in active && x.cols.category != "" && Key(x.cols.category) !in known
        ensures Trim(x.cols.category) == ""
      {
        ItemNamed(active, x);
        NamelessItem(menu0, stock0, menu, known, active, x);
      }
    }
    if NothingToAdd(menu0, stock0, active) {
      NamelessAdded(menu0, stock0, menu, known, active);
      NamelessAdded(stock0, menu0, stock, known, active);
    }
  }

  lemma ItemNamed(active: seq<MenuItem>, x: MenuItem)
    requires x in active && x.cols.category != ""
    ensures Key(x.cols.category) in ItemNames(active)
  {
    var i :| 0 <= i < |active| && active[i] == x;
    assert ItemPairs(active)[i] in ItemPairs(active);
  }
}
