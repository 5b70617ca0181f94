/**
 * What merging the menu items of a property does to the item table, the
 * per-outlet settings and the recipes, and what it keeps: every outlet still
 * sells each of its items at its old price and availability.
 */
module MenuMerge {
  import opened Tables
  import opened OnePerOutlet
  import opened MergePlan

  datatype MenuCols = MenuCols(
    name: string, category: string, price: string, available: bool, autoOff: bool,
    image: Option<string>, cost: Option<string>, status: Status)

  type MenuItem = Row<MenuCols>

  /** A row of `pos_outlet_menu_items`, where an outlet differs from the item's defaults. */
  datatype Setting = Setting(price: Option<string>, available: bool, autoOff: bool)

  type Settings = map<(Outlet, Id), Setting>

  const DEFAULT_SETTING := Setting(None, true, false)

  datatype MenuState = MenuState(
    items: map<Id, MenuItem>, settings: Settings, recipes: Recipes)

  // ----- one member of a set -----

  /** The columns an upsert names; those left out keep their value. */
  datatype Changes = Changes(price: Option<string>, off: Option<bool>)

  function ChangesFor(kept: MenuItem, member: MenuItem): Changes {
    Changes(
      if member.id != kept.id && member.cols.price != kept.cols.price then Some(member.cols.price) else None,
      if !member.cols.available then Some(member.cols.autoOff) else None)
  }

  function Apply(base: Setting, changes: Changes): Setting {
    Setting(
      if changes.price.Some? then changes.price else base.price,
      base.available && changes.off.None?,
      if changes.off.Some? then changes.off.value else base.autoOff)
  }

  function SettingOf(kept: MenuItem, member: MenuItem, base: Option<Setting>): Option<Setting> {
    var changes := ChangesFor(kept, member);
    if changes.price.None? && changes.off.None? then base
    else Some(Apply(if base.Some? then base.value else DEFAULT_SETTING, changes))
  }

  /** The kept item's row at o after these members, each upserting at its own outlet. */
  function SettingAt(kept: MenuItem, members: seq<MenuItem>, before: Settings, o: Outlet): Option<Setting> {
    if members == [] then Lookup(before, (o, kept.id))
    else
      var init, last := members[..|members| - 1], members[|members| - 1];
      if last.outlet == o then SettingOf(kept, last, SettingAt(kept, init, before, o))
        else SettingAt(kept, init, before, o)
  }

  // ----- what the kept item takes over -----

  function FirstImage(s: seq<MenuItem>): Option<string> {
    if s == [] then None
    else
      var before, last := FirstImage(s[..|s| - 1]), s[|s| - 1].cols.image;
      if before.Some? then before else if Truthy(last) then last else None
  }

  function FirstCost(s: seq<MenuItem>): Option<string> {
    if s == [] then None
    else
      var before := FirstCost(s[..|s| - 1]);
      if before.Some? then before else s[|s| - 1].cols.cost
  }

  function Fill(row: MenuItem, s: seq<MenuItem>): MenuItem {
    row.(cols := row.cols.(
      image := if FirstImage(s).Some? then FirstImage(s) else row.cols.image,
      cost := if FirstCost(s).Some? then FirstCost(s) else row.cols.cost))
  }

  function Archive(row: MenuItem): MenuItem {
    row.(cols := row.cols.(status := Archived))
  }

  predicate HasRecipe(recipes: Recipes, m: Id) {
    exists line :: line in recipes.Keys && line.0 == m
  }

  /** The first member, by id, that has a recipe. */
  function FirstCook(s: seq<MenuItem>, recipes: Recipes): Option<Id> {
    if s == [] then None
    else
      var before, last := FirstCook(s[..|s| - 1], recipes), s[|s| - 1].id;
      if before.Some? then before else if HasRecipe(recipes, last) then Some(last) else None
  }

  /** The item whose old recipe m ends up with: for the head of a set, the first member's that has one. */
  function Cook(s: seq<MenuItem>, recipes: Recipes, m: Id): Id {
    if s != [] && m == s[0].id && FirstCook(s, recipes).Some? then FirstCook(s, recipes).value else m
  }

  /** Item m of r lists what item n of q listed. */
  ghost predicate SameRecipe(r: Recipes, m: Id, q: Recipes, n: Id) {
    forall k: Id :: Lookup(r, (m, k)) == Lookup(q, (n, k))
  }

  // ----- one set -----

  /** The setting of k at o once these members' differences from the kept item are stored. */
  function SettingInSet(kept: MenuItem, members: seq<MenuItem>, before: Settings, o: Outlet, k: Id): Option<Setting> {
    if k == kept.id then SettingAt(kept, members, before, o) else Lookup(before, (o, k))
  }

  /** The head has the first recipe there is among the members, everything else its own. */
  ghost predicate Cooked(members: seq<MenuItem>, before: Recipes, now: Recipes) {
    forall m: Id :: SameRecipe(now, m, before, Cook(members, before, m))
  }

  /** What merging a set makes of a row: the head is filled up, the other members are archived. */
  function ItemInSet(s: seq<MenuItem>, row: MenuItem): MenuItem
    requires s != []
  {
    if row.id == s[0].id then Fill(row, s) else if HasId(s, row.id) then Archive(row) else row
  }

  ghost predicate SetMerged(s: seq<MenuItem>, old': MenuState, new': MenuState)
    requires s != []
  {
    && new'.items.Keys == old'.items.Keys
    && (forall id :: id in old'.items ==> new'.items[id] == ItemInSet(s, old'.items[id]))
    && (forall o: Outlet, k: Id :: Lookup(new'.settings, (o, k)) == SettingInSet(s[0], s, old'.settings, o, k))
    && Cooked(s, old'.recipes, new'.recipes)
  }

  // ----- all sets -----

  function ItemAfter(sets: seq<seq<MenuItem>>, row: MenuItem): MenuItem {
    match SetOf(sets, row.id)
    case None => row
    case Some(s) => if KeptId(sets, row.id) == row.id then Fill(row, s) else Archive(row)
  }

  function SettingAfter(sets: seq<seq<MenuItem>>, before: Settings, o: Outlet, k: Id): Option<Setting> {
    match SetOf(sets, k)
    case None => Lookup(before, (o, k))
    case Some(s) => if s != [] && s[0].id == k then SettingAt(s[0], s, before, o) else Lookup(before, (o, k))
  }

  function CookAfter(sets: seq<seq<MenuItem>>, recipes: Recipes, m: Id): Id {
    match SetOf(sets, m)
    case None => m
    case Some(s) => Cook(s, recipes, m)
  }

  /** The state once these sets are merged. */
  ghost predicate Merged(sets: seq<seq<MenuItem>>, before: MenuState, now: MenuState) {
    && now.items.Keys == before.items.Keys
    && (forall id :: id in before.items ==> now.items[id] == ItemAfter(sets, before.items[id]))
    && (forall o: Outlet, k: Id :: Lookup(now.settings, (o, k)) == SettingAfter(sets, before.settings, o, k))
    && (forall m: Id :: SameRecipe(now.recipes, m, before.recipes, CookAfter(sets, before.recipes, m)))
  }

  lemma {:induction false} SameCook(s: seq<MenuItem>, r: Recipes, q: Recipes)
    requires forall x :: x in s ==> SameRecipe(r, x.id, q, x.id)
    ensures FirstCook(s, r) == FirstCook(s, q)
    ensures FirstCook(s, q).Some? ==> exists x :: x in s && x.id == FirstCook(s, q).value
  {
    if s != [] {
      SameCook(s[..|s| - 1], r, q);
      assert s[|s| - 1] in s;
      SameHasRecipe(r, s[|s| - 1].id, q, s[|s| - 1].id);
    }
  }

  lemma SameHasRecipe(r: Recipes, m: Id, q: Recipes, n: Id)
    requires SameRecipe(r, m, q, n)
    ensures HasRecipe(r, m) == HasRecipe(q, n)
  {
  }

  lemma NoRecipe(r: Recipes, m: Id, q: Recipes, n: Id)
    requires !HasRecipe(r, m) && !HasRecipe(q, n)
    ensures SameRecipe(r, m, q, n)
  {
  }

  lemma MergedStep(
    sets: seq<seq<MenuItem>>, rows: seq<MenuItem>, n: nat, before: MenuState, now: MenuState, next: MenuState)
    requires Partition(sets, rows) && Ascending(rows) && n < |sets| && Keyed(before.items)
    requires Merged(sets[..n], before, now) && sets[n] != [] && SetMerged(sets[n], now, next)
    ensures Merged(sets[..n + 1], before, next)
  {
    hide FirstCook, SettingAt, FirstImage, FirstCost, Partition, HasRecipe, SameRecipe;
    assert Cooked(sets[n], now.recipes, next.recipes);
    var s, done, upTo := sets[n], sets[..n], sets[..n + 1];
    assert HasId(s, s[0].id);
    forall id ensures SetOf(upTo, id) == if HasId(s, id) then Some(s) else SetOf(done, id) {
      SetOfStep(sets, n, id);
    }
    forall id | HasId(s, id) ensures SetOf(done, id).None? {
      LaterSetUntouched(sets, rows, n, id);
    }
    forall x | x in s ensures SameRecipe(now.recipes, x.id, before.recipes, x.id) {
      assert HasId(s, x.id);
      assert CookAfter(done, before.recipes, x.id) == x.id;
    }
    SameCook(s, now.recipes, before.recipes);
    forall id | id in before.items ensures next.items[id] == ItemAfter(upTo, before.items[id]) {
      assert next.items[id] == ItemInSet(s, now.items[id]);
    }
    forall o, k ensures Lookup(next.settings, (o, k)) == SettingAfter(upTo, before.settings, o, k) {
      assert Lookup(now.settings, (o, k)) == SettingAfter(done, before.settings, o, k);
      if k == s[0].id {
        SameSettingAt(s[0], s, now.settings, before.settings, o);
      }
    }
    forall m ensures SameRecipe(next.recipes, m, before.recipes, CookAfter(upTo, before.recipes, m)) {
      var c := Cook(s, now.recipes, m);
      if HasId(s, m) {
        assert c == m || exists x :: x in s && x.id == c;
        SameRecipeTrans(next.recipes, m, now.recipes, c, before.recipes, c);
      } else {
        assert c == m;
        SameRecipeTrans(next.recipes, m, now.recipes, m, before.recipes, CookAfter(done, before.recipes, m));
      }
    }
  }

  lemma {:induction false} SameSettingAt(kept: MenuItem, s: seq<MenuItem>, a: Settings, b: Settings, o: Outlet)
    requires Lookup(a, (o, kept.id)) == Lookup(b, (o, kept.id))
    ensures SettingAt(kept, s, a, o) == SettingAt(kept, s, b, o)
  {
    if s != [] {
      SameSettingAt(kept, s[..|s| - 1], a, b, o);
    }
  }

  lemma SameRecipeTrans(p: Recipes, l: Id, q: Recipes, m: Id, r: Recipes, n: Id)
    requires SameRecipe(p, l, q, m) && SameRecipe(q, m, r, n)
    ensures SameRecipe(p, l, r, n)
  {
  }

  // ----- what the merge keeps -----

  /** An item as an outlet sells it. */
  datatype Sold = Sold(price: string, available: bool, autoOff: bool)

  /** `applyOutletSetting`: the outlet's own price and switch where it has a row, else the item's defaults. */
  function AsSold(item: MenuItem, setting: Option<Setting>): Sold {
    match setting
    case None => Sold(item.cols.price, true, false)
    case Some(row) => Sold(if row.price.Some? then row.price.value else item.cols.price, row.available, row.autoOff)
  }

  lemma {:induction false} SettingOfMember(kept: MenuItem, s: seq<MenuItem>, before: Settings, i: nat)
    requires DistinctOutlets(s) && i < |s|
    ensures SettingAt(kept, s, before, s[i].outlet) == SettingOf(kept, s[i], Lookup(before, (s[i].outlet, kept.id)))
  {
    var init := s[..|s| - 1];
    if i < |s| - 1 {
      SettingOfMember(kept, init, before, i);
    } else if SettingAt(kept, init, before, s[i].outlet) != Lookup(before, (s[i].outlet, kept.id)) {
      SettingOnlyOfMember(kept, init, before, s[i].outlet);
    }
  }

  lemma {:induction false} SettingOnlyOfMember(kept: MenuItem, s: seq<MenuItem>, before: Settings, o: Outlet)
    requires SettingAt(kept, s, before, o) != Lookup(before, (o, kept.id))
    ensures HasOutlet(s, o)
  {
    if s[|s| - 1].outlet != o {
      SettingOnlyOfMember(kept, s[..|s| - 1], before, o);
      var i :| 0 <= i < |s| - 1 && s[..|s| - 1][i].outlet == o;
      assert s[i].outlet == o;
    }
  }

  /** Each planned item is sold at its own outlet as before, now through the row its set keeps. */
  lemma SoldAsBefore(sets: seq<seq<MenuItem>>, rows: seq<MenuItem>, before: MenuState, now: MenuState, m: MenuItem)
    requires Partition(sets, rows) && Ascending(rows) && Merged(sets, before, now)
    requires forall x :: x in rows ==> x.id in before.items && before.items[x.id] == x
    requires m in rows && (m.outlet, KeptId(sets, m.id)) !in before.settings
    ensures var kept := KeptId(sets, m.id);
      && kept in now.items
      && now.items[kept].cols.status == before.items[kept].cols.status
      && AsSold(now.items[kept], Lookup(now.settings, (m.outlet, kept)))
         == Sold(m.cols.price, m.cols.available, !m.cols.available && m.cols.autoOff)
      && (kept != m.id ==> now.items[m.id] == Archive(m))
  {
    hide FirstImage, FirstCost, SettingAt, Partition, SameRecipe, FirstCook;
    var i := SetOfRow(sets, rows, m);
    var s := sets[i];
    assert s[0] in s;
    SetOfMember(sets, rows, i, s[0]);
    var j :| 0 <= j < |s| && s[j] == m;
    SettingOfMember(s[0], s, before.settings, j);
    assert Lookup(now.settings, (m.outlet, s[0].id)) == SettingAfter(sets, before.settings, m.outlet, s[0].id);
    assert now.items[s[0].id] == Fill(s[0], s);
    if m.id == s[0].id {
      SameIdSameRow(rows, m, s[0]);
    }
  }

  /** An outlet's own row of an item is new or changed only if a row merged into that item stood there. */
  lemma SettingsOnlyWhereMerged(sets: seq<seq<MenuItem>>, before: MenuState, now: MenuState, o: Outlet, k: Id)
    requires Merged(sets, before, now) && Lookup(now.settings, (o, k)) != Lookup(before.settings, (o, k))
    ensures SetOf(sets, k).Some? && KeptId(sets, k) == k && HasOutlet(SetOf(sets, k).value, o)
  {
    assert Lookup(now.settings, (o, k)) == SettingAfter(sets, before.settings, o, k);
    SettingOnlyOfMember(SetOf(sets, k).value[0], SetOf(sets, k).value, before.settings, o);
  }

  lemma {:induction false} FirstCookExact(s: seq<MenuItem>, recipes: Recipes)
    ensures match FirstCook(s, recipes)
      case None => forall x :: x in s ==> !HasRecipe(recipes, x.id)
      case Some(c) => exists i :: 0 <= i < |s| && s[i].id == c && HasRecipe(recipes, c)
                                  && forall j :: 0 <= j < i ==> !HasRecipe(recipes, s[j].id)
  {
    hide HasRecipe;
    if s != [] {
      var init := s[..|s| - 1];
      FirstCookExact(init, recipes);
      if FirstCook(init, recipes).Some? {
        var c := FirstCook(init, recipes).value;
        var i :| 0 <= i < |init| && init[i].id == c && HasRecipe(recipes, c)
                 && forall j :: 0 <= j < i ==> !HasRecipe(recipes, init[j].id);
        forall j | 0 <= j < i ensures !HasRecipe(recipes, s[j].id) {
          assert s[j] == init[j];
        }
        assert s[i].id == c;
      } else {
        var last := s[|init|];
        forall j | 0 <= j < |init| ensures !HasRecipe(recipes, s[j].id) {
          assert init[j] in init;
        }
        assert last.id == s[|init|].id;
        assert forall x :: x in s ==> x in init || x == last;
      }
    }
  }

  /**
   * A kept item's recipe is that of the first row of its set, by id, that
   * had one; every other item's recipe is untouched.
   */
  lemma RecipesSurvive(sets: seq<seq<MenuItem>>, rows: seq<MenuItem>, before: MenuState, now: MenuState, m: Id)
    requires Partition(sets, rows) && Ascending(rows) && Merged(sets, before, now)
    ensures SetOf(sets, m).None? || KeptId(sets, m) != m ==> SameRecipe(now.recipes, m, before.recipes, m)
    ensures SetOf(sets, m).Some? && KeptId(sets, m) == m ==>
      var s := SetOf(sets, m).value;
      || (SameRecipe(now.recipes, m, before.recipes, m) && forall x :: x in s ==> !HasRecipe(before.recipes, x.id))
      || (exists i :: 0 <= i < |s| && SameRecipe(now.recipes, m, before.recipes, s[i].id)
                      && HasRecipe(before.recipes, s[i].id)
                      && forall j :: 0 <= j < i ==> !HasRecipe(before.recipes, s[j].id))
  {
    hide HasRecipe, SameRecipe, SettingAfter, ItemAfter;
    assert SameRecipe(now.recipes, m, before.recipes, CookAfter(sets, before.recipes, m));
    if SetOf(sets, m).Some? {
      var i := SetOfIsASet(sets, m);
      assert MergeSet(sets[i], rows);
      FirstCookExact(sets[i], before.recipes);
    }
  }
}
