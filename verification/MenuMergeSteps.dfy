/** The steps of the menu merge, as its loops need them. */
module MenuMergeSteps {
  import opened Tables
  import opened MergePlan
  import MenuMerge

  type MenuItem = MenuMerge.MenuItem

  /** The item whose lines m holds once `from` is copied to `to`. */
  function Source(from: Id, to: Id, m: Id): Id {
    if m == to then from else m
  }

  /** The members but the kept one are archived. */
  function ArchiveIn(s: seq<MenuItem>, kept: Id, row: MenuItem): MenuItem {
    if row.id != kept && HasId(s, row.id) then MenuMerge.Archive(row) else row
  }

  lemma NextSetting(s: seq<MenuItem>, before: MenuMerge.Settings, i: nat)
    requires i < |s|
    ensures var done, upTo := s[..i], s[..i + 1];
      forall o: Outlet :: MenuMerge.SettingAt(s[0], upTo, before, o) ==
        if o == s[i].outlet then MenuMerge.SettingOf(s[0], s[i], MenuMerge.SettingAt(s[0], done, before, o))
        else MenuMerge.SettingAt(s[0], done, before, o)
  {
    assert s[..i + 1][..i] == s[..i];
  }

  lemma HeadOnly(s: seq<MenuItem>, recipes: Recipes)
    requires s != []
    ensures MenuMerge.FirstImage(s[..1]) == if Truthy(s[0].cols.image) then s[0].cols.image else None
    ensures MenuMerge.FirstCost(s[..1]) == s[0].cols.cost
    ensures MenuMerge.Cooked(s[..1], recipes, recipes)
    ensures forall y :: HasId(s[..1], y) <==> y == s[0].id
  {
    var one := s[..1];
    assert one[..0] == [] && one[0] == s[0];
    assert MenuMerge.FirstCook([], recipes).None? && MenuMerge.FirstImage([]).None? && MenuMerge.FirstCost([]).None?;
    forall y ensures HasId(one, y) <==> y == s[0].id {
      assert y == s[0].id ==> one[0].id == y;
    }
  }

  lemma NextImageAndCost(s: seq<MenuItem>, i: nat)
    requires i < |s|
    ensures MenuMerge.FirstImage(s[..i + 1]) ==
            if MenuMerge.FirstImage(s[..i]).Some? then MenuMerge.FirstImage(s[..i])
            else if Truthy(s[i].cols.image) then s[i].cols.image else None
    ensures MenuMerge.FirstCost(s[..i + 1]) ==
            if MenuMerge.FirstCost(s[..i]).Some? then MenuMerge.FirstCost(s[..i]) else s[i].cols.cost
  {
    assert s[..i + 1][..i] == s[..i];
  }

  lemma NextCook(s: seq<MenuItem>, i: nat, before: Recipes, now: Recipes)
    requires 1 <= i < |s| && Ascending(s)
    requires MenuMerge.Cooked(s[..i], before, now)
    ensures MenuMerge.HasRecipe(now, s[0].id) ==> MenuMerge.Cooked(s[..i + 1], before, now)
    ensures !MenuMerge.HasRecipe(now, s[0].id) ==> MenuMerge.FirstCook(s[..i], before).None?
  {
    hide MenuMerge.HasRecipe, MenuMerge.SameRecipe;
    var done, upTo, kept := s[..i], s[..i + 1], s[0];
    assert upTo[..i] == done && done[0] == kept && upTo[0] == kept;
    var cook := MenuMerge.Cook(done, before, kept.id);
    assert MenuMerge.SameRecipe(now, kept.id, before, cook);
    MenuMerge.SameHasRecipe(now, kept.id, before, cook);
    MenuMerge.FirstCookExact(done, before);
    assert kept in done;
    if MenuMerge.HasRecipe(now, kept.id) {
      forall m: Id ensures MenuMerge.SameRecipe(now, m, before, MenuMerge.Cook(upTo, before, m)) {
        assert MenuMerge.SameRecipe(now, m, before, MenuMerge.Cook(done, before, m));
      }
    }
  }

  lemma CookCopied(s: seq<MenuItem>, i: nat, before: Recipes, now: Recipes, next: Recipes)
    requires 1 <= i < |s| && Ascending(s)
    requires MenuMerge.Cooked(s[..i], before, now)
    requires MenuMerge.FirstCook(s[..i], before).None?
    requires forall m: Id :: MenuMerge.SameRecipe(next, m, now, Source(s[i].id, s[0].id, m))
    ensures MenuMerge.Cooked(s[..i + 1], before, next)
  {
    hide MenuMerge.HasRecipe, MenuMerge.SameRecipe;
    var done, upTo, kept, other := s[..i], s[..i + 1], s[0].id, s[i].id;
    assert upTo[..i] == done && done[0] == s[0] && upTo[0] == s[0];
    MenuMerge.FirstCookExact(done, before);
    assert s[0] in done;
    forall m: Id ensures MenuMerge.SameRecipe(next, m, before, MenuMerge.Cook(upTo, before, m)) {
      var from := Source(other, kept, m);
      assert MenuMerge.SameRecipe(next, m, now, from);
      assert MenuMerge.SameRecipe(now, from, before, MenuMerge.Cook(done, before, from));
      MenuMerge.SameRecipeTrans(next, m, now, from, before, from);
      if m == kept && !MenuMerge.HasRecipe(before, other) {
        MenuMerge.SameHasRecipe(next, m, before, other);
        MenuMerge.NoRecipe(next, m, before, kept);
      }
    }
  }

  lemma NothingMergedYet(st: MenuMerge.MenuState)
    ensures MenuMerge.Merged([], st, st)
  {
  }

  /** The rows of a set to come are as they were read. */
  lemma MenuSetUntouched(
    sets: seq<seq<MenuItem>>, rows: seq<MenuItem>, n: nat, before: MenuMerge.MenuState, now: MenuMerge.MenuState)
    requires MergePlan.Partition(sets, rows) && Ascending(rows) && n < |sets| && Keyed(before.items)
    requires forall x :: x in rows ==> x.id in before.items && before.items[x.id] == x
    requires MenuMerge.Merged(sets[..n], before, now)
    ensures MergeSet(sets[n], rows) && Keyed(now.items)
    ensures forall x :: x in sets[n] ==> x.id in now.items && now.items[x.id] == x
  {
    hide MenuMerge.FirstImage, MenuMerge.FirstCost, MenuMerge.CookAfter, MenuMerge.SameRecipe;
    var s := sets[n];
    assert MergeSet(s, rows);
    forall x | x in s ensures SetOf(sets[..n], x.id).None? {
      SetOfPrefix(sets, rows, n, n, x);
    }
  }
}
