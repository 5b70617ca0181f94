/** The steps of the stock merge and of the level inserts, as their loops need them. */
module StockMergeSteps {
  import opened Tables
  import opened MergePlan
  import opened Quantities
  import StockMerge
  import opened StockTheorems
  import opened StockLevels
  import opened ItemFiling

  lemma StockHead(s: seq<StockItem>)
    requires s != []
    ensures StockMerge.FillCategory(s[0], s[..1]).cols.category == s[0].cols.category
  {
    var one := s[..1];
    assert one[..0] == [] && one[0] == s[0] && StockMerge.FirstCategory(one[..0]).None?;
  }

  lemma NextStock(s: seq<StockItem>, i: nat, before: StockMerge.StockState, now: StockMerge.StockState)
    requires 1 <= i < |s| && Ascending(s) && Keyed(before.items)
    requires forall x :: x in s ==> x.id in before.items && before.items[x.id] == x
    requires StockMerge.SetMerged(s[..i], before, now)
    ensures s[i].id != s[0].id && s[0].id in now.items && s[i].id in now.items && Keyed(now.items)
    ensures now.lines == StockMerge.LinesInSet(s[..i], before.lines)
    ensures var category := StockMerge.FillCategory(s[0], s[..i]).cols.category;
      StockMerge.FillCategory(s[0], s[..i + 1]).cols.category ==
      if !Truthy(category) && Truthy(s[i].cols.category) then s[i].cols.category else category
  {
    assert s[..i + 1][..i] == s[..i];
    assert s[0] in s && s[i] in s;
    FirstCategoryTruthy(s[..i]);
  }

  lemma {:induction false} FirstCategoryTruthy(s: seq<StockItem>)
    requires s != []
    ensures StockMerge.FirstCategory(s).Some? ==> Truthy(StockMerge.FirstCategory(s))
    ensures Truthy(s[0].cols.category) ==> StockMerge.FirstCategory(s).Some?
  {
    if |s| > 1 {
      FirstCategoryTruthy(s[..|s| - 1]);
    } else {
      assert StockMerge.FirstCategory(s[..0]).None?;
    }
  }

  /** A collision part way through a set is one at its end. */
  lemma CollisionInSet(s: seq<StockItem>, i: nat, lines: seq<StockMerge.TakeLine>)
    requires 1 <= i < |s|
    requires !StockMerge.UniqueLines(StockMerge.LinesInSet([s[0], s[i]], StockMerge.LinesInSet(s[..i], lines)))
    ensures !StockMerge.UniqueLines(StockMerge.LinesInSet(s, lines))
  {
    var partly := StockMerge.LinesInSet([s[0], s[i]], StockMerge.LinesInSet(s[..i], lines));
    var n, m :| 0 <= n < m < |lines| && partly[n] == partly[m];
    RepointedTwice(s, i, lines[n].item);
    RepointedTwice(s, i, lines[m].item);
    assert StockMerge.LinesInSet(s, lines)[n] == StockMerge.LinesInSet(s, lines)[m];
  }

  lemma RepointedTwice(s: seq<StockItem>, i: nat, x: Id)
    requires 1 <= i < |s|
    ensures var y := StockMerge.Repointed([s[0], s[i]], StockMerge.Repointed(s[..i], x));
      StockMerge.Repointed(s, y) == StockMerge.Repointed(s, x)
  {
  }

  lemma WholeSetLines(s: seq<StockItem>, before: StockMerge.StockState, now: StockMerge.StockState)
    requires s != [] && StockMerge.SetMerged(s, before, now)
    ensures now.lines == StockMerge.LinesInSet(s, before.lines)
  {
  }

  lemma NoStockMergedYet(st: StockMerge.StockState, wanted: seq<Target>)
    ensures StockMerge.Merged([], st, st) && SetsTargets([]) == [] && wanted + SetsTargets([]) == wanted
  {
  }

  lemma NextTargets(all: seq<seq<StockItem>>, n: nat, first: seq<Target>)
    requires n < |all|
    ensures first + SetsTargets(all[..n + 1]) == first + SetsTargets(all[..n]) + SetTargets(all[n])
  {
    assert all[..n + 1][..n] == all[..n];
  }

  lemma AllLines(sets: seq<seq<StockItem>>, before: StockMerge.StockState, now: StockMerge.StockState)
    requires StockMerge.Merged(sets, before, now)
    ensures now.lines == StockMerge.LinesAfter(sets, before.lines)
  {
  }

  /** A collision in one set is there after all of them. */
  lemma CollisionAfter(
    sets: seq<seq<StockItem>>, rows: seq<StockItem>, n: nat, before: StockMerge.StockState, now: StockMerge.StockState)
    requires MergePlan.Partition(sets, rows) && Ascending(rows) && n < |sets|
    requires StockMerge.Merged(sets[..n], before, now)
    requires !StockMerge.UniqueLines(StockMerge.LinesInSet(sets[n], now.lines))
    ensures !StockMerge.UniqueLines(StockMerge.LinesAfter(sets, before.lines))
  {
    hide MergePlan.Partition, Ascending, StockMerge.UniqueLines;
    forall x ensures KeptId(sets[..n + 1], x) == StockMerge.Repointed(sets[n], KeptId(sets[..n], x)) {
      StockMerge.KeptIdStep(sets, rows, n, x);
    }
    assert StockMerge.LinesInSet(sets[n], now.lines) == StockMerge.LinesAfter(sets[..n + 1], before.lines);
    CollisionStaysToTheEnd(sets, rows, n + 1, before.lines);
  }

  /** The rows of a set to come are as they were read. */
  lemma StockSetUntouched(
    sets: seq<seq<StockItem>>, rows: seq<StockItem>, n: nat, before: StockMerge.StockState, now: StockMerge.StockState)
    requires MergePlan.Partition(sets, rows) && Ascending(rows) && n < |sets| && Keyed(before.items)
    requires forall x :: x in rows ==> x.id in before.items && before.items[x.id] == x
    requires StockMerge.Merged(sets[..n], before, now)
    ensures MergeSet(sets[n], rows) && Keyed(now.items)
    ensures forall x :: x in sets[n] ==> x.id in now.items && now.items[x.id] == x
  {
    hide StockMerge.FirstCategory, StockMerge.LineAfter, StockMerge.MovementsAfter, StockMerge.LinesAfter;
    assert MergeSet(sets[n], rows);
    forall x | x in sets[n] ensures SetOf(sets[..n], x.id).None? {
      SetOfPrefix(sets, rows, n, n, x);
    }
  }

  function WithTotal(row: StockItem, movements: seq<StockMerge.Movement>): StockItem {
    row.(cols := row.cols.(quantity := Print(ItemSum(movements, row.id))))
  }

  function Totalled(row: StockItem, movements: seq<StockMerge.Movement>): StockItem {
    if StockActive(row) then WithTotal(row, movements) else row
  }

  lemma SelectIds(table: map<Id, StockItem>, rows: seq<StockItem>)
    requires Keyed(table)
    requires forall x: StockItem :: x in rows <==> x.id in table && table[x.id] == x && StockActive(x)
    ensures forall id :: id in table ==> (HasId(rows, id) <==> StockActive(table[id]))
  {
  }

  lemma NoLevels(levels: Levels, movements: seq<StockMerge.Movement>, items: map<Id, StockItem>)
    ensures TargetKeys([]) == {} && Derived(levels, levels, movements) && Reordered(levels, levels, [], items)
  {
  }

  lemma NextTarget(
    old': Levels, targets: seq<Target>, i: nat, levels: Levels, movements: seq<StockMerge.Movement>, items: map<Id,
    StockItem>,
    quantity: string)
    requires i < |targets| && levels.Keys == old'.Keys + TargetKeys(targets[..i])
    requires Derived(old', levels, movements) && Reordered(old', levels, targets[..i], items)
    requires quantity == Print(SumOver(movements, {KeyOf(targets[i])}))
    ensures TargetKeys(targets[..i + 1]) == TargetKeys(targets[..i]) + {KeyOf(targets[i])}
    ensures KeyOf(targets[i]) in levels ==> Reordered(old', levels, targets[..i + 1], items)
    ensures KeyOf(targets[i]) !in levels ==>
      var next := levels[KeyOf(targets[i]) := Level(quantity, targets[i].reorder)];
      Derived(old', next, movements) && Reordered(old', next, targets[..i + 1], items)
  {
    hide Print, SumOver;
    assert targets[..i + 1] == targets[..i] + [targets[i]];
    assert forall t :: t in targets[..i] ==> t in targets[..i + 1];
    assert targets[i] in targets[..i + 1];
  }

  lemma MissingLevel(
    old': Levels, targets: seq<Target>, levels: Levels, movements: seq<StockMerge.Movement>, items: map<Id, StockItem>,
    key: (Outlet, Id), level: Level)
    requires Derived(old', levels, movements) && Reordered(old', levels, targets, items)
    requires TargetKeys(targets) <= levels.Keys && key !in levels && key.1 in items
    requires level == Level(Print(SumOver(movements, {key})), items[key.1].cols.reorder)
    ensures Derived(old', levels[key := level], movements) && Reordered(old', levels[key := level], targets, items)
  {
  }

  lemma PairsAreKeys(movements: seq<StockMerge.Movement>)
    ensures forall key :: key in MovementKeys(movements) ==>
      exists i :: 0 <= i < |movements| && (movements[i].outlet, movements[i].item) == key
  {
  }
}
