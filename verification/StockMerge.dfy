/**
 * What merging the stock items of a property does to the item table, the
 * movements, the stock-take lines and the recipes.
 */
module StockMerge {
  import opened Tables
  import opened MergePlan

  datatype StockCols = StockCols(
    name: string, unit: string, category: Option<string>, reorder: string, quantity: string, status: Status)

  type StockItem = Row<StockCols>

  datatype Movement = Movement(outlet: Outlet, item: Id, quantity: string)

  datatype TakeLine = TakeLine(take: Id, item: Id)

  datatype StockState = StockState(
    items: map<Id, StockItem>, movements: seq<Movement>, lines: seq<TakeLine>, recipes: Recipes)

  // ----- one set -----

  /** `UPDATE ... SET stock_item_id = kept`: what a reference to x becomes once the set is merged. */
  function Repointed(s: seq<StockItem>, x: Id): Id {
    if s != [] && HasId(s, x) then s[0].id else x
  }

  function FirstCategory(s: seq<StockItem>): Option<string> {
    if s == [] then None
    else
      var before, last := FirstCategory(s[..|s| - 1]), s[|s| - 1].cols.category;
      if before.Some? then before else if Truthy(last) then last else None
  }

  function FillCategory(row: StockItem, s: seq<StockItem>): StockItem {
    row.(cols := row.cols.(category := if FirstCategory(s).Some? then FirstCategory(s) else row.cols.category))
  }

  function MergeAway(row: StockItem): StockItem {
    row.(cols := row.cols.(status := Archived, quantity := "0.000"))
  }

  function ItemInSet(s: seq<StockItem>, row: StockItem): StockItem
    requires s != []
  {
    if row.id == s[0].id then FillCategory(row, s) else if HasId(s, row.id) then MergeAway(row) else row
  }

  /** The quantity menu item m lists for the first member it lists at all. */
  function FirstLine(s: seq<StockItem>, recipes: Recipes, m: Id): Option<string> {
    if s == [] then None
    else
      var before := FirstLine(s[..|s| - 1], recipes, m);
      if before.Some? then before else Lookup(recipes, (m, s[|s| - 1].id))
  }

  function LineInSet(s: seq<StockItem>, recipes: Recipes, m: Id, k: Id): Option<string>
    requires s != []
  {
    if k == s[0].id then FirstLine(s, recipes, m) else if HasId(s, k) then None else Lookup(recipes, (m, k))
  }

  function MovementsInSet(s: seq<StockItem>, movements: seq<Movement>): seq<Movement> {
    seq(|movements|, i requires 0 <= i < |movements| => movements[i].(item := Repointed(s, movements[i].item)))
  }

  function LinesInSet(s: seq<StockItem>, lines: seq<TakeLine>): seq<TakeLine> {
    seq(|lines|, i requires 0 <= i < |lines| => lines[i].(item := Repointed(s, lines[i].item)))
  }

  ghost predicate SetMerged(s: seq<StockItem>, old': StockState, new': StockState)
    requires s != []
  {
    && new'.items.Keys == old'.items.Keys
    && (forall id :: id in old'.items ==> new'.items[id] == ItemInSet(s, old'.items[id]))
    && new'.movements == MovementsInSet(s, old'.movements)
    && new'.lines == LinesInSet(s, old'.lines)
    && (forall m, k :: Lookup(new'.recipes, (m, k)) == LineInSet(s, old'.recipes, m, k))
  }

  /** UNIQUE(stock_take, stock_item). */
  predicate UniqueLines(lines: seq<TakeLine>) {
    forall i, j :: 0 <= i < j < |lines| ==> lines[i] != lines[j]
  }

  // ----- all sets -----

  function ItemAfter(sets: seq<seq<StockItem>>, row: StockItem): StockItem {
    match SetOf(sets, row.id)
    case None => row
    case Some(s) => if KeptId(sets, row.id) == row.id then FillCategory(row, s) else MergeAway(row)
  }

  function LineAfter(sets: seq<seq<StockItem>>, recipes: Recipes, m: Id, k: Id): Option<string> {
    match SetOf(sets, k)
    case None => Lookup(recipes, (m, k))
    case Some(s) => if KeptId(sets, k) == k then FirstLine(s, recipes, m) else None
  }

  function MovementsAfter(sets: seq<seq<StockItem>>, movements: seq<Movement>): seq<Movement> {
    seq(|movements|, i requires 0 <= i < |movements| => movements[i].(item := KeptId(sets, movements[i].item)))
  }

  function LinesAfter(sets: seq<seq<StockItem>>, lines: seq<TakeLine>): seq<TakeLine> {
    seq(|lines|, i requires 0 <= i < |lines| => lines[i].(item := KeptId(sets, lines[i].item)))
  }

  ghost predicate Merged(sets: seq<seq<StockItem>>, before: StockState, now: StockState) {
    && now.items.Keys == before.items.Keys
    && (forall id :: id in before.items ==> now.items[id] == ItemAfter(sets, before.items[id]))
    && now.movements == MovementsAfter(sets, before.movements)
    && now.lines == LinesAfter(sets, before.lines)
    && (forall m, k :: Lookup(now.recipes, (m, k)) == LineAfter(sets, before.recipes, m, k))
  }

  lemma {:induction false} SameFirstLine(s: seq<StockItem>, r: Recipes, m: Id, q: Recipes, n: Id)
    requires forall x :: x in s ==> Lookup(r, (m, x.id)) == Lookup(q, (n, x.id))
    ensures FirstLine(s, r, m) == FirstLine(s, q, n)
  {
    if s != [] {
      SameFirstLine(s[..|s| - 1], r, m, q, n);
      assert s[|s| - 1] in s;
    }
  }

  /** Re-pointing in one more set is re-pointing by all sets up to it. */
  lemma KeptIdStep(sets: seq<seq<StockItem>>, rows: seq<StockItem>, n: nat, x: Id)
    requires Partition(sets, rows) && Ascending(rows) && n < |sets|
    ensures KeptId(sets[..n + 1], x) == Repointed(sets[n], KeptId(sets[..n], x))
  {
    SetOfStep(sets, n, x);
    if HasId(sets[n], x) {
      LaterSetUntouched(sets, rows, n, x);
    } else if SetOf(sets[..n], x).Some? {
      var i := SetOfIsASet(sets[..n], x);
      assert sets[..n][i] == sets[i] && MergeSet(sets[i], rows);
      var kept := sets[i][0];
      assert kept in sets[i];
      SetOfPrefix(sets, rows, n, i, kept);
      if HasId(sets[n], kept.id) {
        LaterSetUntouched(sets, rows, n, kept.id);
        assert false;
      }
    }
  }

  lemma MergedStep(
    sets: seq<seq<StockItem>>, rows: seq<StockItem>, n: nat, before: StockState, now: StockState, next: StockState)
    requires Partition(sets, rows) && Ascending(rows) && n < |sets| && Keyed(before.items)
    requires Merged(sets[..n], before, now) && sets[n] != [] && SetMerged(sets[n], now, next)
    ensures Merged(sets[..n + 1], before, next)
  {
    hide FirstLine, FirstCategory, Partition, Repointed;
    var s, done, upTo := sets[n], sets[..n], sets[..n + 1];
    assert HasId(s, s[0].id);
    forall id ensures SetOf(upTo, id) == if HasId(s, id) then Some(s) else SetOf(done, id) {
      SetOfStep(sets, n, id);
    }
    forall id | HasId(s, id) ensures SetOf(done, id).None? {
      LaterSetUntouched(sets, rows, n, id);
    }
    forall id | id in before.items ensures next.items[id] == ItemAfter(upTo, before.items[id]) {
      assert next.items[id] == ItemInSet(s, now.items[id]);
    }
    forall x ensures KeptId(upTo, x) == Repointed(s, KeptId(done, x)) {
      KeptIdStep(sets, rows, n, x);
    }
    forall m, k ensures Lookup(next.recipes, (m, k)) == LineAfter(upTo, before.recipes, m, k) {
      assert Lookup(next.recipes, (m, k)) == LineInSet(s, now.recipes, m, k);
      if k == s[0].id {
        forall x | x in s ensures Lookup(now.recipes, (m, x.id)) == Lookup(before.recipes, (m, x.id)) {
          assert HasId(s, x.id);
          assert Lookup(now.recipes, (m, x.id)) == LineAfter(done, before.recipes, m, x.id);
        }
        SameFirstLine(s, now.recipes, m, before.recipes, m);
      } else {
        assert Lookup(now.recipes, (m, k)) == LineAfter(done, before.recipes, m, k);
      }
    }
  }

  // ----- within one set, other by other -----

  lemma HeadAlone(s: seq<StockItem>, st: StockState)
    requires |s| == 1 && Keyed(st.items) && s[0].id in st.items && st.items[s[0].id].cols.category == s[0].cols.category
    ensures SetMerged(s, st, st)
  {
    assert s[..|s| - 1] == [];
    assert FirstCategory(s[..|s| - 1]).None?;
    forall id | id in st.items ensures st.items[id] == ItemInSet(s, st.items[id]) {
    }
    assert forall x :: HasId(s, x) <==> x == s[0].id;
    forall m, k ensures Lookup(st.recipes, (m, k)) == LineInSet(s, st.recipes, m, k) {
      assert FirstLine(s[..|s| - 1], st.recipes, m).None?;
    }
  }

  /** What merging one more member makes of a row. */
  function ItemInPair(kept: StockItem, x: StockItem, category: Option<string>, row: StockItem): StockItem {
    if row.id == x.id then MergeAway(row)
    else if row.id == kept.id then row.(cols := row.cols.(category := category))
    else row
  }

  function LineInPair(kept: StockItem, x: StockItem, recipes: Recipes, m: Id, k: Id): Option<string> {
    if k == x.id then None
    else if k == kept.id && Lookup(recipes, (m, k)).None? then Lookup(recipes, (m, x.id))
    else Lookup(recipes, (m, k))
  }

  /** One more member: its references move to the head, and it is merged away. */
  ghost predicate MemberMerged(
    kept: StockItem, x: StockItem, category: Option<string>, old': StockState, new': StockState)
  {
    && new'.items.Keys == old'.items.Keys
    && (forall id :: id in old'.items ==> new'.items[id] == ItemInPair(kept, x, category, old'.items[id]))
    && new'.movements == MovementsInSet([kept, x], old'.movements)
    && new'.lines == LinesInSet([kept, x], old'.lines)
    && (forall m, k :: Lookup(new'.recipes, (m, k)) == LineInPair(kept, x, old'.recipes, m, k))
  }

  lemma SetMergedStep(s: seq<StockItem>, n: nat, st: StockState, now: StockState, next: StockState)
    requires 1 <= n < |s| && Ascending(s) && Keyed(st.items)
    requires SetMerged(s[..n], st, now)
    requires s[0].id in st.items && st.items[s[0].id].cols.category == s[0].cols.category
    requires MemberMerged(s[0], s[n], FillCategory(st.items[s[0].id], s[..n + 1]).cols.category, now, next)
    ensures SetMerged(s[..n + 1], st, next)
  {
    hide FirstCategory, FirstLine, Ascending;
    var done, upTo, x := s[..n], s[..n + 1], s[n];
    assert upTo[..n] == done && upTo == done + [x];
    NewId(s, n);
    HasIdMore(done, x);
    assert forall y :: Repointed(upTo, y) == Repointed([s[0], x], Repointed(done, y)) by {
      PairIds(s[0], x);
    }
    forall id | id in st.items ensures next.items[id] == ItemInSet(upTo, st.items[id]) {
      assert now.items[id] == ItemInSet(done, st.items[id]);
    }
    forall m, k ensures Lookup(next.recipes, (m, k)) == LineInSet(upTo, st.recipes, m, k) {
      assert Lookup(now.recipes, (m, k)) == LineInSet(done, st.recipes, m, k);
      assert Lookup(now.recipes, (m, x.id)) == LineInSet(done, st.recipes, m, x.id);
      assert Lookup(now.recipes, (m, s[0].id)) == LineInSet(done, st.recipes, m, s[0].id);
      FirstLineMore(upTo, st.recipes, m);
    }
  }

  lemma FirstLineMore(s: seq<StockItem>, recipes: Recipes, m: Id)
    requires s != []
    ensures FirstLine(s, recipes, m) ==
            if FirstLine(s[..|s| - 1], recipes, m).Some? then FirstLine(s[..|s| - 1], recipes, m)
            else Lookup(recipes, (m, s[|s| - 1].id))
  {
  }

  lemma NewId(s: seq<StockItem>, n: nat)
    requires n < |s| && Ascending(s)
    ensures !HasId(s[..n], s[n].id)
    ensures n > 0 ==> s[0].id != s[n].id && HasId(s[..n], s[0].id)
  {
  }

  lemma HasIdMore(s: seq<StockItem>, x: StockItem)
    ensures forall y :: HasId(s + [x], y) <==> HasId(s, y) || y == x.id
  {
    forall y ensures HasId(s + [x], y) <==> HasId(s, y) || y == x.id {
      if HasId(s, y) {
        var i :| 0 <= i < |s| && s[i].id == y;
        assert (s + [x])[i].id == y;
      }
      if y == x.id {
        assert (s + [x])[|s|].id == y;
      }
    }
  }

  lemma PairIds(kept: StockItem, x: StockItem)
    ensures forall y :: HasId([kept, x], y) <==> y == kept.id || y == x.id
  {
    assert [kept, x][0] == kept && [kept, x][1] == x;
  }
}
