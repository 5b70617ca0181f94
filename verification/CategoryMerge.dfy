/**
 * `mergeCategories`: the same-named rows of a category list become one row,
 * and every outlet that had an active one carries the category.
 */
module CategoryMerge {
  import opened Tables
  import opened Names
  import opened Categories
  import opened Grouping
  import opened CategoryFanOut

  /** An outlet that is to carry the category of this name; no outlet if the row had none. */
  datatype Carried = Carried(name: string, outlet: Option<Outlet>)

  function NameKey(c: Category): string {
    Key(c.name)
  }

  function NameKeys(rows: seq<Category>): set<string> {
    set c | c in rows :: NameKey(c)
  }

  ghost predicate UniqueNames(rows: seq<Category>) {
    forall i, j :: 0 <= i < j < |rows| ==> NameKey(rows[i]) != NameKey(rows[j])
  }

  function FirstActive(group: seq<Category>): Option<Category> {
    if group == [] then None
    else
      var before, last := FirstActive(group[..|group| - 1]), group[|group| - 1];
      if before.Some? then before else if last.status.Active? then Some(last) else None
  }

  /** The row a group keeps: its first active one, else its first. */
  function KeptOf(group: seq<Category>): Category
    requires group != []
  {
    if FirstActive(group).Some? then FirstActive(group).value else group[0]
  }

  function CarriedOf(kept: Category, group: seq<Category>): seq<Carried> {
    if group == [] then []
    else
      var last := group[|group| - 1];
      CarriedOf(kept, group[..|group| - 1]) + if last.status.Active? then [Carried(kept.name, last.outlet)] else []
  }

  function OthersOf(kept: Category, group: seq<Category>): set<Id> {
    set c | c in group && c.id != kept.id :: c.id
  }

  ghost predicate NonEmptyGroups(groups: seq<seq<Category>>) {
    forall i :: 0 <= i < |groups| ==> groups[i] != []
  }

  ghost function CarriedAll(groups: seq<seq<Category>>): seq<Carried>
    requires NonEmptyGroups(groups)
  {
    if groups == [] then []
    else
      var last := groups[|groups| - 1];
      CarriedAll(groups[..|groups| - 1]) + CarriedOf(KeptOf(last), last)
  }

  ghost function OthersAll(groups: seq<seq<Category>>): set<Id>
    requires NonEmptyGroups(groups)
  {
    if groups == [] then {}
    else
      var last := groups[|groups| - 1];
      OthersAll(groups[..|groups| - 1]) + OthersOf(KeptOf(last), last)
  }

  lemma GroupsNonEmpty(rows: seq<Category>)
    ensures NonEmptyGroups(Groups(rows, NameKey))
  {
    var keys, groups := Keys(rows, NameKey), Groups(rows, NameKey);
    KeysMembers(rows, NameKey);
    forall i | 0 <= i < |groups| ensures groups[i] != [] {
      assert keys[i] in keys;
      var x :| x in rows && NameKey(x) == keys[i];
      WithKeyMembers(rows, NameKey, keys[i]);
      assert x in groups[i];
    }
  }

  // ----- declaratively -----

  /** The row kept for the name of c. */
  ghost function KeptFor(rows: seq<Category>, c: Category): (kept: Category)
    requires c in rows
  {
    WithKeyMembers(rows, NameKey, NameKey(c));
    assert c in WithKey(rows, NameKey, NameKey(c));
    KeptOf(WithKey(rows, NameKey, NameKey(c)))
  }

  ghost function Merged(rows: seq<Category>): seq<Category> {
    GroupsNonEmpty(rows);
    DeleteIds(rows, OthersAll(Groups(rows, NameKey)))
  }

  ghost function CarriedBy(rows: seq<Category>): seq<Carried> {
    GroupsNonEmpty(rows);
    CarriedAll(Groups(rows, NameKey))
  }

  lemma {:induction false} FirstActiveExact(group: seq<Category>)
    ensures FirstActive(group).None? ==> forall c :: c in group ==> c.status.Archived?
    ensures FirstActive(group).Some? ==> FirstActive(group).value in group && FirstActive(group).value.status.Active?
  {
    if group != [] {
      FirstActiveExact(group[..|group| - 1]);
      assert group == group[..|group| - 1] + [group[|group| - 1]];
    }
  }

  lemma KeptForFacts(rows: seq<Category>, c: Category)
    requires c in rows
    ensures var kept := KeptFor(rows, c);
      && kept in rows && NameKey(kept) == NameKey(c)
      && (c.status.Active? ==> kept.status.Active?)
  {
    hide NameKey;
    var group := WithKey(rows, NameKey, NameKey(c));
    WithKeyMembers(rows, NameKey, NameKey(c));
    assert c in group;
    FirstActiveExact(group);
    assert group[0] in group;
  }

  lemma {:induction false} OthersAllFrom(groups: seq<seq<Category>>, id: Id)
    requires NonEmptyGroups(groups)
    ensures id in OthersAll(groups) <==>
            exists i, c :: 0 <= i < |groups| && c in groups[i] && c.id == id && c.id != KeptOf(groups[i]).id
  {
    hide KeptOf;
    if groups != [] {
      var n := |groups| - 1;
      OthersAllFrom(groups[..n], id);
      assert forall i :: 0 <= i < n ==> groups[..n][i] == groups[i];
      if id in OthersAll(groups[..n]) {
        var i, c :| 0 <= i < n && c in groups[..n][i] && c.id == id && c.id != KeptOf(groups[..n][i]).id;
        assert c in groups[i];
      }
    }
  }

  lemma {:induction false} CarriedOfFrom(kept: Category, group: seq<Category>, p: Carried)
    ensures p in CarriedOf(kept, group) <==>
            p.name == kept.name && exists c :: c in group && c.status.Active? && c.outlet == p.outlet
  {
    if group != [] {
      CarriedOfFrom(kept, group[..|group| - 1], p);
      assert group == group[..|group| - 1] + [group[|group| - 1]];
    }
  }

  lemma {:induction false} CarriedAllFrom(groups: seq<seq<Category>>, p: Carried)
    requires NonEmptyGroups(groups)
    ensures p in CarriedAll(groups) <==>
            exists i, c :: 0 <= i < |groups| && c in groups[i] && c.status.Active? && c.outlet == p.outlet
              && p.name == KeptOf(groups[i]).name
  {
    hide KeptOf, CarriedOf;
    if groups != [] {
      var n := |groups| - 1;
      CarriedAllFrom(groups[..n], p);
      assert forall i :: 0 <= i < n ==> groups[..n][i] == groups[i];
      CarriedOfFrom(KeptOf(groups[n]), groups[n], p);
      if p in CarriedAll(groups[..n]) {
        var i, c :| 0 <= i < n && c in groups[..n][i] && c.status.Active? && c.outlet == p.outlet
          && p.name == KeptOf(groups[..n][i]).name;
        assert c in groups[i];
      }
    }
  }

  /** The group a row is in. */
  lemma GroupOf(rows: seq<Category>, c: Category) returns (i: nat)
    requires c in rows
    ensures i < |Groups(rows, NameKey)| && c in Groups(rows, NameKey)[i]
  {
    hide NameKey;
    KeysMembers(rows, NameKey);
    i :| i < |Keys(rows, NameKey)| && Keys(rows, NameKey)[i] == NameKey(c);
    WithKeyMembers(rows, NameKey, NameKey(c));
  }

  lemma GroupKept(rows: seq<Category>, i: nat, c: Category)
    requires i < |Groups(rows, NameKey)| && c in Groups(rows, NameKey)[i]
    ensures c in rows && KeptOf(Groups(rows, NameKey)[i]) == KeptFor(rows, c)
  {
    hide NameKey, KeptOf;
    WithKeyMembers(rows, NameKey, Keys(rows, NameKey)[i]);
  }

  lemma {:induction false} DeleteIdsMembers(rows: seq<Category>, ids: set<Id>)
    ensures forall c :: c in DeleteIds(rows, ids) <==> c in rows && c.id !in ids
  {
    if rows != [] {
      var n := |rows| - 1;
      DeleteIdsMembers(rows[..n], ids);
      assert rows == rows[..n] + [rows[n]];
    }
  }

  lemma {:induction false} DeleteIdsOrder(rows: seq<Category>, ids: set<Id>)
    requires AscendingIds(rows)
    ensures AscendingIds(DeleteIds(rows, ids))
  {
    if rows != [] {
      var n := |rows| - 1;
      DeleteIdsOrder(rows[..n], ids);
      DeleteIdsMembers(rows[..n], ids);
      assert forall c :: c in rows[..n] ==> c.id < rows[n].id;
    }
  }

  lemma {:induction false} DeleteTwice(rows: seq<Category>, a: set<Id>, b: set<Id>)
    ensures DeleteIds(DeleteIds(rows, a), b) == DeleteIds(rows, a + b)
  {
    if rows != [] {
      var n := |rows| - 1;
      DeleteTwice(rows[..n], a, b);
      if rows[n].id !in a {
        assert DeleteIds(rows, a) == DeleteIds(rows[..n], a) + [rows[n]];
        DeleteAppend(DeleteIds(rows[..n], a), [rows[n]], b);
        assert [rows[n]][..0] == [];
      } else {
        assert DeleteIds(rows, a) == DeleteIds(rows[..n], a);
      }
    }
  }

  lemma SameIdSameCategory(rows: seq<Category>, c: Category, d: Category)
    requires AscendingIds(rows) && c in rows && d in rows && c.id == d.id
    ensures c == d
  {
  }

  /** A row survives the merge exactly when it is the one kept for its name. */
  lemma SurvivesExactly(rows: seq<Category>, c: Category)
    requires AscendingIds(rows) && c in rows
    ensures c in Merged(rows) <==> c == KeptFor(rows, c)
  {
    hide NameKey, KeptOf, Groups, OthersAll, DeleteIds, KeptFor, AscendingIds;
    var groups := Groups(rows, NameKey);
    GroupsNonEmpty(rows);
    OthersAllFrom(groups, c.id);
    DeleteIdsMembers(rows, OthersAll(groups));
    var i := GroupOf(rows, c);
    GroupKept(rows, i, c);
    KeptForFacts(rows, c);
    if c.id in OthersAll(groups) {
      var j, d: Category :| 0 <= j < |groups| && d in groups[j] && d.id == c.id && d.id != KeptOf(groups[j]).id;
      GroupKept(rows, j, d);
      SameIdSameCategory(rows, c, d);
    } else if c != KeptFor(rows, c) {
      assert c.id == KeptOf(groups[i]).id;
      SameIdSameCategory(rows, c, KeptFor(rows, c));
    }
  }

  lemma MergedNamesUnique(rows: seq<Category>)
    requires AscendingIds(rows) && AscendingIds(Merged(rows)) && forall c :: c in Merged(rows) ==> c in rows
    ensures UniqueNames(Merged(rows))
  {
    hide NameKey, KeptFor, Merged;
    var now := Merged(rows);
    forall i, j | 0 <= i < j < |now| ensures NameKey(now[i]) != NameKey(now[j]) {
      var c, d := now[i], now[j];
      SurvivesExactly(rows, c);
      SurvivesExactly(rows, d);
      if NameKey(c) == NameKey(d) {
        SameNameSameKept(rows, c, d);
      }
    }
  }

  /** One row per name is left, the same names as before, and a name that had an active row has one. */
  lemma MergedFacts(rows: seq<Category>)
    requires AscendingIds(rows)
    ensures AscendingIds(Merged(rows)) && UniqueNames(Merged(rows)) && NameKeys(Merged(rows)) == NameKeys(rows)
    ensures forall c :: c in Merged(rows) ==> c in rows
    ensures forall c :: c in rows ==> KeptFor(rows, c) in Merged(rows)
  {
    hide NameKey, KeptOf, KeptFor, DeleteIds, OthersAll, AscendingIds, UniqueNames;
    GroupsNonEmpty(rows);
    DeleteIdsMembers(rows, OthersAll(Groups(rows, NameKey)));
    DeleteIdsOrder(rows, OthersAll(Groups(rows, NameKey)));
    MergedNamesUnique(rows);
    forall c | c in rows ensures KeptFor(rows, c) in Merged(rows) && NameKey(KeptFor(rows, c)) == NameKey(c) {
      var kept := KeptFor(rows, c);
      KeptForFacts(rows, c);
      SurvivesExactly(rows, kept);
      SameNameSameKept(rows, c, kept);
    }
  }

  lemma SameNameSameKept(rows: seq<Category>, c: Category, d: Category)
    requires c in rows && d in rows && NameKey(c) == NameKey(d)
    ensures KeptFor(rows, c) == KeptFor(rows, d)
  {
  }

  /** Exactly the outlets of the active rows carry, each under the name kept. */
  lemma CarriedExactly(rows: seq<Category>, p: Carried)
    ensures p in CarriedBy(rows) <==>
            exists c :: c in rows && c.status.Active? && c.outlet == p.outlet && p.name == KeptFor(rows, c).name
  {
    hide NameKey, KeptOf, KeptFor, Groups;
    var groups := Groups(rows, NameKey);
    GroupsNonEmpty(rows);
    CarriedAllFrom(groups, p);
    if p in CarriedBy(rows) {
      var i, c: Category :| 0 <= i < |groups| && c in groups[i] && c.status.Active? && c.outlet == p.outlet
        && p.name == KeptOf(groups[i]).name;
      GroupKept(rows, i, c);
    }
    if c :| c in rows && c.status.Active? && c.outlet == p.outlet && p.name == KeptFor(rows, c).name {
      var i := GroupOf(rows, c);
      GroupKept(rows, i, c);
    }
  }

  // ----- rows the carry table refers to -----

  /** The row its name keeps, told by the columns: the first active one, or the first where none is active. */
  ghost predicate IsKeptRow(rows: seq<Category>, c: Category) {
    && c in rows
    && forall d :: d in rows && NameKey(d) == NameKey(c) ==>
         if c.status.Active? then d.status.Archived? || c.id <= d.id else d.status.Archived? && c.id <= d.id
  }

  /** No row that others refer to would be deleted: each is the one its name keeps. */
  ghost predicate Deletable(rows: seq<Category>, referred: set<Id>) {
    forall c :: c in rows && c.id in referred ==> IsKeptRow(rows, c)
  }

  lemma {:induction false} FirstActiveFirst(group: seq<Category>, c: Category)
    requires AscendingIds(group) && c in group && c.status.Active?
    ensures FirstActive(group).Some? && FirstActive(group).value.id <= c.id
  {
    var n := |group| - 1;
    if c in group[..n] {
      FirstActiveFirst(group[..n], c);
    } else {
      FirstActiveExact(group[..n]);
      assert forall d :: d in group[..n] ==> d.id < group[n].id;
    }
  }

  lemma GroupAscending(rows: seq<Category>, k: string)
    requires AscendingIds(rows)
    ensures AscendingIds(WithKey(rows, NameKey, k))
  {
    var idOf := (c: Category) => c.id;
    assert Increasing(rows, idOf);
    WithKeyOrdered(rows, NameKey, k, idOf);
    assert forall c: Category :: idOf(c) == c.id;
  }

  lemma KeptRowIsKept(rows: seq<Category>, c: Category)
    requires AscendingIds(rows) && c in rows
    ensures IsKeptRow(rows, KeptFor(rows, c))
  {
    hide NameKey;
    var group, kept := WithKey(rows, NameKey, NameKey(c)), KeptFor(rows, c);
    WithKeyMembers(rows, NameKey, NameKey(c));
    GroupAscending(rows, NameKey(c));
    KeptForFacts(rows, c);
    FirstActiveExact(group);
    forall d | d in rows && NameKey(d) == NameKey(kept)
      ensures
        if kept.status.Active? then d.status.Archived? || kept.id <= d.id
        else d.status.Archived? && kept.id <= d.id
    {
      assert d in group;
      if d.status.Active? {
        FirstActiveFirst(group, d);
      } else if FirstActive(group).None? {
        var i :| 0 <= i < |group| && group[i] == d;
      }
    }
  }

  /** The merge keeps exactly the rows the columns name. */
  lemma KeptRowExactly(rows: seq<Category>, c: Category)
    requires AscendingIds(rows) && c in rows
    ensures c == KeptFor(rows, c) <==> IsKeptRow(rows, c)
  {
    hide NameKey, KeptFor;
    KeptForFacts(rows, c);
    KeptRowIsKept(rows, c);
    if IsKeptRow(rows, c) {
      SameIdSameCategory(rows, c, KeptFor(rows, c));
    }
  }

  /** The deletes go through exactly when none of them takes a row that is referred to. */
  lemma DeletableExactly(rows: seq<Category>, referred: set<Id>)
    requires AscendingIds(rows) && NonEmptyGroups(Groups(rows, NameKey))
    ensures OthersAll(Groups(rows, NameKey)) !! referred <==> Deletable(rows, referred)
  {
    hide NameKey, KeptFor, Groups, OthersAll, IsKeptRow, DeleteIds, AscendingIds;
    var ids := OthersAll(Groups(rows, NameKey));
    DeleteIdsMembers(rows, ids);
    forall c | c in rows ensures c.id in ids <==> !IsKeptRow(rows, c) {
      SurvivesExactly(rows, c);
      KeptRowExactly(rows, c);
    }
    forall id | id in ids ensures exists c :: c in rows && c.id == id {
      OthersAllFrom(Groups(rows, NameKey), id);
      var i, c: Category :| 0 <= i < |Groups(rows, NameKey)| && c in Groups(rows, NameKey)[i] && c.id == id
        && c.id != KeptOf(Groups(rows, NameKey)[i]).id;
      GroupKept(rows, i, c);
    }
  }

  lemma NothingReferred(rows: seq<Category>)
    ensures Deletable(rows, {})
  {
  }

  /** Where no name is repeated nothing is deleted. */
  lemma UniqueIsDeletable(rows: seq<Category>, referred: set<Id>)
    requires UniqueNames(rows)
    ensures Deletable(rows, referred)
  {
    hide NameKey;
  }

  lemma {:induction false} OthersAllGrows(groups: seq<seq<Category>>, g: nat)
    requires g <= |groups| && NonEmptyGroups(groups)
    ensures NonEmptyGroups(groups[..g]) && OthersAll(groups[..g]) <= OthersAll(groups)
  {
    if g < |groups| {
      OthersAllGrows(groups[..|groups| - 1], g);
      assert groups[..|groups| - 1][..g] == groups[..g];
    } else {
      assert groups[..g] == groups;
    }
  }
}
