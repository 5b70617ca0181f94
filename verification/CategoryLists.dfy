/** One category table of a property during the shared-catalogue migration, with its lookup map by name. */
module CategoryLists {
  import opened Tables
  import opened Names
  import opened Categories
  import opened Grouping
  import opened CategoryFanOut
  import opened CategoryMerge

  /** What the lookup map remembers of a row. */
  datatype Entry = Entry(id: Id, name: string)

  function EntryOf(c: Category): Entry {
    Entry(c.id, c.name)
  }

  /** The map has a key exactly when one row has it, and then describes that row. */
  ghost predicate Describes(byName: map<string, Entry>, rows: seq<Category>) {
    && UniqueNames(rows)
    && byName.Keys == NameKeys(rows)
    && forall c :: c in rows ==> NameKey(c) in byName && byName[NameKey(c)] == EntryOf(c)
  }

  function ActiveKeys(rows: seq<Category>): set<string> {
    set c | c in rows && c.status.Active? :: NameKey(c)
  }

  /** A row the migration adds: active, at no outlet. */
  ghost predicate AddedRow(c: Category) {
    c.status.Active? && c.outlet.None?
  }

  /** `now` is `before` and further rows the migration added. */
  ghost predicate Extends(before: seq<Category>, now: seq<Category>) {
    before <= now && forall i :: |before| <= i < |now| ==> AddedRow(now[i])
  }

  /** The row bears the name, and stands at the place, of an active row of the other list. */
  ghost predicate BearsActiveName(row: Category, others: seq<Category>) {
    exists c :: c in others && c.status.Active? && c.name == row.name && c.sortOrder == row.sortOrder
  }

  /** `now` is `before` and added rows that mirror active rows of the other list under names not known yet. */
  ghost predicate Mirrors(before: seq<Category>, now: seq<Category>, others: seq<Category>, known: set<string>) {
    && Extends(before, now)
    && forall i :: |before| <= i < |now| ==> NameKey(now[i]) !in known && BearsActiveName(now[i], others)
  }

  lemma MirrorsNone(rows: seq<Category>, others: seq<Category>, known: set<string>)
    ensures Mirrors(rows, rows, others, known)
  {
  }

  lemma MirrorsOneMore(
    before: seq<Category>, now: seq<Category>, others: seq<Category>, known: set<string>, c: Category, row: Category)
    requires Mirrors(before, now, others, known)
    requires c in others && c.status.Active? && row.name == c.name && row.sortOrder == c.sortOrder && AddedRow(row)
    requires NameKey(row) !in known
    ensures Mirrors(before, now + [row], others, known)
  {
  }

  lemma DescribesMore(byName: map<string, Entry>, rows: seq<Category>, c: Category)
    requires Describes(byName, rows) && NameKey(c) !in byName
    ensures Describes(byName[NameKey(c) := EntryOf(c)], rows + [c])
  {
  }

  lemma AppendInOrder(rows: seq<Category>, row: Category, next: Id)
    requires AscendingIds(rows) && IdsBelow(rows, next) && row.id == next
    ensures AscendingIds(rows + [row]) && IdsBelow(rows + [row], next + 1)
  {
  }

  lemma DeletedStaysValid(rows: seq<Category>, ids: set<Id>, next: Id)
    requires AscendingIds(rows) && IdsBelow(rows, next)
    ensures AscendingIds(DeleteIds(rows, ids)) && IdsBelow(DeleteIds(rows, ids), next)
  {
    DeleteIdsOrder(rows, ids);
    DeleteIdsMembers(rows, ids);
  }

  class CategoryList {
    const property: Id
    var rows: seq<Category>
    var nextId: Id
    var byName: map<string, Entry>

    ghost predicate Valid()
      reads this
    {
      AscendingIds(rows) && IdsBelow(rows, nextId)
    }

    ghost predicate InStep()
      reads this
    {
      Valid() && Describes(byName, rows)
    }

    constructor (property: Id, rows: seq<Category>, nextId: Id)
      requires AscendingIds(rows) && IdsBelow(rows, nextId)
      ensures Valid() && this.property == property && this.rows == rows && this.nextId == nextId
    {
      this.property, this.rows, this.nextId, this.byName := property, rows, nextId, map[];
    }

    /** `mergeCategories`; false where a delete would take a row that others refer to. */
    method Merge(referred: set<Id>) returns (ok: bool, carried: seq<Carried>)
      requires Valid()
      modifies this`rows
      ensures ok <==> Deletable(old(rows), referred)
      ensures ok ==> rows == Merged(old(rows)) && carried == CarriedBy(old(rows))
      ensures Valid()
    {
      hide NameKey, KeptOf, DeleteIds, CarriedOf, OthersOf, AscendingIds, IdsBelow, Deletable;
      var groups := GroupBy(rows, NameKey);
      GroupsNonEmpty(rows);
      DeletableExactly(rows, referred);
      carried := [];
      DeleteNone(rows, {});
      for g := 0 to |groups|
        invariant NonEmptyGroups(groups[..g])
        invariant carried == CarriedAll(groups[..g])
        invariant rows == DeleteIds(old(rows), OthersAll(groups[..g]))
        invariant OthersAll(groups[..g]) !! referred
        invariant Valid()
      {
        var group := groups[g];
        assert groups[..g + 1][..g] == groups[..g];
        var kept := KeptOf(group);
        var more := CollectCarried(kept, group);
        carried := carried + more;
        OthersAllGrows(groups, g + 1);
        if OthersOf(kept, group) * referred != {} {
          return false, carried;
        }
        DeletedStaysValid(rows, OthersOf(kept, group), nextId);
        DeleteTwice(old(rows), OthersAll(groups[..g]), OthersOf(kept, group));
        rows := DeleteIds(rows, OthersOf(kept, group));
      }
      assert groups[..|groups|] == groups;
      ok := true;
    }

    static method CollectCarried(kept: Category, group: seq<Category>) returns (carried: seq<Carried>)
      ensures carried == CarriedOf(kept, group)
    {
      carried := [];
      for i := 0 to |group|
        invariant carried == CarriedOf(kept, group[..i])
      {
        assert group[..i + 1][..i] == group[..i];
        if group[i].status.Active? {
          carried := carried + [Carried(kept.name, group[i].outlet)];
        }
      }
      assert group[..|group|] == group;
    }

    /** `new Map(rows.map((row) => [key(row.name), row]))`: a later row would replace an earlier one. */
    method Index()
      requires Valid() && UniqueNames(rows)
      modifies this`byName
      ensures InStep()
    {
      hide NameKey;
      byName := map[];
      for i := 0 to |rows|
        invariant Describes(byName, rows[..i])
      {
        assert rows[..i + 1] == rows[..i] + [rows[i]];
        assert forall j :: 0 <= j < i ==> NameKey(rows[..i][j]) != NameKey(rows[i]);
        DescribesMore(byName, rows[..i], rows[i]);
        byName := byName[NameKey(rows[i]) := EntryOf(rows[i])];
      }
      assert rows[..|rows|] == rows;
    }

    /** Insert an active row at no outlet and remember it under its name. */
    method Add(name: string, sortOrder: int)
      requires InStep() && Key(name) !in byName
      modifies this`rows, this`nextId, this`byName
      ensures InStep()
      ensures rows == old(rows) + [Category(old(nextId), property, None, name, sortOrder, Active)]
      ensures byName == old(byName)[Key(name) := Entry(old(nextId), name)]
    {
      hide Key, Describes, AscendingIds, IdsBelow;
      var row := Category(nextId, property, None, name, sortOrder, Active);
      DescribesMore(byName, rows, row);
      AppendInOrder(rows, row, nextId);
      assert NameKey(row) == Key(name);
      rows := rows + [row];
      nextId := nextId + 1;
      byName := byName[Key(name) := Entry(row.id, name)];
    }

    /** One half of making both lists hold the same names: the other list's active rows missing here are added. */
    method AddMissing(others: seq<Category>)
      requires InStep()
      modifies this
      ensures InStep() && Mirrors(old(rows), rows, others, old(byName.Keys))
      ensures byName.Keys == old(byName.Keys) + ActiveKeys(others)
      ensures forall k :: k in old(byName) ==> byName[k] == old(byName[k])
    {
      hide Key, Describes, Mirrors, AscendingIds, IdsBelow;
      MirrorsNone(rows, others, byName.Keys);
      for i := 0 to |others|
        invariant InStep() && Mirrors(old(rows), rows, others, old(byName.Keys))
        invariant byName.Keys == old(byName.Keys) + ActiveKeys(others[..i])
        invariant forall k :: k in old(byName) ==> byName[k] == old(byName[k])
      {
        var row := others[i];
        assert others[..i + 1] == others[..i] + [row];
        if row.status.Active? && Key(row.name) !in byName {
          MirrorsOneMore(old(rows), rows, others, old(byName.Keys), row,
                         Category(nextId, property, None, row.name, row.sortOrder, Active));
          Add(row.name, row.sortOrder);
        }
      }
      assert others[..|others|] == others;
    }
  }
}
