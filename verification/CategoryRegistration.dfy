/** 20261005090000: the free-text categories of the menu items become registered rows. */
module CategoryRegistration {
  import opened Tables
  import opened Names
  import opened Categories

  /** A `GROUP BY` result: the trimmed non-blank categories, in whatever order and with whatever case folding. */
  ghost predicate SelectsOnlyFiled(existing: seq<(Id, string)>, items: seq<Filing>) {
    forall e :: e in existing ==>
      exists f :: f in items && f.property == e.0 && f.category.Some? && e.1 == Trim(f.category.value) != ""
  }

  ghost predicate SelectsAllFiled(existing: seq<(Id, string)>, items: seq<Filing>) {
    forall f :: f in items && f.category.Some? && Trim(f.category.value) != "" ==>
      exists e :: e in existing && e.0 == f.property && Key(e.1) == Key(f.category.value)
  }

  function SelectedSlots(existing: seq<(Id, string)>): set<(Id, string)> {
    set e | e in existing :: (e.0, Key(e.1))
  }

  /** Each registered row carries the first spelling selected for its slot. */
  ghost predicate FirstSpelling(c: Category, existing: seq<(Id, string)>) {
    exists i :: 0 <= i < |existing| && existing[i] == (c.property, c.name) && Slot(c) !in SelectedSlots(existing[..i])
  }

  method Register(existing: seq<(Id, string)>) returns (rows: seq<Category>)
    ensures UniqueSlots(rows) && Slots(rows) == SelectedSlots(existing)
    ensures forall c :: c in rows ==>
      c.outlet.None? && c.status.Active? && c.sortOrder == 0 && FirstSpelling(c, existing)
    ensures forall i :: 0 <= i < |rows| ==> rows[i].id == i + 1
  {
    hide Key, UniqueSlots, Slots;
    var seen: set<(Id, string)> := {};
    rows := [];
    assert Slots([]) == {} && UniqueSlots([]) by { NoSlots(); }
    for i := 0 to |existing|
      invariant seen == Slots(rows) == SelectedSlots(existing[..i])
      invariant UniqueSlots(rows)
      invariant forall c :: c in rows ==>
        c.outlet.None? && c.status.Active? && c.sortOrder == 0 && FirstSpelling(c, existing)
      invariant forall j :: 0 <= j < |rows| ==> rows[j].id == j + 1
    {
      var (property, name) := existing[i];
      assert existing[..i + 1] == existing[..i] + [existing[i]];
      if (property, Key(name)) in seen {
        continue;
      }
      seen := seen + {(property, Key(name))};
      var row := Category(|rows| + 1, property, None, name, 0, Active);
      assert FirstSpelling(row, existing);
      AddUnique(rows, row);
      rows := rows + [row];
    }
    assert existing[..|existing|] == existing;
  }

  lemma NoSlots()
    ensures Slots([]) == {} && UniqueSlots([])
  {
  }

  lemma AddUnique(rows: seq<Category>, row: Category)
    requires UniqueSlots(rows) && Slot(row) !in Slots(rows)
    ensures UniqueSlots(rows + [row]) && Slots(rows + [row]) == Slots(rows) + {Slot(row)}
  {
  }

  /** After registration every filed item has exactly one category of its property under its name. */
  lemma EveryItemRegistered(items: seq<Filing>, existing: seq<(Id, string)>, rows: seq<Category>, f: Filing)
    requires SelectsAllFiled(existing, items)
    requires UniqueSlots(rows) && Slots(rows) == SelectedSlots(existing)
    requires f in items && f.category.Some? && Trim(f.category.value) != ""
    ensures exists c :: c in rows && Matches(f, c)
    ensures forall c, d :: c in rows && d in rows && Matches(f, c) && Matches(f, d) ==> c == d
  {
    hide Key, Trim;
    var e :| e in existing && e.0 == f.property && Key(e.1) == Key(f.category.value);
    assert (e.0, Key(e.1)) in SelectedSlots(existing);
    var c :| c in rows && Slot(c) == (e.0, Key(e.1));
    assert Matches(f, c);
    forall a, b | a in rows && b in rows && Matches(f, a) && Matches(f, b) ensures a == b {
      assert Slot(a) == Slot(b);
    }
  }

  /** Nothing else is registered: every row's name is some item's category, trimmed and not blank. */
  lemma OnlyFiledRegistered(items: seq<Filing>, existing: seq<(Id, string)>, c: Category)
    requires SelectsOnlyFiled(existing, items) && FirstSpelling(c, existing)
    ensures c.name != "" && exists f :: f in items && Matches(f, c) && c.name == Trim(f.category.value)
  {
    var i :| 0 <= i < |existing| && existing[i] == (c.property, c.name);
    var f :| f in items && f.property == c.property && f.category.Some? && c.name == Trim(f.category.value) != "";
    KeyOfTrim(f.category.value);
    assert Matches(f, c);
  }
}
