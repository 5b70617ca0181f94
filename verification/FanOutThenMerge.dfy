/** Fanning categories out to outlets and merging them again gives back the list that was fanned out. */
module FanOutThenMerge {
  import opened Tables
  import opened Names
  import opened Categories
  import opened Grouping
  import opened CategoryFanOut
  import opened CategoryFanOutTheorems
  import opened CategoryMerge

  function OfProperty(rows: seq<Category>, property: Id): seq<Category> {
    if rows == [] then []
    else
      var last := rows[|rows| - 1];
      OfProperty(rows[..|rows| - 1], property) + if last.property == property then [last] else []
  }

  lemma {:induction false} OfPropertyMembers(rows: seq<Category>, property: Id)
    ensures forall c :: c in OfProperty(rows, property) <==> c in rows && c.property == property
  {
    if rows != [] {
      OfPropertyMembers(rows[..|rows| - 1], property);
      assert rows == rows[..|rows| - 1] + [rows[|rows| - 1]];
    }
  }

  lemma {:induction false} OfPropertyAppend(a: seq<Category>, b: seq<Category>, property: Id)
    ensures OfProperty(a + b, property) == OfProperty(a, property) + OfProperty(b, property)
  {
    if b == [] {
      assert a + b == a;
    } else {
      OfPropertyAppend(a, b[..|b| - 1], property);
      assert (a + b)[..|a + b| - 1] == a + b[..|b| - 1];
    }
  }

  lemma {:induction false} OfPropertyAscending(rows: seq<Category>, property: Id)
    requires AscendingIds(rows)
    ensures AscendingIds(OfProperty(rows, property))
  {
    if rows != [] {
      var n := |rows| - 1;
      OfPropertyAscending(rows[..n], property);
      OfPropertyMembers(rows[..n], property);
      assert forall c :: c in rows[..n] ==> c.id < rows[n].id;
    }
  }

  lemma {:induction false} KeptOfUniform(group: seq<Category>, status: Status)
    requires group != [] && forall c :: c in group ==> c.status == status
    ensures FirstActive(group) == if status.Active? then Some(group[0]) else None
    ensures KeptOf(group) == group[0]
  {
    var n := |group| - 1;
    assert group[0] in group && group[n] in group;
    if n > 0 {
      KeptOfUniform(group[..n], status);
    } else {
      assert FirstActive(group[..n]).None?;
    }
  }

  function IdOf(c: Category): Id {
    c.id
  }

  /** The fanned-out table of one property. */
  function Spread(w: World, cats: seq<Category>, next: Id, property: Id): seq<Category> {
    OfProperty(FannedOut(w, cats, next), property)
  }

  lemma SpreadSource(w: World, cats: seq<Category>, next: Id, property: Id, c: Category) returns (i: nat)
    requires IdsBelow(cats, next) && c in Spread(w, cats, next, property)
    ensures i < |cats| && cats[i].property == property && c.outlet.Some? && c.outlet.value in w.Chosen(cats[i])
    ensures c == cats[i].(id := c.id, outlet := c.outlet)
    ensures c in Placed(w, cats) <==> c == cats[i].(outlet := Some(w.Chosen(cats[i])[0]))
    ensures c in Placed(w, cats) || next <= c.id
  {
    hide World.Chosen, World.PlanFor, Key, Placed, Copies;
    var rows := FannedOut(w, cats, next);
    OfPropertyMembers(rows, property);
    var k :| 0 <= k < |rows| && rows[k] == c;
    var m, j := RowSource(w, cats, next, k);
    i := m;
    if k < |Placed(w, cats)| {
      assert Placed(w, cats)[k] == c;
    } else {
      var n, l := CopiesFrom(w, cats, next, k - |Placed(w, cats)|);
    }
    if c == cats[i].(outlet := Some(w.Chosen(cats[i])[0])) {
      IntoPlaced(w, cats, i);
    }
    if c in Placed(w, cats) {
      var n := PlacedFrom(w, cats, c);
    }
  }

  /** In the group of a name, the original row comes first and all rows share its status. */
  lemma OriginalKept(w: World, cats: seq<Category>, next: Id, property: Id, c: Category)
    requires AscendingIds(cats) && IdsBelow(cats, next) && UniqueSlots(cats)
    requires c in Spread(w, cats, next, property)
    ensures KeptFor(Spread(w, cats, next, property), c) in Placed(w, cats)
    ensures KeptFor(Spread(w, cats, next, property), c).name == c.name
  {
    hide World.Chosen, World.PlanFor, Key, Placed, Copies, KeptOf, UniqueSlots;
    var rows := Spread(w, cats, next, property);
    var group := WithKey(rows, NameKey, NameKey(c));
    WithKeyMembers(rows, NameKey, NameKey(c));
    assert c in group;
    var i := SpreadSource(w, cats, next, property, c);
    forall d | d in group ensures d == cats[i].(id := d.id, outlet := d.outlet) {
      var j := SpreadSource(w, cats, next, property, d);
      assert Slot(cats[i]) == Slot(cats[j]);
      SameSlotSameRow(cats, i, j);
    }
    KeptOfUniform(group, cats[i].status);
    // The original row is in the group; ids grow along it, and copies have higher ids.
    IntoPlaced(w, cats, i);
    var original := cats[i].(outlet := Some(w.Chosen(cats[i])[0]));
    OfPropertyMembers(FannedOut(w, cats, next), property);
    assert original in rows && original in group;
    UpKeepsIdsInOrder(w, cats, next);
    OfPropertyAscending(FannedOut(w, cats, next), property);
    assert Increasing(rows, IdOf);
    WithKeyOrdered(rows, NameKey, NameKey(c), IdOf);
    var n :| 0 <= n < |group| && group[n] == original;
    assert IdOf(group[0]) <= IdOf(group[n]);
    assert group[0] in group && cats[i] in cats;
    var j := SpreadSource(w, cats, next, property, group[0]);
  }

  /** Merging the fanned-out list of a property keeps exactly the original rows, each at its first outlet. */
  lemma MergeUndoesFanOut(w: World, cats: seq<Category>, next: Id, property: Id)
    requires AscendingIds(cats) && IdsBelow(cats, next) && UniqueSlots(cats) && w.Valid()
    ensures Merged(Spread(w, cats, next, property)) == OfProperty(Placed(w, cats), property)
  {
    hide World.Chosen, World.PlanFor, World.Valid, Key, Placed, Copies, KeptFor, OthersAll, Groups, DeleteIds,
         UniqueSlots;
    var rows := Spread(w, cats, next, property);
    GroupsNonEmpty(rows);
    var ids := OthersAll(Groups(rows, NameKey));
    UpKeepsIdsInOrder(w, cats, next);
    OfPropertyAscending(FannedOut(w, cats, next), property);
    OfPropertyAppend(Placed(w, cats), Copies(w, cats, next), property);
    var originals, copies := OfProperty(Placed(w, cats), property), OfProperty(Copies(w, cats, next), property);
    DeleteIdsMembers(rows, ids);
    forall c | c in rows ensures c.id in ids <==> c !in Placed(w, cats) {
      SurvivesExactly(rows, c);
      OriginalKept(w, cats, next, property, c);
      KeptForFacts(rows, c);
      if c in Placed(w, cats) {
        SamePlaced(w, cats, next, property, c, KeptFor(rows, c));
      }
    }
    OfPropertyMembers(Placed(w, cats), property);
    OfPropertyMembers(Copies(w, cats, next), property);
    assert forall c :: c in originals ==> c in rows;
    assert forall c :: c in copies ==> c in rows;
    DeleteAppend(originals, copies, ids);
    DeleteNone(originals, ids);
    forall c | c in copies ensures c !in Placed(w, cats) {
      CopyIsNew(w, cats, next, c);
    }
    DeleteAll(copies, ids);
    assert originals + [] == originals;
  }

  lemma CopyIsNew(w: World, cats: seq<Category>, next: Id, c: Category)
    requires IdsBelow(cats, next) && c in Copies(w, cats, next)
    ensures c !in Placed(w, cats)
  {
    hide World.Chosen, World.PlanFor, Placed, Copies;
    var k :| 0 <= k < |Copies(w, cats, next)| && Copies(w, cats, next)[k] == c;
    var i, j := CopiesFrom(w, cats, next, k);
    if c in Placed(w, cats) {
      var m := PlacedFrom(w, cats, c);
    }
  }

  lemma SamePlaced(w: World, cats: seq<Category>, next: Id, property: Id, c: Category, d: Category)
    requires IdsBelow(cats, next) && UniqueSlots(cats) && c in Spread(w, cats, next, property)
    requires d in Spread(w, cats, next, property)
    requires c in Placed(w, cats) && d in Placed(w, cats) && c.name == d.name
    ensures c == d
  {
    hide World.Chosen, World.PlanFor, Placed, Copies, Key, UniqueSlots;
    var i := SpreadSource(w, cats, next, property, c);
    var j := SpreadSource(w, cats, next, property, d);
    assert Slot(cats[i]) == Slot(cats[j]);
    SameSlotSameRow(cats, i, j);
  }

  lemma {:induction false} DeleteAll(rows: seq<Category>, ids: set<Id>)
    requires forall c :: c in rows ==> c.id in ids
    ensures DeleteIds(rows, ids) == []
  {
    if rows != [] {
      DeleteAll(rows[..|rows| - 1], ids);
    }
  }

  /** The outlets that carry an active category afterwards are exactly those the fan-out chose for it. */
  lemma CarriedIsChosen(w: World, cats: seq<Category>, next: Id, i: nat, o: Outlet)
    requires AscendingIds(cats) && IdsBelow(cats, next) && UniqueSlots(cats)
    requires i < |cats| && cats[i].status.Active?
    ensures Carried(cats[i].name, Some(o)) in CarriedBy(Spread(w, cats, next, cats[i].property)) <==>
      o in w.Chosen(cats[i])
  {
    hide World.Chosen, World.PlanFor, Placed, Copies, Key, UniqueSlots, KeptFor, CarriedAll, Groups;
    var property := cats[i].property;
    var rows := Spread(w, cats, next, property);
    var p := Carried(cats[i].name, Some(o));
    CarriedExactly(rows, p);
    if c :| c in rows && c.status.Active? && c.outlet == p.outlet && p.name == KeptFor(rows, c).name {
      OriginalKept(w, cats, next, property, c);
      var j := SpreadSource(w, cats, next, property, c);
      assert Slot(cats[i]) == Slot(cats[j]);
      SameSlotSameRow(cats, i, j);
    }
    if o in w.Chosen(cats[i]) {
      var c := IntoFannedOut(w, cats, next, i, o);
      OfPropertyMembers(FannedOut(w, cats, next), property);
      assert c in rows;
      OriginalKept(w, cats, next, property, c);
      assert c.status.Active? && c.outlet == p.outlet && p.name == KeptFor(rows, c).name;
    }
  }
}
