/** What the fan-out of shared categories to outlets promises. */
module CategoryFanOutTheorems {
  import opened Tables
  import opened Names
  import opened Categories
  import opened CategoryRegistration
  import opened CategoryFanOut

  /** The table after `up`. */
  function FannedOut(w: World, cats: seq<Category>, next: Id): seq<Category> {
    Placed(w, cats) + Copies(w, cats, next)
  }

  /** The rows `up` does not delete. */
  ghost function Attachable(w: World, cats: seq<Category>): seq<Category> {
    if cats == [] then []
    else
      var last := cats[|cats| - 1];
      Attachable(w, cats[..|cats| - 1]) + if w.HasOutlet(last.property) then [last] else []
  }

  /** Where a row of the fanned-out table comes from: one original row, one outlet chosen for it. */
  lemma RowSource(w: World, cats: seq<Category>, next: Id, k: nat) returns (i: nat, j: nat)
    requires k < |FannedOut(w, cats, next)|
    ensures i < |cats| && j < |w.Chosen(cats[i])|
    ensures FannedOut(w, cats, next)[k] ==
      cats[i].(id := FannedOut(w, cats, next)[k].id, outlet := Some(w.Chosen(cats[i])[j]))
    ensures j == 0 <==> k < |Placed(w, cats)|
    ensures j == 0 ==> FannedOut(w, cats, next)[k].id == cats[i].id
    ensures j > 0 ==> k == |Placed(w, cats)| + |Copies(w, cats[..i], next)| + j - 1
  {
    hide World.Chosen, World.PlanFor;
    if k < |Placed(w, cats)| {
      i := PlacedFrom(w, cats, Placed(w, cats)[k]);
      j := 0;
    } else {
      i, j := CopiesFrom(w, cats, next, k - |Placed(w, cats)|);
    }
  }

  /** Every chosen outlet gets its row. */
  lemma IntoFannedOut(w: World, cats: seq<Category>, next: Id, i: nat, o: Outlet) returns (r: Category)
    requires i < |cats| && o in w.Chosen(cats[i])
    ensures r in FannedOut(w, cats, next)
    ensures r == cats[i].(id := r.id, outlet := Some(o))
  {
    hide World.Chosen, World.PlanFor;
    var j :| 0 <= j < |w.Chosen(cats[i])| && w.Chosen(cats[i])[j] == o;
    if j == 0 {
      IntoPlaced(w, cats, i);
      r := cats[i].(outlet := Some(o));
    } else {
      var k := IntoCopies(w, cats, next, i, j);
      r := Copies(w, cats, next)[k];
    }
  }

  lemma SameSlotSameRow(cats: seq<Category>, i: nat, j: nat)
    requires UniqueSlots(cats) && i < |cats| && j < |cats| && Slot(cats[i]) == Slot(cats[j])
    ensures i == j
  {
  }

  /** The new key (outlet, name) holds, and every row has its outlet, so both constraints can be added. */
  lemma UniquePerOutlet(w: World, cats: seq<Category>, next: Id, k: nat, l: nat)
    requires AscendingIds(cats) && IdsBelow(cats, next) && UniqueSlots(cats) && w.Valid()
    requires k < l < |FannedOut(w, cats, next)|
    ensures var a, b := FannedOut(w, cats, next)[k], FannedOut(w, cats, next)[l];
      a.outlet.Some? && b.outlet.Some? && !(a.outlet == b.outlet && Key(a.name) == Key(b.name))
  {
    hide World.PlanFor, World.Chosen, Key, Placed, Copies, UniqueSlots;
    var a, b := FannedOut(w, cats, next)[k], FannedOut(w, cats, next)[l];
    var i, m := RowSource(w, cats, next, k);
    var j, n := RowSource(w, cats, next, l);
    ChosenExact(w, cats[i]);
    ChosenExact(w, cats[j]);
    var p, q := OutletRow(cats[i].property, w.Chosen(cats[i])[m]), OutletRow(cats[j].property, w.Chosen(cats[j])[n]);
    assert p in w.outlets && q in w.outlets;
    if a.outlet == b.outlet && Key(a.name) == Key(b.name) {
      assert p == q;
      assert Slot(cats[i]) == Slot(cats[j]);
      SameSlotSameRow(cats, i, j);
      assert m == n;
      UpKeepsIdsInOrder(w, cats, next);
      assert false;
    }
  }

  // ----- `down` after `up` -----

  lemma {:induction false} FirstsOfUnique(rows: seq<Category>)
    requires UniqueSlots(rows)
    ensures Firsts(rows) == rows
  {
    if rows != [] {
      FirstsOfUnique(rows[..|rows| - 1]);
    }
  }

  lemma {:induction false} FirstsDropRepeats(rows: seq<Category>, more: seq<Category>)
    requires forall r :: r in more ==> Slot(r) in Slots(rows)
    ensures Firsts(rows + more) == Firsts(rows)
  {
    hide Slot;
    if more == [] {
      assert rows + more == rows;
    } else {
      var n := |more| - 1;
      FirstsDropRepeats(rows, more[..n]);
      assert (rows + more)[..|rows + more| - 1] == rows + more[..n];
      assert Slots(rows) <= Slots(rows + more[..n]);
    }
  }

  lemma {:induction false} PlacedShape(w: World, cats: seq<Category>)
    requires w.Valid() && UniqueSlots(cats)
    ensures UniqueSlots(Placed(w, cats))
    ensures (forall c :: c in cats ==> c.outlet.None?) ==> WithoutOutlet(Placed(w, cats)) == Attachable(w, cats)
  {
    hide World.PlanFor, Key;
    if cats != [] {
      var n := |cats| - 1;
      PlacedShape(w, cats[..n]);
      ChosenExact(w, cats[n]);
      forall r | r in Placed(w, cats[..n]) ensures Slot(r) != Slot(cats[n]) {
        var i := PlacedFrom(w, cats[..n], r);
      }
    }
  }

  /** The round trip: `down` after `up` gives back exactly the rows of properties with an outlet. */
  lemma DownAfterUp(w: World, cats: seq<Category>, next: Id)
    requires AscendingIds(cats) && IdsBelow(cats, next) && UniqueSlots(cats) && w.Valid()
    requires forall c :: c in cats ==> c.outlet.None?
    ensures WithoutOutlet(Firsts(FannedOut(w, cats, next))) == Attachable(w, cats)
    ensures WithoutOutlet(Firsts(FannedOut(w, cats, next))) == cats <==>
      forall c :: c in cats ==> w.HasOutlet(c.property)
  {
    hide World.PlanFor, World.Chosen, Key;
    PlacedShape(w, cats);
    FirstsOfUnique(Placed(w, cats));
    forall r | r in Copies(w, cats, next) ensures Slot(r) in Slots(Placed(w, cats)) {
      var k :| 0 <= k < |Copies(w, cats, next)| && Copies(w, cats, next)[k] == r;
      var i, j := CopiesFrom(w, cats, next, k);
      IntoPlaced(w, cats, i);
      assert Slot(cats[i].(outlet := Some(w.Chosen(cats[i])[0]))) == Slot(r);
    }
    FirstsDropRepeats(Placed(w, cats), Copies(w, cats, next));
    AttachableAll(w, cats);
  }

  lemma {:induction false} AttachableAll(w: World, cats: seq<Category>)
    ensures |Attachable(w, cats)| <= |cats|
    ensures Attachable(w, cats) == cats <==> forall c :: c in cats ==> w.HasOutlet(c.property)
    ensures |Attachable(w, cats)| == |cats| ==> Attachable(w, cats) == cats
  {
    if cats != [] {
      var n := |cats| - 1;
      AttachableAll(w, cats[..n]);
      assert cats == cats[..n] + [cats[n]];
    }
  }

  // ----- registration, then fan-out -----

  /** Every menu item with a non-blank category finds exactly one row of that name at its own outlet. */
  lemma EveryItemCovered(w: World, existing: seq<(Id, string)>, cats: seq<Category>, next: Id, f: Filing)
    requires w.Valid() && SelectsAllFiled(existing, w.items)
    requires AscendingIds(cats) && IdsBelow(cats, next) && UniqueSlots(cats) && Slots(cats) == SelectedSlots(existing)
    requires f in w.items && f.category.Some? && Trim(f.category.value) != ""
    ensures exists r :: r in FannedOut(w, cats, next) && r.outlet == Some(f.outlet) && Matches(f, r)
    ensures forall a, b | a in FannedOut(w, cats, next) && b in FannedOut(w, cats, next) ::
      a.outlet == b.outlet == Some(f.outlet) && Matches(f, a) && Matches(f, b) ==> a == b
  {
    hide World.PlanFor, World.Chosen, Key, Placed, Copies, Trim, UniqueSlots, AscendingIds;
    EveryItemRegistered(w.items, existing, cats, f);
    var c :| c in cats && Matches(f, c);
    var i :| 0 <= i < |cats| && cats[i] == c;
    ChosenExact(w, c);
    var r := IntoFannedOut(w, cats, next, i, f.outlet);
    assert Matches(f, r);
    var rows := FannedOut(w, cats, next);
    forall a, b | a in rows && b in rows && a.outlet == b.outlet == Some(f.outlet) && Matches(f, a) && Matches(f, b)
      ensures a == b
    {
      var k :| 0 <= k < |rows| && rows[k] == a;
      var l :| 0 <= l < |rows| && rows[l] == b;
      if k < l {
        UniquePerOutlet(w, cats, next, k, l);
      } else if l < k {
        UniquePerOutlet(w, cats, next, l, k);
      }
    }
  }
}
