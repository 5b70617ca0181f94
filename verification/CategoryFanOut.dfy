/**
 * 20261104090000 and 20261105090000: a category shared by the property goes
 * to the outlets whose items use it, one copy each; `down` collapses the
 * copies again. The menu and the stock migration run the same steps.
 */
module CategoryFanOut {
  import opened Tables
  import opened Categories

  // ----- the queries -----

  /** `DISTINCT ... ORDER BY`: ascending, each value once. */
  function Insert(o: Outlet, sorted: seq<Outlet>): seq<Outlet> {
    if sorted == [] || o < sorted[0] then [o] + sorted
    else if o == sorted[0] then sorted
    else [sorted[0]] + Insert(o, sorted[1..])
  }

  function UsingOutlets(items: seq<Filing>, c: Category): seq<Outlet> {
    if items == [] then []
    else if Matches(items[0], c) then Insert(items[0].outlet, UsingOutlets(items[1..], c))
    else UsingOutlets(items[1..], c)
  }

  function OutletsOf(outlets: seq<OutletRow>, property: Id): seq<Outlet> {
    if outlets == [] then []
    else if outlets[0].property == property then Insert(outlets[0].id, OutletsOf(outlets[1..], property))
    else OutletsOf(outlets[1..], property)
  }

  ghost predicate Rising(s: seq<Outlet>) {
    forall i, j :: 0 <= i < j < |s| ==> s[i] < s[j]
  }

  lemma {:induction false} InsertRising(o: Outlet, sorted: seq<Outlet>)
    requires Rising(sorted)
    ensures Rising(Insert(o, sorted))
    ensures forall x :: x in Insert(o, sorted) <==> x == o || x in sorted
  {
    assert forall i :: 0 < i < |sorted| ==> sorted[0] < sorted[i];
    if sorted != [] && o > sorted[0] {
      var tail := sorted[1..];
      InsertRising(o, tail);
      assert sorted == [sorted[0]] + tail;
      ConsRising(sorted[0], Insert(o, tail));
    } else if sorted != [] && o < sorted[0] {
      ConsRising(o, sorted);
    }
  }

  lemma ConsRising(o: Outlet, s: seq<Outlet>)
    requires Rising(s) && forall x :: x in s ==> o < x
    ensures Rising([o] + s)
  {
    assert forall i :: 0 <= i < |s| ==> s[i] in s;
  }

  lemma {:induction false} UsingOutletsExact(items: seq<Filing>, c: Category)
    ensures Rising(UsingOutlets(items, c))
    ensures forall o :: o in UsingOutlets(items, c) <==> exists f :: f in items && Matches(f, c) && f.outlet == o
  {
    if items != [] {
      var rest := items[1..];
      UsingOutletsExact(rest, c);
      InsertRising(items[0].outlet, UsingOutlets(rest, c));
      forall o ensures o in UsingOutlets(items, c) <==> exists f :: f in items && Matches(f, c) && f.outlet == o {
        assert forall f :: f in items <==> f == items[0] || f in rest;
        assert o in UsingOutlets(rest, c) <==> exists f :: f in rest && Matches(f, c) && f.outlet == o;
      }
    }
  }

  lemma {:induction false} OutletsOfExact(outlets: seq<OutletRow>, property: Id)
    ensures Rising(OutletsOf(outlets, property))
    ensures forall o :: o in OutletsOf(outlets, property) <==> OutletRow(property, o) in outlets
  {
    if outlets != [] {
      OutletsOfExact(outlets[1..], property);
      InsertRising(outlets[0].id, OutletsOf(outlets[1..], property));
      assert outlets == [outlets[0]] + outlets[1..];
    }
  }

  // ----- the plan -----

  datatype Plan = Place(updateOutlet: Outlet, insertOutlets: seq<Outlet>) | Delete

  function PlanCategoryOutletFanOut(itemOutlets: seq<Outlet>, propertyOutlets: seq<Outlet>): Plan {
    if |itemOutlets| > 0 then Place(itemOutlets[0], itemOutlets[1..])
    else if |propertyOutlets| > 0 then Place(propertyOutlets[0], [])
    else Delete
  }

  /** What the migration reads besides the category table. */
  datatype World = World(items: seq<Filing>, outlets: seq<OutletRow>) {
    function PlanFor(c: Category): (plan: Plan)
    {
      PlanCategoryOutletFanOut(UsingOutlets(items, c), OutletsOf(outlets, c.property))
    }

    /** The outlets that end up with the category. */
    function Chosen(c: Category): seq<Outlet> {
      match PlanFor(c)
      case Place(first, rest) => [first] + rest
      case Delete => []
    }

    /** Foreign keys: an item's outlet is a row of its property, and an outlet id has one property. */
    ghost predicate Valid() {
      && (forall f :: f in items ==> OutletRow(f.property, f.outlet) in outlets)
      && (forall p, q :: p in outlets && q in outlets && p.id == q.id ==> p == q)
    }

    ghost predicate HasOutlet(property: Id) {
      exists p :: p in outlets && p.property == property
    }
  }

  /**
   * The outlets an existing category goes to: exactly those of the items
   * using it, or the property's lowest one if none does.
   */
  lemma ChosenExact(w: World, c: Category)
    requires w.Valid()
    ensures Rising(w.Chosen(c))
    ensures forall o :: o in w.Chosen(c) ==> OutletRow(c.property, o) in w.outlets
    ensures UsingOutlets(w.items, c) != [] ==>
      forall o :: o in w.Chosen(c) <==> exists f :: f in w.items && Matches(f, c) && f.outlet == o
    ensures UsingOutlets(w.items, c) == [] && w.HasOutlet(c.property) ==>
      |w.Chosen(c)| == 1 && forall p :: p in w.outlets && p.property == c.property ==> w.Chosen(c)[0] <= p.id
    ensures forall f :: f in w.items && Matches(f, c) ==> f.outlet in w.Chosen(c)
    ensures w.Chosen(c) == [] <==> !w.HasOutlet(c.property)
    ensures w.PlanFor(c).Delete? <==> !w.HasOutlet(c.property)
  {
    UsingOutletsExact(w.items, c);
    OutletsOfExact(w.outlets, c.property);
    var using, all := UsingOutlets(w.items, c), OutletsOf(w.outlets, c.property);
    if using != [] {
      assert w.Chosen(c) == using;
      assert using[0] in using;
    } else if all != [] {
      assert w.Chosen(c) == [all[0]];
      assert all[0] in all;
    }
    forall o | o in w.Chosen(c) ensures OutletRow(c.property, o) in w.outlets {
      if using != [] {
        var f :| f in w.items && Matches(f, c) && f.outlet == o;
      }
    }
    if p :| p in w.outlets && p.property == c.property {
      assert p.id in all;
    }
  }

  // ----- the state after `up` -----

  function PlacedRow(w: World, c: Category): seq<Category> {
    match w.PlanFor(c)
    case Place(o, _) => [c.(outlet := Some(o))]
    case Delete => []
  }

  function Copy(c: Category, o: Outlet, id: Id): Category {
    c.(id := id, outlet := Some(o))
  }

  function CopiesAt(c: Category, outlets: seq<Outlet>, next: Id): seq<Category> {
    seq(|outlets|, i requires 0 <= i < |outlets| => Copy(c, outlets[i], next + i))
  }

  function CopiesOf(w: World, c: Category, next: Id): seq<Category> {
    match w.PlanFor(c)
    case Place(_, rest) => CopiesAt(c, rest, next)
    case Delete => []
  }

  /** The original rows, each at its first outlet; those at a property with no outlet are gone. */
  function Placed(w: World, cats: seq<Category>): seq<Category> {
    if cats == [] then []
    else Placed(w, cats[..|cats| - 1]) + PlacedRow(w, cats[|cats| - 1])
  }

  /** The copies for the further outlets, in insertion order. */
  function Copies(w: World, cats: seq<Category>, next: Id): seq<Category> {
    if cats == [] then []
    else
      var before := Copies(w, cats[..|cats| - 1], next);
      before + CopiesOf(w, cats[|cats| - 1], next + |before|)
  }

  /** The state after `down`: the first row of every slot, its outlet column dropped. */
  function Firsts(rows: seq<Category>): seq<Category> {
    if rows == [] then []
    else
      var init, last := rows[..|rows| - 1], rows[|rows| - 1];
      Firsts(init) + if Slot(last) in Slots(init) then [] else [last]
  }

  function WithoutOutlet(rows: seq<Category>): seq<Category> {
    seq(|rows|, i requires 0 <= i < |rows| => rows[i].(outlet := None))
  }

  function UpdateOutlet(rows: seq<Category>, id: Id, o: Outlet): seq<Category> {
    seq(|rows|, i requires 0 <= i < |rows| => if rows[i].id == id then rows[i].(outlet := Some(o)) else rows[i])
  }

  function DeleteIds(rows: seq<Category>, ids: set<Id>): seq<Category> {
    if rows == [] then []
    else
      var last := rows[|rows| - 1];
      DeleteIds(rows[..|rows| - 1], ids) + if last.id in ids then [] else [last]
  }

  class CategoryTable {
    var rows: seq<Category>
    var nextId: Id

    ghost predicate Valid()
      reads this
    {
      AscendingIds(rows) && IdsBelow(rows, nextId)
    }

    constructor (rows: seq<Category>, nextId: Id)
      requires AscendingIds(rows) && IdsBelow(rows, nextId)
      ensures Valid() && this.rows == rows && this.nextId == nextId
    {
      this.rows, this.nextId := rows, nextId;
    }

    /** The original row to one outlet, a copy inserted for each further one. */
    method PlaceCategory(category: Category, o: Outlet, rest: seq<Outlet>)
      modifies this
      ensures rows == UpdateOutlet(old(rows), category.id, o) + CopiesAt(category, rest, old(nextId))
      ensures nextId == old(nextId) + |rest|
    {
      hide UpdateOutlet;
      rows := UpdateOutlet(rows, category.id, o);
      ghost var updated := rows;
      for j := 0 to |rest|
        invariant rows == updated + CopiesAt(category, rest[..j], old(nextId))
        invariant nextId == old(nextId) + j
      {
        rows := rows + [Copy(category, rest[j], nextId)];
        nextId := nextId + 1;
      }
      assert rest[..|rest|] == rest;
    }

    method Up(w: World)
      requires Valid()
      modifies this
      ensures Valid()
      ensures rows == Placed(w, old(rows)) + Copies(w, old(rows), old(nextId))
    {
      hide World.PlanFor, UpdateOutlet, DeleteIds, Placed, Copies, AscendingIds, IdsBelow, UsingOutlets, OutletsOf;
      var categories := rows;
      ghost var next0 := nextId;
      UpKeepsIdsInOrder(w, categories, next0);
      NothingDoneYet(w, categories, next0);
      for i := 0 to |categories|
        invariant rows == Placed(w, categories[..i]) + categories[i..] + Copies(w, categories[..i], next0)
        invariant nextId == next0 + |Copies(w, categories[..i], next0)|
      {
        var category := categories[i];
        ghost var done, others := Placed(w, categories[..i]), categories[i + 1..] + Copies(w, categories[..i], next0);
        NextDone(w, categories, i, next0);
        OthersUntouched(w, categories, i, next0);
        assert rows == done + [category] + others;
        match w.PlanFor(category) {
          case Delete =>
            DeleteTheRow(done, category, others);
            rows := DeleteIds(rows, {category.id});
          case Place(o, rest) =>
            UpdateTheRow(done, category, others, o);
            PlaceCategory(category, o, rest);
        }
      }
      assert categories[..|categories|] == categories;
      assert rows == Placed(w, categories) + Copies(w, categories, next0);
    }

    method Down()
      requires Valid()
      modifies this
      ensures rows == WithoutOutlet(Firsts(old(rows)))
      ensures nextId == old(nextId)
    {
      hide Slot, Slots, DeleteIds, Firsts;
      var seen: set<(Id, string)> := {};
      var duplicateIds: set<Id> := {};
      FirstsStep(rows, 0, duplicateIds);
      for i := 0 to |rows|
        invariant rows == old(rows) && nextId == old(nextId)
        invariant seen == Slots(rows[..i])
        invariant forall id :: id in duplicateIds ==> exists j :: 0 <= j < i && rows[j].id == id
        invariant DeleteIds(rows[..i], duplicateIds) == Firsts(rows[..i])
      {
        var row := rows[i];
        FirstsStep(rows, i, duplicateIds);
        if Slot(row) in seen {
          duplicateIds := duplicateIds + {row.id};
        } else {
          seen := seen + {Slot(row)};
        }
      }
      assert rows[..|rows|] == rows;
      rows := DeleteIds(rows, duplicateIds);
      rows := WithoutOutlet(rows);
    }
  }

  lemma FirstsStep(rows: seq<Category>, i: nat, ids: set<Id>)
    requires AscendingIds(rows) && i <= |rows|
    requires forall id :: id in ids ==> exists j :: 0 <= j < i && rows[j].id == id
    ensures i == 0 ==> Slots(rows[..i]) == {} && DeleteIds(rows[..i], ids) == Firsts(rows[..i]) == []
    ensures i < |rows| ==> Slots(rows[..i + 1]) == Slots(rows[..i]) + {Slot(rows[i])}
    ensures i < |rows| ==>
      var known := Slot(rows[i]) in Slots(rows[..i]);
      && Firsts(rows[..i + 1]) == Firsts(rows[..i]) + (if known then [] else [rows[i]])
      && DeleteIds(rows[..i + 1], ids) == DeleteIds(rows[..i], ids) + [rows[i]]
      && DeleteIds(rows[..i + 1], ids + {rows[i].id}) == DeleteIds(rows[..i], ids)
  {
    hide Slot;
    if i < |rows| {
      var init := rows[..i];
      assert rows[..i + 1] == init + [rows[i]];
      DeleteOther(init, ids, rows[i].id);
      assert Slots(init + [rows[i]]) == Slots(init) + {Slot(rows[i])};
      assert (init + [rows[i]])[..i] == init;
    }
  }

  lemma NothingDoneYet(w: World, cats: seq<Category>, next: Id)
    ensures Placed(w, cats[..0]) == [] && Copies(w, cats[..0], next) == []
  {
  }

  lemma NextDone(w: World, cats: seq<Category>, i: nat, next: Id)
    requires i < |cats|
    ensures Placed(w, cats[..i + 1]) == Placed(w, cats[..i]) + PlacedRow(w, cats[i])
    ensures var copies := Copies(w, cats[..i], next);
      Copies(w, cats[..i + 1], next) == copies + CopiesOf(w, cats[i], next + |copies|)
  {
    assert cats[..i + 1][..i] == cats[..i];
  }

  lemma {:induction false} DeleteOther(rows: seq<Category>, ids: set<Id>, id: Id)
    requires forall c :: c in rows ==> c.id != id
    ensures DeleteIds(rows, ids + {id}) == DeleteIds(rows, ids)
  {
    if rows != [] {
      DeleteOther(rows[..|rows| - 1], ids, id);
    }
  }

  lemma UpdateTheRow(before: seq<Category>, c: Category, after: seq<Category>, o: Outlet)
    requires forall x :: x in before || x in after ==> x.id != c.id
    ensures UpdateOutlet(before + [c] + after, c.id, o) == before + [c.(outlet := Some(o))] + after
  {
  }

  lemma {:induction false} DeleteNone(rows: seq<Category>, ids: set<Id>)
    requires forall c :: c in rows ==> c.id !in ids
    ensures DeleteIds(rows, ids) == rows
  {
    if rows != [] {
      DeleteNone(rows[..|rows| - 1], ids);
    }
  }

  lemma {:induction false} DeleteAppend(a: seq<Category>, b: seq<Category>, ids: set<Id>)
    ensures DeleteIds(a + b, ids) == DeleteIds(a, ids) + DeleteIds(b, ids)
  {
    if b == [] {
      assert a + b == a;
    } else {
      DeleteAppend(a, b[..|b| - 1], ids);
      assert (a + b)[..|a + b| - 1] == a + b[..|b| - 1];
    }
  }

  lemma DeleteOne(c: Category)
    ensures DeleteIds([c], {c.id}) == []
  {
  }

  lemma DeleteTheRow(before: seq<Category>, c: Category, after: seq<Category>)
    requires forall x :: x in before || x in after ==> x.id != c.id
    ensures DeleteIds(before + [c] + after, {c.id}) == before + after
  {
    hide DeleteIds;
    DeleteNone(before, {c.id});
    DeleteNone(after, {c.id});
    DeleteAppend(before, [c], {c.id});
    DeleteAppend(before + [c], after, {c.id});
    DeleteOne(c);
    assert before + [] == before;
  }

  /** Every original row keeps its id and moves to the first outlet chosen for it. */
  lemma {:induction false} PlacedFrom(w: World, cats: seq<Category>, r: Category) returns (i: nat)
    requires r in Placed(w, cats)
    ensures i < |cats| && w.Chosen(cats[i]) != []
    ensures r == cats[i].(outlet := Some(w.Chosen(cats[i])[0]))
  {
    hide World.PlanFor;
    i := |cats| - 1;
    if r in Placed(w, cats[..i]) {
      i := PlacedFrom(w, cats[..i], r);
    }
  }

  lemma {:induction false} IntoPlaced(w: World, cats: seq<Category>, i: nat)
    requires i < |cats| && w.Chosen(cats[i]) != []
    ensures cats[i].(outlet := Some(w.Chosen(cats[i])[0])) in Placed(w, cats)
  {
    hide World.PlanFor;
    if i < |cats| - 1 {
      IntoPlaced(w, cats[..|cats| - 1], i);
    }
  }

  /** Every copy is of one original row, at one further outlet, under a fresh id. */
  lemma {:induction false} CopiesFrom(w: World, cats: seq<Category>, next: Id, k: nat) returns (i: nat, j: nat)
    requires k < |Copies(w, cats, next)|
    ensures i < |cats| && 1 <= j < |w.Chosen(cats[i])|
    ensures Copies(w, cats, next)[k] == Copy(cats[i], w.Chosen(cats[i])[j], next + k)
    ensures k == |Copies(w, cats[..i], next)| + j - 1
  {
    hide World.PlanFor;
    i := |cats| - 1;
    var before := Copies(w, cats[..i], next);
    if k < |before| {
      var n := i;
      i, j := CopiesFrom(w, cats[..n], next, k);
      assert cats[..n][..i] == cats[..i];
    } else {
      j := k - |before| + 1;
    }
  }

  lemma {:induction false} IntoCopies(w: World, cats: seq<Category>, next: Id, i: nat, j: nat) returns (k: nat)
    requires i < |cats| && 1 <= j < |w.Chosen(cats[i])|
    ensures k < |Copies(w, cats, next)|
    ensures Copies(w, cats, next)[k] == Copy(cats[i], w.Chosen(cats[i])[j], next + k)
  {
    hide World.PlanFor, World.Chosen, Copy, CopiesOf;
    var n := |cats| - 1;
    var before := Copies(w, cats[..n], next);
    assert Copies(w, cats, next) == before + CopiesOf(w, cats[n], next + |before|);
    if i < n {
      k := IntoCopies(w, cats[..n], next, i, j);
    } else {
      k := |before| + j - 1;
      CopyOfOutlet(w, cats[n], next + |before|, j);
    }
  }

  lemma CopyOfOutlet(w: World, c: Category, next: Id, j: nat)
    requires 1 <= j < |w.Chosen(c)|
    ensures j - 1 < |CopiesOf(w, c, next)| && CopiesOf(w, c, next)[j - 1] == Copy(c, w.Chosen(c)[j], next + j - 1)
  {
    hide World.PlanFor, Copy;
  }

  lemma OthersUntouched(w: World, cats: seq<Category>, i: nat, next: Id)
    requires AscendingIds(cats) && IdsBelow(cats, next) && i < |cats|
    ensures forall x :: x in Placed(w, cats[..i]) || x in cats[i + 1..] || x in Copies(w, cats[..i], next) ==>
      x.id != cats[i].id
  {
    forall x | x in Placed(w, cats[..i]) ensures x.id != cats[i].id {
      var j := PlacedFrom(w, cats[..i], x);
    }
    forall x | x in Copies(w, cats[..i], next) ensures x.id != cats[i].id {
      var k :| 0 <= k < |Copies(w, cats[..i], next)| && Copies(w, cats[..i], next)[k] == x;
      var j, m := CopiesFrom(w, cats[..i], next, k);
    }
  }

  lemma {:induction false} PlacedAscending(w: World, cats: seq<Category>)
    requires AscendingIds(cats)
    ensures AscendingIds(Placed(w, cats))
  {
    if cats != [] {
      var n := |cats| - 1;
      PlacedAscending(w, cats[..n]);
      forall r | r in Placed(w, cats[..n]) ensures r.id < cats[n].id {
        var j := PlacedFrom(w, cats[..n], r);
      }
    }
  }

  lemma UpKeepsIdsInOrder(w: World, cats: seq<Category>, next: Id)
    requires AscendingIds(cats) && IdsBelow(cats, next)
    ensures AscendingIds(Placed(w, cats) + Copies(w, cats, next))
    ensures IdsBelow(Placed(w, cats) + Copies(w, cats, next), next + |Copies(w, cats, next)|)
  {
    PlacedAscending(w, cats);
    forall r | r in Placed(w, cats) ensures r.id < next {
      var j := PlacedFrom(w, cats, r);
    }
    forall k | 0 <= k < |Copies(w, cats, next)| ensures Copies(w, cats, next)[k].id == next + k {
      var i, j := CopiesFrom(w, cats, next, k);
    }
  }
}
