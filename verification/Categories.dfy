/** Registered categories, and which items name them. */
module Categories {
  import opened Tables
  import opened Names

  /** A row of `pos_menu_categories` or `stock_item_categories`; no outlet before and after the per-outlet era. */
  datatype Category = Category(
    id: Id, property: Id, outlet: Option<Outlet>, name: string, sortOrder: int, status: Status)

  /** What a category table sees of an item: where it stands and the free text it is filed under, if any. */
  datatype Filing = Filing(property: Id, outlet: Outlet, category: Option<string>)

  datatype OutletRow = OutletRow(property: Id, id: Outlet)

  /** The identity of a category: its property and the key of its name. */
  function Slot(c: Category): (Id, string) {
    (c.property, Key(c.name))
  }

  function Slots(rows: seq<Category>): set<(Id, string)> {
    set c | c in rows :: Slot(c)
  }

  ghost predicate AscendingIds(rows: seq<Category>) {
    forall i, j :: 0 <= i < j < |rows| ==> rows[i].id < rows[j].id
  }

  ghost predicate UniqueSlots(rows: seq<Category>) {
    forall i, j :: 0 <= i < j < |rows| ==> Slot(rows[i]) != Slot(rows[j])
  }

  ghost function IdsOf(rows: seq<Category>): set<Id> {
    set c | c in rows :: c.id
  }

  ghost predicate IdsBelow(rows: seq<Category>, next: Id) {
    forall c :: c in rows ==> c.id < next
  }

  predicate Matches(f: Filing, c: Category) {
    f.property == c.property && f.category.Some? && Key(f.category.value) == Key(c.name)
  }
}
