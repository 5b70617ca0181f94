/** How items are filed under registered categories, and by what they are grouped for merging. */
module ItemFiling {
  import opened Tables
  import opened Names
  import opened CategoryLists
  import MenuMerge
  import StockMerge

  type MenuItem = MenuMerge.MenuItem
  type StockItem = StockMerge.StockItem

  /** The registered spelling of a category name, when there is a non-empty one. */
  function Canonical(byName: map<string, Entry>, category: string): string {
    if Key(category) in byName && byName[Key(category)].name != "" then byName[Key(category)].name else category
  }

  function RefileMenu(byName: map<string, Entry>, row: MenuItem): MenuItem {
    row.(cols := row.cols.(category := Canonical(byName, row.cols.category)))
  }

  function RefileStock(byName: map<string, Entry>, row: StockItem): StockItem {
    if Truthy(row.cols.category)
    then row.(cols := row.cols.(category := Some(Canonical(byName, row.cols.category.value))))
    else row
  }

  function MenuKey(row: MenuItem): (string, string) {
    (Key(row.cols.category), Key(row.cols.name))
  }

  function StockKey(row: StockItem): (string, string) {
    (Key(row.cols.name), Key(row.cols.unit))
  }

  predicate MenuActive(row: MenuItem) {
    row.cols.status.Active?
  }

  predicate StockActive(row: StockItem) {
    row.cols.status.Active?
  }

  predicate AnyStock(row: StockItem) {
    true
  }

  function FiledMenu(byName: map<string, Entry>, active: seq<MenuItem>): seq<MenuItem> {
    seq(|active|, i requires 0 <= i < |active| => RefileMenu(byName, active[i]))
  }

  function FiledStock(byName: map<string, Entry>, rows: seq<StockItem>): seq<StockItem> {
    seq(|rows|, i requires 0 <= i < |rows| => RefileStock(byName, rows[i]))
  }
}
