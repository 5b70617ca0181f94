/**
 * 20261108090000, `up`: schema statements that commit one by one, each behind
 * an existence check, around one loop over the properties. The migration may
 * stop between any two of them and is then run again from the start.
 */
module RestartableSchema {
  import opened PropertyRuns
  import opened Reruns
  import opened SharedCatalogue
  import opened Tables
  import opened Categories
  import opened CategoryMerge

  datatype Table = MenuCategories | StockCategories | MenuItems | StockItems

  /** What an existence check can ask for. */
  datatype Thing =
    | TenantKey            // unique (tenant, property, id) of the menu categories
    | OutletCategories     // the three new tables
    | OutletItems
    | StockLevels
    | OutletFk(t: Table)
    | OutletNameUnique(t: Table)
    | FkIndex(t: Table)    // MySQL's own index behind a dropped foreign key
    | OutletColumn(t: Table)
    | NullableOutlet(t: Table)
    | PropertyNameUnique(t: Table)
    | AvailableIndex
    | OutletIndex(t: Table)
    | StatusIndex(t: Table)
    | NamesUnique          // the data loop's result: one row per name and property

  datatype Guard = IfMissing(thing: Thing) | IfPresent(things: set<Thing>)

  /** One guarded statement: when it runs, what must and must not be there for it to succeed, what it changes. */
  datatype Block = Block(guard: Guard, needs: set<Thing>, bars: set<Thing>, adds: set<Thing>, drops: set<Thing>)

  const LAST := 22
  const DATA_LOOP := 10

  function DropFk(t: Table): Block {
    Block(IfPresent({OutletFk(t)}), {OutletFk(t)}, {}, {}, {OutletFk(t)})
  }

  function DropNameUnique(t: Table): Block {
    Block(IfPresent({OutletNameUnique(t)}), {OutletNameUnique(t)}, {}, {}, {OutletNameUnique(t)})
  }

  function MakeNullable(t: Table): Block {
    Block(IfPresent({OutletColumn(t)}), {OutletColumn(t)}, {OutletFk(t)}, {NullableOutlet(t)}, {})
  }

  /** The column goes with its index, and the name becomes unique per property, in one statement. */
  function DropCategoryColumn(t: Table): Block {
    Block(IfPresent({OutletColumn(t)}), {OutletColumn(t), FkIndex(t), NamesUnique},
      {OutletFk(t), OutletNameUnique(t), PropertyNameUnique(t)},
          {PropertyNameUnique(t)}, {OutletColumn(t), NullableOutlet(t), FkIndex(t)})
  }

  function DropIndex(index: Thing, t: Table): Block {
    Block(IfPresent({index}), {index}, {OutletFk(t)}, {}, {index})
  }

  function DropItemColumn(t: Table): Block {
    Block(IfPresent({OutletColumn(t)}), {OutletColumn(t)}, {OutletFk(t), OutletIndex(t)}, {}, {OutletColumn(t)})
  }

  function Create(thing: Thing, needs: set<Thing>): Block {
    Block(IfMissing(thing), needs, {thing}, {thing}, {})
  }

  /** The blocks in the order they stand in. */
  function BlockAt(i: nat): Block
    requires i < LAST
  {
    match i
    case 0 => Create(TenantKey, {})
    case 1 => Create(OutletCategories, {TenantKey})
    case 2 => Create(OutletItems, {})
    case 3 => Create(StockLevels, {})
    case 4 => DropFk(MenuCategories)
    case 5 => DropNameUnique(MenuCategories)
    case 6 => MakeNullable(MenuCategories)
    case 7 => DropFk(StockCategories)
    case 8 => DropNameUnique(StockCategories)
    case 9 => MakeNullable(StockCategories)
    case 10 => Block(IfPresent({OutletColumn(MenuCategories), OutletColumn(StockCategories)}),
                     {OutletCategories, OutletItems, StockLevels, NullableOutlet(MenuCategories),
                       NullableOutlet(StockCategories),
                      OutletColumn(MenuCategories), OutletColumn(StockCategories), OutletColumn(MenuItems),
                        OutletColumn(StockItems)},
                     {OutletNameUnique(MenuCategories), OutletNameUnique(StockCategories)}, {NamesUnique}, {})
    case 11 => DropCategoryColumn(MenuCategories)
    case 12 => DropCategoryColumn(StockCategories)
    case 13 => DropFk(MenuItems)
    case 14 => DropIndex(AvailableIndex, MenuItems)
    case 15 => DropIndex(OutletIndex(MenuItems), MenuItems)
    case 16 => DropItemColumn(MenuItems)
    case 17 => Create(StatusIndex(MenuItems), {})
    case 18 => DropFk(StockItems)
    case 19 => DropIndex(OutletIndex(StockItems), StockItems)
    case 20 => DropItemColumn(StockItems)
    case _ => Create(StatusIndex(StockItems), {})
  }

  predicate Fires(guard: Guard, things: set<Thing>) {
    match guard
    case IfMissing(thing) => thing !in things
    case IfPresent(all) => all <= things
  }

  /** A statement fails on the schema when what it needs is missing or what bars it is there. */
  predicate NeedsMet(b: Block, things: set<Thing>) {
    b.needs <= things && b.bars !! things
  }

  function Apply(b: Block, things: set<Thing>): set<Thing> {
    things - b.drops + b.adds
  }

  // ----- the schema after n blocks, in closed form -----

  /** The block that creates a thing, counted from 1; 0 for what was there before. */
  function Born(t: Thing): nat {
    match t
    case TenantKey => 1
    case OutletCategories => 2
    case OutletItems => 3
    case StockLevels => 4
    case NullableOutlet(t) => if t.MenuCategories? then 7 else if t.StockCategories? then 10 else LAST + 1
    case NamesUnique => 11
    case PropertyNameUnique(t) => if t.MenuCategories? then 12 else if t.StockCategories? then 13 else LAST + 1
    case StatusIndex(t) => if t.MenuItems? then 18 else if t.StockItems? then 22 else LAST + 1
    case OutletNameUnique(t) => if t.MenuCategories? || t.StockCategories? then 0 else LAST + 1
    case FkIndex(t) => if t.MenuCategories? || t.StockCategories? then 0 else LAST + 1
    case OutletIndex(t) => if t.MenuItems? || t.StockItems? then 0 else LAST + 1
    case _ => 0
  }

  /** The block that drops it, counted from 1. */
  function Dies(t: Thing): nat {
    match t
    case OutletFk(t) =>
      (match t case MenuCategories => 5 case StockCategories => 8 case MenuItems => 14 case StockItems => 19)
    case OutletNameUnique(t) => if t.MenuCategories? then 6 else 9
    case OutletColumn(t) =>
      (match t case MenuCategories => 12 case StockCategories => 13 case MenuItems => 17 case StockItems => 21)
    case NullableOutlet(t) => if t.MenuCategories? then 12 else 13
    case FkIndex(t) => if t.MenuCategories? then 12 else 13
    case AvailableIndex => 15
    case OutletIndex(t) => if t.MenuItems? then 16 else 20
    case _ => LAST + 1
  }

  /** The schema an uninterrupted run has after its first n blocks. */
  ghost predicate After(things: set<Thing>, n: nat) {
    forall t :: t in things <==> Born(t) <= n < Dies(t)
  }

  /** What block n adds and drops is what begins and ends there, and everything it asks for is as it asks. */
  ghost predicate InTurn(b: Block, n: nat) {
    && (forall t :: t in b.adds <==> Born(t) == n + 1)
    && (forall t :: t in b.drops <==> Dies(t) == n + 1 && Born(t) <= n)
    && (forall t :: t in b.needs ==> Born(t) <= n < Dies(t))
    && (forall t :: t in b.bars ==> n < Born(t) || Dies(t) <= n)
    && match b.guard
       case IfMissing(t) => b.adds == {t}
       case IfPresent(all) => all <= b.needs
  }

  /** Once block n ran, its guard stays false, or all it would do stays done. */
  ghost predicate Lasting(b: Block, n: nat) {
    match b.guard
    case IfMissing(t) => Born(t) == n + 1 && Dies(t) == LAST + 1
    case IfPresent(all) =>
      || (exists t :: t in all && Dies(t) == n + 1)
      || forall m: nat :: n < m <= LAST && (forall t :: t in all ==> m < Dies(t)) ==> DoneAt(b, m)
  }

  /** After m blocks, the block's work is done and would succeed again. */
  ghost predicate DoneAt(b: Block, m: nat) {
    && (forall t :: t in b.needs || t in b.adds ==> Born(t) <= m < Dies(t))
    && (forall t :: t in b.bars || t in b.drops ==> m < Born(t) || Dies(t) <= m)
  }

  lemma CreatedForGood(n: nat, t: Thing)
    requires n < LAST && BlockAt(n).guard == IfMissing(t) && Born(t) == n + 1 && Dies(t) == LAST + 1
    ensures Lasting(BlockAt(n), n)
  {
  }

  lemma NewTables(n: nat)
    requires n < 4
    ensures InTurn(BlockAt(n), n) && Lasting(BlockAt(n), n)
  {
    hide Lasting;
    CreatedForGood(n,
                   if n == 0 then TenantKey else if n == 1 then OutletCategories else if n == 2 then OutletItems
                     else StockLevels);
  }

  lemma CategoryKeys(n: nat)
    requires 4 <= n < 10 && n != 6 && n != 9
    ensures InTurn(BlockAt(n), n) && Lasting(BlockAt(n), n)
  {
    hide Lasting;
    var t := if n < 7 then MenuCategories else StockCategories;
    DroppedForGood(n, if n == 4 || n == 7 then OutletFk(t) else OutletNameUnique(t));
  }

  lemma NullableOutlets(n: nat)
    requires n == 6 || n == 9
    ensures InTurn(BlockAt(n), n) && Lasting(BlockAt(n), n)
  {
    var t := if n == 6 then MenuCategories else StockCategories;
    assert OutletColumn(t) in {OutletColumn(t)};
  }

  lemma DataLoop()
    ensures InTurn(BlockAt(DATA_LOOP), DATA_LOOP) && Lasting(BlockAt(DATA_LOOP), DATA_LOOP)
  {
    var all := {OutletColumn(MenuCategories), OutletColumn(StockCategories)};
    assert OutletColumn(MenuCategories) in all && OutletColumn(StockCategories) in all;
  }

  lemma CategoryColumns(n: nat)
    requires 11 <= n <= 12
    ensures InTurn(BlockAt(n), n) && Lasting(BlockAt(n), n)
  {
    hide Lasting;
    DroppedForGood(n, OutletColumn(if n == 11 then MenuCategories else StockCategories));
  }

  lemma DroppedForGood(n: nat, t: Thing)
    requires n < LAST && BlockAt(n).guard == IfPresent({t}) && Dies(t) == n + 1
    ensures Lasting(BlockAt(n), n)
  {
  }

  lemma MenuItemTable(n: nat)
    requires 13 <= n < 17
    ensures InTurn(BlockAt(n), n) && Lasting(BlockAt(n), n)
  {
    hide Lasting;
    DroppedForGood(n, if n == 13 then OutletFk(MenuItems) else if n == 14 then AvailableIndex
                      else if n == 15 then OutletIndex(MenuItems) else OutletColumn(MenuItems));
  }

  lemma StatusIndexes(n: nat)
    requires n == 17 || n == 21
    ensures InTurn(BlockAt(n), n) && Lasting(BlockAt(n), n)
  {
    hide Lasting;
    CreatedForGood(n, StatusIndex(if n == 17 then MenuItems else StockItems));
  }

  lemma StockItemTable(n: nat)
    requires 18 <= n < 21
    ensures InTurn(BlockAt(n), n) && Lasting(BlockAt(n), n)
  {
    hide Lasting;
    DroppedForGood(n,
                   if n == 18 then OutletFk(StockItems) else if n == 19 then OutletIndex(StockItems)
                     else OutletColumn(StockItems));
  }

  lemma EveryBlock(n: nat)
    requires n < LAST
    ensures InTurn(BlockAt(n), n) && Lasting(BlockAt(n), n)
  {
    hide InTurn, Lasting, BlockAt;
    if n < 4 {
      NewTables(n);
    } else if n == 6 || n == 9 {
      NullableOutlets(n);
    } else if n < 10 {
      CategoryKeys(n);
    } else if n == 10 {
      DataLoop();
    } else if n < 13 {
      CategoryColumns(n);
    } else if n < 17 {
      MenuItemTable(n);
    } else if n == 17 || n == 21 {
      StatusIndexes(n);
    } else {
      StockItemTable(n);
    }
  }

  /** A block whose turn it is runs, finds what it needs, and brings the schema one block further. */
  lemma RunsInTurn(things: set<Thing>, n: nat)
    requires n < LAST && After(things, n)
    ensures Fires(BlockAt(n).guard, things) && NeedsMet(BlockAt(n), things)
    ensures After(Apply(BlockAt(n), things), n + 1)
  {
    hide BlockAt, Born, Dies;
    EveryBlock(n);
    BornBeforeDying();
  }

  lemma BornBeforeDying()
    ensures forall t :: Born(t) <= LAST ==> Born(t) < Dies(t)
  {
  }

  /** A block run again later finds what it needs and changes nothing in the schema. */
  lemma RerunsHarmlessly(things: set<Thing>, i: nat, n: nat)
    requires i < n <= LAST && After(things, n)
    ensures Fires(BlockAt(i).guard, things) ==> NeedsMet(BlockAt(i), things) && Apply(BlockAt(i), things) == things
  {
    hide BlockAt, Born, Dies, InTurn;
    EveryBlock(i);
    var b := BlockAt(i);
    if Fires(b.guard, things) {
      assert forall t :: t in b.guard.things ==> n < Dies(t);
      assert DoneAt(b, n);
    }
  }

  /** The data loop runs again only while both category tables still have their outlet column. */
  lemma DataLoopAgain(things: set<Thing>, n: nat)
    requires n <= LAST && After(things, n)
    ensures Fires(BlockAt(DATA_LOOP).guard, things) <==> n <= DATA_LOOP + 1
    ensures Fires(BlockAt(DATA_LOOP).guard, things) <==>
      OutletColumn(MenuCategories) in things && OutletColumn(StockCategories) in things
  {
  }

  /** On any schema: it takes both columns, not only the one that is dropped first. */
  lemma DataLoopGuard(things: set<Thing>)
    ensures Fires(BlockAt(10).guard, things) <==>
      OutletColumn(MenuCategories) in things && OutletColumn(StockCategories) in things
  {
    assert OutletColumn(StockCategories) in things ==> {OutletColumn(StockCategories)} <= things;
  }

  // ----- how often the loop is entered -----

  /** The block a sequence of attempts got to, each stopped before the block it names. */
  function Reached(stops: seq<nat>): nat {
    if stops == [] then 0
    else
      var n, last := Reached(stops[..|stops| - 1]), stops[|stops| - 1];
      if n < last then last else n
  }

  predicate Enters(n: nat, stop: nat) {
    n <= DATA_LOOP + 1 && DATA_LOOP < stop
  }

  function Entries(stops: seq<nat>): nat {
    if stops == [] then 0
    else
      var init, last := stops[..|stops| - 1], stops[|stops| - 1];
      Entries(init) + if Enters(Reached(init), last) then 1 else 0
  }

  /** The attempts get past the loop's block, but not to the first dropped column: the loop will be entered again. */
  ghost predicate StopsAfterLoop(stops: seq<nat>) {
    exists i :: 0 <= i <= |stops| && Reached(stops[..i]) == DATA_LOOP + 1
  }

  lemma {:induction false} ReachedGrows(stops: seq<nat>, i: nat)
    requires i <= |stops|
    ensures Reached(stops[..i]) <= Reached(stops)
    ensures Entries(stops[..i]) <= Entries(stops)
  {
    if i < |stops| {
      ReachedGrows(stops[..|stops| - 1], i);
      assert stops[..|stops| - 1][..i] == stops[..i];
    } else {
      assert stops[..i] == stops;
    }
  }

  /**
   * Until the loop was passed it was not entered; past it, once, and more
   * often exactly if an attempt stopped right after it.
   */
  lemma {:induction false} EntriesExactly(stops: seq<nat>)
    ensures Reached(stops) <= DATA_LOOP ==> Entries(stops) == 0
    ensures Reached(stops) > DATA_LOOP ==> Entries(stops) >= 1
    ensures Reached(stops) > DATA_LOOP + 1 ==> (Entries(stops) == 1 <==> !StopsAfterLoop(stops))
    ensures StopsAfterLoop(stops) ==> Reached(stops) > DATA_LOOP
  {
    if stops != [] {
      var n := |stops| - 1;
      var init := stops[..n];
      EntriesExactly(init);
      assert forall i :: 0 <= i <= n ==> init[..i] == stops[..i];
      assert stops[..n + 1] == stops && stops[..n] == init && init[..n] == init;
      if StopsAfterLoop(init) {
        var i :| 0 <= i <= n && Reached(init[..i]) == DATA_LOOP + 1;
        assert Reached(stops[..i]) == DATA_LOOP + 1;
      }
      if i :| 0 <= i <= n + 1 && Reached(stops[..i]) == DATA_LOOP + 1 {
        ReachedGrows(stops, i);
        assert i <= n ==> Reached(init[..i]) == DATA_LOOP + 1;
      }
    }
  }

  /** Runs in full after these attempts, the loop is entered once exactly when none of them stopped right after it. */
  lemma EnteredOnceExactly(stops: seq<nat>)
    requires forall i :: 0 <= i < |stops| ==> stops[i] <= LAST
    ensures Entries(stops + [LAST]) >= 1
    ensures Entries(stops + [LAST]) == 1 <==> !StopsAfterLoop(stops)
  {
    hide StopsAfterLoop;
    var all := stops + [LAST];
    assert all[..|stops|] == stops;
    EntriesExactly(all);
    LastStopPassed(stops);
  }

  lemma LastStopPassed(stops: seq<nat>)
    ensures StopsAfterLoop(stops + [LAST]) <==> StopsAfterLoop(stops)
  {
    hide Reached;
    var all := stops + [LAST];
    assert forall i :: 0 <= i <= |stops| ==> all[..i] == stops[..i];
    if i :| 0 <= i <= |all| && Reached(all[..i]) == DATA_LOOP + 1 {
      assert Reached(all[..|all|]) >= LAST by {
        ReachesLast(stops);
      }
      assert Reached(stops[..i]) == DATA_LOOP + 1;
    }
    if i :| 0 <= i <= |stops| && Reached(stops[..i]) == DATA_LOOP + 1 {
      assert Reached(all[..i]) == DATA_LOOP + 1;
    }
  }

  lemma ReachesLast(stops: seq<nat>)
    ensures Reached((stops + [LAST])[..|stops| + 1]) >= LAST
  {
  }

  /**
   * A property with one menu category and no stock category: stopping right
   * after the loop makes the next attempt fail.
   */
  lemma StopAfterLoopFails(property: Id, o: Outlet, name: string)
    requires name != ""
    ensures var first := EmptyProperty().(menu := [Category(1, property, Some(o), name, 0, Active)]);
      && Fresh(first)
      && RunSucceeds(first, Entries([LAST]))
      && !RunSucceeds(first, Entries([DATA_LOOP + 1, LAST]))
  {
    hide Fresh, RunSucceeds;
    assert [LAST][..0] == [] && [DATA_LOOP + 1][..0] == [] && [DATA_LOOP + 1, LAST][..1] == [DATA_LOOP + 1];
    MirroredRowFails(property, o, name);
  }

  /** A key on (property, name) is there only after the loop made the names unique. */
  lemma KeyNeedsNames(things: set<Thing>, n: nat)
    requires After(things, n)
    ensures (exists t :: PropertyNameUnique(t) in things) ==> NamesUnique in things
  {
  }

  lemma NamesOnlyFromLoop(i: nat, things: set<Thing>)
    requires i < LAST && i != DATA_LOOP
    ensures NamesUnique in Apply(BlockAt(i), things) ==> NamesUnique in things
  {
  }

  class Migration {
    const properties: seq<Catalogue>
    var things: set<Thing>
    /** How often the loop over the properties went through. */
    var loops: nat
    /** The properties before the loop was first entered. */
    ghost const firsts: seq<Property>

    ghost function Footprint(): set<object> {
      (set c: Catalogue | c in properties :: c as object) + (set c: Catalogue | c in properties :: c.menu as object)
      + (set c: Catalogue | c in properties :: c.stock as object)
    }

    ghost predicate Apart() {
      && |firsts| == |properties|
      && forall i, j :: 0 <= i < j < |properties| ==>
           properties[i] != properties[j]
             && {properties[i].menu, properties[i].stock} !! {properties[j].menu, properties[j].stock}
    }

    /** The first n properties went through the loop once more than the others. */
    ghost predicate AtLeastTimes(k: nat, n: nat)
      requires Apart() && n <= |properties|
      reads Footprint()
    {
      forall i :: 0 <= i < |properties| ==>
        properties[i].RanSince(firsts[i], if i < n then k + 1 else k)
    }

    /** What both keys (property, name) ask of the rows. */
    ghost predicate ListsUnique()
      reads Footprint()
    {
      forall i :: 0 <= i < |properties| ==>
        UniqueNames(properties[i].menu.rows) && UniqueNames(properties[i].stock.rows)
    }

    /** The schema counts on unique names only where the rows have them. */
    ghost predicate Valid()
      reads this, Footprint()
    {
      Apart() && AtLeastTimes(loops, 0) && (NamesUnique in things ==> ListsUnique())
    }

    lemma LoopMakesUnique(k: nat)
      requires Apart() && k > 0 && AtLeastTimes(k, 0)
      ensures ListsUnique()
    {
      hide UniqueNames, Fresh, Sound, Footprint;
    }

    ghost predicate AllSucceed(k: nat)
      requires Apart()
    {
      forall i :: 0 <= i < |properties| ==> RunSucceeds(firsts[i], k)
    }

    lemma FailsLater(k: nat, l: nat)
      requires Apart() && 1 <= k <= l && !AllSucceed(k)
      ensures !AllSucceed(l)
      decreases l - k
    {
      hide RunSucceeds;
      if k < l {
        var i :| 0 <= i < |properties| && !RunSucceeds(firsts[i], k);
        if RunSucceeds(firsts[i], k + 1) {
          EarlierRunSucceeds(firsts[i], k);
        }
        FailsLater(k + 1, l);
      }
    }

    lemma ReachesAll()
      requires Apart()
      ensures |firsts| == |properties|
      ensures forall i :: 0 <= i < |properties| ==>
        properties[i] in Footprint() && properties[i].menu in Footprint() && properties[i].stock in Footprint()
    {
    }

    lemma OthersApart(i: nat)
      requires Apart() && i < |properties|
      ensures forall j :: 0 <= j < |properties| && j != i ==>
        properties[j] != properties[i]
          && {properties[j].menu, properties[j].stock} !! {properties[i].menu, properties[i].stock}
    {
    }

    /** The loop over the properties. */
    method MigrateProperties() returns (ok: bool)
      requires Valid()
      modifies Footprint()
      ensures ok <==> AllSucceed(loops + 1)
      ensures ok ==> AtLeastTimes(loops + 1, 0)
    {
      hide Catalogue.RanSince, RunSucceeds, Ran, Footprint, Apart;
      ReachesAll();
      for i := 0 to |properties|
        invariant AtLeastTimes(loops, i)
        invariant forall j :: 0 <= j < i ==> RunSucceeds(firsts[j], loops + 1)
      {
        OthersApart(i);
        ok := properties[i].MigrateOnceMore(firsts[i], loops);
        if !ok {
          return;
        }
      }
      ok := true;
    }

    constructor (things: set<Thing>, properties: seq<Catalogue>, ghost firsts: seq<Property>)
      requires forall i, j :: 0 <= i < j < |properties| ==>
        properties[i] != properties[j]
          && {properties[i].menu, properties[i].stock} !! {properties[j].menu, properties[j].stock}
      requires |firsts| == |properties|
      requires forall i :: 0 <= i < |properties| ==> properties[i].RanSince(firsts[i], 0)
      requires NamesUnique in things ==>
        forall c :: c in properties ==> UniqueNames(c.menu.rows) && UniqueNames(c.stock.rows)
      ensures Valid() && this.things == things && this.properties == properties && this.firsts == firsts && loops == 0
    {
      this.things, this.properties, this.loops, this.firsts := things, properties, 0, firsts;
    }

    /**
     * `up`, stopped before its block number `stop`, on a schema that earlier
     * attempts brought to block n. It reports failure if any statement fails:
     * exactly when it enters the loop and the loop fails on a property.
     */
    method Up(stop: nat, ghost n: nat) returns (ok: bool)
      requires stop <= LAST && n <= LAST && After(things, n) && Valid()
      modifies this, Footprint()
      ensures ok <==> (Enters(n, stop) ==> AllSucceed(old(loops) + 1))
      ensures ok ==> Valid() && After(things, if n < stop then stop else n)
      ensures ok ==> loops == old(loops) + if Enters(n, stop) then 1 else 0
      ensures ok && (exists t :: PropertyNameUnique(t) in things) ==> ListsUnique()
      ensures !ok ==> After(things, if n < DATA_LOOP then DATA_LOOP else n)
    {
      hide BlockAt, After, Fires, NeedsMet, Apply, AtLeastTimes, AllSucceed, ListsUnique;
      ghost var m := n;
      for i := 0 to stop
        invariant m == (if n < i then i else n) && After(things, m)
        invariant Valid() && loops == old(loops) + if Enters(n, i) then 1 else 0
        invariant Enters(n, i) ==> AllSucceed(old(loops) + 1)
      {
        if i < m {
          RerunsHarmlessly(things, i, m);
          DataLoopAgain(things, m);
        } else {
          RunsInTurn(things, i);
        }
        var b := BlockAt(i);
        if Fires(b.guard, things) {
          if !NeedsMet(b, things) {
            return false;
          }
          if i == DATA_LOOP {
            ok := MigrateProperties();
            if !ok {
              return;
            }
            loops := loops + 1;
            LoopMakesUnique(loops);
          }
          if i != DATA_LOOP {
            NamesOnlyFromLoop(i, things);
          }
          things := Apply(b, things);
        }
        m := if m == i then i + 1 else m;
      }
      KeyNeedsNames(things, m);
      return true;
    }

    /**
     * Attempts stopped wherever the stops say, then one let through. It
     * succeeds exactly when the loop over the properties goes through as often
     * as it is entered: once, unless an attempt stopped right after it.
     */
    method Restarts(stops: seq<nat>) returns (ok: bool)
      requires After(things, 0) && Valid() && loops == 0 && forall i :: 0 <= i < |stops| ==> stops[i] <= LAST
      modifies this, Footprint()
      ensures ok <==> AllSucceed(Entries(stops + [LAST]))
      ensures ok ==> Valid() && After(things, LAST)
    {
      hide After, AtLeastTimes, AllSucceed, Enters, ListsUnique, Footprint, Apart, StopsAfterLoop;
      var all := stops + [LAST];
      EnteredOnceExactly(stops);
      for i := 0 to |all|
        invariant Valid() && After(things, Reached(all[..i])) && Reached(all[..i]) <= LAST
        invariant loops == Entries(all[..i])
        invariant loops > 0 ==> AllSucceed(loops)
      {
        assert all[..i + 1][..i] == all[..i];
        ReachedGrows(all, i + 1);
        ghost var k := loops;
        ok := Up(all[i], Reached(all[..i]));
        if !ok {
          FailsLater(k + 1, Entries(all));
          return;
        }
      }
      assert all[..|all|] == all;
      ok := true;
    }
  }

  /** The closed form determines the schema. */
  lemma SameSchema(a: set<Thing>, b: set<Thing>, n: nat)
    requires After(a, n) && After(b, n)
    ensures a == b
  {
  }
}
