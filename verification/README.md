# The POS catalogue migrations, verified

These Dafny files model the migrations of the hotel system that move data
rather than only define tables, and prove what the data means afterwards.

- **The catalogue pipeline.** Free-text categories are registered
  (20261005090000, `CategoryRegistration`), fanned out to the outlets that use
  them (20261104090000 and 20261105090000, `CategoryFanOut`,
  `CategoryFanOutTheorems`), and later merged into a catalogue shared by the
  property (20261108090000). The last is the core: `SharedCatalogue` has the
  tables of one property as fields of a class and `migrateProperty` as methods
  with its loops. `OnePerOutlet`, `Grouping` and `MergePlan` say which rows
  become one, and `MergeColumns` says it again by the columns alone;
  `CategoryMerge`, `CategoryLists` and `CategoryCarry` say what happens to the
  two category lists and who carries what, `MenuMerge` and `StockMerge` what
  the tables hold when the first n sets are merged, `Quantities` what the
  decimal sums are, `StockTheorems`, `StockLevels` and `CatalogueMeaning` what
  all of it means. `FanOutThenMerge` joins the two ends of the pipeline.
- **Running it again.** `PropertyRuns` has one property as a value and the
  relation of one run, `Reruns` when the k-th run succeeds, `SecondRun`,
  `SecondRunLevels` and `SecondRunRecipes` what a second run changes.
  `OutletMenus` is the whole menu of an outlet after the first run.
  `MenuTable`, `StockTable`, `RecipeTable` and `PropertyTables` say a run once
  more, column by column, without the functions the methods are built from.
- **The restartable schema.** `RestartableSchema` is `up` of the same migration:
  guarded statements that commit one by one and may be cut off anywhere, around
  the loop over the properties.
- **Backfills and seeds.** Shift attribution (`ShiftBackfill`), switching ended
  taxes off (`TaxSwitch`), and two permission seeds over the role tables of
  `Rbac` (`StorekeeperSeed`, `HousekeepingPermission`).

A method that changes a table is proved against a function or relation of the
old state; the lemmas then say what that function means. Ids and outlets are
natural numbers, a nullable column is an `Option`, a table read `ORDER BY id` a
sequence ascending by id, a table with a unique pair a map keyed by the pair.

## Where the code does less than its comments say

- A comment at 20261108090000:159-162 expects a second run of the same property
  to be safe. Mirrored category rows have no outlet (lines 127 and 133), so the
  second run tries to insert a null outlet unless nothing named was missing; and
  it plans the kept stock items again, which can make a take list one item twice.
  `SharedCatalogue.Catalogue.MigrateTwice` has the exact condition,
  `Reruns.MirroredRowFails` and `Reruns.SecondMergeFails` an input for each half.
  Even where it succeeds, `SecondRun.SecondRunEffect` says when it merges further
  and which levels it adds, `SecondRunLevels.StaleLevel` how a level goes wrong.
- If outlets were edited after the first run, a retry can also try to delete a
  category that is carried, which its foreign key (line 348) forbids:
  `Reruns.CarriedRowFails`; `SharedCatalogue.Catalogue.MigrateProperty` has the
  exact condition on any tables.
- The comments at 322-330 and 461-467 take an interrupted `up` to be safe to run
  again. An attempt stopped after the loop and before the first dropped column
  enters the loop again: `RestartableSchema.Migration.Restarts` has the exact
  condition, `RestartableSchema.StopAfterLoopFails` an input.
- Merging stock items violates the unique key of stock-take lines when one take
  lists items of two outlets that merge: `StockTheorems.LinesCollideExactly` and
  `StockTheorems.LinesCanCollide`.
- 20261130090000 switches off taxes of a property that has no business date even
  if they end in the future: `TaxSwitch.NoBusinessDate` and
  `TaxSwitch.NoBusinessDateExactly`.

## Model

| member | source | states |
|---|---|---|
| `SharedCatalogue.Catalogue.MigrateProperty` | backend/migrations/20261108090000_shared_pos_catalogue.js:115-286 | On a property at any time, fresh or not: it fails exactly when a menu category that an outlet carries is not the row its name keeps (its delete is restricted), a named pair to be carried has no outlet, or a stock take would come to list one item twice. Otherwise every table is as `TablesAfter` says, column by column, from the tables before: which rows stay, which are archived into which, what the kept ones take over, the lists, settings, recipes, references and levels; both lists have unique names and mirror each other, and of each key exactly as many active rows are left as its busiest outlet had. On a fresh property every active menu item is then sold at its own outlet as before, under a category that outlet carries; levels, outlet totals, item totals and reorder levels mean what the old rows meant. On a failure the levels are untouched. |
| `PropertyTables.TablesExactly` | backend/migrations/20261108090000_shared_pos_catalogue.js:115-286 | Every table after a run on any tables, by columns: `ListsAfter`, `MenuTableAfter`, `StockTableAfter`, `RecipesAfter` and, from no levels, `LevelsAfter`. |
| `PropertyTables.ListsExactly` | backend/migrations/20261108090000_shared_pos_catalogue.js:118-155 | Of the old category rows those stay that are the first active, or else the first, of their name; a new row is active, at no outlet, new by name, and has name and place of a row the other list keeps, or the trimmed category of an active item and place 0; the lists agree on active names. |
| `MenuTable.DishIntoExactly` | backend/migrations/20261108090000_shared_pos_catalogue.js:178-180 | An active menu item goes into the lowest id of the same name and category, up to case and outer blanks, that has as many of the same before it at its own outlet. |
| `MenuTable.MenuRowExactly` | backend/migrations/20261108090000_shared_pos_catalogue.js:169-214 | Every row of the menu: a kept one takes the first image that is not empty and the first cost price of the rows that went into it, by id; a merged-away one is archived; the category is the registered spelling; every other column, and every inactive row, stays. |
| `MenuTable.SettingsExactly` | backend/migrations/20261108090000_shared_pos_catalogue.js:192-200 | A row's outlet stores for the kept row the row's price where it differs and its switch where it is off, over what it had; no other setting changes. |
| `StockTable.MovesToExactly` | backend/migrations/20261108090000_shared_pos_catalogue.js:233-235 | References to an active stock item move to the lowest id of the same name and unit, up to case and outer blanks, that has as many of the same before it at its own outlet; references to others stay. |
| `StockTable.StockRowExactly` | backend/migrations/20261108090000_shared_pos_catalogue.js:217-265 | Every row of the stock: a kept one takes the first category that is not empty and the exact total of the movements that went into it; a merged-away one is archived at 0.000; the category is the registered spelling; every other column stays. |
| `StockTable.ReferencesMove` | backend/migrations/20261108090000_shared_pos_catalogue.js:249-251 | Movements and take lines name the row their item went into and are otherwise unchanged. |
| `StockTable.LevelsExactly` | backend/migrations/20261108090000_shared_pos_catalogue.js:266-281 | From no levels: one for each outlet and row at which a row stood, or a movement took place, of an item that went into it, with the exact sum and the reorder level of the row that stood there. |
| `RecipeTable.RecipesExactly` | backend/migrations/20261108090000_shared_pos_catalogue.js:201-257 | A dish has the lines of the first row, by id, merged into it that has any, or its own; each names the row its item went into, in the quantity of the first of them. |
| `SharedCatalogue.Catalogue.MigrateOnceMore` | backend/migrations/20261108090000_shared_pos_catalogue.js:115-286 | The k-th run on a property succeeds if and only if the tables before the first one meet `RunSucceeds`: the take lines stay distinct when the items are joined k times, and from the second run on nothing named was missing on either list. |
| `SharedCatalogue.Catalogue.MigrateTwice` | backend/migrations/20261108090000_shared_pos_catalogue.js:115-286 | All four steps, run and run again: each success if and only if the original tables say so, and what the second run leaves unchanged, table by table. |
| `SecondRun.SecondRunEffect` | backend/migrations/20261108090000_shared_pos_catalogue.js:159-166 | After a successful second run both lists are as before; the carried pairs are if and only if no item filed under a category registered as blanks asks for more; menu items are if and only if in every group the first row's outlet leads; settings if and only if every row joined differs from its kept row in nothing its outlet does not have already; stock items, totals included, if and only if the first outlet leads, and then the only new levels are empty ones for the rows the first run merged away; no existing level is ever derived again. |
| `SecondRunLevels.SecondRunMovement` | backend/migrations/20261108090000_shared_pos_catalogue.js:249-285 | Movements and take lines stay if and only if none names a row still to be joined; recipes if and only if no line names one and no kept dish without a recipe takes over another's; the levels are right after the first run, and after the second if and only if what it joins moves nothing on balance under a level of the first. |
| `SecondRunLevels.LevelsHoldExactly` | backend/migrations/20261108090000_shared_pos_catalogue.js:266-281 | That condition on the levels, told by the items and movements before the first run. |
| `SecondRunLevels.StaleLevel` | backend/migrations/20261108090000_shared_pos_catalogue.js:269-270 | Items at outlets A, B, B and stock of the third: both runs succeed, and the second leaves that stock under a level derived without it. |
| `SecondRunRecipes.RecipesStayExactly` | backend/migrations/20261108090000_shared_pos_catalogue.js:201-257 | A run leaves the recipes as they are if and only if there is nothing to move in them. |
| `OutletMenus.OutletMenuExactly` | backend/src/shared/outlet-menu.js:54-69 | The whole menu of an outlet after the first run: it sells exactly the kept items whose category something at the outlet asked for; an item merged from a row of the outlet as that row was sold, any other one, newly sold there, at its main price and available. |
| `OutletMenus.CarriesExactly` | backend/migrations/20261108090000_shared_pos_catalogue.js:138-167 | An outlet carries the category of a name if and only if an active menu or stock category of that name, or an active item filed under it, stood there. |
| `Reruns.CanRunExactly` | backend/migrations/20261108090000_shared_pos_catalogue.js:115-286 | After k runs, the condition on the tables found is the condition on the tables before the first run. |
| `Reruns.AlwaysDeletable` | backend/migrations/20261108090000_shared_pos_catalogue.js:104 | No run from a fresh property, however often repeated, deletes a carried category. |
| `Reruns.CarriedRowFails` | backend/migrations/20261108090000_shared_pos_catalogue.js:104 | A category archived at the outlet that carries it and registered again at another: the run fails although every pair has its outlet. |
| `Reruns.RanOnceMore` | backend/migrations/20261108090000_shared_pos_catalogue.js:115-286 | A successful run after k runs leaves the property as k + 1 runs do: places joined once more, lines moved once more, lists settled. |
| `Reruns.SecondCollisionExactly` | backend/migrations/20261108090000_shared_pos_catalogue.js:251 | Two runs collide if and only if two lines of one take name items that the first run joins or whose kept rows the second joins, told by the columns. |
| `Reruns.MirroredRowFails` | backend/migrations/20261108090000_shared_pos_catalogue.js:125-136 | One menu category and no stock category: the first run succeeds and the second fails. |
| `Reruns.FirstMergeFails` | backend/migrations/20261108090000_shared_pos_catalogue.js:251 | Items at outlets A and B and a take listing both, on a fresh property: the first run fails. |
| `Reruns.SecondMergeFails` | backend/migrations/20261108090000_shared_pos_catalogue.js:233-251 | Items at outlets A, B, B and a take listing the last two: nothing is missing, the first run succeeds, the second fails. |
| `PropertyRuns.RunMergesFully` | backend/migrations/20261108090000_shared_pos_catalogue.js:178-265 | The active rows left are exactly the survivors by columns, as many of each key as its busiest outlet had, for menu and stock items. |
| `PropertyRuns.MenuMeaning` | backend/migrations/20261108090000_shared_pos_catalogue.js:138-200 | On a fresh property steps 1 to 3 keep what every outlet sells, through the row the columns name. |
| `PropertyRuns.StockMeaning` | backend/migrations/20261108090000_shared_pos_catalogue.js:217-285 | Where there were no levels, step 4 keeps what every outlet has in stock. |
| `SecondRun.OwnTargetKeys` | backend/migrations/20261108090000_shared_pos_catalogue.js:230-248 | Where nothing is left to merge, the levels wanted are those of every item at its own outlet. |
| `SharedCatalogue.Catalogue.MigrateCategories` | backend/migrations/20261108090000_shared_pos_catalogue.js:118-167 | Steps 1 and 2 from any two valid lists and any carry table: success exactly when no carried category would be deleted and every named carried pair has an outlet; the rows added, the keys both maps end with, and the carry table exactly. |
| `SharedCatalogue.Catalogue.MigrateMenu` | backend/migrations/20261108090000_shared_pos_catalogue.js:169-215 | Step 3 leaves the tables in the merged state of the planned sets, from which the meaning lemmas follow. |
| `SharedCatalogue.Catalogue.MigrateStock` | backend/migrations/20261108090000_shared_pos_catalogue.js:217-285 | Step 4, with or without earlier levels: fails exactly on a stock-take collision, told by the items' columns, and otherwise leaves items, movements, lines and levels as `StockDone` gives them, and recipes mapped. |
| `OnePerOutlet.PlanOnePerOutlet` | backend/migrations/20261108090000_shared_pos_catalogue.js:76-84 | The greedy loop puts the k-th row of every outlet, in row order, into the k-th set, with as many sets as the busiest outlet has rows. |
| `OnePerOutlet.RowInItsLayer` | backend/migrations/20261108090000_shared_pos_catalogue.js:76-84 | A row lies in exactly one set: the one numbered by the rows of its outlet before it. |
| `OnePerOutlet.LayerShape` | backend/migrations/20261108090000_shared_pos_catalogue.js:75-84 | Each set keeps the row order (so its head has its lowest id) and holds no outlet twice. |
| `OnePerOutlet.PlanIsOptimal` | backend/migrations/20261108090000_shared_pos_catalogue.js:75-84 | The plan covers the rows with one row per outlet and set, and no other such cover has fewer sets. |
| `OnePerOutlet.HeightAttained` | backend/migrations/20261108090000_shared_pos_catalogue.js:76-84 | The number of sets is reached by some outlet: it is the largest number of rows one outlet has. |
| `MergeColumns.SameSetExactly` | backend/migrations/20261108090000_shared_pos_catalogue.js:76-84 | Two planned rows go to one set if and only if their keys are equal and each has the same number of earlier rows of its key at its own outlet. |
| `MergeColumns.KeptByColumns` | backend/migrations/20261108090000_shared_pos_catalogue.js:178-180 | The row a row is merged into is the lowest id those columns allow. |
| `MergeColumns.SurvivorsPerKey` | backend/migrations/20261108090000_shared_pos_catalogue.js:76-84 | Of every key as many rows survive as its busiest outlet had: same-named rows at different outlets do merge. |
| `MergeColumns.ReplanExactly` | backend/migrations/20261108090000_shared_pos_catalogue.js:76-84 | Planning the survivors of a table again merges nothing if and only if in every group, wherever its rows are cut off, no outlet has more of them than the first row's outlet; in particular when no name repeats at an outlet. |
| `MergeColumns.SecondPlanExactly` | backend/migrations/20261108090000_shared_pos_catalogue.js:178-265 | The same on the planned sets: grouping and planning the kept rows of a table gives single rows only, if and only if that holds of the table before. |
| `OnePerOutlet.ReplanCanMerge` | backend/migrations/20261108090000_shared_pos_catalogue.js:76-84 | Rows at outlets A, B, B: a second run merges the two rows the first one kept. |
| `Grouping.GroupBy` | backend/migrations/20261108090000_shared_pos_catalogue.js:86-94 | The Map loop yields, in order of first appearance, each key's rows in their order. |
| `Grouping.WithKeyMembers` | backend/migrations/20261108090000_shared_pos_catalogue.js:86-94 | A group holds exactly the rows of its key. |
| `Grouping.KeysMembers` | backend/migrations/20261108090000_shared_pos_catalogue.js:86-94 | Every row has a group, every group a row, and no key two groups. |
| `MergePlan.SetsPartition` | backend/migrations/20261108090000_shared_pos_catalogue.js:178-180 | Grouping followed by planning partitions any table read in id order: each row in one set, one row per outlet, lowest id first, one key per set. |
| `MergePlan.LaterSetUntouched` | backend/migrations/20261108090000_shared_pos_catalogue.js:233-251 | Sets merged earlier never hold or re-point an id of a later set, so the sets can be merged one after another. |
| `Quantities.SumQuantities` | backend/migrations/20261108090000_shared_pos_catalogue.js:289-301 | The loop returns the printed total, and fails exactly when some value is one `BigInt` would refuse. |
| `Quantities.UnitsExact` | backend/migrations/20261108090000_shared_pos_catalogue.js:291-296 | Up to three fraction digits, the thousandths read are exactly 1000 times the real number the text denotes. |
| `Quantities.NullIsZero` | backend/migrations/20261108090000_shared_pos_catalogue.js:292 | A missing value counts as nothing. |
| `Quantities.FurtherDigitsCut` | backend/migrations/20261108090000_shared_pos_catalogue.js:294-295 | Digits beyond the third after the point are cut off. |
| `Quantities.SumIsExact` | backend/migrations/20261108090000_shared_pos_catalogue.js:288-301 | The text returned is in the canonical column form and denotes exactly the real sum of the numbers given. |
| `Quantities.SumOfSums` | backend/migrations/20261108090000_shared_pos_catalogue.js:288-301 | Summing printed partial sums equals summing everything. |
| `Quantities.TotalAnyOrder` | backend/migrations/20261108090000_shared_pos_catalogue.js:288-301 | The order of the values does not matter. |
| `Quantities.UnchangedExactly` | backend/migrations/20261108090000_shared_pos_catalogue.js:298-300 | A numeral fed back alone comes out unchanged if and only if it is canonical; in particular zero never shows a sign. |
| `Names.KeyOfTrim` | backend/migrations/20261108090000_shared_pos_catalogue.js:70-73 | A name registered in trimmed form is found under the key of the untrimmed one. |
| `Names.TrimExactly` | backend/migrations/20261108090000_shared_pos_catalogue.js:70-73 | Trimming takes the blanks off both ends and no more. |
| `Names.SameKeyExactly` | backend/migrations/20261108090000_shared_pos_catalogue.js:70-73 | Two texts have one key if and only if, trimmed, they differ at most in the case of letters. |
| `CategoryLists.CategoryList.Merge` | backend/migrations/20261108090000_shared_pos_catalogue.js:96-107 | The loop over groups deletes all but the kept row of each name and returns the outlets that carried it; it fails exactly when a row that others refer to is not the one its name keeps. |
| `CategoryMerge.KeptRowExactly` | backend/migrations/20261108090000_shared_pos_catalogue.js:101 | The kept row, told by the columns: the first active one of its name, or the first where none is active. |
| `CategoryMerge.DeletableExactly` | backend/migrations/20261108090000_shared_pos_catalogue.js:348 | The deletes go through exactly when every row referred to is the one its name keeps. |
| `CategoryLists.CategoryList.CollectCarried` | backend/migrations/20261108090000_shared_pos_catalogue.js:102 | Each active row of the group contributes its outlet, under the kept name. |
| `CategoryMerge.SurvivesExactly` | backend/migrations/20261108090000_shared_pos_catalogue.js:100-105 | A row survives if and only if it is the one kept for its name. |
| `CategoryMerge.KeptForFacts` | backend/migrations/20261108090000_shared_pos_catalogue.js:101 | The kept row has the name, and is active whenever any row of that name is. |
| `CategoryMerge.MergedFacts` | backend/migrations/20261108090000_shared_pos_catalogue.js:96-107 | Afterwards names are unique, the same names exist as before, and the rows kept are original rows in id order. |
| `CategoryMerge.CarriedExactly` | backend/migrations/20261108090000_shared_pos_catalogue.js:99-102 | A pair is carried if and only if an active row stood at that outlet and the pair bears the name kept for it. |
| `CategoryLists.CategoryList.Index` | backend/migrations/20261108090000_shared_pos_catalogue.js:123-124 | The lookup map has a key if and only if exactly one row has it, and then describes that row. |
| `CategoryLists.CategoryList.Add` | backend/migrations/20261108090000_shared_pos_catalogue.js:127-128 | Inserting a row at no outlet keeps ids ascending and the lookup map in step with the table. |
| `CategoryLists.CategoryList.AddMissing` | backend/migrations/20261108090000_shared_pos_catalogue.js:125-136 | Exactly the other list's active names that were missing are added, each with name and place of an active row; no old entry changes. |
| `SharedCatalogue.Catalogue.MergeCategoryLists` | backend/migrations/20261108090000_shared_pos_catalogue.js:118-136 | Unless a carried menu category would be deleted, both lists are merged and each extended by mirrors of the other's active rows; the maps end with exactly these names. |
| `CategoryCarry.ListsMirrored` | backend/migrations/20261108090000_shared_pos_catalogue.js:125-155 | Every active name of either list exists on the other. |
| `SharedCatalogue.Catalogue.CategoryFor` | backend/migrations/20261108090000_shared_pos_catalogue.js:145-155 | A missing name is registered trimmed, on both lists where both lack it; known names keep their entries. |
| `SharedCatalogue.Catalogue.InsertOutletCategory` | backend/migrations/20261108090000_shared_pos_catalogue.js:165 | Only a pair that is not there yet is inserted. |
| `SharedCatalogue.Catalogue.Carry` | backend/migrations/20261108090000_shared_pos_catalogue.js:141-167 | The carry loop succeeds if and only if every named pair has an outlet, and then adds exactly the rows of the pairs, none twice. |
| `CategoryCarry.RowCarried` | backend/migrations/20261108090000_shared_pos_catalogue.js:138-142 | An outlet with an active row of either list carries the category of that name. |
| `CategoryCarry.CarriedOnlyFor` | backend/migrations/20261108090000_shared_pos_catalogue.js:138-142 | Nothing else is carried: there was an active row or an active item of that name at the outlet. |
| `CategoryCarry.SecondRunExactly` | backend/migrations/20261108090000_shared_pos_catalogue.js:125-166 | After a first run, all active named rows have an outlet if and only if nothing named had been missing. |
| `SharedCatalogue.Catalogue.FileMenuItems` | backend/migrations/20261108090000_shared_pos_catalogue.js:171-177 | Exactly the active items take their category's registered spelling. |
| `SharedCatalogue.Catalogue.UpsertOutletItem` | backend/migrations/20261108090000_shared_pos_catalogue.js:109-113 | One (outlet, item) row is created with the defaults or changed, nothing else. |
| `SharedCatalogue.Catalogue.KeepDifferences` | backend/migrations/20261108090000_shared_pos_catalogue.js:192-200 | Member by member, the kept item's row at the member's outlet is created or changed exactly where price or availability differ, whatever rows were there; all other rows stay. |
| `SharedCatalogue.Catalogue.AbsorbOthers` | backend/migrations/20261108090000_shared_pos_catalogue.js:201-212 | The other members are archived, image and cost come from the first that has one, and the head takes the first recipe. |
| `SharedCatalogue.Catalogue.CopyRecipe` | backend/migrations/20261108090000_shared_pos_catalogue.js:206-209 | The target's recipe becomes the source's, every other recipe stays. |
| `SharedCatalogue.Catalogue.MergeMenuSet` | backend/migrations/20261108090000_shared_pos_catalogue.js:179-214 | One set becomes one item: items, settings and recipes end as the set's specification says. |
| `SharedCatalogue.Catalogue.MergeMenuItems` | backend/migrations/20261108090000_shared_pos_catalogue.js:178-215 | The nested loops leave the state in which all planned sets are merged. |
| `MenuMerge.MergedStep` | backend/migrations/20261108090000_shared_pos_catalogue.js:179-214 | Merging one more set extends "the first n sets are merged", whatever earlier sets did. |
| `MenuMerge.SoldAsBefore` | backend/migrations/20261108090000_shared_pos_catalogue.js:191-200 | The kept item's effective price and availability at a member's outlet are the member's old ones; merged-away members are archived. |
| `MenuMerge.SettingsOnlyWhereMerged` | backend/migrations/20261108090000_shared_pos_catalogue.js:192-200 | An outlet's own row of an item is new or changed only if a row merged into that item stood there. |
| `MenuMerge.FirstCookExact` | backend/migrations/20261108090000_shared_pos_catalogue.js:204-210 | The recipe taken is that of the first member, by id, with a non-empty one. |
| `MenuMerge.RecipesSurvive` | backend/migrations/20261108090000_shared_pos_catalogue.js:201-212 | A kept item's recipe is that first one, line for line; every other item's recipe is untouched. |
| `CatalogueMeaning.MenuKept` | backend/src/shared/outlet-menu.js:40-50 | Filing and merging together leave each active item sold at its outlet as before, its name and category the same up to case and spaces, spelled as registered. |
| `CatalogueMeaning.MenuMigrated` | backend/migrations/20261108090000_shared_pos_catalogue.js:138-215 | For every originally active item: sold as before, and its outlet carries the category of the kept row; the others unchanged. |
| `SharedCatalogue.Catalogue.FileStockItems` | backend/migrations/20261108090000_shared_pos_catalogue.js:220-227 | Every stock item with a category takes the registered spelling. |
| `SharedCatalogue.Catalogue.RepointRecipes` | backend/migrations/20261108090000_shared_pos_catalogue.js:252-257 | Per dish, the kept item's line wins, else the other's moves to it, and no line names the other any more. |
| `SharedCatalogue.Catalogue.MergeMember` | backend/migrations/20261108090000_shared_pos_catalogue.js:249-263 | One member is merged away; fails if and only if a stock take would list the kept item twice. |
| `SharedCatalogue.Catalogue.MergeStockSet` | backend/migrations/20261108090000_shared_pos_catalogue.js:234-264 | One set becomes one item; fails if and only if two lines of a take fall together within it. |
| `SharedCatalogue.Catalogue.MergeStockItems` | backend/migrations/20261108090000_shared_pos_catalogue.js:233-265 | All sets merged, with exactly their level targets; fails if and only if the final lines would collide. |
| `StockMerge.KeptIdStep` | backend/migrations/20261108090000_shared_pos_catalogue.js:249-251 | Re-pointing set by set is re-pointing once by all sets. |
| `StockMerge.MergedStep` | backend/migrations/20261108090000_shared_pos_catalogue.js:234-264 | Merging one more set extends "the first n sets are merged". |
| `StockMerge.SetMergedStep` | backend/migrations/20261108090000_shared_pos_catalogue.js:249-263 | Merging one more member extends "the first n members are merged". |
| `StockTheorems.SameKeptId` | backend/migrations/20261108090000_shared_pos_catalogue.js:249-251 | Two ids merge into one if and only if they are equal or stand in one set. |
| `StockTheorems.LinesStayUnique` | backend/migrations/20261001094000_create_stock_take_lines.js:54 | If every take counted only items of its own outlet, re-pointing never makes a take list an item twice. |
| `StockTheorems.LinesCollideExactly` | backend/migrations/20261108090000_shared_pos_catalogue.js:251 | Without that assumption, a collision happens if and only if two lines of one take name items of one key, each the equally many-th of its outlet. |
| `StockTheorems.LinesCanCollide` | backend/migrations/20261108090000_shared_pos_catalogue.js:251 | A take listing same-named items of two outlets makes the merge fail. |
| `StockTheorems.CollisionStaysToTheEnd` | backend/migrations/20261108090000_shared_pos_catalogue.js:233-265 | A collision on the way is a collision at the end, so failure does not depend on the order of the sets. |
| `StockTheorems.FirstLineExact` | backend/migrations/20261108090000_shared_pos_catalogue.js:252-257 | The line kept is that of the first member, by id, that the dish listed. |
| `StockTheorems.RecipePairsAreImage` | backend/migrations/20261108090000_shared_pos_catalogue.js:252-257 | The (dish, item) pairs afterwards are exactly the image of the earlier pairs under "merged into". |
| `CatalogueMeaning.RecipesThroughBoth` | backend/migrations/20261108090000_shared_pos_catalogue.js:201-257 | Through both merges a dish has the recipe of the first row merged into it that had one, ingredients and quantities mapped. |
| `CatalogueMeaning.StockRowMigrated` | backend/migrations/20261108090000_shared_pos_catalogue.js:233-265 | A stock row is merged into a row of the same name, unit and status, at another outlet unless into itself, and is archived then. |
| `CatalogueMeaning.StockTakesSafe` | backend/migrations/20261108090000_shared_pos_catalogue.js:217-251 | On the property as filed, takes of their own outlets stay free of collisions. |
| `SharedCatalogue.Catalogue.QuantityAt` | backend/migrations/20261108090000_shared_pos_catalogue.js:267-268 | The quantity of an (outlet, item) pair is the exact sum of its movements. |
| `SharedCatalogue.Catalogue.InsertWantedLevels` | backend/migrations/20261108090000_shared_pos_catalogue.js:266-272 | Existing levels stay; one new level per further target, with its derived quantity and a wanted reorder level. |
| `SharedCatalogue.Catalogue.InsertLevels` | backend/migrations/20261108090000_shared_pos_catalogue.js:266-281 | Existing levels stay; exactly the targets and the movements' pairs have levels besides, one each. |
| `SharedCatalogue.Catalogue.RefreshTotals` | backend/migrations/20261108090000_shared_pos_catalogue.js:282-285 | Each active item's quantity becomes the sum of its movements; nothing else changes. |
| `StockLevels.LevelIsMergedSum` | backend/migrations/20261108090000_shared_pos_catalogue.js:217-285 | A level at o of k is the sum of the original movements at o over every row merged into k. |
| `StockLevels.OutletTotalKept` | backend/migrations/20261108090000_shared_pos_catalogue.js:217-285 | Each outlet's levels add up to its original movements. |
| `StockLevels.ItemTotalIsLevels` | backend/migrations/20261108090000_shared_pos_catalogue.js:282-285 | An item's total is the sum of its levels. |
| `StockLevels.TargetsAgree` | backend/migrations/20261108090000_shared_pos_catalogue.js:228-248 | No pair is wanted with two different reorder levels, so the skip of existing levels loses nothing. |
| `StockLevels.ReorderLevelsKept` | backend/migrations/20261108090000_shared_pos_catalogue.js:228-272 | Every row, merged or not, leaves its reorder level at its own outlet. |
| `RestartableSchema.Migration.Up` | backend/migrations/20261108090000_shared_pos_catalogue.js:322-538 | From the schema after any n blocks, an attempt cut off before any block fails if and only if it enters the loop and the loop fails on a property; otherwise it reaches the further of both points. It enters the loop exactly when it gets to it and no category table has lost its outlet column. Whenever the key on (property, name) is added, all lists have unique names. |
| `RestartableSchema.Migration.MigrateProperties` | backend/migrations/20261108090000_shared_pos_catalogue.js:468-471 | The loop over the properties goes through if and only if every property can be run once more. |
| `RestartableSchema.Migration.Restarts` | backend/migrations/20261108090000_shared_pos_catalogue.js:322-330 | However often and wherever it is stopped, the attempt let through succeeds if and only if every property can be run as often as the loop is entered, and then ends in the schema of an uninterrupted run. |
| `RestartableSchema.EnteredOnceExactly` | backend/migrations/20261108090000_shared_pos_catalogue.js:461-471 | The loop is entered once if and only if no attempt stopped between the loop and the first dropped column. |
| `RestartableSchema.StopAfterLoopFails` | backend/migrations/20261108090000_shared_pos_catalogue.js:468-476 | A property with one menu category and no stock category: an uninterrupted run succeeds, one stopped right after the loop cannot be completed. |
| `RestartableSchema.RunsInTurn` | backend/migrations/20261108090000_shared_pos_catalogue.js:331-537 | Each block, at its turn, fires, finds the schema it needs and leads to the next. |
| `RestartableSchema.RerunsHarmlessly` | backend/migrations/20261108090000_shared_pos_catalogue.js:331-537 | Each block's schema statement, met again at any later point, is skipped or finds what it needs and changes nothing; whether the loop inside block 10 goes through again is `MigrateProperties`. |
| `RestartableSchema.DataLoopAgain` | backend/migrations/20261108090000_shared_pos_catalogue.js:461-471 | The data loop is entered again if and only if both category tables still have their outlet column. |
| `RestartableSchema.DataLoopGuard` | backend/migrations/20261108090000_shared_pos_catalogue.js:461-468 | On any schema, the loop is entered if and only if both category tables have their outlet column. |
| `RestartableSchema.SameSchema` | backend/migrations/20261108090000_shared_pos_catalogue.js:322-538 | The closed form determines the schema, so "same point" means "same schema". |
| `CategoryFanOut.ChosenExact` | backend/migrations/20261104090000_add_outlet_id_to_pos_menu_categories.js:41-69 | A category goes to exactly the outlets whose items use it, ascending; to the property's lowest one if none does; nowhere if and only if the property has no outlet. |
| `CategoryFanOut.CategoryTable.PlaceCategory` | backend/migrations/20261104090000_add_outlet_id_to_pos_menu_categories.js:74-84 | The original moves to one outlet and one copy is inserted for each further one. |
| `CategoryFanOut.CategoryTable.Up` | backend/migrations/20261104090000_add_outlet_id_to_pos_menu_categories.js:58-85 | The loop over the changing table ends in the placed originals followed by their copies in order of insertion. |
| `CategoryFanOut.CategoryTable.Down` | backend/migrations/20261104090000_add_outlet_id_to_pos_menu_categories.js:103-122 | The `seen` loop keeps the lowest id per property and name and drops the outlet. |
| `CategoryFanOutTheorems.UniquePerOutlet` | backend/migrations/20261104090000_add_outlet_id_to_pos_menu_categories.js:87-89 | After `up` every row has an outlet and no two rows share outlet and name, so both constraints can be added. |
| `CategoryFanOutTheorems.DownAfterUp` | backend/migrations/20261104090000_add_outlet_id_to_pos_menu_categories.js:50-123 | `down` after `up` gives back exactly the rows of properties with an outlet, unchanged; all rows if and only if every row's property has one. |
| `CategoryFanOut.UpKeepsIdsInOrder` | backend/migrations/20261105090000_add_outlet_id_to_stock_item_categories.js:37-64 | The table stays ascending by id with fresh ids above, as the next migration needs. |
| `CategoryRegistration.Register` | backend/migrations/20261005090000_create_pos_menu_categories.js:52-62 | One row per property and lower-case name, each in the first spelling read, active, at place 0 and no outlet. |
| `CategoryRegistration.EveryItemRegistered` | backend/migrations/20261005090000_create_pos_menu_categories.js:48-62 | Every item with a non-blank category finds exactly one registered row of its property. |
| `CategoryRegistration.OnlyFiledRegistered` | backend/migrations/20261005090000_create_pos_menu_categories.js:48-62 | Nothing else is registered. |
| `CategoryFanOutTheorems.EveryItemCovered` | backend/migrations/20261104090000_add_outlet_id_to_pos_menu_categories.js:58-85 | Registration then fan-out: every such item finds exactly one row of its category at its own outlet. |
| `FanOutThenMerge.MergeUndoesFanOut` | backend/migrations/20261108090000_shared_pos_catalogue.js:96-107 | Merging a fanned-out list keeps exactly the original rows: copies have higher ids and the same status. |
| `FanOutThenMerge.CarriedIsChosen` | backend/migrations/20261108090000_shared_pos_catalogue.js:99-102 | The outlets that carry an active category afterwards are exactly those the fan-out chose. |
| `ShiftBackfill.Settlements.Backfill` | backend/migrations/20261006090000_add_pos_shift_id_to_pos_order_settlements.js:44-54 | Each unstamped settlement ends with the first shift by (opening, id) on its terminal whose closed interval holds its time, and with none if and only if no shift covers it; stamped ones keep their stamp. |
| `ShiftBackfill.StampedExactly` | backend/migrations/20261006090000_add_pos_shift_id_to_pos_order_settlements.js:46-53 | The same by columns: the stamp is a shift's if and only if it is of the sale's property and its order's terminal, opened at or before the sale, not closed before it, and no such shift opened earlier, or as early with a lower id. |
| `ShiftBackfill.NoTerminalNoStamp` | backend/migrations/20261006090000_add_pos_shift_id_to_pos_order_settlements.js:46 | A sale of an order without a terminal gets no stamp. |
| `ShiftBackfill.HandoverGoesToEarlier` | backend/migrations/20261006090000_add_pos_shift_id_to_pos_order_settlements.js:51-52 | A sale in the second in which one shift closes and the next of its terminal opens goes to the earlier one. |
| `ShiftBackfill.Settlements.Stamp` | backend/migrations/20261006090000_add_pos_shift_id_to_pos_order_settlements.js:46-53 | One update stamps exactly the unstamped rows the shift covers. |
| `ShiftBackfill.StampDetermined` | backend/migrations/20261006090000_add_pos_shift_id_to_pos_order_settlements.js:44-54 | The specification allows one outcome only. |
| `ShiftBackfill.TotalsCountOnce` | backend/migrations/20261006090000_add_pos_shift_id_to_pos_order_settlements.js:44-54 | The totals of all shifts together count every covered settlement exactly once, however shifts overlap. |
| `StorekeeperSeed.Seed.Up` | backend/migrations/20261109090000_add_storekeeper_role_and_stock_transfer_permission.js:55-89 | Cut off before any statement, `up` leaves the state of exactly the statements run; run in full, `SeededFrom`. |
| `StorekeeperSeed.UpExactly` | backend/migrations/20261109090000_add_storekeeper_role_and_stock_transfer_permission.js:36-89 | By status, code and key: for each tenant that is running or offboarding and had none, one storekeeper role, and no other; the grants are those there were, transfer for managers, admins, super admins and storekeepers of such tenants, and view, where catalogued, for the storekeepers; nothing else changes. |
| `StorekeeperSeed.DownExactly` | backend/migrations/20261109090000_add_storekeeper_role_and_stock_transfer_permission.js:97-105 | By code and key: the storekeeper roles go with their grants, the key with its grants, and the rules naming the role; nothing else. |
| `Rbac.Grant` | backend/migrations/20261109090000_add_storekeeper_role_and_stock_transfer_permission.js:42-53 | Exactly the missing grants are inserted. |
| `StorekeeperSeed.ResumesAnywhere` | backend/migrations/20261109090000_add_storekeeper_role_and_stock_transfer_permission.js:29-31 | From any cut, running again reaches the same permissions, roles and grants as one uninterrupted run. |
| `StorekeeperSeed.UpTwice` | backend/migrations/20261109090000_add_storekeeper_role_and_stock_transfer_permission.js:55-89 | Running it twice is running it once. |
| `StorekeeperSeed.UpGrants` | backend/migrations/20261109090000_add_storekeeper_role_and_stock_transfer_permission.js:13-20 | Every tenant not being deleted has a storekeeper role afterwards, holding transfer and (where catalogued) view; its managers hold transfer. |
| `StorekeeperSeed.UpTouches` | backend/migrations/20261109090000_add_storekeeper_role_and_stock_transfer_permission.js:22-27 | Every row added is the key, a storekeeper role of a live tenant, or a grant to a live tenant's role; nothing is removed. |
| `StorekeeperSeed.Seed.Down` | backend/migrations/20261109090000_add_storekeeper_role_and_stock_transfer_permission.js:91-106 | `down` refuses, changing nothing, if and only if a row of property access or an invitation still names the role. |
| `StorekeeperSeed.WithoutExactly` | backend/migrations/20261109090000_add_storekeeper_role_and_stock_transfer_permission.js:97 | The delete of notification rules takes exactly the rows of the role. |
| `StorekeeperSeed.DownAfterUp` | backend/migrations/20261109090000_add_storekeeper_role_and_stock_transfer_permission.js:55-106 | `down` after `up` restores the tables if and only if neither the key, nor a storekeeper role, nor a notification rule naming it existed. |
| `HousekeepingPermission.Seed.Up` | backend/migrations/20261030090000_seed_housekeeping_operate_permission.js:69-107 | Catalogues the key, grants it to the four roles, takes `manage` from housekeeping. |
| `HousekeepingPermission.Seed.Down` | backend/migrations/20261030090000_seed_housekeeping_operate_permission.js:109-133 | Gives `manage` back to housekeeping and drops `operate` with its grants. |
| `HousekeepingPermission.UpNarrows` | backend/migrations/20261030090000_seed_housekeeping_operate_permission.js:14-36 | The roles hold `operate`, housekeeping no longer holds `manage`, and every other grant is as before. |
| `HousekeepingPermission.UpExactly` | backend/migrations/20261030090000_seed_housekeeping_operate_permission.js:58-107 | By key and code: exactly which grants there are after `up`, and that nothing but one key and grants changes. |
| `HousekeepingPermission.DownExactly` | backend/migrations/20261030090000_seed_housekeeping_operate_permission.js:109-133 | The same for `down`. |
| `HousekeepingPermission.RoundTripGrants` | backend/migrations/20261030090000_seed_housekeeping_operate_permission.js:69-133 | `down` after `up` restores the grants if and only if nobody held `operate` and (if catalogued) every housekeeping role held `manage`. |
| `HousekeepingPermission.RoundTrip` | backend/migrations/20261030090000_seed_housekeeping_operate_permission.js:39-42 | All rows come back if and only if `operate` was not catalogued and (if catalogued) every housekeeping role held `manage`. |
| `HousekeepingPermission.DownAfterSignUps` | backend/migrations/20261030090000_seed_housekeeping_operate_permission.js:43-51 | From any state, sign-ups included, `down` leaves every housekeeping role holding `manage`, if catalogued, and nobody holding `operate`. |
| `HousekeepingPermission.UpKeepsKeys` | backend/migrations/20261030090000_seed_housekeeping_operate_permission.js:69-107 | `up` keeps every key and foreign key: permission ids unique, grants naming existing roles and permissions. |
| `HousekeepingPermission.DownKeepsKeys` | backend/migrations/20261030090000_seed_housekeeping_operate_permission.js:109-133 | `down` leaves no grant of a permission it drops, and keeps every key. |
| `TaxSwitch.TaxTable.Up` | backend/migrations/20261130090000_add_taxes_enabled.js:17-30 | A tax that was on is off afterwards if and only if every version of its tenant, property and code has an end date, and that date is before the business date wherever one is set; nothing else changes. |
| `TaxSwitch.SwitchedOffExactly` | backend/migrations/20261130090000_add_taxes_enabled.js:26-29 | That condition, for any rows. |
| `TaxSwitch.OnlySwitched` | backend/migrations/20261130090000_add_taxes_enabled.js:29 | No other column changes, and a tax that was off stays off. |
| `TaxSwitch.SwitchStep` | backend/migrations/20261130090000_add_taxes_enabled.js:26-30 | One more group switches all versions of its code or none, and no other. |
| `TaxSwitch.TaxTable.Down` | backend/migrations/20261130090000_add_taxes_enabled.js:33-38 | The column is dropped if and only if no tax is off. |
| `TaxSwitch.OneSwitchPerCode` | backend/migrations/20261130090000_add_taxes_enabled.js:26-30 | All versions of a code share one switch. |
| `TaxSwitch.NoOutcomeChanges` | backend/migrations/20260905094000_create_taxes.js:32-33 | On every date from the business date on, a version is charged exactly when it is effective. |
| `TaxSwitch.NoBusinessDateExactly` | backend/migrations/20261130090000_add_taxes_enabled.js:27-29 | Without a business date, a version's outcome is kept on all dates if and only if its code has an open version or it never was effective. |
| `TaxSwitch.NoBusinessDate` | backend/migrations/20261130090000_add_taxes_enabled.js:27-29 | A concrete tax of such a property that is effective on a date and no longer charged on it. |

## Left out

- A `Catalogue` is one property's rows; its tenant follows from the property and is not repeated.
- Collation and Unicode: a name's key is ASCII trimming of space, tab, carriage return and line feed, then lower-casing, and SQL's `LOWER(TRIM())` and case-insensitive equality are taken as the same key. Names that only MySQL or only JavaScript distinguishes are not modelled.
- Group keys joined into one string with a separator are pairs here; a name containing the separator is not modelled.
- `SELECT` without `ORDER BY` on the two category lists is read in id order; elsewhere such a read is an arbitrary order.
- Ids of settings, levels, carry rows, recipe lines and grants: these tables are keyed by their unique pair.
- Columns the migrations neither read nor write, timestamps, console output, and MySQL itself: each insert, update, delete and guarded block is one atomic step. Dates and times are integers.
- Concurrent writers, and a retry after `migrateProperty` stopped in the middle of a property (whole runs are stated, any number of them).
- `down` of the shared-catalogue migration, which cannot undo merges; renaming, service code and other permission seeds.
- Quantities.SumQuantities: `BigInt` also accepts blanks, hexadecimal and a plus sign; here any non-digit makes the sum fail. DECIMAL columns hold none of these.
- SharedCatalogue.Catalogue.MigrateProperty: where a run fails, how far it came is not stated: with step 1 failing nothing about the lists, with step 4 failing not which sets were merged; the lists, the menu side and the untouched levels are. That outlets sell and stock what they did is stated for a fresh property, as a later merge overwrites settings and leaves old levels.
- RestartableSchema.Migration.Restarts: an attempt is cut off between blocks; a loop that fails part way through the properties ends the story.
- CategoryFanOut.CategoryTable.Up: menu and stock fan-out run the same steps on tables of the same shape and are modelled once.
