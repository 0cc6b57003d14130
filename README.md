# Bicycle shop configurator and cart — a Dafny model

This project models the part of the bicycle shop that decides what a buyer may
configure and what lands in the cart. Each part option has a category, a value,
a stock flag and a `restrictions` object. The object maps a target category to
the values that choosing the option forbids there. Around that engine sit:

- the server's cart validator middleware;
- the bicycle page's configuration logic: choosing a value, the selector filter,
  the Add-to-Cart gate, the quantity input rule, and matching and merging
  against the current cart;
- the cart controller (add-or-merge, remove, update quantity);
- the cart page's quantity edits, Save guard, total and badge;
- the part-option controller (add with defaults, remove, toggle stock, replace
  restrictions).

Modules:

- `ShopTypes` (`shop_types.dfy`): the shared records. A `restrictions` object is
  its entry list in insertion order, with distinct keys. That order decides
  which conflict is reported first.
- `QuantityText` (`quantity_text.dfy`): the `""` or `^[1-9]\d*$` rule, and the
  number such a text denotes.
- `CartValidation` (`cart_validation.dfy`): the verdict as a function, and the
  middleware's nested loops as a method proved equal to it.
- `Configurator` (`configurator.dfy`): the bicycle page. It holds the selection
  rule and the filter, each as a function plus a looping method proved equal to
  it, and the gate and the add-to-cart plan. The `Session` class holds the page
  state.
- `ConfiguratorExamples` (`configurator_examples.dfy`): the wheels and rim-colour
  bicycle of the page's test suite.
- `CartStore` (`cart_store.dfy`): the cart controller as a `Store` class, whose
  line list is updated in place.
- `CartView` (`cart_view.dfy`): the cart page.
- `PartRegistry` (`part_registry.dfy`): the part-option controller as a
  `Registry` class over a map from id to option.

Restrictions are checked only in the direction they are declared: the option
that carries an entry forbids values elsewhere.

## Model

| member | source | states |
|---|---|---|
| `ShopTypes.Forbidden` | frontend/src/pages/bicyclePage/BicyclePage.js:157-159 | `restrictions[category]`: empty when no entry names the category; otherwise the list of the first entry for that category |
| `ShopTypes.ForbiddenIsEntry` | frontend/src/pages/bicyclePage/BicyclePage.js:157-159 | with distinct keys, looking up an entry's category yields that entry's list |
| `ShopTypes.TotalQuantity` | frontend/src/pages/cartPage/CartPage.js:65-67 | the unit count; characterised by `TotalQuantityAppend`, `TotalQuantitySplit` and `TotalQuantityReplace` |
| `ShopTypes.TotalQuantityAppend` | frontend/src/pages/cartPage/CartPage.js:65-67 | the unit count of a concatenation is the sum of the unit counts |
| `ShopTypes.TotalQuantitySplit` | frontend/src/pages/cartPage/CartPage.js:90-92 | the unit count is the count before a line, plus that line's quantity, plus the count after it |
| `ShopTypes.TotalQuantityReplace` | backend/src/controllers/cart.controller.js:118 | replacing one line changes the unit count by the difference of the two quantities |
| `QuantityText.DecimalText` | frontend/src/pages/bicyclePage/BicyclePage.js:45 | the spelling of a positive integer matches `^[1-9]\d*$` |
| `QuantityText.AcceptsQuantityInput` | frontend/src/pages/bicyclePage/BicyclePage.js:45 | the input rule; `AcceptedTextsAreSpellings` shows it accepts exactly `""` and the spellings of positive integers |
| `QuantityText.DecimalValue` | frontend/src/pages/bicyclePage/BicyclePage.js:72 | `parseInt` of a digit string; `ValueOfText` and `TextOfValue` show it inverts `DecimalText` |
| `QuantityText.PositiveDecimalAtLeastOne` | frontend/src/pages/bicyclePage/BicyclePage.js:53-54 | every non-empty accepted quantity text denotes at least 1, so `quantity > 0` holds |
| `QuantityText.ValueOfText` | frontend/src/pages/bicyclePage/BicyclePage.js:72 | reading back the spelling of n yields n |
| `QuantityText.TextOfValue` | frontend/src/pages/bicyclePage/BicyclePage.js:72 | `parseInt` of an accepted text, spelled again, is that text |
| `QuantityText.AcceptedTextsAreSpellings` | frontend/src/pages/bicyclePage/BicyclePage.js:43-48 | the input rule accepts exactly `""` and the spellings of positive integers |
| `CartValidation.FindOption` | backend/src/middleware/cartValidation.middleware.js:22-25 | the lookup returns a registry entry with the selection's category and value, and returns nothing only when no entry has that pair |
| `CartValidation.SelectedIn` | backend/src/middleware/cartValidation.middleware.js:47-49 | the selection found is one of the request's selections and has that category; none is found only when no selection has it |
| `CartValidation.SelectedInIsFirst` | backend/src/middleware/cartValidation.middleware.js:47-49 | the selection compared against an entry is the first selection of its category |
| `CartValidation.RuleConflict` | backend/src/middleware/cartValidation.middleware.js:44-58 | a reported conflict is the first selection of an entry's category whose value that entry forbids; none is reported only when no entry forbids the first selection of its category |
| `CartValidation.CheckRestrictions` | backend/src/middleware/cartValidation.middleware.js:44-58 | the loop over the restriction entries, returning at the first forbidden selection, reports the conflict `RuleConflict` defines |
| `CartValidation.RuleConflictStep` | backend/src/middleware/cartValidation.middleware.js:44-58 | the entries from `k` on are checked as entry `k` first, then the entries after it |
| `CartValidation.Fault` | backend/src/middleware/cartValidation.middleware.js:27-58 | the fault of one selection; characterised by `KnownFault`, `UnknownSelectionRejected` and `StockCheckPrecedesRestrictions` |
| `CartValidation.KnownFault` | backend/src/middleware/cartValidation.middleware.js:33-58 | a known, in-stock selection faults exactly when its restriction entries report a conflict, and then as incompatible with that selection |
| `CartValidation.KnownFaultAt` | backend/src/middleware/cartValidation.middleware.js:20-61 | at a known, in-stock selection the loop moves on when its entries report no conflict and stops with an incompatibility otherwise |
| `CartValidation.FirstFault` | backend/src/middleware/cartValidation.middleware.js:20-61 | the loop over selections never yields a shape error |
| `CartValidation.FirstFaultIsFirst` | backend/src/middleware/cartValidation.middleware.js:20-61 | the loop accepts exactly when no selection faults; otherwise it reports the fault of the first faulty selection |
| `CartValidation.FirstFaultAccepts` | backend/src/middleware/cartValidation.middleware.js:20-61 | the loop accepts exactly when no selection from the current one on faults |
| `CartValidation.FirstFaultReports` | backend/src/middleware/cartValidation.middleware.js:20-61 | a rejection is the fault of the first faulty selection, with every earlier selection passing |
| `CartValidation.Validate` | backend/src/middleware/cartValidation.middleware.js:8-63 | "options field is required" exactly for a missing field; "options cannot be empty" exactly for a non-array or empty array; accepted exactly when the list is non-empty and no selection is unknown, out of stock or in conflict |
| `CartValidation.ValidateCartItem` | backend/src/middleware/cartValidation.middleware.js:3-63 | the loop over the selections, with `CheckRestrictions` as its inner loop and early returns, reaches the verdict `Validate` defines |
| `CartValidation.FirstFailureDecides` | backend/src/middleware/cartValidation.middleware.js:20-61 | the first failing selection decides the verdict; later selections are not examined |
| `CartValidation.UnknownSelectionRejected` | backend/src/middleware/cartValidation.middleware.js:27-31 | a selection with no registry entry, after passing ones, is rejected as an invalid selection naming it |
| `CartValidation.StockCheckPrecedesRestrictions` | backend/src/middleware/cartValidation.middleware.js:33-37 | an out-of-stock selection is reported as out of stock, whatever its restrictions say |
| `CartValidation.UnrestrictedOptionNeverFails` | backend/src/middleware/cartValidation.middleware.js:40-43 | a known, in-stock option with no restriction entries never fails |
| `CartValidation.SelectedInPrefix` | backend/src/middleware/cartValidation.middleware.js:47-49 | selections after the first one of a category do not change which one is compared |
| `CartValidation.RuleConflictDependsOnFirstSelections` | backend/src/middleware/cartValidation.middleware.js:44-58 | the conflict check depends only on the first selection of each category |
| `CartValidation.ConflictCaughtInEitherOrder` | backend/src/middleware/cartValidation.middleware.js:47-49 | a forbidding option is caught whether the forbidden selection comes before or after it, with the same verdict |
| `CartValidation.ForbiddenSelectionConflicts` | backend/src/middleware/cartValidation.middleware.js:51-57 | if an entry forbids the first selection of its category, some conflict is reported |
| `CartValidation.Compatible` | backend/src/middleware/cartValidation.middleware.js:27-58 | a selection passes when it is known, in stock and no selection of the request has a value its option forbids; characterised by `CompatibleNeverFaults` |
| `CartValidation.CompatibleNeverFaults` | backend/src/middleware/cartValidation.middleware.js:27-58 | a compatible selection never faults |
| `CartValidation.AcceptedWhenCompatible` | backend/src/middleware/cartValidation.middleware.js:20-63 | a non-empty request whose every selection is compatible is accepted |
| `CartValidation.IncompatibleNamesBoth` | backend/src/middleware/cartValidation.middleware.js:47-57 | an incompatibility names two selections of the request: the first is known and in stock, and its option forbids the value of the second, which is the first selection of its category |
| `CartValidation.SwapKeepsFirstSelections` | backend/src/middleware/cartValidation.middleware.js:47-49 | two selections of different categories are found the same in either order |
| `CartValidation.FirstFaultOfPair` | backend/src/middleware/cartValidation.middleware.js:20-61 | a two-selection request is decided by the first selection's fault, else the second's, else accepted |
| `CartStore.MatchIndex` | backend/src/controllers/cart.controller.js:31-35 | the first line with the same bicycle and identical options in the same order, or none when no line matches |
| `CartStore.SameConfiguration` | backend/src/controllers/cart.controller.js:33-34 | same bicycle and identical options in the same order; `Configurator.SameLineIsSameConfiguration` shows it is the client's match |
| `CartStore.AddOrMerge` | backend/src/controllers/cart.controller.js:31-43 | the unit count rises by exactly the quantity; on a match the line count is unchanged, otherwise the new line is appended last; every other line is unchanged |
| `CartStore.WithoutItem` | backend/src/controllers/cart.controller.js:89 | the filter never adds lines |
| `CartStore.WithoutItemMembers` | backend/src/controllers/cart.controller.js:89 | a line is kept exactly when it was in the list and its id differs from the removed one |
| `CartStore.WithoutItemDistinct` | backend/src/controllers/cart.controller.js:89 | distinct line ids stay distinct after the filter |
| `CartStore.WithoutItemAppend` | backend/src/controllers/cart.controller.js:89 | the filter works line by line: filtering a joined list joins the filtered parts |
| `CartStore.RemoveOnlyCarrier` | backend/src/controllers/cart.controller.js:89 | when no other line carries line `k`'s id, the filter removes exactly line `k` and keeps the rest in order |
| `CartStore.RemoveAbsentId` | backend/src/controllers/cart.controller.js:89 | removing an id no line carries leaves the list as it is |
| `CartStore.RemovePresentId` | backend/src/controllers/cart.controller.js:89 | with distinct ids, removing a line's id removes that line and keeps the others in order |
| `CartStore.RemovePresentIdTotal` | backend/src/controllers/cart.controller.js:89 | removing a line lowers the unit count by that line's quantity |
| `CartStore.IndexOfId` | backend/src/controllers/cart.controller.js:114-116 | the first line with that id, or none when no line carries it |
| `CartStore.ScanFindsMatch` | backend/src/controllers/cart.controller.js:31-35 | where the scan stops is the first matching line, or the end when none matches |
| `CartStore.MergeOrAppend` | backend/src/controllers/cart.controller.js:37-43 | with the match at `k` the merge grows line `k` by the quantity; with none it appends a new line |
| `CartStore.MergeLineKeepsValid` | backend/src/controllers/cart.controller.js:39 | growing a line by a positive quantity keeps ids distinct, below the counter, and quantities positive |
| `CartStore.AppendLineKeepsValid` | backend/src/controllers/cart.controller.js:42 | appending a positive line with the counter's id keeps the lines valid once the counter advances |
| `CartStore.MergeInto` | backend/src/controllers/cart.controller.js:31-43 | the scan and the merge yield `AddOrMerge` of the lines and keep them valid |
| `CartStore.Store.constructor` | backend/src/controllers/cart.controller.js:25-28 | no cart exists until the first successful add |
| `CartStore.Store.AddToCart` | backend/src/controllers/cart.controller.js:5-47 | rejects a missing bicycle id, a non-array options or a quantity below 1, then an unknown bicycle, changing nothing; otherwise creates the cart if needed and merges or appends as `AddOrMerge` states, keeping ids distinct and quantities positive |
| `CartStore.Store.RemoveCartItem` | backend/src/controllers/cart.controller.js:78-91 | "Cart not found" with no cart; otherwise the line list becomes `WithoutItem` of the old one |
| `CartStore.Store.UpdateCartItem` | backend/src/controllers/cart.controller.js:102-119 | a quantity below 1 is refused first, then a missing cart, then an unknown id, each changing nothing; otherwise only that line's quantity is set |
| `Configurator.Assign` | frontend/src/pages/bicyclePage/BicyclePage.js:116-119 | `{...prev, [category]: value}`: that category now holds the value and every other keeps its own; a known key stays in place and a new one is appended |
| `Configurator.AssignKeepsDistinct` | frontend/src/pages/bicyclePage/BicyclePage.js:116-119 | assigning keeps the customization's keys distinct |
| `Configurator.FindGroup` | frontend/src/pages/bicyclePage/BicyclePage.js:121-122 | the group found is one of the bicycle's and has that category; none only when no group has it |
| `Configurator.FindValue` | frontend/src/pages/bicyclePage/BicyclePage.js:123 | the value found belongs to the group and has that name; none only when no value has it |
| `Configurator.FindOffered` | frontend/src/pages/bicyclePage/BicyclePage.js:121-123 | the option found carries the chosen value and belongs to a group of that category; none exactly when the group is missing or has no such value |
| `Configurator.ClearForbidden` | frontend/src/pages/bicyclePage/BicyclePage.js:129-138 | clearing keeps the customization's categories, in order |
| `Configurator.Select` | frontend/src/pages/bicyclePage/BicyclePage.js:115-138 | choosing a value; characterised by `SelectSpec`, `SelectShape` and `ChoiceWithoutRestrictions` |
| `Configurator.HandleRestrictions` | frontend/src/pages/bicyclePage/BicyclePage.js:114-143 | the copy-then-mutate loop yields the customization and notices that `Select` defines |
| `Configurator.PendingStep` | frontend/src/pages/bicyclePage/BicyclePage.js:129-138 | applying one more entry, with its notice appended when it clears, leaves the final customization and notices unchanged |
| `Configurator.ClearsAfterFirst` | frontend/src/pages/bicyclePage/BicyclePage.js:129-138 | after the first entry is applied, the rest clear exactly the other categories the whole list clears (keys are distinct) |
| `Configurator.ClearForbiddenLookup` | frontend/src/pages/bicyclePage/BicyclePage.js:129-138 | a category ends up `""` exactly when its current value is forbidden; every other category keeps its value |
| `Configurator.ClearForbiddenNoticeContent` | frontend/src/pages/bicyclePage/BicyclePage.js:131-135 | each notice quotes the chosen value, a cleared category and the value that category held |
| `Configurator.ClearForbiddenNoticeFor` | frontend/src/pages/bicyclePage/BicyclePage.js:131-135 | every cleared category gets a notice quoting the chosen value and the value the category held |
| `Configurator.ClearForbiddenNoticesDistinct` | frontend/src/pages/bicyclePage/BicyclePage.js:131-140 | no category gets two notices |
| `Configurator.ChoiceWithoutRestrictions` | frontend/src/pages/bicyclePage/BicyclePage.js:115-125 | choosing a value whose option has no restrictions, or is unknown, sets only that category and produces no notice |
| `Configurator.SelectShape` | frontend/src/pages/bicyclePage/BicyclePage.js:116-119 | after choosing, the keys are the old ones plus the chosen category, without repetition |
| `Configurator.SelectSpec` | frontend/src/pages/bicyclePage/BicyclePage.js:115-138 | after choosing, each category is `""` if the chosen option forbids its value, else the chosen value for the chosen category, else unchanged |
| `Configurator.OfferedChoicesLabelled` | frontend/src/pages/bicyclePage/BicyclePage.js:165-174 | every offered choice shows an unforbidden value of the category, disabled and captioned " (Out of Stock)" exactly when that value is out of stock |
| `Configurator.Offered` | frontend/src/pages/bicyclePage/BicyclePage.js:149-174 | the filter never offers more entries than the category has values |
| `Configurator.OfferedFrom` | frontend/src/pages/bicyclePage/BicyclePage.js:149-174 | every offered entry is the entry of a value of the category that no selected option forbids |
| `Configurator.OfferedIff` | frontend/src/pages/bicyclePage/BicyclePage.js:149-174 | a value of the category is offered exactly when no selected option lists it under that category |
| `Configurator.OfferedIfUnblocked` | frontend/src/pages/bicyclePage/BicyclePage.js:165-174 | a value no selected option forbids is offered, out of stock or not |
| `Configurator.ValuesOf` | frontend/src/pages/bicyclePage/BicyclePage.js:149 | the category's value names, position by position |
| `Configurator.Without` | frontend/src/pages/bicyclePage/BicyclePage.js:158-160 | keeps exactly the names not in the forbidden list |
| `Configurator.KeepIsOffered` | frontend/src/pages/bicyclePage/BicyclePage.js:165-174 | keeping the values whose names survived is the filter, in original order |
| `Configurator.RenderOptions` | frontend/src/pages/bicyclePage/BicyclePage.js:146-174 | nothing for an empty category; otherwise the narrowing loop yields exactly the entries `Offered` defines |
| `Configurator.NarrowStep` | frontend/src/pages/bicyclePage/BicyclePage.js:151-163 | dropping what one more selection forbids keeps the surviving values exactly the unblocked ones |
| `Configurator.BlockedPrefixStep` | frontend/src/pages/bicyclePage/BicyclePage.js:151-163 | each further selection forbids what the earlier ones did plus what its own option lists |
| `Configurator.ValidValuesOfValues` | frontend/src/pages/bicyclePage/BicyclePage.js:165-166 | membership of a value's name among the survivors decides whether that value is forbidden |
| `Configurator.BlockedBySubset` | frontend/src/pages/bicyclePage/BicyclePage.js:151-163 | what fewer selections forbid, more selections forbid too |
| `Configurator.FewerSelectionsOfferMore` | frontend/src/pages/bicyclePage/BicyclePage.js:149-174 | dropping selections never hides an offered value |
| `Configurator.BlockedAfterClearing` | frontend/src/pages/bicyclePage/BicyclePage.js:135 | a category cleared to `""` forbids nothing |
| `Configurator.ClearingOffersMore` | frontend/src/pages/bicyclePage/BicyclePage.js:135 | clearing a category never hides an offered value |
| `Configurator.GroupCategories` | frontend/src/pages/bicyclePage/BicyclePage.js:56 | the bicycle's categories, position by position |
| `Configurator.SameCountSameElements` | frontend/src/pages/bicyclePage/BicyclePage.js:56 | with distinct keys drawn from distinct categories, equal counts mean every category is chosen, and conversely |
| `Configurator.IsFormValid` | frontend/src/pages/bicyclePage/BicyclePage.js:51-59 | the Add-to-Cart gate; characterised by `FormValidIffComplete` |
| `Configurator.FormValidIffComplete` | frontend/src/pages/bicyclePage/BicyclePage.js:51-59 | under the page's invariants, the gate opens exactly when a quantity is given and every category of the bicycle holds a non-empty value |
| `Configurator.SameLineIsSameConfiguration` | frontend/src/pages/bicyclePage/BicyclePage.js:77-85 | the client's match (same bicycle, same length, pairwise equal category and value) is the server's match |
| `Configurator.FindExisting` | frontend/src/pages/bicyclePage/BicyclePage.js:77-85 | the line found is in the cart and matches; none only when no line matches |
| `Configurator.PlanAddToCart` | frontend/src/pages/bicyclePage/BicyclePage.js:62-100 | a new line is requested with the configuration and `parseInt(quantity)`, which is at least 1 |
| `Configurator.ApplyPlan` | frontend/src/pages/bicyclePage/BicyclePage.js:87-95 | the server's lines after a plan; characterised by `PlanAgreesWithServerMerge` and `PlanMatchesMerge` |
| `Configurator.FindExistingIsMatchIndex` | frontend/src/pages/bicyclePage/BicyclePage.js:77-85 | the client finds a line exactly when the server would, and the same first line |
| `Configurator.PlanAgreesWithServerMerge` | frontend/src/pages/bicyclePage/BicyclePage.js:87-95 | updating the matched line to old plus new quantity, or adding a new line, has the effect of the server's own merge |
| `Configurator.PlanMatchesMerge` | frontend/src/pages/bicyclePage/BicyclePage.js:87-95 | once the matched line's id finds that line and its quantity is at least 1, the client's plan has the effect of the server's merge |
| `Configurator.UpdateMatchesMerge` | frontend/src/pages/bicyclePage/BicyclePage.js:87-89 | setting the matched line to its quantity plus the new units is the server's merge onto that line |
| `Configurator.Session.constructor` | frontend/src/pages/bicyclePage/BicyclePage.js:23-24 | the page starts with nothing chosen and quantity `"1"` |
| `Configurator.Session.HandleQuantityChange` | frontend/src/pages/bicyclePage/BicyclePage.js:43-48 | the text is stored only when it is `""` or matches `^[1-9]\d*$`; otherwise the quantity is unchanged |
| `Configurator.Session.Choose` | frontend/src/pages/bicyclePage/BicyclePage.js:183-185 | a selector change applies `Select`, keeps the quantity and the page invariants |
| `ConfiguratorExamples.FatWheelsHideRed` | frontend/src/pages/bicyclePage/BicyclePage.test.js:357-384 | with "Fat Bike Wheels" chosen, the rim colour selector offers Black and Blue and not Red |
| `ConfiguratorExamples.SelectRedFirst` | frontend/src/pages/bicyclePage/BicyclePage.test.js:321-355 | choosing Red on an empty customization records it with no notice |
| `ConfiguratorExamples.SelectFatWheelsFirst` | frontend/src/pages/bicyclePage/BicyclePage.js:129-138 | choosing "Fat Bike Wheels" with no rim colour set records the wheels and clears nothing |
| `ConfiguratorExamples.SelectFatWheelsAfterRed` | frontend/src/pages/bicyclePage/BicyclePage.test.js:321-355 | choosing "Fat Bike Wheels" while Red is set clears the rim colour with one notice |
| `ConfiguratorExamples.ClearRedForFatWheels` | frontend/src/pages/bicyclePage/BicyclePage.js:129-138 | the wheels' restriction entry clears a Red rim colour and quotes both values |
| `ConfiguratorExamples.SelectRedAfterFatWheels` | frontend/src/pages/bicyclePage/BicyclePage.js:129-138 | choosing Red while the fat wheels are set keeps both, since Red's option has no entries |
| `ConfiguratorExamples.RedThenFatWheels` | frontend/src/pages/bicyclePage/BicyclePage.test.js:321-355 | choosing Red, then "Fat Bike Wheels", clears the rim colour, keeps the wheels, and produces one notice naming both |
| `ConfiguratorExamples.FatWheelsThenRedKeepsBoth` | frontend/src/pages/bicyclePage/BicyclePage.js:129-138 | choosing Red after "Fat Bike Wheels" keeps both, because only the option that carries an entry enforces it |
| `CartView.InitialQuantities` | frontend/src/pages/cartPage/CartPage.js:33-37 | the loop builds the map `InitialEdits` defines |
| `CartView.InitialEdits` | frontend/src/pages/cartPage/CartPage.js:33-37 | the loaded edit map; characterised by `InitialEditsKeys`, `InitialEditsNumbers` and `InitialEditsValues` |
| `CartView.InitialEditsSpec` | frontend/src/pages/cartPage/CartPage.js:33-37 | the loaded map's keys are exactly the line ids, its entries are numbers, and with distinct ids each line maps to its own quantity |
| `CartView.InitialEditsKeys` | frontend/src/pages/cartPage/CartPage.js:33-37 | the loaded map's keys are exactly the line ids |
| `CartView.InitialEditsNumbers` | frontend/src/pages/cartPage/CartPage.js:33-37 | every loaded entry is a number |
| `CartView.InitialEditsValues` | frontend/src/pages/cartPage/CartPage.js:33-37 | with distinct ids, each line's id maps to that line's quantity |
| `CartView.EditQuantity` | frontend/src/pages/cartPage/CartPage.js:50-57 | an accepted text is stored for that id; a rejected one leaves the map unchanged; no other id changes; well-formed edits stay well formed |
| `CartView.SaveRequest` | frontend/src/pages/cartPage/CartPage.js:75-87 | no update for a missing, empty or below-one edit; otherwise the quantity sent is at least 1, and a typed text is sent as the number it spells |
| `CartView.LineAmount` | frontend/src/pages/cartPage/CartPage.js:106-108 | price (0 when missing) times quantity; `TotalPriceAppend` and `UniformPriceTotal` use it |
| `CartView.TotalPrice` | frontend/src/pages/cartPage/CartPage.js:105-109 | the cart total; characterised by `TotalPriceAppend`, `TotalPriceNonNegative` and `UniformPriceTotal` |
| `CartView.SaveDisabled` | frontend/src/pages/cartPage/CartPage.js:155-158 | as written: Save is disabled for a missing, empty, zero or unchanged numeric edit, and enabled for any non-empty typed text; whenever it is disabled, saving would send nothing or the line's own quantity |
| `CartView.RetypedQuantityEnablesSave` | frontend/src/pages/cartPage/CartPage.js:155-158 | retyping a line's own quantity leaves Save enabled |
| `CartView.SaveStaysEnabledAfterSaving` | frontend/src/pages/cartPage/CartPage.js:79-92 | after a typed quantity is saved, Save stays enabled for the value the line now holds |
| `CartView.SaveDisabledByValue` | frontend/src/pages/cartPage/CartPage.js:155-158 | compared by value, Save is enabled exactly when saving would send a quantity different from the line's |
| `CartView.TotalPriceAppend` | frontend/src/pages/cartPage/CartPage.js:105-109 | the total of a concatenation is the sum of the totals |
| `CartView.TotalPriceNonNegative` | frontend/src/pages/cartPage/CartPage.js:105-109 | with non-negative prices and quantities the total is never negative |
| `CartView.UniformPriceTotal` | frontend/src/pages/cartPage/CartPage.js:105-109 | when every bicycle costs p, the total is p times the number of units |
| `CartView.BadgeAfterChange` | frontend/src/pages/cartPage/CartPage.js:65-67 | the badge after a remove or save is the unit count, at least the number of lines |
| `CartView.InitialBadgeCountsLines` | frontend/src/pages/cartPage/CartPage.js:30 | one line of two units shows 1 on load; retyping "2" leaves Save enabled, saving sends 2, and the badge of the returned cart, the same line at 2, is 2 |
| `CartView.InitialBadgeAgreesOnlyForSingleUnits` | frontend/src/pages/cartPage/CartPage.js:30 | the load badge equals the unit count exactly when every line holds one unit |
| `CartView.LoadBadgeConsistentWithRemove` | frontend/src/pages/cartPage/CartPage.js:65-67 | with the load badge counted by units (`BadgeAfterChange` of the loaded lines), removing a line lowers it by exactly that line's quantity |
| `CartView.LoadBadgeInconsistentWithRemove` | frontend/src/pages/cartPage/CartPage.js:30 | counted by lines, the badge after a remove does not follow from the load badge |
| `PartRegistry.Toggle` | backend/src/controllers/partOption.controller.js:57 | the flag always changes |
| `PartRegistry.StockFromText` | backend/src/controllers/partOption.controller.js:11 | an empty stock becomes `in_stock`; a text outside the enum fails |
| `PartRegistry.ToggledAt` | backend/src/controllers/partOption.controller.js:51-57 | only that option's stock changes, and it does change; ids are kept |
| `PartRegistry.ToggleTwiceRestores` | backend/src/controllers/partOption.controller.js:57 | toggling the same option twice restores the registry |
| `PartRegistry.Registry.constructor` | backend/src/models/partOption.model.js:3-11 | an empty registry |
| `PartRegistry.Registry.AddOption` | backend/src/controllers/partOption.controller.js:4-16 | an empty category or value, or a stock outside the enum, fails and changes nothing; otherwise a fresh id gets the option, with `in_stock` and no restrictions when they are not given |
| `PartRegistry.Registry.RemoveOption` | backend/src/controllers/partOption.controller.js:26-33 | exactly the given id is removed; whether it existed is reported |
| `PartRegistry.Registry.ToggleStock` | backend/src/controllers/partOption.controller.js:47-58 | the registry becomes `ToggledAt` of the old one; a missing id changes nothing |
| `PartRegistry.Registry.UpdateRestrictions` | backend/src/controllers/partOption.controller.js:70-82 | replaces only that option's restrictions, keeping its category, value and stock; a missing id changes nothing |

## Left out

- Persistence, HTTP and React are not modelled: Mongoose queries and saves, status codes, response bodies, toasts, navigation, `async` ordering and the 500 catch blocks. The database becomes values passed in. This covers the registry as a sequence in natural order, the set of bicycle ids, and ids drawn from a counter.
- The cart identity kept in `localStorage` and the `cartId` parameter are not modelled; there is one cart.
- `BICYCLES_INPUTS_FIXED_ORDER` is not modelled. It only orders the selectors on screen and is not part of this model.
- `CartView.LineAmount`: a stored line always has a quantity, as the cart schema requires, so the `item.quantity || 0` fallback of CartPage.js:107 is not modelled.
- Money is not modelled as floating point. Prices are whole amounts, and `parseFloat` and `toFixed(2)` formatting are left out.
- `CartStore.Store.AddToCart`: the options match compares the stored options with the request's as sequences of `(category, value)` pairs. The source compares their JSON serialisations. Any extra fields the database adds to stored subdocuments are not modelled.
- `CartStore.Store.UpdateCartItem`: quantities are integers. A missing or non-numeric body quantity, which passes `quantity < 1` in JavaScript, is not modelled.
- `CartStore.Store.AddToCart`: quantities are integers. A missing or non-numeric body quantity passes the check at cart.controller.js line 12; the source would then store `NaN` or a string concatenation (lines 39 and 42). That path is not modelled.
- `QuantityText.DecimalValue`, and with it `QuantityText.TextOfValue`, `QuantityText.ValueOfText`, `CartView.SaveRequest` and `Configurator.PlanAddToCart`: quantities are exact unbounded integers. JavaScript numbers are doubles, exact only below 2^53, so `parseInt` rounds a digit text of 17 or more digits ("99999999999999999999" becomes 100000000000000000000). That rounding is not modelled, and the round trips hold in the model for every length.
- `Configurator.FindExisting`: every cart line carries its bicycle id. A line whose bicycle was deleted has `item.bicycle` null once populated, so reading `item.bicycle._id` at BicyclePage.js:78 throws, the page shows "Failed to add to cart." and sends nothing. Such lines are not modelled, and the plan is always computed.
- `CartValidation.ValidateCartItem`: selections are well-formed `{category, value}` records. A `null` element, which makes the source throw, is not modelled.
- `restrictions` is an entry list with distinct keys in insertion order. Mongoose `Map` iteration details are not modelled, and an absent object is the empty list.
- `Configurator.Session.Choose` only accepts categories of the loaded bicycle, because the page renders selectors only for those. Object key ordering of integer-like category names is not modelled.
- `Configurator.QuantityPositive` reads `quantity > 0` only for digit strings. Any other text counts as not positive. The input rule never stores such text.
- `Configurator.PlanAgreesWithServerMerge` assumes the fetched cart is the server's current cart. Concurrent changes between the fetch and the request are not modelled.
- `PartRegistry.Registry.AddOption`: category and value are strings. Non-string inputs and Mongoose type casting are not modelled.
- `PartRegistry.Registry.UpdateRestrictions`: an absent `restrictions` body field is stored as the empty list. The source stores it as absent, and absent has the same effect on every reader.

## Findings

| source | as written | input that shows it | evidently intended | confidence | as-written member | corrected member |
|---|---|---|---|---|---|---|
| frontend/src/pages/cartPage/CartPage.js:30 | the badge is set to the number of cart lines when the page loads | one line with quantity 2: badge 1 on load, 2 once a save returns the line unchanged (re-saving "2", which leaves Save enabled) | the number of units, as the page sets after remove and save (lines 65-67, 90-92) | high, not executed | `CartView.InitialBadgeCountsLines` | `CartView.LoadBadgeConsistentWithRemove` |
| frontend/src/pages/cartPage/CartPage.js:155-158 | Save is disabled when the edit is strictly equal (`===`) to the line's quantity, but a typed edit is a string and the quantity a number | line quantity 2, edit retyped as "2": Save is enabled and sends 2 | compare the number the edit denotes with the quantity | medium, not executed | `CartView.RetypedQuantityEnablesSave` | `CartView.SaveDisabledByValue` |
