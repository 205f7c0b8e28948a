# Coffee shop: verified models of the customer cart, the point of sale, the kitchen and the AI service

This project models the stateful logic of four parts of the repository in Dafny and proves
properties of it for all inputs and all runs.

- **Customer cart** (`apps/frontend/src/pages/CustomerMenu.tsx`). Selections and their canonical
  form (`Selections`), lines keyed by the canonical line (`Cart`), reading a cart from storage and
  writing its snapshot (`Storage`), rebuilding it against a new menu (`Reconcile`), every handler as a
  step of a session (`CartHandlers`), the two price computations (`Pricing`, `SpecMenu`), the version
  text and the synchronisation protocol (`CartVersion`, `CartSync`), the cart the order service sends
  through it (`ServerCart`, `apps/backend/order-service/src/modules/order/order.service.ts`), and money
  printing (`Money`).
- **Point of sale** (`apps/frontend/src/pages/Orders.tsx`). The offline order queue (`OfflineQueue`),
  bounded undo (`PosCart`) and the five-minute de-duplication of notifications (`Dedup`).
- **Kitchen display** (`apps/frontend/src/pages/Kitchen.tsx`). Optimistic updates, the REST batch and
  the columns (`Kitchen`).
- **AI service** (`apps/backend/ai-service/app/main.py`). The rate limiter (`RateLimit`), the bounded
  logs and the trend (`Telemetry`), the recommendation merge (`Recommend`) and the forecast
  (`Forecast`).

`Text`, `OrderedDict` and `Numbers` hold what these share: trimming, a total order on strings,
decimal numerals, and dictionaries that keep insertion order, as JavaScript objects and Python
dictionaries do. Objects that the code updates in place are classes whose methods are proved against
functions on their state (`CartSync.Replica`, `RateLimit.Limiter`, `Telemetry.ResponseTracker`,
`Telemetry.EventLog`, `OfflineQueue.PosQueue`, `PosCart.PosCart`, `Dedup.RealtimeGuard`); loops that
fill a local value are methods proved against the function that describes the value; the lemmas are
about these functions. `hide` statements only remove function bodies from a proof.

`dafny verify dfyconfig.toml` checks the whole project.

## What the proofs say about the code

- The rate limiter admits at most `2 * max - 1` requests of a key in any minute, and this bound is
  reached for every `max`; per window it is `max`.
- `completeOrder` requires an order that is READY with READY items, so neither its local update nor its
  REST batch ever changes an item.
- Carts converge under reordered and repeated deliveries. The promotion shown beside the cart need not: a
  payload with a code but no positive discount, or with a discount but no code, leaves the promotion that
  is there. Delivering a promotion and then such a newer payload shows the promotion; the other way round
  it shows the one from before. All orders of a set of deliveries end alike exactly when the deliveries of
  the newest revision all set the same promotion, or no fresh delivery would change the one shown.
- The order service files the items of an order under the text of their fields and lets a later item
  replace an earlier one with the same text. A page that receives the broadcast holds every quantity of the
  order exactly when no two valid items share that text, and less otherwise; editing the same order adds
  them up.
- The snapshot's line totals agree with the cart total for every good cart exactly when every menu item
  prices all canonical selections alike. Two choices decide that for any item; for items with distinct
  group ids it means: charges on values a line can hold sit only in size-labelled single groups and
  topping-labelled multi groups, no blank size is charged, and no charging size group is followed by
  another size group one can choose from.
- The experiment event list stays bounded exactly when the configured limit is not zero; a limit of zero
  makes the slice delete nothing.
- The weekday factors of the forecast sum to the number of days exactly when the mean revenue is at
  least one.
- With distinct local ids, every queued order is answered or still queued in its order exactly when no
  order was queued after a failed read of a non-empty store: such an order overwrites the store.
- The server sees each order of the queue exactly once exactly when no answer is lost. An answer is lost
  when the first post of an order that is then queued was taken (or refused while the browser was
  offline), and when the post at which a sync stops was answered. So one undisturbed sync makes the server
  take an order twice if the reply to its first post was lost.
- Local ids are the clock's milliseconds and random characters. Two orders would share one only by
  collision; then an answer to the first removes both.
- Bounded undo equals unbounded undo as long as no undo goes more than thirty changes below the greatest
  depth reached before; undoing more than thirty changes in a row stops at the thirtieth.

## Model

| member | source | states |
|---|---|---|
| Text.TrimIff | apps/frontend/src/pages/CustomerMenu.tsx:391-404 | the trimmed text is what stands between the outer blanks, and nothing else is |
| Text.SortedSet | apps/frontend/src/pages/CustomerMenu.tsx:393-400 | the sorted list without repeats of exactly the given strings |
| Text.SortedListUnique | apps/frontend/src/pages/CustomerMenu.tsx:393-400 | a sorted list without repeats is determined by its elements |
| Text.ToDecimal | apps/frontend/src/pages/CustomerMenu.tsx:603-609 | printed natural numbers are digits without leading zeros that read back as the number |
| Text.JoinAppend | apps/frontend/src/pages/CustomerMenu.tsx:421-421 | an array read as text is its elements joined by commas |
| Text.ToUpperIff | apps/frontend/src/pages/Kitchen.tsx:111-113 | upper case changes the case of letters and nothing else |
| Text.ToLowerIff | apps/frontend/src/pages/CustomerMenu.tsx:673-675 | lower case changes the case of letters and nothing else |
| Selections.NormalizedValueIff | apps/frontend/src/pages/CustomerMenu.tsx:391-404 | the result is the one canonical value with the same choice up to blanks, order and repetition |
| Selections.NormalizedSelectionsIff | apps/frontend/src/pages/CustomerMenu.tsx:406-412 | the result is the one canonical form with the same keys and the same choice under each |
| Selections.NormalizedListsEqual | apps/frontend/src/pages/CustomerMenu.tsx:391-404 | two lists have one canonical form exactly when they choose the same non-blank options |
| Selections.SanitizeGroupsAt | apps/frontend/src/pages/CustomerMenu.tsx:414-434 | one value per group id, decided by the last group with that id and the raw value under it |
| Selections.SanitizedSelectionsPermitted | apps/frontend/src/pages/CustomerMenu.tsx:414-435 | repaired selections have exactly the menu item's groups, each with the repaired value of the raw one, which the group permits |
| Selections.SanitizedValueIs | apps/frontend/src/pages/CustomerMenu.tsx:417-432 | an allowed single choice stays and any other gives way to the group's first option, a list keeps exactly its allowed entries, free text loses only outer blanks |
| Selections.UnknownItemKeepsChoices | apps/frontend/src/pages/CustomerMenu.tsx:415-415 | without a menu item every choice is kept |
| Selections.SanitizeIdempotent | apps/frontend/src/pages/CustomerMenu.tsx:414-435 | repairing twice is repairing once, for every menu item |
| Cart.KeysEqualIff | apps/frontend/src/pages/CustomerMenu.tsx:437-443 | two lines share a key exactly when they agree up to blanks, order and repetition of choices, branch id and quantity |
| Cart.MergeKeys | apps/frontend/src/pages/CustomerMenu.tsx:473-483 | the keys of a merged cart are distinct and are those of the lines in order of first occurrence |
| Cart.MergeAt | apps/frontend/src/pages/CustomerMenu.tsx:473-518 | under each key: the first (record) or last (snapshot, rebuild) line with that key, with the sum of all its quantities |
| Cart.PickFrom | apps/frontend/src/pages/CustomerMenu.tsx:473-518 | the element that supplies the fields of a merged line is the first or the last one that yields its key |
| Cart.MergeConserves | apps/frontend/src/pages/CustomerMenu.tsx:473-518 | merging keeps the total quantity of every set of keys |
| Cart.MergeDistinctIsIdentity | apps/frontend/src/pages/CustomerMenu.tsx:473-518 | lines with distinct keys are their own merge |
| Cart.MergeGood | apps/frontend/src/pages/CustomerMenu.tsx:473-518 | merging well-keyed canonical lines of at least one gives a good cart |
| Storage.RestoreCartFromStorage | apps/frontend/src/pages/CustomerMenu.tsx:468-486 | the loop computes the merge of the parsed lines, the first line of a key supplying the fields |
| Storage.RestoreConserves | apps/frontend/src/pages/CustomerMenu.tsx:445-486 | for any stored record the cart is good and each key holds the sum of the valid entries that map to it, nothing else |
| Storage.RestoredLine | apps/frontend/src/pages/CustomerMenu.tsx:445-486 | each restored line has the fields of the first valid entry with its key, filed under its own id or else its key's text, and the sum of all |
| Storage.RestoreIsFixpoint | apps/frontend/src/pages/CustomerMenu.tsx:445-486 | restoring the restored cart returns it, however its keys are rendered as text |
| Storage.StorageRoundTripIff | apps/frontend/src/pages/CustomerMenu.tsx:445-486 | a well-keyed cart survives the record form exactly when its lines have trimmed non-empty ids, canonical selections and a positive quantity |
| Storage.RestoreCartFromSnapshot | apps/frontend/src/pages/CustomerMenu.tsx:488-521 | the loop computes the merge of the snapshot's valid items, the last item of a key supplying the fields |
| Storage.RestoredSnapshotGood | apps/frontend/src/pages/CustomerMenu.tsx:488-521 | for any snapshot the restored cart is good and its lines are fixed points of parsing |
| Storage.SnapshotConserves | apps/frontend/src/pages/CustomerMenu.tsx:488-521 | under each key the restored snapshot holds the sum of its valid items, nothing else |
| Storage.RestoredItemLine | apps/frontend/src/pages/CustomerMenu.tsx:488-521 | each restored line has the branch id of the last valid item with its key, and the sum of all |
| Storage.GivenSelectionsKept | apps/frontend/src/pages/CustomerMenu.tsx:498-500 | selections that come with an item are kept up to canonical form |
| Storage.NamedSelections | apps/frontend/src/pages/CustomerMenu.tsx:501-509 | without them the size name and the topping names stand in |
| Storage.SnapshotRoundTrip | apps/frontend/src/pages/CustomerMenu.tsx:1916-1953 | for every menu, restoring the stored snapshot gives the storable lines with keys, order and quantities kept and blanks trimmed |
| Storage.SnapshotKeepsAllLinesIff | apps/frontend/src/pages/CustomerMenu.tsx:1916-1953 | no line is lost exactly when every line has a positive quantity and a non-blank item id |
| Storage.SnapshotFields | apps/frontend/src/pages/CustomerMenu.tsx:1918-1941 | ids and quantity are kept as they are, the note without outer blanks, the choices in canonical form |
| Storage.LineTotalsCompared | apps/frontend/src/pages/CustomerMenu.tsx:1918-1941 | the two totals of a line agree exactly when its options are priced alike |
| Storage.SnapshotPrices | apps/frontend/src/pages/CustomerMenu.tsx:1918-1941 | the unit price is the menu price plus the size and topping extras, the total that times the quantity, zero for an item off the menu |
| Storage.TotalsFollowPricesIff | apps/frontend/src/pages/CustomerMenu.tsx:1838-1844 | for every menu, the snapshot's line totals add up to the cart total for every good cart exactly when every item prices all canonical selections alike |
| Storage.TotalsAgreeIff | apps/frontend/src/pages/CustomerMenu.tsx:1838-1844 | for menus with distinct group ids this holds exactly when all items are aligned |
| Storage.AlignedTotalsAgree | apps/frontend/src/pages/CustomerMenu.tsx:1838-1844 | aligned menus give equal totals for every cart of canonical selections, repeated group ids included |
| Pricing.AlignedPricesAgree | apps/frontend/src/pages/CustomerMenu.tsx:667-700 | for aligned groups the customization delta equals the size and topping extras for every canonical selection |
| Pricing.MisalignedPricesDiffer | apps/frontend/src/pages/CustomerMenu.tsx:1791-1808 | groups that are not aligned have a canonical selection the two computations price differently |
| Pricing.PricesAgreeIff | apps/frontend/src/pages/CustomerMenu.tsx:1791-1808 | alignment is the exact condition for equal prices of all canonical selections |
| Pricing.PairsDecide | apps/frontend/src/pages/CustomerMenu.tsx:1791-1808 | for any groups, repeated ids included, equal prices of all selections with at most two choices are equal prices of all selections |
| Pricing.ChoiceCosts | apps/frontend/src/pages/CustomerMenu.tsx:1791-1808 | a listed choice costs what the first option with its value costs, in a list each choice is charged, and size and topping carry that option's name and price |
| Pricing.UnlistedCostsNothing | apps/frontend/src/pages/CustomerMenu.tsx:1791-1808 | an unlisted choice costs nothing |
| Pricing.OneGroupChosen | apps/frontend/src/pages/CustomerMenu.tsx:1791-1808 | a single choice is priced by its own group alone |
| Pricing.LabelledIff | apps/frontend/src/pages/CustomerMenu.tsx:672-676 | size and topping groups are those whose label mentions the word in whatever case |
| SpecMenu.SpecPricesAgreeIff | apps/frontend/src/pages/CustomerMenu.tsx:350-383 | sizes-and-toppings items price all canonical selections alike exactly when no blank size is charged |
| SpecMenu.NamesSuffice | apps/frontend/src/pages/CustomerMenu.tsx:499-510 | for such items a snapshot without raw selections restores, after repair, the selections that were stored |
| Reconcile.Rebuild | apps/frontend/src/pages/CustomerMenu.tsx:1696-1718 | the effect computes the merge of the rebuilt lines |
| Reconcile.RebuildConserves | apps/frontend/src/pages/CustomerMenu.tsx:1696-1718 | items on the menu keep their total quantity, all others drop to nothing |
| Reconcile.RebuiltSelectionsPermitted | apps/frontend/src/pages/CustomerMenu.tsx:1696-1718 | every rebuilt line is on the menu with exactly one permitted value per group, a single choice off the menu giving way to the first option |
| Reconcile.RebuiltLineIs | apps/frontend/src/pages/CustomerMenu.tsx:1696-1718 | each rebuilt line stems from the last old line that belongs under its key: its note, its selections repaired group by group, the menu's branch id before its own, and the sum of all |
| Reconcile.RebuiltHeld | apps/frontend/src/pages/CustomerMenu.tsx:1696-1718 | under each key the rebuilt cart holds the quantities of the old lines that belong there |
| Reconcile.RebuiltHasIff | apps/frontend/src/pages/CustomerMenu.tsx:1696-1718 | a key is there exactly when some old line belongs under it |
| Reconcile.RebuildChangesNothingIff | apps/frontend/src/pages/CustomerMenu.tsx:1696-1718 | the rebuild leaves a cart alone exactly when its keys are distinct and every line fits the menu |
| Reconcile.RebuiltFits | apps/frontend/src/pages/CustomerMenu.tsx:1696-1718 | every rebuilt line sits under its own key and is a fixed point of the repair |
| Reconcile.RebuildIdempotent | apps/frontend/src/pages/CustomerMenu.tsx:1696-1718 | a second rebuild changes nothing, for every cart |
| CartHandlers.StepKeepsGood | apps/frontend/src/pages/CustomerMenu.tsx:1993-2051 | every handler keeps distinct keys, key of own line, canonical selections and quantities of at least one |
| CartHandlers.ReachableCartsGood | apps/frontend/src/pages/CustomerMenu.tsx:1993-2297 | the same in every reachable state |
| CartHandlers.HandlerEffect | apps/frontend/src/pages/CustomerMenu.tsx:1993-2051 | a single-line handler changes one line and one item count by exactly its amount and nothing else, or does nothing |
| CartHandlers.LineLeft | apps/frontend/src/pages/CustomerMenu.tsx:1993-2051 | the stored line, whole: adding stores item, branch id, note and selections, the other steps change the quantity alone, and a line at zero is gone |
| CartHandlers.LineOrder | apps/frontend/src/pages/CustomerMenu.tsx:1993-2051 | lines keep their order and a new one goes to the end |
| CartHandlers.EffectItem | apps/frontend/src/pages/CustomerMenu.tsx:2137-2164 | the item counted is the trimmed item the handler was called with |
| CartHandlers.DecreaseFindsIff | apps/frontend/src/pages/CustomerMenu.tsx:2137-2152 | decrease acts exactly when the draft's line or some line of the item is in the cart |
| CartHandlers.DecreaseTargetIs | apps/frontend/src/pages/CustomerMenu.tsx:2137-2152 | decrease takes the draft's line if it is there and otherwise the first line of the item |
| CartHandlers.DecreaseUndoesIncrease | apps/frontend/src/pages/CustomerMenu.tsx:2137-2164 | decrease right after increase restores every quantity |
| CartHandlers.IncreaseRepeatsCustomized | apps/frontend/src/pages/CustomerMenu.tsx:2202-2237 | increase after adding a customized item adds to that very line |
| CartHandlers.AddsIff | apps/frontend/src/pages/CustomerMenu.tsx:2202-2213 | an item is added exactly when it is on the menu and every single group has a non-blank choice |
| CartHandlers.FreshDraft | apps/frontend/src/pages/CustomerMenu.tsx:1763-1789 | the draft of an item without one has an empty note, the first option of every single or text group and an empty list for every multi group |
| CartHandlers.DraftRepaired | apps/frontend/src/pages/CustomerMenu.tsx:1772-1790 | every draft is a fixed point of the repair |
| CartHandlers.NoteTyped | apps/frontend/src/pages/CustomerMenu.tsx:2182-2187 | typing a note changes the note of the item's draft and nothing else |
| CartHandlers.ChoiceMade | apps/frontend/src/pages/CustomerMenu.tsx:2166-2180 | choosing changes one group of the item's draft, to what repair makes of the value |
| CartHandlers.DraftsAfterMenu | apps/frontend/src/pages/CustomerMenu.tsx:1719-1730 | a new menu keeps the drafts of its items with their notes, repaired |
| CartHandlers.DraftsKept | apps/frontend/src/pages/CustomerMenu.tsx:1993-2237 | no other step touches a draft |
| CartHandlers.BulkEffect | apps/frontend/src/pages/CustomerMenu.tsx:2098-2104 | exact item counts after dropping unavailable items, loading a menu, editing an order and clearing |
| CartHandlers.BulkLines | apps/frontend/src/pages/CustomerMenu.tsx:2250-2283 | the same line by line; an order that is not pending or already paid is not loaded |
| CartHandlers.OrderedLineIs | apps/frontend/src/pages/CustomerMenu.tsx:2261-2281 | a line of an edited order has the id and note of the first order item with its key and the sum of all |
| CartHandlers.OrderedLinesOrder | apps/frontend/src/pages/CustomerMenu.tsx:2261-2281 | the lines of an edited order stand in the order in which their keys first occur |
| CartHandlers.KeepAvailableOrder | apps/frontend/src/pages/CustomerMenu.tsx:2098-2104 | dropping items leaves the other lines in their order |
| CartHandlers.OrderCartGoodIff | apps/frontend/src/pages/CustomerMenu.tsx:2250-2283 | editing an order gives a good cart exactly when every key of the order adds up to at least one |
| CartVersion.VersionRoundTrip | apps/frontend/src/pages/CustomerMenu.tsx:611-625 | every order id, colons included, and every revision survive printing and parsing |
| CartVersion.ParsedParts | apps/frontend/src/pages/CustomerMenu.tsx:611-619 | the last colon separates order id and revision; without an id or a number zero is read |
| CartVersion.ParsedNumber | apps/frontend/src/pages/CustomerMenu.tsx:615-615 | text without a colon is a revision of no order |
| CartVersion.ParseTrims | apps/frontend/src/pages/CustomerMenu.tsx:612-613 | outer blanks do not matter |
| CartVersion.ParseNumberIff | apps/frontend/src/pages/CustomerMenu.tsx:617-618 | which texts are read as which number |
| CartSync.Replica.OnCartUpdated | apps/frontend/src/pages/CustomerMenu.tsx:1585-1650 | the handler updates cart, version and promotion exactly as the delivery function says |
| CartSync.DeliverStep | apps/frontend/src/pages/CustomerMenu.tsx:1585-1641 | a delivery about an order is applied exactly when its revision exceeds the one held, and the stored version text reads back as the delivered version |
| CartSync.RunReachesNewest | apps/frontend/src/pages/CustomerMenu.tsx:1585-1641 | any run about one order ends at the larger of the newest delivered revision and the own one, with that revision's cart |
| CartSync.NewestCartHeld | apps/frontend/src/pages/CustomerMenu.tsx:1585-1641 | after any run about one order the replica holds, under each key, what the entries of the newest delivery add up to |
| CartSync.Converges | apps/frontend/src/pages/CustomerMenu.tsx:1585-1641 | reordering and repeating deliveries changes neither cart nor version |
| CartSync.ReplicasAgree | apps/frontend/src/pages/CustomerMenu.tsx:1585-1641 | replicas below the newest revision end with the same cart |
| CartSync.AppliesIff | apps/frontend/src/pages/CustomerMenu.tsx:1585-1620 | exactly which deliveries are applied, in any state and about any order; all others change nothing |
| CartSync.AppliedIncrease | apps/frontend/src/pages/CustomerMenu.tsx:1610-1620 | applied revisions strictly increase within one order |
| CartSync.OtherOrderApplied | apps/frontend/src/pages/CustomerMenu.tsx:1610-1620 | a delivery for another order than the one held is always applied |
| CartSync.SnapshotArrives | apps/frontend/src/pages/CustomerMenu.tsx:1623-1626 | a cart sent as a snapshot arrives with the same keys, order and quantities |
| CartSync.RecordHeld | apps/frontend/src/pages/CustomerMenu.tsx:1623-1625 | an applied record delivery leaves under each key the sum of the record's valid entries |
| CartSync.SnapshotHeld | apps/frontend/src/pages/CustomerMenu.tsx:1623-1625 | an applied snapshot delivery leaves under each key the sum of its valid items |
| CartSync.RecordArrives | apps/frontend/src/pages/CustomerMenu.tsx:1623-1625 | a well-keyed cart of settled lines sent as a record arrives as it is |
| CartSync.IncomingVersionIs | apps/frontend/src/pages/CustomerMenu.tsx:1590-1596 | the version vector comes before the order id and the version text, field by field |
| CartSync.DeliverKeepsGood | apps/frontend/src/pages/CustomerMenu.tsx:1623-1626 | deliveries keep the cart invariant whatever they carry |
| CartSync.PromoShown | apps/frontend/src/pages/CustomerMenu.tsx:1627-1640 | the promotion after an applied delivery: the code in upper case with the delivered amounts, none, or the one from before |
| ServerCart.BuildRealtimeCartFromOrderItems | apps/backend/order-service/src/modules/order/order.service.ts:3702-3733 | the loop files valid items under the text of their fields, a later one replacing an earlier |
| ServerCart.DeliveredIs | apps/backend/order-service/src/modules/order/order.service.ts:3662-3700 | a page that applies the broadcast holds under each key what the order holds less what was replaced |
| ServerCart.OrderArrivesIff | apps/backend/order-service/src/modules/order/order.service.ts:3702-3733 | every quantity of the order arrives exactly when no two valid items are filed under one text; otherwise less arrives |
| ServerCart.SecondReplacesFirst | apps/backend/order-service/src/modules/order/order.service.ts:3725-3730 | the failing input: of two equal items only the second one's quantity arrives |
| CartSync.PromoConvergesIff | apps/frontend/src/pages/CustomerMenu.tsx:1627-1640 | all orders of the deliveries end with one promotion exactly when the newest deliveries set the same one or no fresh delivery would change the one shown |
| CartSync.PromoConverges | apps/frontend/src/pages/CustomerMenu.tsx:1627-1640 | under that condition repeating deliveries does not change the final promotion either |
| CartSync.PromoOrderMatters | apps/frontend/src/pages/CustomerMenu.tsx:1627-1640 | the failing input: an older delivery that sets the promotion and a newer one that leaves it end differently in the two orders |
| CartSync.PromoOfWinner | apps/frontend/src/pages/CustomerMenu.tsx:1627-1640 | if the first delivery of the newest revision sets the promotion, that is the final one |
| CartSync.ReplicasAgreeOnPromo | apps/frontend/src/pages/CustomerMenu.tsx:1627-1640 | replicas that show different promotions end with one if the newest deliveries set one |
| Money.NormalizeVndAmount | apps/frontend/src/pages/CustomerMenu.tsx:592-601 | the result is the amount or a thousand times it, zero or at least 1000 in size, and such amounts are fixed points |
| Money.FormatRoundTrip | apps/frontend/src/pages/CustomerMenu.tsx:603-609 | reading the digits of a printed amount gives the normalised amount |
| Money.FormatEqualIff | apps/frontend/src/pages/CustomerMenu.tsx:603-609 | two integers print alike exactly when they normalise alike |
| Money.SameAmountIff | apps/frontend/src/pages/CustomerMenu.tsx:592-601 | two integers normalise alike exactly when equal or one is the other in thousands |
| Money.SeparatorPositions | apps/frontend/src/pages/CustomerMenu.tsx:603-609 | separators stand exactly at every fourth position from the end |
| Money.PrintedAmount | apps/frontend/src/pages/CustomerMenu.tsx:603-609 | a printed amount is sign, digits with a separator exactly at every fourth position from the last digit, and suffix |
| RateLimit.Limiter.Enforce | apps/backend/ai-service/app/main.py:284-299 | admits and updates as the window rule says and leaves other keys untouched |
| RateLimit.IntervalBound | apps/backend/ai-service/app/main.py:284-299 | over every run with a non-decreasing clock any minute admits at most 2 * max - 1 requests of a key |
| RateLimit.BoundAttained | apps/backend/ai-service/app/main.py:284-299 | for every limit some run reaches that bound |
| RateLimit.WindowBound | apps/backend/ai-service/app/main.py:284-299 | a window admits at most max requests |
| RateLimit.WindowsApart | apps/backend/ai-service/app/main.py:284-299 | windows of a key start at least sixty seconds apart |
| RateLimit.WindowLasts | apps/backend/ai-service/app/main.py:292-297 | a window lasts exactly sixty seconds over any run: the next opens with the first request at or after that, and until then a request is admitted exactly if fewer than the limit came before it |
| RateLimit.AllAdmitted | apps/backend/ai-service/app/main.py:284-299 | requests that fit in what is left of a window are all admitted |
| Telemetry.ResponseTracker.TrackResponseSource | apps/backend/ai-service/app/main.py:302-322 | counters equal the counts over the whole log and each timeline is the latest points of its endpoint |
| Telemetry.LatestAppend | apps/backend/ai-service/app/main.py:318-322 | cutting after every append keeps the latest points of the whole history |
| Telemetry.CountersStep | apps/backend/ai-service/app/main.py:310-312 | one more response keeps counters equal to counts and their sum equal to the number of responses |
| Telemetry.FallbackTrend | apps/backend/ai-service/app/main.py:567-602 | rows in time order, one per minute with points in the window, exact counts per row, totals adding up to the points of the window |
| Telemetry.MinuteIff | apps/backend/ai-service/app/main.py:584-584 | a bucket is the whole minute a time falls in |
| Telemetry.InWindowIff | apps/backend/ai-service/app/main.py:568-583 | the window reaches back the given minutes, at least five and at most a day |
| Telemetry.FallbackAmongAll | apps/backend/ai-service/app/main.py:567-602 | fallback counts never exceed totals |
| Telemetry.EventLog.Record | apps/backend/ai-service/app/main.py:362-364 | the list is the function of the full log that the lemmas below describe |
| Telemetry.KeptIsSuffix | apps/backend/ai-service/app/main.py:362-364 | the event list is a suffix of the log with the stated length bounds for every limit |
| Telemetry.RecordedLength | apps/backend/ai-service/app/main.py:362-364 | how many events are left after one more, for every limit |
| Telemetry.KeptBoundedIff | apps/backend/ai-service/app/main.py:362-364 | the list is bounded by the larger of 100 and the limit exactly when the limit is not zero |
| Telemetry.LatestKept | apps/backend/ai-service/app/main.py:362-364 | a positive limit keeps the latest events up to the limit |
| Recommend.MergeRecommendationCandidates | apps/backend/ai-service/app/main.py:1079-1117 | the loops compute the ranked, diversified and cut score table |
| Recommend.CoTableHolds | apps/backend/ai-service/app/main.py:1089-1094 | the co-occurrence table holds exactly the offered usable items, with rounded scores of at most 0.99 |
| Recommend.TableHolds | apps/backend/ai-service/app/main.py:1096-1105 | the full table holds exactly the usable items of either list, with rounded scores of at most 0.99 |
| Recommend.ItemRow | apps/backend/ai-service/app/main.py:1089-1105 | the score and the reason of an item follow from its own mentions and their places alone, by the stated formula |
| Recommend.RoundedNear | apps/backend/ai-service/app/main.py:1094-1105 | rounding gives four decimals and moves a score by at most half a unit of the last |
| Recommend.RankedKeeps | apps/backend/ai-service/app/main.py:1107-1107 | ranking is a permutation with best scores first |
| Recommend.RankedStable | apps/backend/ai-service/app/main.py:1107-1107 | equal scores keep the order of the table |
| Recommend.DiversifiedKeeps | apps/backend/ai-service/app/main.py:1109-1115 | diversifying permutes, keeps the head, puts another reason second, and keeps score order elsewhere |
| Recommend.PromotedIsBest | apps/backend/ai-service/app/main.py:1109-1115 | the promoted row is the best of another reason; up to three rows, or rows of one reason, stay as they are |
| Recommend.MergedResult | apps/backend/ai-service/app/main.py:1079-1117 | exact length, distinct eligible items, scores of at most 0.99, and no cut item scores above a returned one but the promoted |
| Recommend.MergedRow | apps/backend/ai-service/app/main.py:1117-1117 | every returned row has its item's score and reason |
| Recommend.MergedDiverse | apps/backend/ai-service/app/main.py:1109-1117 | with more than three candidates of two reasons the first two rows differ in reason |
| Recommend.PopularityOnlyAdds | apps/backend/ai-service/app/main.py:1096-1105 | non-negative weights never lower a score in the table |
| Recommend.CandidateKeepsCoScore | apps/backend/ai-service/app/main.py:1089-1105 | an item of both lists keeps at least its co-occurrence score |
| Recommend.EarlierScoresHigher | apps/backend/ai-service/app/main.py:1092-1104 | an earlier candidate with no lower raw score never gets less |
| Forecast.BuildRevenueForecast | apps/backend/ai-service/app/main.py:1120-1198 | the loops compute the stated point for every day, and the fallback wave without history |
| Forecast.ForecastBounds | apps/backend/ai-service/app/main.py:1164-1198 | low, predicted and high are ordered and non-negative, at most 1.2 times the largest revenue, at least 0.85 times the smallest for a mean of one or more, and the band stays within a fifth |
| Forecast.FallbackOrdered | apps/backend/ai-service/app/main.py:1123-1137 | the fallback points are positive and strictly ordered |
| Forecast.FallbackIs | apps/backend/ai-service/app/main.py:1124-1136 | the fallback points, as whole amounts |
| Forecast.FlooredIs | apps/backend/ai-service/app/main.py:1145-1146 | negative revenues are read as zero and nothing else changes |
| Forecast.AveragesAre | apps/backend/ai-service/app/main.py:1162-1171 | mean and weekday averages are sums over counts, the mean standing in for a weekday without revenues |
| Forecast.TrendAveragesAre | apps/backend/ai-service/app/main.py:1174-1176 | the trend compares the last fourteen days with the fourteen before, or a shorter history with the mean |
| Forecast.TrendIs | apps/backend/ai-service/app/main.py:1177-1178 | the trend is their quotient between 0.85 and 1.2 |
| Forecast.BandIs | apps/backend/ai-service/app/main.py:1180-1181 | the band is 7.5 percent plus the distance of the trend from one, between 8 and 20 percent |
| Forecast.StepTrendIs | apps/backend/ai-service/app/main.py:1188-1188 | the trend comes in linearly from the first day to the last |
| Forecast.PredictedIs | apps/backend/ai-service/app/main.py:1187-1189 | the prediction is the weekday average, scaled by a mean below one, times the trend of the day |
| Forecast.PointIs | apps/backend/ai-service/app/main.py:1190-1196 | the three amounts are the prediction and its band without their fractions |
| Forecast.FirstAndLastDay | apps/backend/ai-service/app/main.py:1187-1190 | the first day is forecast at its weekday average, the last at that average times the trend |
| Forecast.TrendRisesIff | apps/backend/ai-service/app/main.py:1174-1178 | the trend rises or falls exactly when the recent average exceeds or falls short of the past one |
| Forecast.FactorsBalanceIff | apps/backend/ai-service/app/main.py:1164-1172 | the weekday factors sum to the number of days exactly when the mean is at least one |
| OfflineQueue.PosQueue.SyncOfflineQueue | apps/frontend/src/pages/Orders.tsx:664-702 | the loop does what the sync function says for every script of answers, failures and crashes |
| OfflineQueue.PosQueue.CreateOrder | apps/frontend/src/pages/Orders.tsx:840-876 | posts first, appends the order without a reply or refused while offline to the stored queue, and empties the cart exactly for an order taken or stored |
| OfflineQueue.SyncKeepsSuffix | apps/frontend/src/pages/Orders.tsx:664-702 | a sync removes exactly the answered orders from the front, keeps the unprocessed suffix, and only posts stored orders |
| OfflineQueue.SyncOutcome | apps/frontend/src/pages/Orders.tsx:673-694 | a sync goes on through accepted and refused orders alike, which leave the store, and the server's ledgers grow by exactly the orders posted, in order |
| OfflineQueue.StoreIsSuffix | apps/frontend/src/pages/Orders.tsx:664-702 | in every reachable state the store holds the latest queued orders, in order |
| OfflineQueue.RunsAreSafeIff | apps/frontend/src/pages/Orders.tsx:852-866 | over every run each queued order is answered or still queued in its original order exactly when no order was queued after a failed read of a non-empty store |
| OfflineQueue.RunsOnceIff | apps/frontend/src/pages/Orders.tsx:673-694 | over every run the server sees each removed order exactly once, and no queued order, exactly when no answer is lost |
| OfflineQueue.DrainedExactlyOnceIff | apps/frontend/src/pages/Orders.tsx:664-702 | a drained queue means that every queued order was seen exactly once, exactly when no answer was lost |
| OfflineQueue.LostReplyTakesTwice | apps/frontend/src/pages/Orders.tsx:673-694 | a lost reply or write in a sync lets the same order be taken twice |
| OfflineQueue.LostFirstReplyTakesTwice | apps/frontend/src/pages/Orders.tsx:842-866 | a lost reply to the first post lets an undisturbed sync have the order taken twice |
| OfflineQueue.FailedReadLoses | apps/frontend/src/pages/Orders.tsx:863-865 | an order queued after a failed read replaces the stored ones |
| OfflineQueue.SharedIdIsLost | apps/frontend/src/pages/Orders.tsx:679-680 | an order whose id collides with that of an answered one leaves the store unposted |
| PosCart.PosCart.IncreaseItem | apps/frontend/src/pages/Orders.tsx:720-734 | the step function's cart and history |
| PosCart.PosCart.DecreaseItem | apps/frontend/src/pages/Orders.tsx:736-748 | the step function's cart and history |
| PosCart.PosCart.UndoCartChange | apps/frontend/src/pages/Orders.tsx:383-390 | the step function's cart and history |
| PosCart.RunRefinesIdeal | apps/frontend/src/pages/Orders.tsx:379-390 | any interleaving whose undos stay within thirty changes of the greatest depth before agrees with unbounded undo, whose stack has the kept one as a prefix |
| PosCart.NeverStarvedIff | apps/frontend/src/pages/Orders.tsx:379-390 | the operations alone decide whether an undo finds the kept history empty while changes remain, and how much is kept |
| PosCart.UndoExactly | apps/frontend/src/pages/Orders.tsx:379-390 | n changes and m undos leave the cart after n - min(m, n, 30) changes |
| PosCart.StarvedUndoDiffers | apps/frontend/src/pages/Orders.tsx:379-390 | beyond thirty changes bounded and unbounded undo differ |
| PosCart.DecreaseTakesBack | apps/frontend/src/pages/Orders.tsx:732-748 | decrease after increase restores the cart, with both snapshots in the history |
| PosCart.ChangeCounts | apps/frontend/src/pages/Orders.tsx:720-748 | increase adds one, decrease takes one if there is one, other items stay and nothing is kept at zero |
| PosCart.UndoTakesBack | apps/frontend/src/pages/Orders.tsx:383-390 | undo brings back the cart of the last change |
| Dedup.RealtimeGuard.AlreadyHandledRealtime | apps/frontend/src/pages/Orders.tsx:270-283 | true exactly for an id accepted within five minutes by the full history; acceptances of one id stay more than five minutes apart |
| Dedup.AcceptedIsRemembered | apps/frontend/src/pages/Orders.tsx:280-282 | accepting an id that is not recent keeps the history spaced and the cache in agreement with it |
| Dedup.RecentIff | apps/frontend/src/pages/Orders.tsx:273-279 | an id is recent exactly when some acceptance of it is at most 300000 milliseconds old |
| Kitchen.LocalUpdateConsistent | apps/frontend/src/pages/Kitchen.tsx:313-333 | every local update keeps READY orders free of unready items and leaves other orders alone |
| Kitchen.MarkedReady | apps/frontend/src/pages/Kitchen.tsx:321-330 | an order is READY after an update exactly when all its items are and it has items or was READY |
| Kitchen.MarkedOrder | apps/frontend/src/pages/Kitchen.tsx:321-330 | an update marks exactly the matching items; the order becomes READY when all are, PREPARING when some item is, and otherwise stays |
| Kitchen.StepMarks | apps/frontend/src/pages/Kitchen.tsx:347-412 | what each step does to each item |
| Kitchen.StageIff | apps/frontend/src/pages/Kitchen.tsx:118-123 | which orders go into which column |
| Kitchen.StatusReadIff | apps/frontend/src/pages/Kitchen.tsx:111-116 | which texts are read as which status |
| Kitchen.RunsProgress | apps/frontend/src/pages/Kitchen.tsx:313-412 | guarded runs never lower a rank, so at most two steps per item have an effect |
| Kitchen.UnguardedCanRegress | apps/frontend/src/pages/Kitchen.tsx:313-333 | without the guard an update moves an item back |
| Kitchen.CompleteOrderChangesNothing | apps/frontend/src/pages/Kitchen.tsx:370-393 | completing an order never changes an item and sends an empty batch |
| Kitchen.BatchIsLocalChange | apps/frontend/src/pages/Kitchen.tsx:335-345 | the batch names exactly the items the local update changes |
| Kitchen.BatchAgreesWithLocal | apps/frontend/src/pages/Kitchen.tsx:335-345 | applying the batch gives the locally updated items |
| Kitchen.SpellingReadsBack | apps/frontend/src/pages/Kitchen.tsx:111-116 | every status survives its spelling |
| Kitchen.KdsColumns | apps/frontend/src/pages/Kitchen.tsx:457-473 | the columns are the orders of each stage |
| Kitchen.ColumnPositions | apps/frontend/src/pages/Kitchen.tsx:457-473 | a column shows exactly the orders of its stage, once each, in their relative order |
| Kitchen.ColumnsPartition | apps/frontend/src/pages/Kitchen.tsx:457-473 | the columns together are all orders |

## Left out

- Network, sockets, browser storage, databases and rendering: they appear only as stored values, delivered payloads and the server's answers.
- JSON text: a line key is the triple of its three fields, which the text determines; a snapshot is the list of its items; an absent branch id and an empty one are the same.
- `localeCompare`: modelled as the order by code points; only that it is a strict total order is used.
- ServerCart.OrderArrivesIff: how option texts are parsed and printed is a parameter, of which only is used that equal printed texts have equal selections.
- Case mapping: ASCII only, which decides the labels "size" and "topping" as the full mapping does; promotion codes and statuses outside ASCII are not upper-cased.
- Values of a wrong type inside stored carts and payloads, and fractional or not-a-number quantities, prices and revisions: quantities, prices and revisions are integers.
- CartVersion.ParseNumber: reads signed decimal integers; the other forms JavaScript accepts (fractions, exponents, hexadecimal, `Infinity`) read as not a number.
- The persist timer that stamps the version with the clock, and deliveries that alternate between orders: convergence is claimed for the deliveries of one order without a persist in between.
- CartHandlers.ReachableCartsGood: assumes that a server order holds at least one of each item; `OrderCartGoodIff` states what happens otherwise.
- CartHandlers.Step: each state update is one atomic step on the current state; toasts, timers, the removal confirmation and the promotion preview are not part of it.
- Dedup.RealtimeGuard.AlreadyHandledRealtime: needs a positive, non-decreasing clock, as the property it states does.
- OfflineQueue.RunsAreSafeIff: order creation and syncs are sequential, as the code takes no lock; the button that clears the queue is not a step; orders that never enter the queue, because the server answered them or the store could not be written, are not followed.
- Kitchen.RunsProgress: reloading the orders from the server is not a step; the guards are those of the buttons.
- Telemetry.ResponseTracker.TrackResponseSource: names come already trimmed and lower-cased; times are whole seconds; ratios and their rounding are left out.
- Recommend.MergeRecommendationCandidates: item ids come already stripped, scores are real numbers rounded half to even at four decimals, and of a row only id, score and reason are kept.
- Forecast.BuildRevenueForecast: real arithmetic instead of floating point; rows come with their date already parsed to a weekday; the confidence score and the metadata are left out.
- The pending chat queue, cash change, payable total, status labels, sentiment and chat replies, role checks and SQL: no property here depends on them.
