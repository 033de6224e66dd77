# Garden business: road building and visitor economy

This project models the logic behind the garden "business" page of a small
web game written in React and TypeScript. The logic is modelled in Dafny and
its properties are proved.

The player places buildings and NPCs on an 8 x 15 grid of hexagonal cells.
On that grid the player builds a road, one adjacent cell at a time. Starting
the business spawns 3 to 7 visitors. They walk along the road, wrapping back
to the start at the end. Once a second, each visitor who is off cooldown may
spend at the first building next to their cell that passes
a 70% roll; NPCs next to that building raise the amount. The earnings go to
a coin total and a 10-entry log. A tick with no purchase earns a small base
income. Two smaller pieces complete the model: the NPC record table, which
has a clamped relationship level and an append-only conversation history,
and the chapter-one dialogue, which has a step counter and stat effects
accumulated over the choices.

Modules, one per concern:

- `Options`, `HexAdjacency` (hex.dfy): the neighbour test on offset
  coordinates (one 6-entry offset table per column parity).
- `RoadBuilder` (roadbuilder.dfy): cells, the empty grid, and the click
  handler that extends the road. The handler is a method from the old
  properties to the new values handed to the setters. Its two highlight
  loops are methods over the grid.
- `Economy` (economy.dfy): the four lookup tables by building or NPC id.
- `Consumption` (consumption.dfy): spawning, movement and the consumption
  tick shared by the page and the extracted hook. The per-visitor scan and
  the whole tick are methods with loops, proved equal to recursive row-major
  reference functions whose properties are proved as lemmas.
- `BusinessPage` (businesspage.dfy): the page as a class `Business`. Its
  React state and refs are fields. Each handler is a method that keeps the
  page invariant `PageInvariant`.
- `CustomerSimulation` (customersim.dfy): the extracted hook as a class
  `Simulation`. Its fields are the parent state it writes through setters,
  plus its own frame-time ref. Props are parameters.
- `NpcData` (npcdata.dfy): the NPC table as a class `NpcStore` holding a map.
- `VisualNovel` (visualnovel.dfy): the dialogue as a class `Novel`.

Randomness and time are parameters:

- `SpawnDraws` and `TickDraws` hold one draw in [0, 1) per `Math.random()`
  call, indexed by visitor and, where needed, by the cell the draw concerns.
- `now`, the animation-frame time and the generated conversation id are
  arguments.
- Positions, speeds and multipliers are exact rationals (`real`), and the
  floors are `.Floor`.

At consumption time the NPC scan gives every nearby NPC a fixed bonus
multiplier of 0.2 and a random bonus price of 1 to 5 (page.tsx:367-368), so a
wealthy special purchase at a building of base 8 with one NPC of price 4 and a
doubling comes to floor((8 x 1.2 + 4) x 2 x 2) = 54
(`ScenarioWealthySpecialPurchase`).

## Model

| member | source | states |
|---|---|---|
| `HexAdjacency.IsAdjacent` | app/garden/road/RoadBuilder.tsx:46-88 | a cell is never adjacent to itself, and an adjacent cell differs by at most 1 in row and in column |
| `HexAdjacency.AdjacentIffInNeighborSet` | app/garden/road/RoadBuilder.tsx:54-87 | `b` is adjacent to `a` exactly when it is one of the six neighbours listed for `a`'s column parity |
| `HexAdjacency.SixNeighbors` | app/garden/road/RoadBuilder.tsx:47-75 | every cell has exactly six adjacent coordinates |
| `HexAdjacency.NeighborOffsets` | app/garden/road/RoadBuilder.tsx:54-75 | each column parity has a table of exactly six offsets |
| `HexAdjacency.NeighborSetSize` | app/garden/road/RoadBuilder.tsx:58-75 | the six offsets of a cell lead to six distinct cells |
| `HexAdjacency.AdjacencyIrreflexive` | app/garden/road/RoadBuilder.tsx:51 | no cell is adjacent to itself |
| `HexAdjacency.AdjacencySymmetric` | app/garden/road/RoadBuilder.tsx:58-82 | adjacency is symmetric for all integer coordinates, negative ones included |
| `RoadBuilder.CreateEmptyGrid` | app/garden/road/RoadBuilder.tsx:90-109 | rows x cols cells, cell [r][c] at row r and column c, no content, every flag false |
| `RoadBuilder.ClearValidNext` | app/garden/road/RoadBuilder.tsx:177-181 | every highlight is switched off and nothing else in any cell changes |
| `RoadBuilder.MarkValidNext` | app/garden/road/RoadBuilder.tsx:184-197 | every non-road cell adjacent to the last cell is highlighted, road cells are skipped, nothing else changes |
| `RoadBuilder.PlaceRoadCell` | app/garden/road/RoadBuilder.tsx:156-174 | the clicked cell becomes road; the first one becomes the start; a later one becomes the end and the previous end loses the flag; other cells and all contents are kept |
| `RoadBuilder.ClickKeepsInvariant` | app/garden/road/RoadBuilder.tsx:152-197 | after an accepted click the selection is still pairwise adjacent and duplicate-free, the road flags mark exactly the selection, start is the first cell, end the last once there are two, and the highlights are exactly the non-road neighbours of the last cell |
| `RoadBuilder.HandleCellClick` | app/garden/road/RoadBuilder.tsx:139-200 | declined when not editing, not adjacent to the last cell, or already selected, and then nothing changes; otherwise the cell is appended, flags move as above, contents never change, and the road invariant is kept |
| `RoadBuilder.EndPointIsLast` | app/garden/road/RoadBuilder.tsx:160-174 | once the road has two cells, exactly one cell is the end point, the last selected one, and exactly one is the start, the first |
| `Economy.BuildingBaseConsumption` | app/garden/road/page.tsx:642-658 | unknown ids consume 5; every value lies in 5..15 |
| `Economy.BuildingBasePrice` | app/garden/road/page.tsx:660-676 | unknown ids cost 10; every value lies in 10..20 |
| `Economy.NpcBonusMultiplier` | app/garden/road/page.tsx:678-694 | unknown ids give 0.2; every value lies in 0.2..0.5 |
| `Economy.NpcBonusPrice` | app/garden/road/page.tsx:696-712 | unknown ids give 2; every value lies in 2..6 |
| `Economy.KnownEntries` | app/garden/road/CustomerSimulation.tsx:363-433 | building-1..5 and npc-1..5 map to their fixed table values |
| `Consumption.UserCount` | app/garden/road/page.tsx:318 | 3 to 7 visitors |
| `Consumption.SpawnUsers` | app/garden/road/page.tsx:317-331 | the spawn loop creates exactly `UserCount` visitors, visitor i from its own draws |
| `Consumption.NewUserRanges` | app/garden/road/page.tsx:320-331 | a fresh visitor stands on the road (position in [0, len)), has speed in [0.1, 0.4), cooldown 5, no purchase yet, is wealthy iff the draw exceeds 0.7, and has 20..49 coins if wealthy and 1..10 otherwise |
| `Consumption.MoveUser` | app/garden/road/page.tsx:613-620 | position + speed x dt, or exactly 0 once that reaches the road length; nothing else changes; a visitor on the road stays on it |
| `Consumption.MoveAll` | app/garden/road/page.tsx:611-622 | every visitor takes one movement step, the list keeps its length and order |
| `Consumption.BonusPriceOf` | app/garden/road/page.tsx:368 | a random bonus price lies in 1..5 |
| `Consumption.NpcsInRowSound` | app/garden/road/page.tsx:358-373 | every NPC the scan of a row reports from column c on is an NPC cell of that row adjacent to the building, carrying the fixed bonuses |
| `Consumption.NpcsFromSound` | app/garden/road/page.tsx:357-374 | every NPC the scan reports from row r on is an adjacent NPC cell in those rows |
| `Consumption.NpcsInRowComplete` | app/garden/road/page.tsx:358-373 | a cell of the row from column c on is reported exactly when it holds an NPC adjacent to the building |
| `Consumption.NpcsFromComplete` | app/garden/road/page.tsx:357-374 | a grid cell from row r on is reported exactly when it holds an NPC adjacent to the building |
| `Consumption.NpcsNearBuildingExact` | app/garden/road/page.tsx:353-377 | the scan reports exactly the NPC cells adjacent to the building, each once and in row-major order, so the list is as long as there are such cells; each carries multiplier 0.2 and bonus price 1..5 |
| `Consumption.NpcsInRowOrdered` | app/garden/road/page.tsx:357-372 | within one row the scan reports NPCs from left to right, none twice |
| `Consumption.NpcsFromOrdered` | app/garden/road/page.tsx:356-372 | the scan reports NPCs in row-major order, none twice |
| `Consumption.RowMajorCount` | app/garden/road/page.tsx:356-372 | a list whose positions strictly increase stands on as many cells as it has entries |
| `Consumption.PositionSetExact` | app/garden/road/page.tsx:356-372 | a list of reported NPCs that holds every adjacent NPC cell stands on exactly the NPC cells adjacent to the building |
| `Consumption.GetNPCsNearBuilding` | app/garden/road/page.tsx:353-377 | the nested loops return the row-major list of adjacent NPCs |
| `Consumption.SpecialMultiplier` | app/garden/road/page.tsx:477-478 | 1 without a special purchase, 2..4 with one |
| `Consumption.ReduceWithFixedMultiplier` | app/garden/road/page.tsx:469-474 | with k reported NPCs the multiplier sum is start + 0.2 k and the price sum lies between start + k and start + 5k |
| `Consumption.AmountWithFixedBonuses` | app/garden/road/page.tsx:461-482 | amount = floor((base x (1 + 0.2 k) + bonus prices) x w x s), the bonus prices summing to k..5k |
| `Consumption.AmountAtBuilding` | app/garden/road/page.tsx:464-482 | a purchase at a building is floor((base x (1 + 0.2 k) + bonus prices) x w x s) with k the number of NPC cells adjacent to it, the bonus prices summing to k..5k |
| `Consumption.ScanBonuses` | app/garden/road/page.tsx:364-369 | every NPC the scan reports carries the fixed bonuses |
| `Consumption.AmountAtLeastBase` | app/garden/road/page.tsx:481-482 | with a positive base, a purchase brings in at least the base consumption |
| `Consumption.ScenarioPlainPurchase` | app/garden/road/page.tsx:481-482 | a normal visitor at a base-8 building with no NPC spends 8 |
| `Consumption.ScenarioWealthySpecialPurchase` | app/garden/road/page.tsx:461-482 | a wealthy 2x special purchase at a base-8 building with one NPC of bonus price 4 comes to 54 |
| `Consumption.FirstInRowSpec` | app/garden/road/page.tsx:435-456 | the row scan from column c returns the first qualifying building of the row, or none when no building of the row from c on qualifies |
| `Consumption.FirstFromSpec` | app/garden/road/page.tsx:434-456 | the scan from row r returns the first qualifying building in row-major order from row r, or none when none qualifies |
| `Consumption.FirstCandidateWins` | app/garden/road/page.tsx:434-456 | the scan picks the first building in row-major order that is adjacent, not the last one spent at, and passes its roll; it finds none exactly when no building qualifies |
| `Consumption.ConsumeForUser` | app/garden/road/page.tsx:408-531 | the per-visitor loop with its cooldown and position guards, skip and early return equals the visitor's reference tick |
| `Consumption.CooldownBlocksSpending` | app/garden/road/CustomerSimulation.tsx:178-181 | a visitor on cooldown is returned unchanged and produces no event |
| `Consumption.CooldownBoundary` | app/garden/road/page.tsx:410-411 | with cooldown 5, a visitor is cooling down exactly while fewer than 5000 ms have passed since its last purchase, and before any purchase exactly while `now` is below 5000 |
| `Consumption.UserTickSpends` | app/garden/road/page.tsx:446-518 | a purchase is at an adjacent building other than the last one spent at, whose roll passed, with no earlier candidate; afterwards the visitor records that building and `now`, a normal visitor has 0 coins and a wealthy one max(0, coins - amount/2); without a purchase the visitor is unchanged |
| `Consumption.UserTickKeepsMotion` | app/garden/road/page.tsx:512-518 | a tick keeps a visitor's id, kind, position, speed and cooldown and never makes coins negative |
| `Consumption.NoCandidateNoSpend` | app/garden/road/page.tsx:525-531 | a visitor with no qualifying building nearby does not spend |
| `Consumption.BaseIncome` | app/garden/road/page.tsx:549 | the base income lies in 1..max(1, number of visitors) |
| `Consumption.BaseIncomeReachesCount` | app/garden/road/page.tsx:549 | with n visitors a draw of (n-1)/n earns the largest base income, n |
| `Consumption.TickUsers` | app/garden/road/page.tsx:404-531 | every visitor is ticked on its own, and the list keeps its length and order |
| `Consumption.TickOutcomeFacts` | app/garden/road/page.tsx:536-552 | every running tick strictly raises the total; with purchases by their sum and the log becomes the last 10 of old ++ new; without, by the base income and the log is kept; visitors keep place, speed and cooldown |
| `Consumption.ConsumptionTick` | app/garden/road/page.tsx:394-552 | the loop over the visitors and the coin and log update give exactly the reference tick outcome |
| `Consumption.AtMostOnePurchasePerUser` | app/garden/road/CustomerSimulation.tsx:260-266 | a tick has at most one purchase per visitor, each stamped `now` |
| `Consumption.TickKeepsUsers` | app/garden/road/page.tsx:512-518 | a tick keeps every visitor's position, speed and cooldown and keeps coins non-negative |
| `Consumption.EventLogIsSuffix` | app/garden/road/CustomerSimulation.tsx:282-287 | the log is the 10-element (or shorter) suffix of old ++ new |
| `Consumption.TickIncreasesCoins` | app/garden/road/CustomerSimulation.tsx:278-292 | positive earnings or a base income both raise the total |
| `Consumption.EarningsPositiveIffPurchase` | app/garden/road/page.tsx:478-487 | on a grid whose buildings consume at least 1, every purchase is at least 1 and a tick earns something exactly when somebody bought something |
| `Consumption.ScaleDraw` | app/garden/road/page.tsx:325 | a draw in [0, 1) times a positive road length is a position in [0, length) |
| `Consumption.ScanCellStep` | app/garden/road/page.tsx:357-372 | visiting one cell appends that cell's NPC exactly when it is an NPC adjacent to the building, and the rest of the row follows |
| `Consumption.ScanRowStep` | app/garden/road/page.tsx:357-372 | the NPCs found near a building are one row's NPCs followed by those of the later rows, in row-major order |
| `Consumption.TickStep` | app/garden/road/page.tsx:486-507 | one visitor's purchase is appended to the new events, adds its amount to the earnings and highlights its building with that amount, time and flag; no purchase changes none of them |
| `Consumption.PurchaseAtLeastOne` | app/garden/road/page.tsx:459-482 | when every building consumes at least 1, a purchase is worth at least 1 coin |
| `Consumption.TickPurchasesAtLeastOne` | app/garden/road/page.tsx:404-531 | when every building consumes at least 1, every purchase of a tick is worth at least 1 coin |
| `Consumption.SumAtLeastCount` | app/garden/road/page.tsx:486-487 | purchases of at least 1 coin each earn at least as many coins as there are purchases |
| `BusinessPage.Enrich` | app/garden/road/page.tsx:164-180 | the looked-up item keeps the saved id, name and type |
| `BusinessPage.LoadedContentFacts` | app/garden/road/page.tsx:158-184 | a loaded cell is empty exactly when the saved one is; a building gets its table consumption (5..15) and price, an NPC its table bonus, other fields come from the saved item |
| `BusinessPage.WithLayout` | app/garden/road/page.tsx:158-184 | each cell of the empty grid takes the looked-up item saved at the same row and column; a row or column the saved garden lacks reads as empty |
| `BusinessPage.ClearRoad` | app/garden/road/page.tsx:571-580 | every road, start, end and highlight flag is cleared and the rest of each cell is kept |
| `BusinessPage.ClearRoadIsEmptyRoad` | app/garden/road/page.tsx:570-586 | the cleared grid agrees with an empty road and keeps every cell's item |
| `BusinessPage.ExpireActive` | app/garden/road/page.tsx:719-731 | a highlight is kept, unchanged, exactly when it is at most 2000 ms old |
| `BusinessPage.PageClick` | app/garden/road/page.tsx:196-257 | the page's click is the road builder's click, keeps every cell's item and keeps the page invariant |
| `BusinessPage.TickKeepsPageInvariant` | app/garden/road/page.tsx:404-552 | a running tick keeps the page invariant |
| `BusinessPage.PageTick` | app/garden/road/page.tsx:394-552 | a running tick on a valid page gives exactly the reference tick outcome, strictly raises the total and leaves a valid page |
| `BusinessPage.ResetKeepsPageInvariant` | app/garden/road/page.tsx:558-596 | clearing the road, dropping the selection and the visitors and returning to editing keeps every cell's item and leaves a valid page |
| `BusinessPage.CapturedBaseIncomeIsOne` | app/garden/road/page.tsx:345-349 | as written, the interval's tick reads the pre-start visitor list, which is empty, so a tick without purchases adds exactly 1 coin and keeps the log, whereas with n >= 2 current visitors a tick reading them earns n coins on the draw (n-1)/n |
| `BusinessPage.Business.constructor` | app/garden/road/page.tsx:141-193 | an empty 8 x 15 grid filled from the saved garden when there is one; editing, not running, no road, no visitors, no coins |
| `BusinessPage.Business.HandleCellClick` | app/garden/road/page.tsx:196-257 | the road builder's click on the page's state; nothing but the grid and the selection changes |
| `BusinessPage.Business.StartBusiness` | app/garden/road/page.tsx:311-350 | nothing with fewer than two road cells; otherwise fresh visitors, running, not editing |
| `BusinessPage.Business.HandleBuildingConsumption` | app/garden/road/page.tsx:380-555 | nothing while not running; otherwise one tick, after which the total is strictly larger |
| `BusinessPage.Business.ResetBusiness` | app/garden/road/page.tsx:558-596 | every road flag cleared, items kept, selection and visitors dropped, editing again; coins, log and highlights kept |
| `BusinessPage.Business.Animate` | app/garden/road/page.tsx:599-625 | the first frame only records the time; later frames move every visitor by speed x elapsed seconds |
| `BusinessPage.Business.ExpireActiveConsumptions` | app/garden/road/page.tsx:715-732 | the expiry filter applied to the page's highlights; nothing else changes |
| `BusinessPage.PositionGuardNeverFires` | app/garden/road/page.tsx:416-421 | while visitors stay on the road, the out-of-range position guard never fires |
| `BusinessPage.WrapAroundExample` | app/garden/road/page.tsx:616-618 | a visitor 0.01 before the end of a 5-cell road at speed 1 is at 0 after one second |
| `CustomerSimulation.MoveAllKeepsForward` | app/garden/road/CustomerSimulation.tsx:325-336 | a movement step keeps positions non-negative and visitors on the road on it |
| `CustomerSimulation.TickLogBounded` | app/garden/road/CustomerSimulation.tsx:278-292 | after a tick the log holds at most 10 entries and the total is strictly larger |
| `CustomerSimulation.Simulation.constructor` | app/garden/road/CustomerSimulation.tsx:90-101 | the hook is mounted over the parent's state with no frame time yet |
| `CustomerSimulation.Simulation.StartBusiness` | app/garden/road/CustomerSimulation.tsx:106-133 | nothing with fewer than two road cells; otherwise only the visitors are replaced, by 3 to 7 fresh ones on the road |
| `CustomerSimulation.Simulation.HandleBuildingConsumption` | app/garden/road/CustomerSimulation.tsx:163-293 | nothing while the running ref is false; otherwise one tick, after which the total is strictly larger |
| `CustomerSimulation.Simulation.ResetBusiness` | app/garden/road/CustomerSimulation.tsx:296-310 | no visitors and frame time 0; coins, log and highlights are untouched |
| `CustomerSimulation.Simulation.Animate` | app/garden/road/CustomerSimulation.tsx:313-341 | one movement frame while running on a road of two cells or more, position kept in [0, road length) |
| `NpcData.ContainsIffOccurs` | app/data/npcData.ts:44-46 | the substring test holds exactly when the word occurs at some offset of the text |
| `NpcData.PoetFavorite` | app/data/npcData.ts:44-46 | npc-1 likes an answer exactly when it contains 诗, 词 or 文学 |
| `NpcData.InitialTableFacts` | app/data/npcData.ts:33-262 | the table holds npc-1..npc-5, each filed under its own id, with relationship 50 and an empty history |
| `NpcData.Clamp` | app/data/npcData.ts:275 | the result lies in the bounds, equals the input inside them and the nearer bound outside |
| `NpcData.NpcStore.constructor` | app/data/npcData.ts:33-262 | the store starts as the initial table |
| `NpcData.NpcStore.GetNPCData` | app/data/npcData.ts:265-267 | the record filed under the id, or nothing for an unknown id |
| `NpcData.NpcStore.GetAllNPCs` | app/data/npcData.ts:269-271 | all five records in table order, every record of the table among them |
| `NpcData.NpcStore.UpdateNPCRelationship` | app/data/npcData.ts:273-279 | a known id answers true and sets only that NPC's relationship, to clamp(old + change, 0, 100); an unknown id answers false and changes nothing |
| `NpcData.NpcStore.AddConversationEntry` | app/data/npcData.ts:281-295 | a known id answers true and appends exactly one entry with the given speaker and text at the end of that NPC's history; an unknown id answers false and changes nothing |
| `NpcData.RelationshipUpdateBounded` | app/data/npcData.ts:274-276 | after an update the relationship lies in 0..100, equals old + change when that is in range, and every other NPC is unchanged |
| `NpcData.AppendKeepsHistory` | app/data/npcData.ts:291 | the earlier history is a prefix and the new entry is last |
| `VisualNovel.ChoicesAddUp` | app/components/VisualNovel.tsx:65-88 | after any run of choices, the effects handed on hold for each stat its starting value (0 when absent) plus the sum of what the choices gave it, and a stat is present exactly when it was at the start or some choice named it |
| `VisualNovel.AccumulateCommutes` | app/components/VisualNovel.tsx:68-71 | two choices give the same accumulated effects in either order |
| `VisualNovel.AccumulateAdds` | app/components/VisualNovel.tsx:69-70 | the value of a stat after a choice is the old value plus the choice's, reading absent values as 0 |
| `VisualNovel.AddChoiceEffects` | app/components/VisualNovel.tsx:67-71 | the `forEach` over the choice's entries computes the accumulated effects |
| `VisualNovel.ChoicesBeforeLastStep` | app/components/VisualNovel.tsx:24-51 | the dialogue has four steps and only steps before the last offer choices |
| `VisualNovel.Novel.constructor` | app/components/VisualNovel.tsx:60-61 | step 0 and no effects |
| `VisualNovel.Novel.HandleNext` | app/components/VisualNovel.tsx:78-89 | before the last step the step goes up by one and the effects are kept; at the last step the effects are handed on and the step and the effects are reset; the step stays in [0, 3] |
| `VisualNovel.Novel.HandleChoice` | app/components/VisualNovel.tsx:65-76 | the choice's effects are added, then the step advances exactly as `HandleNext` does |

## Left out

- Rendering is not modelled: JSX, CSS, animations, the hex pixel layout and the static pages.
- `localStorage` and `JSON.parse` are not modelled. The constructor of `Business` takes the already-parsed saved garden, or none. A parse failure reads as none.
- `console.log` calls are not modelled.
- CustomerSimulation.Simulation.HandleBuildingConsumption: computes the base income from the visitors it is given. As written, the hook's interval (app/garden/road/CustomerSimulation.tsx:128-131) keeps calling the callback of the render in which `startBusiness` ran, so line 290 reads that render's `users` prop, as the page does (see Findings). The hook has no running flag of its own that would pin that list to the empty one, so the model states only the corrected behaviour here.
- Timers are not modelled: `requestAnimationFrame`, `setInterval`, `clearInterval` and their cancellation. A consumption tick, an animation frame and an expiry pass are method calls.
- React update timing is not modelled, and updaters run synchronously in order. So the consumption tick's `totalEarned` check sees the visitors' purchases, and a dialogue choice completes with its own effects.
- The stale closures are not modelled. The one that changes behaviour, the base income's visitor count, is under Findings.
- `Math.random` and `Date.now` are parameters. One draw is indexed per visitor and per cell, so the exact order in which the source calls `Math.random` is not reproduced.
- IEEE-754 rounding is not modelled. Positions, speeds and multipliers are exact rationals, and floors at rounding boundaries may differ from JavaScript.
- Cells have no string `id` (`cell-r-c`).
- Highlights are keyed by `Coord` instead of the string `"row-col"`. The map is the same because the key is in one-to-one correspondence with `Coord`.
- Visitor ids are the index i, not the string `user-i`.
- Icons, descriptions, sizes and shapes of garden items are not modelled.
- `basePrice` is looked up and stored but never enters the purchase formula (page.tsx:462), so the model stores it and nothing reads it.
- The economic tables' NPC bonuses are stored on load but replaced by the scan's fixed values at consumption time, as in the code.
- In-place mutation and aliasing of grid cells are not modelled. The click handler mutates cell objects shared with the previous grid. The model works on values, so the old grid stays unchanged, while in the source it does not. No modelled state keeps the old grid.
- The page's scans loop over 8 x 15 and the hook's over `grid.length` x `grid[0].length`. Both are the grid's own size, because the grid is rectangular (8 x 15 on the page).
- RoadBuilder.HandleCellClick: requires the click and the current end point to lie on the grid. The source would index outside the grid otherwise, and clicks come only from rendered cells.
- Consumption.UserTick: requires a non-negative position. The source would index the road at a negative position and fail otherwise. No visitor reaches one, since positions start in [0, len) and only grow or reset to 0.
- NpcData.NpcStore.GetNPCData: returns the record as a value. In the source it is the shared mutable object.
- JavaScript's inherited object properties are not modelled. For example, `npcData["constructor"]` is truthy; only the table's own five keys are modelled.
- NPC narrative strings are not modelled: description, icon, background, personality and the response texts of the dialogue options. None of the modelled operations reads them.
- Relationships and changes are integers, because every caller passes integer effects.
- `favoriteResponse` is represented by its keyword list. `FavoriteResponse` tests whether any keyword occurs in the text.
- The conversation entry's generated id is a parameter, and its timestamp is `now`.
- VisualNovel.Novel.HandleChoice: the source's `handleNext` inside `handleChoice` sees the effects from before the choice. The model uses the sequential semantics. The difference could show only when a choice is made at the last step, which has no choices (`ChoicesBeforeLastStep`).
- `onClose` is not modelled; it closes the dialog in the UI.

## Findings

| source | as written | input that shows it | evidently intended | confidence | as-written member | corrected member |
|---|---|---|---|---|---|---|
| app/garden/road/page.tsx:549 | the interval created in `startBusiness` keeps calling the `handleBuildingConsumption` of the render in which the button was pressed, and that render's `users` is the empty pre-start list, so the base income is floor(r x 0) + 1 = 1 on every tick; the hook repeats the same stale read at app/garden/road/CustomerSimulation.tsx:290, through the interval it sets at lines 128-131 | any running tick without a purchase, with 3 to 7 visitors on the road and any draw r in [0, 1) | a base income of 1 to `users.length`, scaling with the current visitors | medium, not executed | `BusinessPage.CapturedBaseIncomeIsOne` | `Consumption.BaseIncomeReachesCount` |
