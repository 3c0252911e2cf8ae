# Gacha roll reconstruction, modelled in Dafny

This project models the deterministic engine of a gacha (loot-box) seed
tracker. Given a 32-bit starting seed, the tracker:

- rebuilds every draw a banner can produce from an xorshift seed stream;
- decides each draw's rarity, item, duplicate-Rare reroll and
  guaranteed-rarity ("pity") slot;
- walks the single-draw and ten-draw routes through those nodes;
- marks the cells each route visits;
- searches a ticket budget for the route collecting the most prized items.

Two table topologies are modelled:

- **completed:** a two-column arena of nodes, one node per seed;
- **uncompleted:** a three-column arena in which every draw first takes a
  featured-item test. Ten-draws there resolve their featured tests up
  front.

One Dafny module stands for each core JavaScript file:

| module | file |
|---|---|
| `LogicCommon` | `logic-common.js` |
| `Utils` | `utils.js` |
| `CompletedHelpers` | `logic-completed-helpers.js` (nodes and reroll flags) |
| `CompletedRoutes` | `logic-completed-helpers.js` (the two route walkers) |
| `Completed` | `logic-completed.js` |
| `CompletedHighlight` | `logic-completed-highlight.js` |
| `SearchSimulation` | `logic-completed-search.js` (single and ten-draw simulation) |
| `CompletedSearch` | `logic-completed-search.js` (beam search) |
| `UncompletedSim` | `logic-uncompleted-sim.js` |
| `Uncompleted` | `logic-uncompleted.js` |

`JsValues` holds the JavaScript value quirks the sources lean on. These are
`x || -1` and a missing value written as `Option`. `Master` holds the banner
and catalog record shapes, plus the shipped banner '45' and item catalog as
fixtures.

Each loop of the sources is a `method` with a `while` loop. It is proved
equal to a recursive specification function, and the properties are lemmas
about that function. Node arrays the sources update in place are `array`s:
the reroll pass and the uncompleted route walk.

Ambient state becomes parameters:

- `window.forceRerollMode` is `forced: bool`;
- `window.activeGachaId` is `active: Option<Banner>`;
- the item master is a `Catalog` map.

JavaScript `null`/`undefined` item ids and the counter value `'none'` (or a
value that is not a number) are `None`.

Two quirks of the sources are kept as written:

- `initialLastRollId || -1` turns item id 0 into "no previous item",
  though id 0 is a real Rare item in the shipped catalog
  (`CompletedHelpers.ItemZeroIsNoLastRoll`);
- the three walkers of the completed table differ in small ways (which
  of them honour forced reroll, the pity flags or the re-reroll flag), and
  each is modelled separately.

## Model

| member | source | states |
|---|---|---|
| LogicCommon.GenerateSeedList | logic-common.js:11-17 | `max(1, count)` seeds; the first is the initial seed; each next seed is `xorshift32` of the previous one |
| LogicCommon.SeedListsAgree | logic-common.js:11-17 | two seed lists from the same start agree wherever both are defined, so a longer list only extends a shorter one |
| LogicCommon.ThresholdsFromRates | main.js:175-181 | the thresholds are prefix sums of the rarity rates, and they are non-decreasing when the rates are non-negative |
| LogicCommon.RarityFromRoll | logic-common.js:22-28 | the id is in 0..4, the roll is at least every lower threshold, and below the id's own threshold unless the id is 4 |
| LogicCommon.RarityBands | logic-common.js:22-28 | with sorted thresholds, the id is k exactly when the roll lies in band k |
| LogicCommon.RarityMonotone | logic-common.js:23-27 | with sorted thresholds, a larger roll never yields a smaller rarity id |
| LogicCommon.TickCounter | logic-completed-helpers.js:121-125 | one draw's counter update: 'none' stays 'none'; a counter above 1 goes down by one; a counter that reaches 0 restarts at the cycle, so it never drops below 1 |
| LogicCommon.CounterPeriodic | logic-completed-helpers.js:121-125 | started in 1..gCycle, after k draws the counter is `((c-1-k) mod gCycle) + 1`, so it reads 1 exactly once per cycle |
| LogicCommon.UnsetCounterStaysUnset | logic-completed-helpers.js:122 | an unset counter stays unset however many draws follow |
| LogicCommon.NatToStringInjective | logic-common.js:39-40 | distinct row numbers print differently |
| LogicCommon.AddressString | logic-common.js:35-41 | empty exactly for `n <= 0`; otherwise the letter `'A' + (n-1) % cols` followed by the row `(n-1)/cols + 1` |
| LogicCommon.AddressInjective | logic-common.js:37-40 | distinct positive indices give distinct addresses |
| LogicCommon.TwoColumnLetters | logic-common.js:37-38 | in two columns, odd indices lie in column A and even ones in column B |
| LogicCommon.PoolItem | logic-completed-helpers.js:36 | a pool read yields an item exactly for an in-range slot, and the item is in the pool |
| LogicCommon.Without | logic-completed-helpers.js:82 | the filtered pool holds exactly the pool's other items |
| LogicCommon.ItemNameSafe | logic-common.js:46-49 | '---' for -1, a missing id or an unknown item; the catalog name otherwise |
| LogicCommon.DetermineHighlightClass | logic-common.js:54-70 | no class without an entry or a route; an overlap class exactly when both routes touch the cell; the dark variant exactly when a touching route's roll number is a multiple of 10 |
| Utils.Xorshift32 | utils.js:24-30 | the result is a 32-bit value, and it is 0 exactly when the seed is 0 |
| Utils.XorshiftStepInvertible | utils.js:26-28 | the three shift-xor steps can be undone, and only 0 maps to 0 |
| Utils.XorshiftRoundTrip | utils.js:24-30 | the inverse recovers the seed from `xorshift32(seed)` |
| Utils.XorshiftInjective | utils.js:24-30 | two seeds with the same successor are equal |
| Utils.RarityLists | utils.js:41 | there are always five rarity lists, possibly empty |
| Utils.PoolOfRarityMembers | utils.js:44-49 | an item is in list r exactly when it is in the pool, known to the catalog and of rarity r |
| Utils.RarityListsPartitionPool | utils.js:44-49 | the five lists together hold every known pool item once per occurrence; unknown items are dropped |
| Utils.SplitPool | utils.js:44-49 | the push loop yields list r as the pool-order subsequence of items of rarity r |
| Utils.SetupGachaRarityItems | utils.js:36-55 | every gacha keeps its id and gets the five derived lists |
| Utils.DerivedHasFiveLists | utils.js:41-49 | after setup, the rarity-r pool of a gacha is the rarity-r subsequence of its pool |
| Utils.ComparisonIsDupe | utils.js:109 | a dupe is a Rare equal to the previous item, and never against -1 |
| JsValues.OrMinusOne | logic-completed-helpers.js:68 | `x or -1`: -1 for a missing id and also for id 0; any other id passes through |
| Master.RarityPool | logic-completed-helpers.js:32 | `gacha.rarityItems[r] or []`: list r when it exists, else empty |
| Master.CycleOr | logic-completed-helpers.js:99 | `guaranteedCycle or fallback` |
| Master.UberGuaranteeRate | logic-completed-helpers.js:15 | 0 without the flag, otherwise the Uber rate or 500, never 0 |
| Master.LegendGuaranteeRate | logic-completed-helpers.js:16 | 0 without the flag, otherwise the Legend rate or 200, never 0 |
| CompletedHelpers.MakeNode | logic-completed-helpers.js:19-53 | node i holds seeds i..i+3 and seed i-1; its rarity comes from `seed1 % 10000`; its item is `pool[seed2 % size]`, or -1 for an empty pool; it has a guaranteed draw exactly when the divisor is positive |
| CompletedHelpers.GuaranteedRarity | logic-completed-helpers.js:44-51 | the guaranteed rarity is 3 exactly when `seed1 % (uRate+lRate) < uRate`, else 4; the slot is within `max(1, size)`, so there is no division by zero |
| CompletedHelpers.NodeItemsHaveTheirRarity | logic-completed-helpers.js:31-51 | a node's item and its guaranteed item come from the banner's pool and have the rarity the node rolled |
| CompletedHelpers.InitialNodesAt | logic-completed-helpers.js:19-55 | the arena has maxNodeIndex nodes, and node k is built from seed k+1 |
| CompletedHelpers.InitializeNodes | logic-completed-helpers.js:10-57 | the push loop yields exactly `max(0, maxNodeIndex)` nodes, node k+1 built from seeds k+1..k+4 |
| CompletedHelpers.RerollPass | logic-completed-helpers.js:64-90 | the reroll pass keeps the number of nodes |
| CompletedHelpers.RerollPassAt | logic-completed-helpers.js:65-88 | node k is flagged from the item two nodes back (`initialLastRollId or -1` for the first two) and from the already flagged node three back |
| CompletedHelpers.FlagOne | logic-completed-helpers.js:67-88 | the imperative flagging of one node matches the specification |
| CompletedHelpers.FlagAt | logic-completed-helpers.js:65-88 | flagging node i in place changes node i only |
| CompletedHelpers.CalculateRerolls | logic-completed-helpers.js:64-90 | the in-place `forEach` over the array leaves the flagged arena of the reroll pass |
| CompletedHelpers.RerollFlagIff | logic-completed-helpers.js:67-75 | reRollFlag holds exactly for a Rare with more than one Rare in the pool that repeats the item two back, or under forced rerolls |
| CompletedHelpers.MarkOf | logic-completed-helpers.js:65-88 | the four reroll fields of one node; what they hold is stated by FlagNodeFields |
| CompletedHelpers.FlagNodeFields | logic-completed-helpers.js:65-88 | the reroll flag is set exactly for a Rare with more than one item in its pool that repeats the item two back or is forced; the re-reroll flag exactly for a Rare whose item is the re-draw of the flagged node three back (or -1 when there is none); a re-draw is written exactly when a flag is set and the pool without the node's item is not empty, and it is the entry `seed3 % length` of that pool, so a Rare of the banner other than the node's item; only the flag fields change |
| CompletedHelpers.RerollItemDiffers | logic-completed-helpers.js:81-87 | after the pass, a node has a re-draw exactly when one of its flags is set and the pool without its item is not empty; the re-draw is the entry `seed3 % length` of that pool, differs from the node's item, and only the flag fields changed |
| CompletedHelpers.ComparisonDupeIsFlagged | logic-completed-helpers.js:67-75 | a node the comparison text calls a dupe of the item two back is reroll-flagged |
| CompletedHelpers.ItemZeroIsNoLastRoll | logic-completed-helpers.js:68 | a last roll of item 0 is read as "no last roll", so a first-node Rare item 0 is not flagged |
| Completed.NodeCount | logic-completed.js:22-26 | at least 6000 nodes, and the last node's fourth seed lies inside the seed list |
| Completed.CalculateCompletedData | logic-completed.js:21-35 | the computation yields the seed list, the arena flagged in place before the walkers, both routes (cycle or 10) and the highlight map (cycle or 30) |
| Completed.ArenaNodes | logic-completed.js:25-28 | node k of the arena is node k as built, with only flag fields added, flagged exactly by the rule of `calculateRerolls` |
| Completed.CompletedDataShape | logic-completed.js:21-35 | `max(tableRows*20, 20000)` seeds starting at the initial seed and chained by xorshift, and `max(tableRows*6, 6000)` flagged nodes |
| CompletedRoutes.SingleRouteProgress | logic-completed-helpers.js:103-129 | past one roll, the rest of the route is the route from the walker after that roll |
| CompletedRoutes.TakeSingleDraw | logic-completed-helpers.js:104-128 | one pass of the single-route loop matches the step of the specification |
| CompletedRoutes.CalculateSingleRollRoute | logic-completed-helpers.js:96-131 | the loop yields the single route from node 1 and roll 1, with the cycle or 10 |
| CompletedRoutes.SingleRoute | logic-completed-helpers.js:103-128 | the draws of the single route until the nodes or the rows run out; SingleRouteRolls and the lemmas after it state their roll numbers, cells and moves |
| CompletedRoutes.SingleRouteRolls | logic-completed-helpers.js:103-128 | draw k carries roll number k+1 and the route never passes `tableRows` |
| CompletedRoutes.SingleRouteAdvance | logic-completed-helpers.js:112-118 | the next draw starts 2 nodes on after a guaranteed draw, 3 after a reroll, 2 otherwise |
| CompletedRoutes.TickNShift | logic-completed-helpers.js:122-125 | one tick followed by k ticks is k+1 ticks |
| CompletedRoutes.SingleRouteGuarantees | logic-completed-helpers.js:105 | draw k is guaranteed exactly when the counter after k ticks reads 1; the banner's flags are not consulted |
| CompletedRoutes.SingleRoutePityPeriod | logic-completed-helpers.js:105-125 | from a counter c in 1..gCycle, draw k is guaranteed exactly when `(c-1-k) mod gCycle == 0` |
| CompletedRoutes.SingleRouteUnsetCounter | logic-completed-helpers.js:101-122 | with the counter 'none', no single draw is guaranteed |
| CompletedRoutes.GuaranteedIndex | logic-completed-helpers.js:152-155 | the pity position is `counter - 1` when the counter is in 1..10, and -1 otherwise |
| CompletedRoutes.CycleStep | logic-completed-helpers.js:166-187 | a ten-draw slot keeps the roll and node of its walker; it is guaranteed exactly at the pity position, where it takes 1 node; otherwise it takes 3 nodes on a reroll and 2 otherwise, and it ticks the counter |
| CompletedRoutes.CycleDrawsBounds | logic-completed-helpers.js:164-188 | a cycle makes at most the draws left of its ten, and advances the roll by one per draw |
| CompletedRoutes.CycleDrawsUnfold | logic-completed-helpers.js:164-188 | a cycle with room left is its first slot followed by the rest of the cycle |
| CompletedRoutes.CycleDrawsDone | logic-completed-helpers.js:165 | a cycle stops at ten draws, past `tableRows` or past the last node |
| CompletedRoutes.NextCycle | logic-completed-helpers.js:146-190 | a cycle starts at its head node, never moves back, and advances the roll by its draws |
| CompletedRoutes.MultiRouteUnfold | logic-completed-helpers.js:146-190 | while rolls and nodes remain, the ten-draw route is one cycle followed by the route after it |
| CompletedRoutes.TakeCycleDraw | logic-completed-helpers.js:166-187 | one pass of the inner loop matches the slot step |
| CompletedRoutes.WalkCycle | logic-completed-helpers.js:164-188 | the inner loop yields the cycle's draws and the walker after them |
| CompletedRoutes.CycleHead | logic-completed-helpers.js:147-162 | the head decides the pity position and, when there is one and the divisor is positive, the rarity from the head seed, consuming that node |
| CompletedRoutes.CalculateMultiRollRoute | logic-completed-helpers.js:137-192 | the loop yields the ten-draw route from node 1 and roll 1, with the cycle or 10 |
| CompletedRoutes.CycleDrawsShape | logic-completed-helpers.js:164-188 | the draws of a cycle carry consecutive roll numbers, and exactly the one at the pity position is guaranteed |
| CompletedRoutes.CycleDrawsTicks | logic-completed-helpers.js:183-186 | after a cycle, the counter has ticked once per draw |
| CompletedRoutes.CycleDrawsFull | logic-completed-helpers.js:164-165 | with enough rolls and nodes left, a cycle makes all ten draws |
| CompletedRoutes.NextCycleShape | logic-completed-helpers.js:152-174 | at most ten draws; a head rarity is 3 or 4, exists only with a positive divisor, and moves the first draw one node past the head |
| CompletedRoutes.MultiRoute | logic-completed-helpers.js:146-190 | the cycles of the ten-draw route; MultiRouteCycles and MultiRoutePity state their shape and where the guaranteed draw falls |
| CompletedRoutes.MultiRouteCycles | logic-completed-helpers.js:146-190 | every cycle of the ten-draw route has the shape above |
| CompletedRoutes.MultiRoutePity | logic-completed-helpers.js:152-186 | in a cycle, draw k has roll number `roll + k` and is guaranteed exactly when the counter at the head was k+1 |
| CompletedHighlight.MergeKeepsOtherRoute | logic-completed-highlight.js:30-117 | re-marking a cell sets this route's fields and keeps the other route's fields |
| CompletedHighlight.ApplyKeys | logic-completed-highlight.js:30-117 | the marked cells are the cells already marked plus the cells visited |
| CompletedHighlight.ApplyRoutes | logic-completed-highlight.js:30-117 | a cell carries the single (ten) mark exactly when it had one or a single (ten) visit touched it |
| CompletedHighlight.SingleHighlightPass | logic-completed-highlight.js:15-50 | the loop leaves the map with every single visit recorded in order |
| CompletedHighlight.SingleVisitRolls | logic-completed-highlight.js:21 | visit k carries roll number k+1 and never passes `tableRows` |
| CompletedHighlight.SingleStepAgrees | logic-completed-highlight.js:25-49 | without forced rerolls, one highlight step visits the cell of the route's draw (with 'G' for the pity draw) and moves exactly as the route walker |
| CompletedHighlight.SingleHighlightFollowsRoute | logic-completed-highlight.js:21-50 | when the banner has a guarantee flag (or the counter is unset), the single highlight visits exactly the cells of the unforced single route, in order |
| CompletedHighlight.ReplaceColumn | logic-completed-highlight.js:87-105 | `replace(/[AB]/, t)` swaps the column letter of a two-column address |
| CompletedHighlight.TenCycleUnfold | logic-completed-highlight.js:77-123 | a ten-highlight cycle with room left is its first slot followed by the rest |
| CompletedHighlight.TenCycleBounds | logic-completed-highlight.js:77-79 | a cycle never moves back and visits at most ten cells, all ten unless it runs out of rolls or nodes |
| CompletedHighlight.PityPosition | logic-completed-highlight.js:61-65 | the pity position is in -1..9, and set exactly for a counter in 1..10 |
| CompletedHighlight.StartTrackParity | logic-completed-highlight.js:75 | a cycle starts on track A exactly when its first node is odd |
| CompletedHighlight.MarkTenCell | logic-completed-highlight.js:81-122 | one inner pass records the step's cell and moves the cursor as the step does |
| CompletedHighlight.TenCycleProgress | logic-completed-highlight.js:77-123 | recording one cell and then the rest of the cycle equals recording the whole cycle |
| CompletedHighlight.TenCyclePass | logic-completed-highlight.js:77-123 | the inner loop records the cycle's cells and leaves the cursor after them |
| CompletedHighlight.TenCycleHead | logic-completed-highlight.js:60-75 | the head takes one node exactly when the pity position is set and the divisor is positive, and picks the track from the start node |
| CompletedHighlight.RecordTenCycle | logic-completed-highlight.js:60-125 | one outer pass records one cycle |
| CompletedHighlight.TenVisitsProgress | logic-completed-highlight.js:59-126 | one cycle followed by the rest of the cycles equals the whole ten-draw pass, the roll number going up by 10 |
| CompletedHighlight.TenCycleTracks | logic-completed-highlight.js:77-123 | from any position of a cycle, cell k is on roll `tRollNum + j + k` and reads a node of the arena; it lies on the current track before the pity position, and from the pity position on it lies on the opposite track, with suffix 'G' and no reroll flag exactly at the pity position; the first cell reads the cursor node, and the cycle ends on the track of its last cell |
| CompletedHighlight.TenCyclePityTrack | logic-completed-highlight.js:60-123 | in every cycle of the ten pass: the first cell reads the cycle's start node, cell k is on roll `tRollNum + k`, cells before the pity position are on the start track, the pity cell is the node's address moved to the opposite track plus 'G' with no reroll flag, later cells are on the opposite track, and the cycle ends on the opposite track exactly when its pity cell was marked |
| CompletedHighlight.TenHighlightPass | logic-completed-highlight.js:52-126 | the loop leaves the map with every ten visit recorded in order, cycle by cycle as TenCyclePityTrack describes them |
| CompletedHighlight.AppendApply | logic-completed-highlight.js:30-117 | recording two lists of visits one after the other records their concatenation |
| CompletedHighlight.HighlightMap | logic-completed-highlight.js:6-129 | the single pass recorded first, then the ten pass; GenerateHighlightMap computes it, SingleHighlightFollowsRoute and TenCyclePityTrack state which cells the two passes mark |
| CompletedHighlight.GenerateHighlightMap | logic-completed-highlight.js:6-129 | the map is the single pass and then the ten pass over an empty map |
| SearchSimulation.RaisePositive | logic-completed-search.js:11-15 | the `while (next <= 0) next += cycle` loop yields a value of at least 1; a positive input is unchanged, and a raised one is at most the cycle |
| SearchSimulation.RaisedByCycles | logic-completed-search.js:12-15 | the raised value differs from its input by whole cycles |
| SearchSimulation.NextNgLinear | logic-completed-search.js:9-16 | 'none' stays 'none'; otherwise a counter of at least 1: `currentNg - rollCount` when that is positive, else a raised value of at most the cycle |
| SearchSimulation.NextNgLinearByCycles | logic-completed-search.js:10-15 | a set counter lands `rollCount` below where it was, modulo the cycle |
| SearchSimulation.GetNextNgLinear | logic-completed-search.js:9-16 | the loop computes NextNgLinear |
| SearchSimulation.NextNgLinearIsTicks | logic-completed-search.js:9-16 | from a counter in 1..cycle, jumping k rolls at once equals k single ticks |
| SearchSimulation.NextNgLinearZeroCounter | logic-completed-search.js:9-16 | from a counter of 0, the jump of one roll and the single tick disagree (cycle-1 against cycle) |
| SearchSimulation.CatalogRarity | logic-completed-search.js:36-59 | `itemMaster[id]?.rarity or 0`: the catalog rarity of a known item, else 0 |
| SearchSimulation.NodesUsedAtLeastCount | logic-completed-search.js:120-143 | every drawn item moves the cursor at least one node |
| SearchSimulation.SimulateSingleRoll | logic-completed-search.js:21-70 | null exactly for a node out of range; a pity draw exactly when the counter is 1 and the banner has a guarantee flag, yielding the guaranteed item, 2 seeds and the 'G' cell; otherwise a reroll exactly for a Rare with more than one Rare in the pool that matches the last id or is forced, yielding the node's re-drawn item when it has one and the node's item otherwise, taking 3 seeds on a reroll and 2 otherwise; the next last id is the drawn item, and the counter moves by one roll |
| SearchSimulation.SingleRerollChangesItem | logic-completed-search.js:51-53 | a rerolled single draw on a flagged arena yields an item different from the node's own |
| SearchSimulation.TenPosition | logic-completed-search.js:104-145 | one slot fails exactly when its node is out of range; it is guaranteed exactly at the pity index, and the cursor moves by the slot's cost (one node for the pity slot, 3 on a reroll, 2 otherwise) |
| SearchSimulation.TenPositionItem | logic-completed-search.js:104-145 | a slot in range reads the cursor node and yields the item the catalog rates; at the pity index it yields the item in slot `seed1 % max(1, size)` of the head rarity's pool on the node's 'G' cell and is no reroll; elsewhere it rerolls exactly under the search's reroll test against the last id and yields the re-drawn or the node's own item on the node's cell; position 9 is the 'ten-guar' cell |
| SearchSimulation.TenDrawsItems | logic-completed-search.js:101-146 | every draw of a completed run reads the node its predecessors' costs lead to, is compared against the item drawn just before it, and yields what one slot yields there; the run hands on its last item |
| SearchSimulation.TenDrawsShape | logic-completed-search.js:101-146 | a completed run of slots from i yields 10-i items and cells, only the item at the pity index guaranteed, and the cursor moves by their total cost |
| SearchSimulation.SimulateTenRoll | logic-completed-search.js:75-158 | `simulateTenRoll`; TenRollShape, TenRollItems, TenRollDefined and TenRollFirstCell state its result |
| SearchSimulation.TenRollShape | logic-completed-search.js:75-158 | a ten-draw yields exactly 10 items and cells, the one at index `currentNg-1` guaranteed, the counter moved by 10 rolls, and `useSeeds` equal to the cursor advance including the head seed |
| SearchSimulation.TenRollItems | logic-completed-search.js:83-157 | a ten-draw's pity item comes from the pool of the rarity its start node decided, the draws starting one node later exactly when that node was consumed; every other item is the node's item or its re-drawn item against the item drawn just before it; `nextLastId` is the last item drawn |
| SearchSimulation.TenDrawsDefined | logic-completed-search.js:105-124 | with three nodes per remaining slot in range, the slots never hit a missing node |
| SearchSimulation.TenRollDefined | logic-completed-search.js:90-124 | with 31 nodes from the start in range, a ten-draw never returns null |
| SearchSimulation.TenRollFirstCell | logic-completed-search.js:98-141 | the first cell is the node after the head seed when one is consumed, with 'G' when the pity index is 0 |
| SearchSimulation.TenDrawsUnfold | logic-completed-search.js:101-146 | a ten-draw from slot i is slot i followed by the slots after it |
| SearchSimulation.RunTenDraws | logic-completed-search.js:96-146 | the loop computes the slots of the specification |
| SearchSimulation.RunTenRoll | logic-completed-search.js:75-158 | the method computes the ten-draw of the specification |
| CompletedSearch.IndexOf | logic-completed-search.js:244-283 | a Map lookup finds the first state stored under the key, or reports that none is |
| CompletedSearch.GetPut | logic-completed-search.js:246-285 | after `set`, the key reads the new state and every other key reads what it read before |
| CompletedSearch.OfferKeepsBetter | logic-completed-search.js:243-286 | a state replaces the one under its key only when that one scores strictly less; other keys are untouched; the stored score never decreases |
| CompletedSearch.PutShape | logic-completed-search.js:246-285 | `set` adds at most one entry, holds the new state, adds nothing else, and keeps one entry per key |
| CompletedSearch.FirstLower | logic-completed-search.js:209 | the insertion point follows every state scoring at least as much |
| CompletedSearch.InsertDescSorted | logic-completed-search.js:209 | inserting into a descending list keeps it descending |
| CompletedSearch.InsertDescMultiset | logic-completed-search.js:209 | insertion adds exactly the one state |
| CompletedSearch.SortDescPermutation | logic-completed-search.js:209 | the sort yields a descending permutation of the tier |
| CompletedSearch.SortDesc | logic-completed-search.js:209 | sorting keeps the length; SortDescPermutation and SortDescStable state that it is a descending permutation that keeps ties in tier order |
| CompletedSearch.SortDescDistinct | logic-completed-search.js:209 | sorting keeps one state per key |
| CompletedSearch.SortDescStable | logic-completed-search.js:209 | the sort is stable: for every score, the states scoring it appear in the sorted tier in the same order as in the tier, as `Array.prototype.sort` guarantees |
| CompletedSearch.FoldPutDistinct | logic-completed-search.js:210-215 | setting states with distinct keys into a new Map keeps them all, in order |
| CompletedSearch.Prune | logic-completed-search.js:208-217 | the tier itself up to 1000 states, else its first 1000 states by descending score set into a new Map; PruneKeepsBest states what survives |
| CompletedSearch.PruneKeepsBest | logic-completed-search.js:208-217 | pruning keeps at most 1000 states of the tier, one per key, descending, and never drops a state scoring more than one it keeps |
| CompletedSearch.PruneTier | logic-completed-search.js:208-217 | the pruning loop yields the pruned tier |
| CompletedSearch.CountRarity | logic-completed-search.js:258-260 | a ten-draw counts no more Ubers or Legends than it has items |
| CompletedSearch.Run | logic-completed-search.js:206-290 | processing the tiers keeps the number of tiers |
| CompletedSearch.InitialTiers | logic-completed-search.js:187-200 | there are `totalTickets + 1` tiers |
| CompletedSearch.ScanTierBest | logic-completed-search.js:168-176 | the scan returns the first state of strictly maximal score, and null only for an empty tier |
| CompletedSearch.FindBest | logic-completed-search.js:163-180 | the scan of tiers from the highest down; FindBestSpec states what it returns |
| CompletedSearch.FindBestSpec | logic-completed-search.js:163-180 | null exactly when all tiers are empty; otherwise the first top-scoring state of the highest non-empty tier, with no comparison across tiers |
| CompletedSearch.FindBestBeamSearchResult | logic-completed-search.js:163-180 | the two loops compute that choice |
| CompletedSearch.FinalTiers | logic-completed-search.js:187-290 | the search ends with `totalTickets + 1` tiers |
| CompletedSearch.OfferInto | logic-completed-search.js:243-286 | the in-place offer changes tier j only |
| CompletedSearch.ExpandState | logic-completed-search.js:220-289 | expanding one state in place equals the single move followed by the ten move |
| CompletedSearch.ExpandSingleInPlace | logic-completed-search.js:222-249 | a single move is offered to tier t+1 only when `t + 1 <= total` and the draw exists |
| CompletedSearch.ExpandTenInPlace | logic-completed-search.js:252-288 | a ten move is offered to tier t+10 only when `t + 10 <= total` and the ten-draw exists |
| CompletedSearch.ExpandTenBy | logic-completed-search.js:252-288 | the ten move offers the state after the ten-draw to tier t+10, and changes nothing when the draw fails |
| CompletedSearch.ProcessTierInPlace | logic-completed-search.js:207-289 | processing tier t in place prunes it and then expands each of its states |
| CompletedSearch.PruneInPlace | logic-completed-search.js:208-217 | pruning in place changes tier t only |
| CompletedSearch.ExpandTierInPlace | logic-completed-search.js:219-289 | expanding the pruned states in place equals expanding them one after the other |
| CompletedSearch.ProcessAllTiers | logic-completed-search.js:206-290 | the outer loop processes tiers 0..total in order |
| CompletedSearch.RunGachaSearch | logic-completed-search.js:185-292 | the search returns the best answer of its final tiers |
| CompletedSearch.OfferGood | logic-completed-search.js:243-247 | offering a well-formed state keeps a tier well formed: one entry per key, every state having spent j tickets along its path |
| CompletedSearch.SingleNext | logic-completed-search.js:226-242 | the state after a single draw has spent `t + 1` tickets and one more roll, extends the path by one step, gains at most one Uber or Legend and is stored under the key of the draw's next node, last id and counter |
| CompletedSearch.SingleNextGood | logic-completed-search.js:226-242 | a single move from tier t yields a well-formed state of tier t+1: one more ticket, one more roll, counts matching its path |
| CompletedSearch.TenNext | logic-completed-search.js:267-281 | the state after a ten-draw has spent `t + 10` tickets and ten more rolls, extends the path by one step and is stored under the key of the draw's next node, last id and counter |
| CompletedSearch.TenNextGood | logic-completed-search.js:267-281 | a ten move from tier t yields a well-formed state of tier t+10 |
| CompletedSearch.ExpandAllGood | logic-completed-search.js:220-289 | expanding a tier's states keeps every tier well formed and leaves tiers 0..t unchanged |
| CompletedSearch.ProcessTierGood | logic-completed-search.js:207-289 | processing tier t keeps every tier well formed, leaves the tiers below unchanged and leaves tier t pruned |
| CompletedSearch.RunGood | logic-completed-search.js:206-290 | the search keeps every tier well formed throughout |
| CompletedSearch.RunKeepsFirst | logic-completed-search.js:191-217 | after tier 0 is processed, it stays as pruned: the start state stays in it |
| CompletedSearch.InitialTiersGood | logic-completed-search.js:187-200 | the start state, at node 1 with an empty path, makes tier 0 well formed and every other tier empty |
| CompletedSearch.SearchResultSpec | logic-completed-search.js:185-292 | the search never returns null: it returns a state of the highest non-empty tier j, which spent j tickets within the budget, whose counts are those of its path, and which no state of that tier outscores |
| CompletedSearch.FinalTiersGood | logic-completed-search.js:185-290 | every final tier is well formed |
| CompletedSearch.FinalTiersStart | logic-completed-search.js:191-200 | the final tier 0 holds just the start state |
| CompletedSearch.FinalTiersBest | logic-completed-search.js:163-180 | on well-formed tiers with a non-empty tier 0, the chosen state is a best answer |
| CompletedSearch.SearchZeroBudget | logic-completed-search.js:191-291 | with no tickets the search returns the start state, with an empty path |
| CompletedSearch.TenPathCost | logic-completed-search.js:252-280 | a path holding a ten-draw costs at least 10 tickets |
| CompletedSearch.SearchShortBudget | logic-completed-search.js:222-252 | with fewer than 10 tickets, the answer's path holds single draws only |
| UncompletedSim.NormalRollResult | logic-uncompleted-sim.js:13-49 | a normal slot needs both its rarity and slot seeds; the item is the pool entry the slot seed picks (-1 when the pool is empty); a Rare duplicate of the previous item, or any Rare under forced re-roll, is redrawn from the pool without it when a third seed exists and the pool has two or more items, and then the final item is the entry of that pool the third seed picks (`seed % length`), differs from the first pick, lies in the pool and three seeds are spent, otherwise two |
| UncompletedSim.GetFeaturedSeedResults | logic-uncompleted-sim.js:59-90 | the featured pre-scan loop computes exactly the specification scan over the ten slots |
| UncompletedSim.FeaturedLoopShape | logic-uncompleted-sim.js:66-88 | the scan keeps what it already has, records at most ten slots, skips the seed only at guaranteed slots, and gives every other slot the next unread seed in turn (seeds 1, 2, ... in order), testing it against the featured rate; it fills all ten slots when enough seeds remain |
| UncompletedSim.FeaturedSeedResultsShape | logic-uncompleted-sim.js:59-90 | at most ten slots, the seed cursor counts the non-guaranteed slots, each non-guaranteed slot k reads seed number "non-guaranteed slots among 0..k" (so seeds 1, 2, ... in order), each featured flag is the rate test of its own seed, and ten seeds always give ten slots |
| UncompletedSim.CalculateTenPullDetailedLogic | logic-uncompleted-sim.js:95-154 | the ten-pull loop computes exactly the specification ten-pull (results, featured count, seeds consumed, last item, next counter) |
| UncompletedSim.RunPullLoop | logic-uncompleted-sim.js:108-140 | the slot loop equals the recursive pull specification from slot 1 |
| UncompletedSim.PullSlot | logic-uncompleted-sim.js:109-139 | one slot either ends the ten-pull (no featured result or no seeds for a normal roll) or advances the pull state exactly as the next specification step does |
| UncompletedSim.PullLoopShape | logic-uncompleted-sim.js:108-140 | the pull loop extends its results, never consumes past the seeds, and its featured count is the number of guaranteed or featured results |
| UncompletedSim.TenPullDetailed | logic-uncompleted-sim.js:95-154 | `calculateTenPullDetailedLogic`; TenPullShape states its bounds and consumption, CalculateTenPullDetailedLogic that the loop computes it |
| UncompletedSim.TenPullShape | logic-uncompleted-sim.js:95-154 | a ten-pull holds at most ten results, its featured count equals the featured and guaranteed results (at most ten), and normal rolls consume seeds after the featured scan and within the array |
| UncompletedSim.FeaturedHitsBound | logic-uncompleted-sim.js:120-125 | the featured count never exceeds the number of results |
| UncompletedSim.CalculateTenPullsOverCycles | logic-uncompleted-sim.js:163-181 | the cycle loop computes exactly the specification sequence of cycles |
| UncompletedSim.CyclesLoopShape | logic-uncompleted-sim.js:171-179 | cycles are numbered from 1, at most the requested number are produced, each cycle starts from the previous cycle's next counter and last item, and each cycle is the ten-pull of the first 50 seeds left after the seeds the earlier cycles consumed |
| UncompletedSim.TenPullsOverCycles | logic-uncompleted-sim.js:163-181 | `calculateTenPullsOverCycles`; TenPullsOverCyclesChain states how the cycles chain |
| UncompletedSim.TenPullsOverCyclesChain | logic-uncompleted-sim.js:163-181 | the first cycle starts from the caller's counter and last item, cycles are numbered 1..n, each later cycle starts from the counter and last item the previous one ended with, and cycle k is the ten-pull of the first 50 seeds from offset `Offset(rs[..k])`, the sum of the earlier cycles' consumed counts, which stays within the seeds |
| UncompletedSim.StartCounter | logic-uncompleted-sim.js:189 | a positive initial counter is kept; a missing or non-positive one starts at the guarantee cycle |
| UncompletedSim.SingleRollStep | logic-uncompleted-sim.js:193-215 | a guaranteed roll spends no seed and leaves a featured marker, a featured seed spends one, a normal roll spends what the normal slot spends and fails exactly when it does; the counter always ticks |
| UncompletedSim.SingleRollOnce | logic-uncompleted-sim.js:193-215 | one single roll computes exactly the specification step |
| UncompletedSim.SimulateSingleRollsAndGetState | logic-uncompleted-sim.js:186-218 | the single-roll loop computes exactly the specification state after n rolls |
| UncompletedSim.SinglesLoopShape | logic-uncompleted-sim.js:192-216 | the seed position only moves forward within the array and the counter has ticked at most n times |
| UncompletedSim.UnsetCounterStillPities | logic-uncompleted-sim.js:189-215 | with no initial counter the simulation starts at the cycle length and reaches a guaranteed roll after cycle-1 ticks |
| UncompletedSim.CycleStartReachesPity | logic-uncompleted-sim.js:214-215 | a counter at the cycle length reaches 1 after cycle-1 ticks |
| UncompletedSim.SingleRollsStateInRange | logic-uncompleted-sim.js:186-218 | the next seed index lies within the seed array |
| UncompletedSim.SingleRollsState | logic-uncompleted-sim.js:186-218 | `simulateSingleRollsAndGetState`; SingleRollsStateInRange and SingleRollsStateShape state its bounds |
| UncompletedSim.SingleRollsStateShape | logic-uncompleted-sim.js:186-218 | with an initial counter no larger than the cycle, the next counter lies in 1..cycle and the seed index within the array |
| UncompletedSim.ExpectedAfter | logic-uncompleted-sim.js:227-232 | the expected count is at most ten, and is zero when fewer than ten seeds remain after the single rolls |
| UncompletedSim.CalculateExpectedFeaturedCounts | logic-uncompleted-sim.js:223-235 | the loop over roll counts computes exactly the specification map |
| UncompletedSim.ExpectedLoop | logic-uncompleted-sim.js:225-233 | the loop of `calculateExpectedFeaturedCounts` from position k; ExpectedLoopKeys states its keys and values |
| UncompletedSim.ExpectedLoopKeys | logic-uncompleted-sim.js:225-233 | the map gains exactly the non-negative roll counts and each value is the featured count of the ten-pull after that many singles |
| UncompletedSim.ExpectedCountsSpec | logic-uncompleted-sim.js:223-235 | the keys are exactly the non-negative requested roll counts, negative ones are skipped, and each value is the ten-pull featured count after that many singles, at most ten |
| Uncompleted.ReRoll | logic-uncompleted.js:67-74 | a Rare node whose rarity pool has two or more items re-draws with its fourth seed from the pool without its first pick; the re-roll item then differs from the first pick and lies in the pool, and every other node has no re-roll item (-1) |
| Uncompleted.ReRollAsWrittenThrows | logic-uncompleted.js:70 | as written, any Rare node with a second distinct item in its pool reaches the undefined name and throws, while the corrected re-roll succeeds there |
| Uncompleted.ReRollAsWrittenAgreesElsewhere | logic-uncompleted.js:67-74 | wherever the code as written does not throw, it yields the corrected re-roll |
| Uncompleted.RareNodeThrows | logic-uncompleted.js:56-70 | on any banner whose pool holds two different items the catalog rates Rare, a Rare node throws as written whichever of the banner's Rares it drew |
| Uncompleted.Banner45RareNodeThrows | logic-uncompleted.js:56-70 | with banner 45 and its shipped catalog, a Rare node drawing item 0 throws as written |
| Uncompleted.MakeUNode | logic-uncompleted.js:25-110 | node i is at address i, is featured by its first seed, takes its rarity from the second seed and its item from the third seed (-1 for an empty pool), links to the addresses 1, 3 and 4 ahead, has a re-roll item different from its item, and is a duplicate exactly when it is Rare and either matches the caller's last item within the first three nodes or forced re-roll is on |
| Uncompleted.NodeCount | logic-uncompleted.js:11-17 | the node count leaves every node's four seeds inside the generated seed list |
| Uncompleted.InitialUNodes | logic-uncompleted.js:24-113 | the node table holds one node per index up to the node count |
| Uncompleted.BuildNode | logic-uncompleted.js:25-111 | the loop body builds exactly the specification node, comparing against earlier nodes that carry no route marks yet |
| Uncompleted.BuildCompareId | logic-uncompleted.js:80-97 | the three-back comparison while the table is built: the caller's last item within the first three nodes (-1 when there is none or it is item 0, which `|| -1` reads as none), and -1 beyond them |
| Uncompleted.BuildCompareIds | logic-uncompleted.js:77-97 | while the table is built no earlier node has a seed count, so the three-back comparison is the caller's last item within the first three nodes and the four-back comparison is always -1 |
| Uncompleted.BuildNodes | logic-uncompleted.js:24-113 | the node loop builds exactly the specification table |
| Uncompleted.RouteStep | logic-uncompleted.js:128-181 | a guaranteed roll stays on its node, a featured node moves one ahead and spends one free-featured credit when one is left, a normal node moves 3 ahead or 4 when re-rolled; it re-rolls exactly when it is Rare with pool size above one and matches the last actual item or forced re-roll is on; the path records the roll at the node, the counter ticks, and the node's own data stays unchanged |
| Uncompleted.RouteFrom | logic-uncompleted.js:123-182 | the route walk keeps the number of nodes |
| Uncompleted.StartRoute | logic-uncompleted.js:116-121 | the route starts at node 1 on roll 1 with an empty path, the caller's free-featured credit, the counter read from 'ng' (-1 when it is not a number) and the caller's last item (-1 when there is none or it is item 0) |
| Uncompleted.WalkSingleRoute | logic-uncompleted.js:116-182 | the in-place route loop leaves the node array and the route path exactly as the specification walk gives them |
| Uncompleted.MarkSingleRoll | logic-uncompleted.js:125-181 | one roll changes only the current node, as one specification step does, and advances the walk state the same way |
| Uncompleted.RouteFrame | logic-uncompleted.js:123-182 | the walk never changes a node's drawn data, and nodes behind the starting position are left untouched |
| Uncompleted.RoutePathBounds | logic-uncompleted.js:123-182 | the route path only grows, its keys are node indices and its values are roll numbers within the table rows |
| Uncompleted.RouteFsBounds | logic-uncompleted.js:148-151 | the free-featured credit never goes negative nor grows, and a spent credit is marked on a featured node |
| Uncompleted.NextNg | logic-uncompleted.js:173-176 | with a guarantee the counter ticks as LogicCommon.TickCounter does, staying in 1..cycle when it starts there; without one it stays as it is |
| Uncompleted.RouteNgInRange | logic-uncompleted.js:173-176 | with a guarantee counter in 1..cycle the walk keeps it in that range |
| Uncompleted.HighlightStep | logic-uncompleted.js:192-223 | the step marks the current node's address as on the single route with its roll number (suffixed g when guaranteed), keeps every other entry, and moves the cursor 0, 1, 4 or 3 ahead as the route did |
| Uncompleted.HighlightFrom | logic-uncompleted.js:185-224 | the highlight pass keeps every entry it was given, keeps a single-route mark set, and marks every entry it adds as on the single route |
| Uncompleted.GenerateHighlight | logic-uncompleted.js:185-224 | the highlight loop computes exactly the specification highlight map |
| Uncompleted.HighlightRoll | logic-uncompleted.js:189-223 | one highlight roll is exactly one specification step |
| Uncompleted.HighlightTracksRoute | logic-uncompleted.js:116-224 | the highlight pass marks exactly the addresses of the nodes on the single route |
| Uncompleted.RouteUnfoldStep | logic-uncompleted.js:123-182 | a walk from a node equals one step followed by the walk from the next node |
| Uncompleted.BuildAndWalk | logic-uncompleted.js:16-182 | building the table and walking the route gives exactly the specification marked nodes and path |
| Uncompleted.Summaries | logic-uncompleted.js:226-228 | the cycle data is ten cycles of ten-pulls and the expected counts cover roll counts 0 to 10 |
| Uncompleted.CalculateUncompletedData | logic-uncompleted.js:9-231 | the whole computation yields exactly the specification data for the seed, banner, rows and parameters |
| Uncompleted.InitialFs | logic-uncompleted.js:21 | `parseInt(fs) || 0`: the parsed credit, 0 when absent or not a number |
| Uncompleted.DataOfFrom | logic-uncompleted.js:11-21 | the generated seed list is long enough for the node count, and the data is assembled from it |
| Uncompleted.AssembleData | logic-uncompleted.js:16-230 | the assembled data matches the specification from a given seed list |
| Uncompleted.UncompletedDataShape | logic-uncompleted.js:9-231 | the table holds the node count's nodes with their built draw data, the highlight map covers exactly the route's addresses, and the route path maps node indices to roll numbers within the rows |

## Left out

- HTML and text output: the route text blocks of the completed walkers, the log strings, labels and `guaranteedStatus` of the ten-pull simulation, `rarityRateRangeDisplay` and `dupeCompareTargets` of uncompleted nodes, and the item names stored beside item ids (names are looked up by `LogicCommon.ItemNameSafe`; the model keeps the ids).
- The `transition.nextAddress`, `nextIndex` and `nextSeed` fields of a ten-pull: they are display values derived from `consumedCount`.
- `main.js` beyond the threshold prefix sums, the `view-*.js` files and `logic-completed-popup.js`: DOM construction, event wiring, URL and history state, clipboard and colours.
- `data-loader.js` and `update_master.js`: file and network I/O and evaluation of source text. `master.js` appears only as the fixture banner '45' and the shipped item catalog, with the names as master.js spells them.
- `utils.js` `generateUrlQuery`, `generateItemLink` and `generateMasterInfoHtml`: URL and HTML building.
- Global `window` state is not modelled as globals: forced reroll, the active banner and the catalog are parameters.
- The string keys of the search tiers (`nodeIdx_lastId_currentNg`) are the structured `CompletedSearch.Key`. A missing last item or counter is one `None`, so the distinct strings `null` and `undefined` (or `none` and `NaN`) are not told apart.
- JavaScript's stable `Array.prototype.sort` in the tier pruning is modelled by an insertion sort (`CompletedSearch.SortDesc`), proved stable by `CompletedSearch.SortDescStable`, so it orders ties the same way.
- Utils.SetupGachaRarityItems: every `Banner` carries a `pool`, so the `if (gacha && gacha.pool)` skip of a banner without a pool (utils.js:38-39), which the source leaves untouched, cannot arise in the model.
- `parseInt` of URL parameters: the counter and free-featured stock arrive already parsed, with `None` for 'none' or a value that is not a number.
- Uncompleted.HighlightTracksRoute: states which addresses the highlight pass marks, not every field of each mark; the fields are fixed by `Uncompleted.GenerateHighlight` being equal to the specification function.
- Uncompleted.UncompletedDataShape: relates the node table to the built nodes through their drawn data only; the route fields each node gets are described by `Uncompleted.RouteStep`.

## Findings

| source | as written | input that shows it | evidently intended | confidence | as-written member | corrected member |
|---|---|---|---|---|---|---|
| logic-uncompleted.js:70 | the re-roll slot is `s4 % rePool.length`, and no `rePool` is defined, so every Rare node whose rarity pool holds two or more distinct items throws a ReferenceError and the uncompleted table cannot be built | banner '45' with the shipped catalog, a node whose rarity seed gives Rare and whose item is id 0 (`Uncompleted.Banner45RareNodeThrows`) | `s4 % reRollPool.length`, the filtered pool declared two lines above | not executed | Uncompleted.ReRollAsWrittenThrows | Uncompleted.ReRoll |
