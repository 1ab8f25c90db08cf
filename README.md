# yen-visualizer: a verified model of the bookkeeping in `app.js`

yen-visualizer turns a yen amount into a pile of falling bills and coins. A
three.js scene draws the pile and a cannon-es world simulates it. This project
models the logic around that scene, not the scene itself:

- **Amount planner** (`Planner`, `FisherYates`, `Denominations`).
  - `parseAmount` splits `floor(raw)` greedily over the nine-denomination table.
  - It bundles pieces so that the queue stays near `MAX_VISUAL_ITEMS` (480) entries.
  - It emits one queue entry per bundle.
  - It shuffles the bills and the coins separately, in place, with Fisher–Yates, and puts the bills first.
  - The method `ParseAmount` follows the source's loops and swaps. It is proved equal to the function `PlanOf`, and the properties are proved about `PlanOf`.
- **Piece registry** (`Pieces`, `Scene.Visualizer`).
  - The `cashObjects` list and the `cashByMeshId` map are fields of the class `Visualizer`.
  - `spawnCash`, `removeCashObject` and `clearAll` update them in place and keep the invariant `Registry()`.
    - The list and the map hold the same pieces.
    - Each piece is held under its own mesh id.
    - No piece or body appears twice.
- **Exchange** (`Exchange`, `Scene.Visualizer.ExchangeCashObject`).
  - A piece breaks into `value / next` pieces of the next-smaller denomination, each standing for an equal share.
  - It is refused with no change when a guard fails.
  - The yen on the table are conserved.
- **Frame scheduler and settle detector** (`Scheduler`, `Scene.Visualizer.Tick`).
  - `Scheduler` is the spawn and settle bookkeeping of `tick`, as functions over a `Schedule` record.
  - Lemmas about runs of many frames cover:
    - FIFO order;
    - at most one spawn per frame;
    - draining of the queue;
    - the end of the run;
    - that no frame restarts a stopped run.
  - `Tick` is the imperative version over the class state.
- **Drag controller** (`Scene.DragState`, the pointer handlers, `Arena`).
  - A grab saves the body's mass and makes the body kinematic and massless.
  - A move pins the body at the drag height, clamped into the drag area.
  - A release restores the body to dynamic with its spawn mass and resets every drag field.
  - `Visualizer.Valid()` states this as an invariant, and every handler keeps it. The held body is kinematic with mass 0, and every other registered body is dynamic with its spawn mass.

Two facts about `app.js` that shape the model:

- `world.step` (at most 6 substeps, app.js:26, app.js:1046) is not modelled. `Tick` reads the bodies as they stand when it checks whether the pile is settled.
- The bundle size keeps the queue near 480 entries, not under it. `PlanQueueLength` proves fewer than 480 + 9 entries. `BundleCapOverrun` shows that 9,409,999 yen gives 482 entries: the rows 940, 1, 4, 1, 4, 1, 4, 1, 4, bundled in twos, round up to 470 + 12.

Inputs the source gets from the outside world are parameters of the model:

- `Math.random()` is a stream `rng: nat -> Unit` of reals in [0, 1), indexed by draw.
- The ray-cast hit under the pointer is an input.
- The pointer ray's point on the drag plane is an input.
- Launch positions and velocities of spawned pieces are inputs.
- Whether the assets loaded is an input.

## Model

| member | source | states |
|---|---|---|
| Denominations.SpawnMass | app.js:541-542 | the mass a new body gets is positive (0.026 for a bill, 0.012 for a coin, app.js:572) |
| Denominations.ExchangeTarget | app.js:121-130 | a target exists exactly for the values in the exchange map; it is smaller than its source, divides it exactly and is itself a table denomination |
| Denominations.FindByValue | app.js:120 | a found denomination is in the list with the asked value; none is found only when no entry has that value |
| Denominations.DenominationByValue | app.js:120 | the lookup by value finds a table entry with that value, or there is none |
| Denominations.TableDescending | app.js:30-118 | the table is strictly descending, so its values are distinct, and the last entry is 1 yen |
| Denominations.ExchangeSourcesAreDenominations | app.js:120-130 | every source value of the exchange map is a table denomination |
| Denominations.ExchangeTargetsAreDenominations | app.js:120-130 | every target value of the exchange map is a table denomination |
| Denominations.ExchangeTableDivides | app.js:121-130 | every exchange target is smaller than its source and divides it exactly |
| Denominations.OnlyOneYenLacksTarget | app.js:121-130 | among the table denominations, only 1 yen has no exchange target |
| FisherYates.RandomIndex | app.js:786 | `Math.floor(Math.random() * (i + 1))` is a position no later than `i` |
| FisherYates.SwapPermutes | app.js:787-789 | a swap keeps the length and the multiset of elements |
| FisherYates.ShuffledPermutes | app.js:785-796 | the whole shuffle is a permutation of its input |
| FisherYates.ShuffledMembers | app.js:785-796 | every element of the shuffled sequence comes from the input |
| FisherYates.ShuffleInPlace | app.js:785-790 | the in-place loop leaves the array holding the specified shuffle, a permutation of the old contents, and uses length − 1 draws |
| FisherYates.SwapInPlace | app.js:787-789 | the three assignments swap exactly positions i and j |
| Planner.CeilDivBounds | app.js:759 | ceil(a / b) groups of b cover a with less than one group to spare; it is zero only for a = 0 |
| Planner.TablePositive | app.js:30-118 | every denomination value is positive, so the greedy divisions are defined |
| Planner.GreedyAccounts | app.js:753-758 | the rows' value plus what the greedy loop leaves over is the amount, with one row per denomination |
| Planner.GreedyExhausts | app.js:753-758 | over a table ending in 1 yen the greedy loop leaves nothing over |
| Planner.GreedyRows | app.js:753-756 | row i of the split is for denomination i of the table |
| Planner.BillsCoinsPartition | app.js:774-778 | sorting entries into the bill and coin queues loses and invents nothing |
| Planner.BillsCoinsKinds | app.js:774-778 | the bill queue holds only bills and the coin queue only coins |
| Planner.EmittedLength | app.js:765-781 | the emission produces ceil(count / bundleSize) entries per row |
| Planner.EmittedSum | app.js:765-781 | the emitted entries are worth ceil(count / bundle) × value × bundle per row |
| Planner.EmittedEntries | app.js:770-773 | every emitted entry is a table denomination standing for value × bundleSize |
| Planner.BundledCovers | app.js:760-781 | bundling rounds each row up, so the emitted value is at least the rows' value, and equal when the bundle size is 1 |
| Planner.VisualCountBound | app.js:767 | each row adds less than one entry beyond its share: entries × bundle ≤ pieces + rows × (bundle − 1) |
| Planner.VisualCountZero | app.js:764-767 | no entry is emitted exactly when the rows hold no piece |
| Planner.CountedValueZero | app.js:753-757 | rows of positive denominations are worth nothing exactly when they hold no piece |
| Planner.ShuffledQueuePermutes | app.js:785-798 | the bill shuffle followed by the coin shuffle is a permutation of the emitted entries |
| Planner.ShuffledQueueBillsFirst | app.js:785-798 | in the final queue, position i holds a bill exactly when i is below the number of bills |
| Planner.SplitGreedy | app.js:748-758 | the greedy loop over `remaining` produces the specified rows and their piece total |
| Planner.EmitRow | app.js:767-780 | the inner emission loop appends the row's entries to the queue of their kind and adds their value |
| Planner.EmitEntries | app.js:761-782 | the emission loop builds the bill queue, the coin queue and the represented amount of the specified emission, skipping empty rows |
| Planner.ShuffleArray | app.js:785-790 | a queue shuffled in place in an array is the specified shuffle, and the next draw follows its draws |
| Planner.ShuffleQueues | app.js:784-798 | bills are shuffled with the first draws, coins with the draws after them, and the queues are concatenated bills first |
| Planner.SplitAmount | app.js:748-759 | the rows are the greedy split of the amount, and the bundle size is max(1, ceil(totalItems / 480)) |
| Planner.BuildQueue | app.js:761-798 | the item queue is the shuffled emission, and the represented amount is the emitted value |
| Planner.PlanAmount | app.js:747-806 | past the input guard, parseAmount returns the specified plan for floor(raw) |
| Planner.ParseAmount | app.js:737-807 | parseAmount returns exactly PlanOf(raw, rng), refusals included |
| Planner.PlanRejects | app.js:738-746 | non-finite or non-positive input plans an empty queue with bundle size 1, amount 0 and represented amount 0 |
| Planner.PlanCountsExact | app.js:748-758 | for accepted input there is one row per table entry, and the rows are worth exactly floor(raw) |
| Planner.PlanQueueOrder | app.js:784-798 | the queue is a permutation of the emitted entries in which every bill precedes every coin |
| Planner.BundleOfSmallPile | app.js:759 | up to 480 pieces the bundle size is 1 |
| Planner.PlanRepresented | app.js:760-781 | the represented amount is the sum of the queue, at least floor(raw), and exactly floor(raw) when there are at most 480 pieces |
| Planner.PlanEntriesBundled | app.js:770-773 | every queued entry is a table denomination whose represented value is a positive multiple of its value |
| Planner.PlanQueueLength | app.js:759-768 | the queue has one entry per bundle, and fewer than 480 + 9 entries |
| Planner.PlanEmptyExactly | app.js:737-807 | the queue is empty exactly when the amount floors to 0, that is the input is refused or below 1 yen |
| Planner.BundleCapOverrun | app.js:759-768 | 9,409,999 yen gives 960 pieces, bundle size 2 and 482 entries, more than MAX_VISUAL_ITEMS |
| Arena.RealMax | app.js:947 | `Math.max` of two numbers is at least both and is one of them |
| Arena.Clamp | app.js:604-605 | `MathUtils.clamp` returns a value in [lo, hi], leaves values inside unchanged, and gives lo when the range is empty |
| Arena.ClampNearest | app.js:604-605 | no point of [lo, hi] is closer to v than its clamp |
| Arena.ClampToBounds | app.js:601-608 | clampToBounds puts both coordinates inside the area shrunk by the margin and leaves inside points alone |
| Arena.ClampToBoundsIdempotent | app.js:601-608 | clamping a clamped point changes nothing |
| Exchange.ExchangeOf | app.js:673-694 | a successful exchange has at least two pieces, whose shares add up to the represented value exactly, of a table denomination that is the exchange target |
| Exchange.OneYenRefused | app.js:675-678 | the 1-yen coin is never exchanged |
| Exchange.ExchangeSucceedsIff | app.js:673-694 | a mapped denomination is exchanged exactly when its represented value shares evenly among value / next pieces, and then into that many pieces |
| Exchange.ExchangeKeepsMultiples | app.js:673-694 | a piece standing for a multiple of its value is always exchangeable when it has a target, and each new piece again stands for a multiple of its own value |
| Scheduler.FrameDelta | app.js:1037 | the frame delta is the clock delta capped at 0.05 s |
| Scheduler.SpawnStep | app.js:1038-1044 | an entry is dequeued exactly when running with a non-empty queue and the accumulator reaching 0.04 s; it is the head, and the accumulator resets; otherwise the accumulator grows by delta |
| Scheduler.SettleStep | app.js:1049-1057 | only a running schedule with an empty queue changes; an unsettled pile resets the settle accumulator and keeps the run going; a settled frame adds delta, and the run ends exactly when the accumulator then exceeds 0.75 s |
| Scheduler.RunFifo | app.js:1040-1043 | over any run of frames, the spawned entries followed by the remaining queue are the starting queue |
| Scheduler.RunAtMostOnePerFrame | app.js:1040-1044 | a run spawns at most one entry per frame |
| Scheduler.RunStopped | app.js:1049-1057 | once the run has ended, tick never restarts it, spawns nothing and leaves the queue and the settle accumulator alone |
| Scheduler.RunEndsDrained | app.js:1049-1057 | a run only ends with the queue drained |
| Scheduler.RunDrains | app.js:1036-1044 | with frames of at least 0.04 s, as many frames as queued entries spawn the whole queue in order |
| Scheduler.RunSettles | app.js:1049-1057 | with the queue empty and the pile settled, the run ends once the frames add up to more than 0.75 s |
| Pieces.Body.constructor | app.js:640-653 | a new body is dynamic, awake, with the given mass, position and velocities |
| Pieces.Body.Release | app.js:905-911 | release makes the body dynamic with the given mass, drops it gently and wakes it, keeping its position |
| Pieces.Body.Hold | app.js:952-956 | hold makes the body kinematic, massless and stopped, keeping its position |
| Pieces.Body.Pin | app.js:895-897 | pin places and stops the body and keeps its type, mass and sleep state |
| Pieces.Piece.constructor | app.js:655-656 | a piece records its mesh id, denomination, represented value and body |
| Pieces.RegistryTotalAppend | app.js:655-660 | appending a piece adds its represented value to the yen on the table |
| Pieces.RegistryTotalShares | app.js:698-720 | appending n pieces that all stand for one entry adds n times its value |
| Pieces.IndexOf | app.js:664 | `indexOf` gives the first position of the piece, or −1 exactly when it is absent |
| Pieces.Without | app.js:664-667 | splicing out an absent piece changes nothing; for a present piece exactly its first occurrence is removed and the others keep their order |
| Pieces.RegistryAppend | app.js:658-659 | pushing a piece with a new mesh id and a new body onto the list and the map keeps the registry invariant |
| Pieces.WithoutDistinct | app.js:664-667 | removing a piece keeps every other piece and the absence of duplicates |
| Pieces.RegistryRemove | app.js:663-668 | removing a piece from the list and its id from the map keeps the registry invariant |
| Pieces.WithoutLast | app.js:841-843 | removing the last piece of the list drops the last element |
| Pieces.WithoutTotal | app.js:663-667 | removing a present piece removes its represented value from the table |
| Scene.NewPiece | app.js:610-653 | a new piece gets a fresh dynamic body with its spawn mass, at the launch point clamped into the spawn area, with the launch velocities |
| Scene.DragState.constructor | app.js:135-143 | the drag record starts reset |
| Scene.DragState.Reset | app.js:917-923 | finishDragging resets every drag field |
| Scene.DragState.Grab | app.js:943-950 | a grab records the pointer, the piece, the drag height, the grab offset and the saved mass |
| Scene.Visualizer.constructor | app.js:132-148 | at page load nothing is on the table or queued, the run is stopped and the assets are not ready |
| Scene.Visualizer.AssetsLoaded | app.js:1067-1079 | the drop is enabled exactly when the textures loaded; nothing else changes |
| Scene.Visualizer.SpawnCash | app.js:610-661 | the new piece is appended to the list and mapped under its fresh mesh id; it has the entry's denomination and value, a dynamic body with its spawn mass at a point inside the spawn area; the table gains its value and the invariant holds |
| Scene.Visualizer.RemoveCashObject | app.js:663-671 | the piece leaves the list, if present, and its id leaves the map; every other piece stays; the invariant holds |
| Scene.Visualizer.Pick | app.js:856-871 | with pieces on the table, a hit on a registered mesh id picks exactly the piece registered under it; nothing is picked from an empty table, without a hit, or for an unregistered id |
| Scene.Visualizer.ExchangeCashObject | app.js:673-723 | the call succeeds exactly when ExchangeOf allows it; a refusal changes nothing; success removes the target and appends pieceCount fresh pieces of the next denomination, each with an equal share, keeping the yen on the table |
| Scene.Visualizer.SpawnShares | app.js:698-720 | the old list stays as the prefix, followed by count fresh pieces that stand for the entry and are numbered from the next mesh id; the table gains count × value |
| Scene.Visualizer.SpawnEach | app.js:698-720 | one spawnCash per share, in order: the list grows by exactly the count new pieces, each fresh and standing for the entry, with consecutive mesh ids; the invariant holds |
| Scene.Visualizer.IsPileSettled | app.js:1002-1014 | the loop reports that every body is settled, an empty pile included |
| Scene.Visualizer.Tick | app.js:1036-1059 | the schedule advances as Scheduler.Frame says; a spawned entry becomes the new last piece; the yen on the table plus the yen queued stay the same |
| Scene.Visualizer.Dequeue | app.js:1042 | `shift` removes the head and returns it; the rest of the queue keeps its order and loses exactly the head's value; nothing else changes |
| Scene.Visualizer.SpawnHalf | app.js:1037-1044 | the spawn half follows SpawnStep; the dequeued head becomes the new last piece with its denomination and value |
| Scene.Visualizer.SettleHalf | app.js:1049-1057 | the settle half follows SettleStep with isPileSettled over the current pieces, and leaves the registry alone |
| Scene.Visualizer.UpdateDraggedBodyPosition | app.js:881-898 | the held body is pinned at the drag height, above the ray point less the grab offset clamped into the drag area, and stopped; with no drag or no ray point nothing changes |
| Scene.Visualizer.FinishDragging | app.js:900-925 | the held body becomes dynamic again with its saved mass, which is its spawn mass, and every drag field is reset; without a drag nothing changes |
| Scene.Visualizer.PointerDown | app.js:927-960 | pointer-down is ignored for a non-primary button, before the assets are ready, while dragging or off a piece; otherwise the drag records the piece, pointer, height ≥ 0.06, offset and mass; the body becomes kinematic with mass 0, awake and stopped, and is lifted to the drag height over the clamped ray point, or stays put without one |
| Scene.Visualizer.PointerMove | app.js:962-968 | only the dragging pointer with a ray point moves the held body, to the clamped point at the drag height, stopped, with its type, mass and sleep state kept; otherwise no body changes |
| Scene.Visualizer.PointerUp | app.js:970-976 | only the dragging pointer ends the drag: the record is reset and the body becomes dynamic with its saved spawn mass, dropping at (0, −0.04, 0) with no spin, awake, where it was |
| Scene.Visualizer.ContextMenu | app.js:978-990 | with assets ready and no drag, the picked piece is exchanged exactly when ExchangeOf allows it; otherwise the registry is untouched; the yen on the table are unchanged either way |
| Scene.Visualizer.ClearAll | app.js:837-848 | clearAll ends any drag and leaves the list, the map and the queue empty with the run stopped and the settle accumulator 0 |
| Scene.Visualizer.RemoveAll | app.js:841-843 | removing every piece from the last to the first empties the list and keeps the invariant |
| Scene.Visualizer.StartRun | app.js:830-832 | the run starts with both accumulators at 0 |
| Scene.Visualizer.EnqueueAll | app.js:825-828 | the copy loop appends the entries to the queue in order |
| Scene.Visualizer.QueueFromAmount | app.js:809-835 | before the assets are ready, or for an empty plan, nothing changes; otherwise the table is cleared and the plan's queue, worth its represented amount, starts a fresh run |

## Left out

- Rendering: the three.js scene, meshes, geometries, materials, the bending loop, shadows and resizing. These are drawing through a foreign library.
- Physics: the cannon-es world, its contact materials and walls, `world.step` (6 substeps), damping and `updateMassProperties`. These are a floating-point engine. `Tick` reads the bodies as they stand when it checks whether the pile is settled.
- Sleep transitions are not modelled. Only waking a body (`wakeUp`) is.
- Orientations and quaternions are not modelled.
- `syncMeshesFromPhysics` copies transforms into the renderer and is not modelled.
- Assets: preloading textures, `analyzeOpaqueBounds`, `applyTextureCrop`. `initAssets` is reduced to `AssetsLoaded(success)`.
- Ray casting, picking, pointer coordinates and `getDragPlanePoint`. The hit and the ray's point on the drag plane are inputs.
- DOM effects are not modelled:
  - pointer capture;
  - the cursor style;
  - `preventDefault`;
  - `reportValidity`;
  - the drop button.
- `randomDropTarget` and the random drift, heights, angles and velocities of `spawnCash` and `exchangeCashObject` are left out. The resulting launch is an input, `Launch`, and the exchange's trigonometric scatter is the input `scatter`.
- `Number(amountInput.value)` is not modelled. The parsed number is the input, a finite real or a non-finite value.
- Doubles: all numbers are exact reals or naturals. Rounding of the accumulators and of the clamp is not modelled. The planner's arithmetic is exact, while `parseAmount` runs on doubles, which hold every integer only up to 2^53. Amounts above about 9×10^15 yen are therefore not described by PlanCountsExact, PlanRepresented or the other planner lemmas: for 1e20 yen the sum `representedAmount` (app.js:780) cannot be the exact value those lemmas give.
- The `representedValue ?? value` fallbacks (app.js:612, app.js:690) are not modelled. Every queue entry and every piece carries a represented value, as every caller in app.js supplies one.
- Denominations.SpawnMass: the contract states only that the mass is positive. The two constants are in the body.
- Scene.Visualizer.ExchangeCashObject: the contract does not state where the new pieces are launched. That comes from the input `scatter`.
- Scene.Visualizer.Tick: the contract does not state the spawned piece's position and velocities. `SpawnCash` states them for the launch it is given.
- Scene.Visualizer.ContextMenu: the contract states which piece is exchanged and what that conserves. What `ExchangeCashObject` appends is stated there.
- Object identity: three.js mesh ids are modelled as a counter, `nextMeshId`, that only grows. That the pieces spawned by an exchange are new objects is stated with `fresh`.
