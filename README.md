# Parking layout post-processing and repair, in Dafny

This project models the deterministic core of a generator of 2-D underground
parking layouts. A layout is a canvas (width, height) and an ordered list of
axis-aligned elements. Each element has an id, a type tag, a position, a size
and optional rotation, label and sub-type. The core has two parts.

- **The scene's post-process passes** (`utils/sceneRegistry.ts`). Each is a
  layout-to-layout transform:
  - `fillParkingAutomatically` tiles parking spaces along the edges where a
    road meets a ground region, avoiding obstacles;
  - `generateChargingStations` puts a station on every third space in row
    order, on the edge away from the roads;
  - `cleanIntersections` drops lane lines, spaces, speed bumps and signs whose
    centre lies in a large crossing of two roads;
  - `cleanupPillars` drops pillars on roads or inside spaces;
  - `resolvePriorityConflicts` drops speed bumps that overlap a sidewalk;
  - `orientGuidanceSigns` turns every guidance sign toward the nearest exit.

  The parking scene runs them in a fixed list of eight calls.
- **The repair bookkeeping** (`services/geminiService.ts`):
  - `mapToInternalLayout` gives a model's raw answer its defaults;
  - `postProcessLayout` rounds coordinates;
  - `calculateScore` weighs validation findings;
  - `mergeLayoutElements` folds a correction into the current elements by id;
  - `runIterativeFix` is the bounded validate, score, correct, merge loop
    with its stagnation guard;
  - a fold applies a scene's pass list.

The code that works by mutation is modelled by methods. These are the spot
tiling, the station placement, the crossing sweep, the id-keyed merge, the
repair loop and the pass fold. Each method is proved equal to a
specification function, and the properties are proved as lemmas about that
function. The filters and maps are functions.

Modules, one per file:

- `LayoutTypes` (types.ts)
- `Seqs` (filter lemmas)
- `Decimal` (number-to-text for generated ids)
- `Geometry`
- `AutoFill`, `Charging`, `Intersections`, `Pruning`, `SignOrientation`:
  the passes
- `SceneRegistry`: the pass list and its composition
- `ElementMerge`, `Scoring`, `GeminiService`: the repair side

Modelling choices:

- Coordinates are `real`.
- `Math.round(x)` is `Floor(x + 1/2)`.
- The Euclidean distance comparison in the station placement compares squared
  distances. This gives the same order.
- An optional JavaScript property is a `Prop` (missing, present but
  `undefined`, or defined). The object spread `{...a, ...b}` then behaves
  exactly: a key present in `b` wins even when its value is `undefined`.
- The element's `label` is the field `caption`, because `label` is a Dafny
  keyword. A missing `type` is the empty string.
- Random id suffixes are supplied by a token function.
- `getIntersectionBox` is assumed to be the common rectangle when it has
  positive width and height, and none otherwise.
- The insertion-ordered `Map` of the merge, whose every entry carries its
  key as its id, is the list of its values in insertion order. Its keys are
  the ids of that list.
- The validator is a function parameter from layout to findings.
- The model corrector is a function parameter. It receives the pass, the
  simplified layout and the findings, and answers a raw layout or `None`.
  `None` stands for any exception inside the `try`.
- The `onLog` messages are returned as a list of `LogEvent`s.

Two behaviours of the code are worth naming:

- The speed-bump conflict test (`utils/sceneRegistry.ts:207`) is width > 2
  OR height > 2 of the crossing box, not an area threshold.
- On stagnation the repair loop returns the current layout. That is the last
  merged one, even when it scored worse than an earlier one, not the best
  seen (`GeminiService.RunIterativeFixStagnationKeepsLast`).

## Model

| member | source | states |
|---|---|---|
| AutoFill.FillParkingAutomatically | utils/sceneRegistry.ts:7-96 | The nested road × ground × slot loops, with the growing `genSpots` and counter `t`, compute exactly `FillParking`: the input followed by the generated spots. |
| AutoFill.FillParkingAppendsSafeSpots | utils/sceneRegistry.ts:7-96 | Every input element is returned unchanged and in order, and the canvas is kept. Only parking spaces with rotation 0 are appended, 24×48 under `p_auto_k` or 48×24 under `p_auto_v_k`, with pairwise distinct ids. Each, eroded by 1, is clear of every obstacle-typed input element and of every spot appended before it. |
| AutoFill.FillPairOneSide | utils/sceneRegistry.ts:47-91 | A road/ground pair adds spots from one side only, the side the else-if chain picks. Every added spot is one of that side's candidate slots, at most floor((end − start)/26) of them are added, and none when the pair does not touch. |
| AutoFill.CandidatePlacement | utils/sceneRegistry.ts:47-91 | Top/bottom contacts give 24 wide × 48 high slots, left/right contacts 48 × 24. Every slot lies within the shared stretch. A top slot's y is the ground's top + 1, and symmetrically for the other sides. |
| AutoFill.CandidateClearOfRoad | utils/sceneRegistry.ts:47-91 | With the road on the touched side of the ground, no candidate slot overlaps the road. |
| AutoFill.ShortStretchGivesNothing | utils/sceneRegistry.ts:47-58 | A shared stretch shorter than one slot pitch adds nothing. |
| AutoFill.GoodIdsDistinct | utils/sceneRegistry.ts:39-88 | The generated ids are pairwise distinct, because `t` strictly increases and the two prefixes differ. |
| AutoFill.GeneratedIdsFresh | utils/sceneRegistry.ts:55-88 | When no input id starts with `p_auto_`, no generated id equals an input id. |
| AutoFill.PlacementScenario | utils/sceneRegistry.ts:47-55 | Ground (100,100,400,100) right below road (100,40,400,60): the first generated element is a space at (104,101), 1 below the ground's top, and it does not overlap the road. |
| Decimal.NatToStringInjective | utils/sceneRegistry.ts:55-55 | Decimal numbering is injective, so counter-numbered ids differ. |
| Charging.SortSpots | utils/sceneRegistry.ts:103-106 | Row ordering is a permutation of the parking spaces in which every space compares at most 0 with the next one. |
| Charging.ValidCandidates | utils/sceneRegistry.ts:114-125 | A space taller than wide keeps the top and bottom candidates, any other space keeps left and right, in that order. |
| Charging.NearestRoadDistance | utils/sceneRegistry.ts:131-137 | The scan over roads returns infinity exactly when there is no road. Otherwise it returns the least squared centre distance, attained by some road. |
| Charging.PickCandidate | utils/sceneRegistry.ts:127-143 | The running-maximum loop with `maxDistToRoad = -1` computes `BestCandidate`. |
| Charging.BestCandidateRule | utils/sceneRegistry.ts:127-143 | The chosen candidate is the first valid one unless the second is strictly farther from its nearest road centre. With no roads it is always the first. |
| Charging.StationInsideSpot | utils/sceneRegistry.ts:114-143 | On a space at least 12 × 12, the 10 × 10 station lies inside the space. |
| Charging.GenerateChargingStations | utils/sceneRegistry.ts:98-160 | The `forEach` with `stationCount` computes exactly `ChargingStations`. |
| Charging.StationsShape | utils/sceneRegistry.ts:112-157 | The k-th station is `charging_<k+1>`, placed at the chosen candidate of sorted space number 3(k+1). After n spaces there are n / 3 of them. |
| Charging.ChargingStationsAppend | utils/sceneRegistry.ts:98-160 | The input is kept in order with its canvas. Exactly floor(s/3) elements are appended, s being the number of parking spaces. Each is a 10×10 `charging_station` with rotation 0, and their ids `charging_1, charging_2, …` are distinct. |
| Intersections.CleanIntersections | utils/sceneRegistry.ts:162-184 | The nested i < j loop that grows `elementsToRemove`, then filters by id, computes exactly `CleanIntersectionsSpec`. |
| Intersections.SweepRow | utils/sceneRegistry.ts:167-181 | The inner loop for road i adds exactly the ids swept by the pairs (i, j), j > i. |
| Intersections.MarkDebris | utils/sceneRegistry.ts:170-179 | One qualifying crossing adds exactly the ids of the unmarked debris whose centre lies strictly inside it. |
| Intersections.RemovalIdsMeaning | utils/sceneRegistry.ts:162-182 | An id is removed if and only if some element with it is lane line, space, speed bump or sign with its centre strictly inside the crossing of two roads, and that crossing is larger than 20 in both dimensions. |
| Intersections.CleanIntersectionsRemovesOnlyDebris | utils/sceneRegistry.ts:162-184 | With unique ids, an element survives if and only if it is not such debris. The survivors are input elements and the canvas is kept. |
| Intersections.CleanIntersectionsNoOp | utils/sceneRegistry.ts:183-183 | When nothing qualifies, the input layout is returned. |
| Intersections.CleanIntersectionsIdempotent | utils/sceneRegistry.ts:162-184 | Running the pass twice is running it once. |
| Intersections.CleanIntersectionsFixedPoints | utils/sceneRegistry.ts:162-184 | The pass leaves a layout unchanged if and only if no debris of it lies in a large crossing of its roads. |
| Intersections.CleanIntersectionsCleans | utils/sceneRegistry.ts:162-184 | After the pass, no debris lies in a large crossing of the remaining roads. |
| Geometry.IntersectionBox | utils/sceneRegistry.ts:168-169 | The assumed crossing box has positive size and lies within both rectangles. For rectangles of positive size it exists if and only if they overlap. |
| Pruning.CleanupPillarsRemovesOnlyPillars | utils/sceneRegistry.ts:186-197 | An element goes if and only if it is a pillar that overlaps a road of the layout, or that lies strictly inside a parking space with a margin of 2. Non-pillars are kept in order and the canvas is kept. |
| Pruning.CleanupPillarsIdempotent | utils/sceneRegistry.ts:186-197 | A second run removes nothing more. |
| Pruning.CleanupPillarsScenario | utils/sceneRegistry.ts:186-197 | A pillar on a road is dropped and a pillar clear of roads and spaces is kept. |
| Pruning.ConflictNeedsOverlap | utils/sceneRegistry.ts:205-208 | A speed bump that conflicts with a sidewalk genuinely overlaps it, so a bump that only touches is never removed. |
| Pruning.ResolvePriorityConflictsRemovesOnlyBumps | utils/sceneRegistry.ts:200-214 | An element goes if and only if it is a speed bump whose crossing with some sidewalk is wider than 2 or taller than 2. Everything else is kept in order and the canvas is kept. |
| Pruning.ResolvePriorityConflictsIdempotent | utils/sceneRegistry.ts:200-214 | A second run removes nothing more. |
| SignOrientation.ParentRoad | utils/sceneRegistry.ts:223-223 | `roads.find`: the result is the first road the sign lies on, grown by 5, and none when there is no such road. |
| SignOrientation.NearestExit | utils/sceneRegistry.ts:224-232 | The scan settles on the first exit at the least Manhattan centre distance. |
| SignOrientation.FindNearestExit | utils/sceneRegistry.ts:224-232 | The `forEach` with `minDist = Infinity` returns `NearestExit`. |
| SignOrientation.SignRotationPointsToExit | utils/sceneRegistry.ts:233-241 | The rotation is 0, 90, 180 or 270, and it points toward the exit's centre along its axis. On a road the axis is the road's long side; off road it is the axis of the larger offset. |
| SignOrientation.OrientGuidanceSignsChangesOnlySigns | utils/sceneRegistry.ts:216-246 | With no exit the pass is the identity. Otherwise it keeps count, order and canvas, changes only the rotation of guidance signs, and sets that rotation to a quarter turn. |
| SignOrientation.SignRotationIgnoresRotation | utils/sceneRegistry.ts:225-241 | A sign's new rotation does not depend on its old one. |
| SignOrientation.OrientGuidanceSignsIdempotent | utils/sceneRegistry.ts:216-246 | Orienting twice is orienting once. |
| SceneRegistry.ApplyPass | utils/sceneRegistry.ts:400-409 | Each listed pass, run as its method, computes its specification and keeps the canvas. |
| SceneRegistry.RunPassesAppend | services/geminiService.ts:200-204 | Folding a concatenated pass list is folding the second list over the result of the first. |
| SceneRegistry.RunPassesKeepCanvas | utils/sceneRegistry.ts:400-409 | No pass list changes the canvas. |
| SceneRegistry.NormalizeType | utils/sceneRegistry.ts:321-332 | A synonym maps to a canonical tag (pillar, wall, space, road, sidewalk); any other tag is kept. |
| SceneRegistry.NormalizeTypeIdempotent | utils/sceneRegistry.ts:321-332 | Normalising twice is normalising once. |
| SceneRegistry.ParkingPassesUnfold | utils/sceneRegistry.ts:400-409 | The parking list is the chain clean, fill, clean, stations, pillars, clean, bumps, signs. |
| SceneRegistry.CleanupPillarsSettles | utils/sceneRegistry.ts:186-197 | After `cleanupPillars` no pillar overlaps a road or sits inside a space. |
| SceneRegistry.CleanIntersectionsSettles | utils/sceneRegistry.ts:162-184 | `cleanIntersections` keeps pillars settled and leaves the layout clean. |
| SceneRegistry.ResolvePriorityConflictsKeepsSettled | utils/sceneRegistry.ts:200-214 | Dropping speed bumps keeps the layout clean and its pillars settled. |
| SceneRegistry.OrientGuidanceSignsKeepsSettled | utils/sceneRegistry.ts:216-246 | Turning signs keeps the layout clean and its pillars settled. |
| SceneRegistry.ParkingTailSettles | utils/sceneRegistry.ts:405-408 | The last four passes settle any layout: clean, with no pillar conflict. |
| SceneRegistry.ParkingPipelineSettles | utils/sceneRegistry.ts:400-409 | The whole parking list keeps the canvas. Its output has no debris in a large road crossing and no pillar on a road or inside a space. |
| ElementMerge.Find | services/geminiService.ts:18-19 | `map.has` / `map.get`: a position it finds holds the key, and when it finds none no entry has the key. |
| ElementMerge.Put | services/geminiService.ts:20-23 | `map.set`: the old keys stay first, in order and distinct. An existing key keeps its position and takes the new value; a new key is appended with it. Every entry under another key is unchanged. |
| ElementMerge.Overlay | services/geminiService.ts:19-20 | `{...existing, ...update}`: id, type, position and size come from the update. Each optional field comes from the update when its key is present, and from the existing element otherwise. |
| ElementMerge.ApplyUpdate | services/geminiService.ts:17-24 | One update keeps the old keys first and in order, keeps them distinct, and keeps the number of entries when its id is non-empty and already a key. |
| ElementMerge.MergeOne | services/geminiService.ts:17-24 | The `forEach` callback for one update computes `ApplyUpdate`. |
| ElementMerge.MergeLayoutElements | services/geminiService.ts:15-27 | The `forEach` over updates computes `Merge`, and the result has distinct ids. |
| ElementMerge.FromListUnique | services/geminiService.ts:16-16 | From a list with distinct ids, the map holds the list in order. |
| ElementMerge.MergeNoUpdates | services/geminiService.ts:15-27 | Merging no updates returns the original, when its ids are distinct. |
| ElementMerge.UpdatesKeepUnique | services/geminiService.ts:17-25 | Updating a map with distinct keys leaves its keys distinct. |
| ElementMerge.ApplyUpdatesKeepsKeys | services/geminiService.ts:17-25 | Updates only overwrite or append entries, so the old keys stay the first keys, in order. |
| ElementMerge.ApplyKnownUpdates | services/geminiService.ts:17-25 | Updates whose ids are all non-empty and already keys leave the key list exactly as it was. |
| ElementMerge.MergeKeepsOriginalOrder | services/geminiService.ts:15-27 | The merged list has distinct ids and begins with the original ids in their order. |
| ElementMerge.MergeKnownIds | services/geminiService.ts:16-20 | When every update id is non-empty and known, the result has the original's length and id order. |
| ElementMerge.MergeOverlaysMatch | services/geminiService.ts:18-20 | An update matching element k replaces it by the overlay in place and leaves every other element as it was. |
| ElementMerge.MergeAppendsUnknown | services/geminiService.ts:21-23 | An update whose id, or whose fresh `el_` id when its own is empty, is unknown is appended after all originals under that id. |
| Scoring.ScoreAppend | services/geminiService.ts:80-87 | The score of a concatenation is the sum of the scores. |
| Scoring.ScoreBounds | services/geminiService.ts:80-87 | Each finding costs between 2 and 10. |
| Scoring.ScoreZeroIffEmpty | services/geminiService.ts:80-87 | The score is 0 if and only if there is no finding. |
| Scoring.WeightOrder | services/geminiService.ts:82-85 | connectivity_error (10) > out_of_bounds (8) > overlap (5) > any other kind (2). |
| Scoring.ScoreSwap | services/geminiService.ts:80-87 | Reordering findings (a swap) keeps the score. |
| GeminiService.MapElementFields | services/geminiService.ts:68-77 | One raw element follows the field rules: the given id or `el_` plus a random token, `t` before `type`, a missing or 0 x or y becomes 0 and any other is kept, `w ?? width ?? 10` and `h ?? height ?? 10` (an explicit 0 stays), a missing or 0 rotation becomes 0 and any other is kept, and the label as given or an explicit `undefined`. |
| GeminiService.MapToInternalLayoutDefaults | services/geminiService.ts:65-78 | A missing or zero canvas becomes 800 × 600 and any other size is kept. There is one element per raw element, in order, each following the field rules. |
| GeminiService.RoundIsNearest | services/geminiService.ts:33-33 | `Math.round` returns an integer within a half of its argument, with halves rounded up. |
| GeminiService.RoundOfInteger | services/geminiService.ts:33-33 | Rounding an integer returns it. |
| GeminiService.PostProcessLayoutRounds | services/geminiService.ts:29-36 | Canvas, count, order and every field but x, y, width and height are kept. Each of those four becomes an integer within a half of its old value. |
| GeminiService.PostProcessLayoutIdempotent | services/geminiService.ts:29-36 | Rounding twice is rounding once. |
| GeminiService.ApplyPostProcess | services/geminiService.ts:200-204 | With no pass list the layout is returned as it is. Otherwise the loop is the left fold of the list, and the canvas is kept. |
| GeminiService.RunIterativeFix | services/geminiService.ts:104-148 | The `for` loop with its three `break`s computes exactly `Fix` from pass 1 with `lastScore` infinite, and keeps the canvas. |
| GeminiService.FixPass | services/geminiService.ts:109-141 | One pass either stops with the current layout (valid, stagnant, or failed fix) or continues from the merged correction. Either way it logs what `Fix` logs. |
| GeminiService.FixKeepsCanvas | services/geminiService.ts:104-148 | The returned layout has the input's width and height. |
| GeminiService.FixCallsDecrease | services/geminiService.ts:108-122 | From any pass on, the corrector is called at most once per remaining pass, at strictly decreasing scores below the last one. |
| GeminiService.FixNeverCorrectsValid | services/geminiService.ts:112-115 | From any pass on, no logged corrector call has score 0, so a layout scoring 0 is never sent for correction. |
| GeminiService.RunIterativeFixBounded | services/geminiService.ts:108-122 | The whole loop calls the corrector at most `maxPasses` times, never at score 0, at strictly decreasing scores. |
| GeminiService.FixStopsWhenValid | services/geminiService.ts:108-115 | At any pass, a layout with score 0 is returned as it is, and the corrector is not called. |
| GeminiService.FixStopsOnStagnation | services/geminiService.ts:116-119 | At any pass after the first, a score no lower than the last one ends the loop with the current layout. |
| GeminiService.FixStopsOnFailure | services/geminiService.ts:142-145 | At any pass, a failed correction ends the loop with the last successfully merged layout, after logging the attempt and the failure. |
| GeminiService.RunIterativeFixStagnates | services/geminiService.ts:116-119 | A correction with no elements (an empty answer) changes nothing, so pass 2 stops for stagnation with the input layout. |
| GeminiService.RunIterativeFixStagnationKeepsLast | services/geminiService.ts:116-141 | When the first correction does not lower the score, pass 2 stops for stagnation and returns the corrected layout, not the better-scoring input. |

## Left out

- `meta` on elements is not modelled. Numbers are not coerced from strings (`Number(...)`, `String(...)`), and `NaN` is not modelled. `null` and `undefined` in a raw answer are both `None`.
- Floating point is not modelled: coordinates are exact reals.
- Charging.SortSpots: this is a stable insertion sort with the source's comparator. The comparator (same row when y differs by less than 10, then by x) is not transitive, so the engine's `Array.prototype.sort` may order differently where the comparator is inconsistent on the input. The model proves neighbour order, not that every earlier space compares at most 0 with every later one.
- `getIntersectionBox` and `validateLayout` live in utils/geometry.ts, which is not part of this model. The first is the assumed overlap rectangle; the second is a function parameter.
- The network side is not modelled: the model calls, `generateWithRetry` with its back-off, `determineModelTier` and its cached tier, `cleanAndParseJSON`, and the top-level `generateParkingLayout` and `augmentLayoutWithRoads`. The corrector parameter stands for call, parse and mapping, with `None` for any exception. The prompt text and the scene argument of the fix prompt are not modelled.
- The `AI Action` log lines copied from a correction's `fix_strategy` are not modelled, nor the text of the other log lines. Their kind, pass and score are modelled.
- Generated ids (`p_auto_k`, `charging_k`, `el_…`) are not checked against existing ids, and neither is the source. AutoFill.GeneratedIdsFresh states when they cannot collide.
- The drawers, styles and z-order of the scene are rendering only. The prompt configuration is text.
- `PARKING_NORMALIZATION` is modelled as a lookup (`NormalizeType`), but no modelled code applies it, as in the source.
- The default of 4 for `maxPasses` is not modelled: the budget is a field of `Repair` and may take any value.
