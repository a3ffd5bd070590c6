# TownyProvinces province painting, land validation and province files — a Dafny model

TownyProvinces divides a Minecraft map into provinces. The map is a grid of
chunk cells. Each cell is either owned by one province (the ownership map) or
waiting to be claimed (the unclaimed index). This project models four parts of
the plugin:

- **The painting engine** (`jobs/province_generation/PaintRegionAction`). It
  works in these steps:
  - Optionally delete the provinces that lie mostly inside the region being
    painted. Their cells return to the unclaimed index.
  - Generate the new provinces. First one per protected location; a location
    that cannot be placed fails the run. Then up to the remaining number of
    randomly placed ones, each trying 100 positions.
  - Each new province claims the unclaimed cells under its brush.
  - Run the brush competition. Every brush stamps its home square, then takes a
    random move per painting cycle. A move is taken only where the brush
    validates, and a brush stops once its claimed area exceeds the limit.
  - Hand the leftover cells out, pass by pass. A cell goes to a province only
    when that province owns one of its four cardinal neighbours and no other
    province owns any of its eight neighbours.
  - Delete the provinces left empty.
- **The older painting engine** (`province_generation/PaintRegionAction`). It
  differs from the newer one in these ways:
  - Deleted provinces' cells are dropped from the map instead of returned to
    the unclaimed index.
  - Home blocks must keep a minimum distance from each other.
  - Placement checks a square grown by three cells, and only its on-map part.
  - Generation fails only when too few provinces were made.
  - A brush stamps its footprint column by column and stops at the first cell
    that is not unclaimed.
- **The land validation job** (`jobs/land_validation/LandvalidationTask`). It
  works like this:
  - When no province is flagged, it flags them all.
  - It then validates every flagged province: 20 random cells are sampled, and
    their biome kinds decide sea / wasteland / civilized and the four
    proportions.
  - After each province it reads the job status. A stop or restart request
    clears every flag.
  - A flagged province without cells makes the sampling throw, which ends the
    whole job at that province.
- **The province files** (`data/DataHandlerUtil`). It covers:
  - the six entries a province is saved as, including its cells written as
    `x,z|x,z|...`;
  - loading those entries back, with their defaults and error cases;
  - the indexing of the loaded cells.

Randomness, the biome lookup, the job status and the iteration order of hash
sets and maps are all parameters of the model. Where the source has a loop,
the model has a method with its invariants. Each method is proved against a
specification function or a ghost predicate. Lemmas state the properties of
those specifications: uniqueness of eligibility, convergence of the leftover
pass, every brush's count equalling the cells its province gained, the
classification's meaning, and the save/load round trip.

Some behaviours of the code are easy to misread; the model follows the code:

- The proportions divide every count by 20, however many samples were
  recognised. Unrecognised samples therefore stay in the denominator, and the
  four proportions can add up to less than 1.
- A pause request does not suspend the validation sweep. The sweep runs inside
  `forEach`, where a `return` after a stop, pause or restart request ends only
  that province's iteration. After a stop or restart has cleared every flag,
  the later provinces are skipped because they are no longer flagged.
- A flagged province with no cells, met while the world is present, makes
  `random.nextInt(0)` throw. The exception leaves `forEach`, so the later
  provinces are not validated and `stopTask` is not reached. The model returns
  `false` from the sweep at that province and changes nothing in that turn.
- The older engine deletes a province through the one-argument
  `deleteProvince`, which receives no unclaimed index. The model drops the
  deleted provinces' cells from the map and does not return them to the
  unclaimed index. The newer engine does return them.

Two behaviours of the code are modelled as written:

- `loadProvince` adds the province before it parses the cell text. A missing
  or malformed cell text therefore leaves the province registered without
  cells.
- The older engine's `claimChunksCoveredByBrush` ends the whole stamp at the
  first cell that is not unclaimed, not only that cell.

## Model

Source paths are relative to the repository root.

| member | source | states |
|---|---|---|
| Objects.TruncDiv | src/main/java/io/github/townyadvanced/townyprovinces/jobs/province_generation/PaintRegionAction.java:43-46 | the block-to-chunk division truncates toward zero, for negative block coordinates too |
| Objects.TruncDivMono | src/main/java/io/github/townyadvanced/townyprovinces/jobs/province_generation/PaintRegionAction.java:43-46 | the block-to-chunk division keeps the order of block coordinates |
| Objects.ChunkOfBlock | src/main/java/io/github/townyadvanced/townyprovinces/jobs/province_generation/PaintRegionAction.java:92-95 | the chunk of every block between a region's two corners lies in the chunk bounds computed from those corners |
| Objects.NewBrush | src/main/java/io/github/townyadvanced/townyprovinces/jobs/province_generation/PaintRegionAction.java:212-215 | a new brush stands on its province's home block, has claimed nothing and is active |
| Objects.ClampDelta | src/main/java/io/github/townyadvanced/townyprovinces/jobs/province_generation/PaintRegionAction.java:230-231 | a positive raw delta is raised to at least the minimum move; zero or a negative one is lowered to at most minus the minimum |
| Objects.ClampDeltaBounds | src/main/java/io/github/townyadvanced/townyprovinces/jobs/province_generation/PaintRegionAction.java:228-231 | a delta drawn from [-max, max] keeps its sign after clamping, has magnitude in [min, max], and is never zero once min >= 1 |
| Objects.MoveTarget | src/main/java/io/github/townyadvanced/townyprovinces/jobs/province_generation/PaintRegionAction.java:228-233 | with a positive minimum move, the brush's target differs from its position on both axes |
| Objects.AssignAll | src/main/java/io/github/townyadvanced/townyprovinces/jobs/province_generation/PaintRegionAction.java:306-310 | claiming a batch gives exactly those cells to the province and leaves every other entry alone |
| Objects.CellsOf | src/main/java/io/github/townyadvanced/townyprovinces/jobs/province_generation/PaintRegionAction.java:98 | a province's cells are exactly the map entries pointing at it |
| Objects.Attempts | src/main/java/io/github/townyadvanced/townyprovinces/jobs/province_generation/PaintRegionAction.java:193-195 | a random province tries exactly 100 positions, in draw order |
| Objects.GainedAfterClaim | src/main/java/io/github/townyadvanced/townyprovinces/jobs/province_generation/PaintRegionAction.java:306-310 | claiming fresh cells raises the province's gained count by exactly their number |
| Objects.GainedOthersUnchanged | src/main/java/io/github/townyadvanced/townyprovinces/jobs/province_generation/PaintRegionAction.java:306-310 | a claim for one province leaves every other province's gains alone |
| Objects.AccountAfterClaim | src/main/java/io/github/townyadvanced/townyprovinces/jobs/province_generation/PaintRegionAction.java:306-310 | after a brush stamps, its count plus the stamp's size is its province's gain, and every other brush still counts its own gain |
| Objects.StampConsistent | src/main/java/io/github/townyadvanced/townyprovinces/jobs/province_generation/PaintRegionAction.java:306-310 | stamping unclaimed cells for a known province keeps owned and unclaimed cells apart and loses no cell |
| Objects.SweepStep | src/main/java/io/github/townyadvanced/townyprovinces/jobs/province_generation/PaintRegionAction.java:97-106 | after each province of the snapshot, the deleted set is exactly the visited provinces that were mostly inside the region |
| Objects.PlacedGenerated | src/main/java/io/github/townyadvanced/townyprovinces/jobs/province_generation/PaintRegionAction.java:124-144 | registering the next generated province advances the generation record by one identity and one home block |
| Objects.SetToSeq | src/main/java/io/github/townyadvanced/townyprovinces/jobs/province_generation/PaintRegionAction.java:213 | iterating a hash set lists each element exactly once |
| JobsProvinceGeneration.Cardinals | src/main/java/io/github/townyadvanced/townyprovinces/jobs/province_generation/PaintRegionAction.java:378-379 | the four cardinal offsets of the eligibility rule |
| JobsProvinceGeneration.Diagonals | src/main/java/io/github/townyadvanced/townyprovinces/jobs/province_generation/PaintRegionAction.java:395-396 | the four diagonal offsets of the eligibility rule |
| JobsProvinceGeneration.EligibleUnique | src/main/java/io/github/townyadvanced/townyprovinces/jobs/province_generation/PaintRegionAction.java:364-404 | a leftover cell is eligible for at most one province |
| JobsProvinceGeneration.EligibleOwnerOwnsNeighbour | src/main/java/io/github/townyadvanced/townyprovinces/jobs/province_generation/PaintRegionAction.java:380-392 | the province a cell is eligible for already owns a cardinal neighbour (rule 1) |
| JobsProvinceGeneration.RecheckAgrees | src/main/java/io/github/townyadvanced/townyprovinces/jobs/province_generation/PaintRegionAction.java:335-339 | a pending cell that is still eligible when re-checked is eligible for the province recorded at the start of the pass |
| JobsProvinceGeneration.StaysIneligible | src/main/java/io/github/townyadvanced/townyprovinces/jobs/province_generation/PaintRegionAction.java:335-339 | a pending cell found ineligible stays ineligible while the pass assigns further cells |
| JobsProvinceGeneration.PassStep | src/main/java/io/github/townyadvanced/townyprovinces/jobs/province_generation/PaintRegionAction.java:335-339 | each visited pending cell is still unclaimed, and assigning it exactly when it is still eligible keeps the pass invariant |
| JobsProvinceGeneration.PassDone | src/main/java/io/github/townyadvanced/townyprovinces/jobs/province_generation/PaintRegionAction.java:335-340 | a pass assigns only pending cells; the pending cells left over are no longer eligible; a non-empty pass shrinks the unclaimed index |
| JobsProvinceGeneration.ClaimStep | src/main/java/io/github/townyadvanced/townyprovinces/jobs/province_generation/PaintRegionAction.java:306-310 | moving one cell from the batch's pending part to its claimed part is one map update and one index removal |
| JobsProvinceGeneration.SurvivorsKeepUniverse | src/main/java/io/github/townyadvanced/townyprovinces/jobs/province_generation/PaintRegionAction.java:102-104 | deleting provinces whose cells return to the unclaimed index loses no cell |
| JobsProvinceGeneration.SurvivorsConsistent | src/main/java/io/github/townyadvanced/townyprovinces/jobs/province_generation/PaintRegionAction.java:102-104 | deleting provinces and returning their cells keeps the bookkeeping consistent |
| JobsProvinceGeneration.PlacedConsistent | src/main/java/io/github/townyadvanced/townyprovinces/jobs/province_generation/PaintRegionAction.java:126-131 | a province placed with the next identity and claiming unclaimed cells keeps the bookkeeping consistent once added |
| JobsProvinceGeneration.DeleteStep | src/main/java/io/github/townyadvanced/townyprovinces/jobs/province_generation/PaintRegionAction.java:97-106 | a province not yet deleted still has all its original cells, and deleting it keeps the survivors' record |
| JobsProvinceGeneration.PaintRegionAction.constructor | src/main/java/io/github/townyadvanced/townyprovinces/jobs/province_generation/PaintRegionAction.java:40-48 | the map and region chunk bounds are their corner blocks divided by the chunk side; the engine starts from the given settings, ownership map and unclaimed index, in a consistent state |
| JobsProvinceGeneration.PaintRegionAction.FreshProvinceCanPaint | src/main/java/io/github/townyadvanced/townyprovinces/jobs/province_generation/PaintRegionAction.java:169-173 | a brush of a brand-new province may stand at a cell exactly when the cell is on the map and nothing near it is owned |
| JobsProvinceGeneration.PaintRegionAction.ValidateBrushPosition | src/main/java/io/github/townyadvanced/townyprovinces/jobs/province_generation/PaintRegionAction.java:258-277 | the answer is the placement rule: an on-map centre, and no cell of the square grown by one owned by another province; an off-map centre is always rejected |
| JobsProvinceGeneration.PaintRegionAction.CollectUnclaimedInFootprint | src/main/java/io/github/townyadvanced/townyprovinces/jobs/province_generation/PaintRegionAction.java:291-304 | the collected cells are exactly the unclaimed cells of the brush's square |
| JobsProvinceGeneration.PaintRegionAction.ClaimCoords | src/main/java/io/github/townyadvanced/townyprovinces/jobs/province_generation/PaintRegionAction.java:306-310 | every collected cell goes to the province and leaves the unclaimed index; the count rises by their number |
| JobsProvinceGeneration.PaintRegionAction.ClaimChunksCoveredByBrush | src/main/java/io/github/townyadvanced/townyprovinces/jobs/province_generation/PaintRegionAction.java:286-311 | when the brush validates, exactly the unclaimed cells of its square are claimed and counted; otherwise nothing changes; no cell is lost |
| JobsProvinceGeneration.PaintRegionAction.CompetitionStep | src/main/java/io/github/townyadvanced/townyprovinces/jobs/province_generation/PaintRegionAction.java:225-241 | an inactive brush is skipped; an active one whose target validates moves, stamps there and is switched off exactly when over the limit; otherwise nothing changes |
| JobsProvinceGeneration.PaintRegionAction.GetProvinceIfEligible | src/main/java/io/github/townyadvanced/townyprovinces/jobs/province_generation/PaintRegionAction.java:372-404 | a returned province is one the cell is eligible for; no result means the cell is eligible for none |
| JobsProvinceGeneration.PaintRegionAction.NotEligibleForTwo | src/main/java/io/github/townyadvanced/townyprovinces/jobs/province_generation/PaintRegionAction.java:383-388 | two different owners among the cardinal neighbours rule the cell out |
| JobsProvinceGeneration.PaintRegionAction.RebuildPendingCoordProvinceAssignments | src/main/java/io/github/townyadvanced/townyprovinces/jobs/province_generation/PaintRegionAction.java:350-358 | the pending map holds exactly the eligible unclaimed cells, each with the province it is eligible for |
| JobsProvinceGeneration.PaintRegionAction.ApplyPendingAssignments | src/main/java/io/github/townyadvanced/townyprovinces/jobs/province_generation/PaintRegionAction.java:335-340 | only pending cells are assigned, each to its recorded province and removed from the index; leftovers are ineligible; a non-empty pass claims something |
| JobsProvinceGeneration.PaintRegionAction.ClaimLeftoverCell | src/main/java/io/github/townyadvanced/townyprovinces/jobs/province_generation/PaintRegionAction.java:337-338 | the cell goes to the province and leaves the unclaimed index, keeping the bookkeeping consistent |
| JobsProvinceGeneration.PaintRegionAction.AssignUnclaimedCoordsToProvinces | src/main/java/io/github/townyadvanced/townyprovinces/jobs/province_generation/PaintRegionAction.java:321-345 | the loop ends; afterwards no unclaimed cell is eligible, every earlier owner is kept, and an already converged map is untouched |
| JobsProvinceGeneration.PaintRegionAction.DeleteProvince | src/main/java/io/github/townyadvanced/townyprovinces/jobs/province_generation/PaintRegionAction.java:103 | the province leaves the set and its cells move from the map to the unclaimed index |
| JobsProvinceGeneration.PaintRegionAction.DeleteIfMostlyInside | src/main/java/io/github/townyadvanced/townyprovinces/jobs/province_generation/PaintRegionAction.java:98-105 | the province is deleted exactly when more than half (integer half) of its cells lie in the region |
| JobsProvinceGeneration.PaintRegionAction.DeleteExistingProvincesWhichAreMostlyInSpecifiedArea | src/main/java/io/github/townyadvanced/townyprovinces/jobs/province_generation/PaintRegionAction.java:89-109 | exactly the provinces of the snapshot mostly inside the region are deleted, their cells become unclaimed, the others keep their cells |
| JobsProvinceGeneration.PaintRegionAction.DeleteEmptyProvinces | src/main/java/io/github/townyadvanced/townyprovinces/jobs/province_generation/PaintRegionAction.java:406-440 | exactly the provinces without cells are removed; cells are untouched; every remaining province owns a cell |
| JobsProvinceGeneration.PaintRegionAction.CollectEmptyProvinces | src/main/java/io/github/townyadvanced/townyprovinces/jobs/province_generation/PaintRegionAction.java:414-420 | the marked provinces are exactly those without cells |
| JobsProvinceGeneration.PaintRegionAction.GenerateProtectedProvince | src/main/java/io/github/townyadvanced/townyprovinces/jobs/province_generation/PaintRegionAction.java:169-180 | a province is made exactly when the location is free; it takes the next identity and claims the unclaimed cells under its brush; otherwise nothing changes |
| JobsProvinceGeneration.PaintRegionAction.GenerateRandomlyPlacedProvince | src/main/java/io/github/townyadvanced/townyprovinces/jobs/province_generation/PaintRegionAction.java:187-207 | it fails exactly when none of the tries is free; otherwise the province sits at the first free try and claims its square |
| JobsProvinceGeneration.PaintRegionAction.AddProvince | src/main/java/io/github/townyadvanced/townyprovinces/jobs/province_generation/PaintRegionAction.java:131 | the province joins the set with its home block |
| JobsProvinceGeneration.PaintRegionAction.GenerateProvinces | src/main/java/io/github/townyadvanced/townyprovinces/jobs/province_generation/PaintRegionAction.java:118-147 | failure means a protected location was not free; otherwise every protected location got a province, at most max - protected random ones were added, and stopping early means no try was free |
| JobsProvinceGeneration.PaintRegionAction.GenerateProtectedProvinces | src/main/java/io/github/townyadvanced/townyprovinces/jobs/province_generation/PaintRegionAction.java:124-134 | all protected locations get provinces, or the loop fails at the first location that is not free |
| JobsProvinceGeneration.PaintRegionAction.PlaceProtectedProvince | src/main/java/io/github/townyadvanced/townyprovinces/jobs/province_generation/PaintRegionAction.java:126-133 | one protected location placed and registered, or found not free with nothing changed |
| JobsProvinceGeneration.PaintRegionAction.StartGenerating | src/main/java/io/github/townyadvanced/townyprovinces/jobs/province_generation/PaintRegionAction.java:118-122 | before any province is generated the generation record holds trivially |
| JobsProvinceGeneration.PaintRegionAction.GenerateRandomProvinces | src/main/java/io/github/townyadvanced/townyprovinces/jobs/province_generation/PaintRegionAction.java:136-144 | at most `count` provinces are added, with consecutive identities, and stopping early means the next one's tries were all taken |
| JobsProvinceGeneration.PaintRegionAction.PlaceRandomProvince | src/main/java/io/github/townyadvanced/townyprovinces/jobs/province_generation/PaintRegionAction.java:137-143 | one random province placed and registered, or none of its tries free with nothing changed |
| JobsProvinceGeneration.PaintRegionAction.RegisterPlaced | src/main/java/io/github/townyadvanced/townyprovinces/jobs/province_generation/PaintRegionAction.java:141-142 | registering a placed province keeps the state consistent and advances the generation record |
| JobsProvinceGeneration.PaintRegionAction.ExecuteChunkClaimCompetition | src/main/java/io/github/townyadvanced/townyprovinces/jobs/province_generation/PaintRegionAction.java:209-248 | one brush per province; earlier owners are kept; each brush's count equals the cells its province gained; an inactive brush has hit the limit |
| JobsProvinceGeneration.PaintRegionAction.HomeTurn | src/main/java/io/github/townyadvanced/townyprovinces/jobs/province_generation/PaintRegionAction.java:217-219 | stamping one home block keeps every brush's account and changes only that brush |
| JobsProvinceGeneration.PaintRegionAction.MoveTurn | src/main/java/io/github/townyadvanced/townyprovinces/jobs/province_generation/PaintRegionAction.java:225-241 | one brush's move keeps every brush's account and changes only that brush |
| JobsProvinceGeneration.PaintRegionAction.TurnKeepsAccount | src/main/java/io/github/townyadvanced/townyprovinces/jobs/province_generation/PaintRegionAction.java:235-241 | a turn that stamps fresh cells or changes nothing keeps earlier owners and every brush's account |
| JobsProvinceGeneration.PaintRegionAction.ExecuteAction | src/main/java/io/github/townyadvanced/townyprovinces/jobs/province_generation/PaintRegionAction.java:50-87 | no cell is lost or added; success leaves no eligible leftover cell and no empty province; failure needs a protected location; without deletion every owner is kept |
| ProvinceGeneration.Column | src/main/java/io/github/townyadvanced/townyprovinces/province_generation/PaintRegionAction.java:347 | the inner loop visits z from start to end, one cell each |
| ProvinceGeneration.ScanOrderCovers | src/main/java/io/github/townyadvanced/townyprovinces/province_generation/PaintRegionAction.java:342-347 | the stamp's scan visits exactly the cells of the brush's square |
| ProvinceGeneration.ScanCovers | src/main/java/io/github/townyadvanced/townyprovinces/province_generation/PaintRegionAction.java:346-347 | the column-by-column scan visits exactly the cells of its rectangle |
| ProvinceGeneration.ScanDistinct | src/main/java/io/github/townyadvanced/townyprovinces/province_generation/PaintRegionAction.java:346-347 | the scan visits no cell twice |
| ProvinceGeneration.UnclaimedPrefix | src/main/java/io/github/townyadvanced/townyprovinces/province_generation/PaintRegionAction.java:349-351 | the stamp's reach: every cell before it is unclaimed and the cell at it is not |
| ProvinceGeneration.UnclaimedPrefixWithout | src/main/java/io/github/townyadvanced/townyprovinces/province_generation/PaintRegionAction.java:349-355 | claiming a cell outside a scan does not change that scan's reach |
| ProvinceGeneration.PrefixElementsCount | src/main/java/io/github/townyadvanced/townyprovinces/province_generation/PaintRegionAction.java:354 | the stamp counts as many cells as it claims |
| ProvinceGeneration.StampFromPrefix | src/main/java/io/github/townyadvanced/townyprovinces/province_generation/PaintRegionAction.java:346-357 | stamping along distinct cells claims exactly the longest unclaimed prefix, removes it from the index and counts it |
| ProvinceGeneration.ScanStamp | src/main/java/io/github/townyadvanced/townyprovinces/province_generation/PaintRegionAction.java:341-358 | a brush's stamp is its scan's longest unclaimed prefix, and its size is the prefix length |
| ProvinceGeneration.StampDone | src/main/java/io/github/townyadvanced/townyprovinces/province_generation/PaintRegionAction.java:341-358 | the state a finished stamp leaves is the prefix claim, with owned and unclaimed cells still apart and none lost |
| ProvinceGeneration.StampPartition | src/main/java/io/github/townyadvanced/townyprovinces/province_generation/PaintRegionAction.java:353-355 | claiming unclaimed cells keeps owned and unclaimed cells apart and loses none |
| ProvinceGeneration.Neighbours8Exact | src/main/java/io/github/townyadvanced/townyprovinces/province_generation/PaintRegionAction.java:373-374 | the offset tables list exactly the eight cells around the centre |
| ProvinceGeneration.PaintRegionAction.constructor | src/main/java/io/github/townyadvanced/townyprovinces/province_generation/PaintRegionAction.java:51-78 | the map and region chunk bounds are their corner blocks divided by the chunk side, and the home-block distance is its metres divided by the chunk side; the engine starts from the given settings, ownership map and unclaimed index, in a consistent state |
| ProvinceGeneration.PaintRegionAction.FarOffMapAccepted | src/main/java/io/github/townyadvanced/townyprovinces/province_generation/PaintRegionAction.java:313-323 | a centre more than radius + 3 beyond the map is accepted for any province, since every examined cell is skipped |
| ProvinceGeneration.PaintRegionAction.ValidateBrushPosition | src/main/java/io/github/townyadvanced/townyprovinces/province_generation/PaintRegionAction.java:307-332 | the answer is the placement rule: no on-map cell of the square grown by three is owned by another province |
| ProvinceGeneration.PaintRegionAction.ClaimColumn | src/main/java/io/github/townyadvanced/townyprovinces/province_generation/PaintRegionAction.java:347-356 | the inner loop does what stamping along its column does and reports whether it stopped |
| ProvinceGeneration.PaintRegionAction.ClaimChunksCoveredByBrush | src/main/java/io/github/townyadvanced/townyprovinces/province_generation/PaintRegionAction.java:341-358 | exactly the longest unclaimed prefix of the scan is claimed and counted; no cell is lost |
| ProvinceGeneration.PaintRegionAction.ClaimUnclaimedChunk | src/main/java/io/github/townyadvanced/townyprovinces/province_generation/PaintRegionAction.java:364-386 | the cell is claimed and counted exactly when it is unclaimed and no neighbour belongs to another province; otherwise nothing changes |
| ProvinceGeneration.PaintRegionAction.MoveBrushIfPossible | src/main/java/io/github/townyadvanced/townyprovinces/province_generation/PaintRegionAction.java:290-297 | the brush moves exactly when the target validates, and the result says so |
| ProvinceGeneration.PaintRegionAction.CompetitionStep | src/main/java/io/github/townyadvanced/townyprovinces/province_generation/PaintRegionAction.java:254-274 | an inactive brush is skipped; an active one moves and stamps when its target validates, and either way is switched off exactly when over the limit |
| ProvinceGeneration.PaintRegionAction.HomeTurn | src/main/java/io/github/townyadvanced/townyprovinces/province_generation/PaintRegionAction.java:243-245 | stamping one home block keeps every brush's account and changes only that brush |
| ProvinceGeneration.PaintRegionAction.MoveTurn | src/main/java/io/github/townyadvanced/townyprovinces/province_generation/PaintRegionAction.java:254-274 | one brush's move keeps every brush's account and changes only that brush |
| ProvinceGeneration.PaintRegionAction.PaintingCycle | src/main/java/io/github/townyadvanced/townyprovinces/province_generation/PaintRegionAction.java:252-276 | after a cycle every brush is active exactly when it is under the limit, and every account is kept |
| ProvinceGeneration.PaintRegionAction.ExecuteChunkClaimCompetition | src/main/java/io/github/townyadvanced/townyprovinces/province_generation/PaintRegionAction.java:230-281 | one brush per province; earlier owners kept; each count equals the province's gain; after a cycle, active exactly when under the limit |
| ProvinceGeneration.PaintRegionAction.FreshHomeCanPaint | src/main/java/io/github/townyadvanced/townyprovinces/province_generation/PaintRegionAction.java:222-227 | for a new province, the brush test asks that no on-map cell of the grown square be owned at all |
| ProvinceGeneration.PaintRegionAction.ValidatePositionOfProvinceHomeBlock | src/main/java/io/github/townyadvanced/townyprovinces/province_generation/PaintRegionAction.java:214-228 | the answer is: no existing home block nearer than the minimum distance, and the brush test passes |
| ProvinceGeneration.PaintRegionAction.GenerateProvinceObject | src/main/java/io/github/townyadvanced/townyprovinces/province_generation/PaintRegionAction.java:187-212 | it fails exactly when none of the 100 tries is acceptable; otherwise the result is the first acceptable try |
| ProvinceGeneration.PaintRegionAction.AddProvince | src/main/java/io/github/townyadvanced/townyprovinces/province_generation/PaintRegionAction.java:149 | the new province joins with the next identity and its home block |
| ProvinceGeneration.PaintRegionAction.GenerateProvinceObjects | src/main/java/io/github/townyadvanced/townyprovinces/province_generation/PaintRegionAction.java:140-165 | at most the ideal number is made; stopping early means no try was acceptable; success means all were made or the province count reaches ideal x (1 - variance) |
| ProvinceGeneration.PaintRegionAction.DeleteProvince | src/main/java/io/github/townyadvanced/townyprovinces/province_generation/PaintRegionAction.java:124 | the province and its map entries are dropped; its cells are not made unclaimed |
| ProvinceGeneration.PaintRegionAction.DeleteExistingProvincesWhichAreMostlyInSpecifiedArea | src/main/java/io/github/townyadvanced/townyprovinces/province_generation/PaintRegionAction.java:102-130 | exactly the provinces of the snapshot mostly inside the region are deleted with their cells; the others keep theirs |
| ProvinceGeneration.PaintRegionAction.ExecuteAction | src/main/java/io/github/townyadvanced/townyprovinces/province_generation/PaintRegionAction.java:80-100 | only the deleted provinces' cells leave the map; survivors keep their cells; failure needs a positive ideal number |
| ProvinceGeneration.DeletionUniverse | src/main/java/io/github/townyadvanced/townyprovinces/province_generation/PaintRegionAction.java:109-127 | deletion removes exactly the deleted provinces' cells and keeps every other owner |
| ProvinceGeneration.TurnKeepsAccount | src/main/java/io/github/townyadvanced/townyprovinces/province_generation/PaintRegionAction.java:267-274 | a turn that stamps fresh cells or changes nothing keeps earlier owners and every brush's account |
| ProvinceGeneration.DropStep | src/main/java/io/github/townyadvanced/townyprovinces/province_generation/PaintRegionAction.java:109-127 | a province not yet deleted still has its original cells, and deleting it keeps the record |
| ProvinceGeneration.DroppedConsistent | src/main/java/io/github/townyadvanced/townyprovinces/province_generation/PaintRegionAction.java:124 | dropping provinces with their cells keeps the bookkeeping consistent |
| LandValidation.TallyTotal | src/main/java/io/github/townyadvanced/townyprovinces/jobs/land_validation/LandvalidationTask.java:130-149 | every sample is counted once, under its kind or as unrecognised |
| LandValidation.CountAll | src/main/java/io/github/townyadvanced/townyprovinces/jobs/land_validation/LandvalidationTask.java:130-149 | a kind's count equals the sample count exactly when every sample is of that kind |
| LandValidation.CountNone | src/main/java/io/github/townyadvanced/townyprovinces/jobs/land_validation/LandvalidationTask.java:130-149 | a kind's count is zero exactly when no sample is of that kind |
| LandValidation.ClassifySamples | src/main/java/io/github/townyadvanced/townyprovinces/jobs/land_validation/LandvalidationTask.java:152-158 | sea exactly when all 20 samples are water; wasteland exactly when some is not water and none is good land; civilized exactly when some is good land |
| LandValidation.ProportionsBounded | src/main/java/io/github/townyadvanced/townyprovinces/jobs/land_validation/LandvalidationTask.java:161-164 | each proportion lies in [0, 1], they sum to at most 1, and to exactly 1 when every sample was recognised |
| LandValidation.Samples | src/main/java/io/github/townyadvanced/townyprovinces/jobs/land_validation/LandvalidationTask.java:126-132 | exactly 20 samples, each of a cell of the province |
| LandValidation.Validated | src/main/java/io/github/townyadvanced/townyprovinces/jobs/land_validation/LandvalidationTask.java:151-167 | validation keeps the province's cells and clears its request |
| LandValidation.ClearSeenMeans | src/main/java/io/github/townyadvanced/townyprovinces/jobs/land_validation/LandvalidationTask.java:81-97 | a stop or restart was seen among the first k turns exactly when one of those statuses asked for it |
| LandValidation.ClearSeenMono | src/main/java/io/github/townyadvanced/townyprovinces/jobs/land_validation/LandvalidationTask.java:81-97 | once seen, a stop or restart stays seen |
| LandValidation.SweepTurnKeeps | src/main/java/io/github/townyadvanced/townyprovinces/jobs/land_validation/LandvalidationTask.java:72-105 | a completed turn keeps the sweep invariant |
| LandValidation.SweepStateStep | src/main/java/io/github/townyadvanced/townyprovinces/jobs/land_validation/LandvalidationTask.java:72-105 | a completed turn keeps keys and cells, clears what the sweep cleared, leaves the later provinces alone and aborts nowhere |
| LandValidation.SweepFatesStep | src/main/java/io/github/townyadvanced/townyprovinces/jobs/land_validation/LandvalidationTask.java:72-105 | after a completed turn, each province validated so far holds its outcome and every other one differs from the start only in its flag |
| LandValidation.SweepTurnAborts | src/main/java/io/github/townyadvanced/townyprovinces/jobs/land_validation/LandvalidationTask.java:73-76 | an aborted turn changes nothing, and it aborts exactly on a flagged province without cells met before any stop or restart |
| LandValidation.SweepEnds | src/main/java/io/github/townyadvanced/townyprovinces/jobs/land_validation/LandvalidationTask.java:61-109 | what the sweep invariant gives once the sweep completed or aborted: the provinces not reached are untouched, and no request remains after a completed run with the world or a stop/restart |
| LandValidation.FatesFromStart | src/main/java/io/github/townyadvanced/townyprovinces/jobs/land_validation/LandvalidationTask.java:21-33 | flagging every province before the sweep does not change the fates: each province ends as its outcome or as before but for its flag |
| LandValidation.AllValidated | src/main/java/io/github/townyadvanced/townyprovinces/jobs/land_validation/LandvalidationTask.java:21-33 | when every province was flagged, the world is present, nothing aborted and no stop or restart came, every province holds its outcome |
| LandValidation.FlagsSetStep | src/main/java/io/github/townyadvanced/townyprovinces/jobs/land_validation/LandvalidationTask.java:41-46 | setting one more province's flag keeps the flag sweep's invariant |
| LandValidation.LandValidationTask.constructor | src/main/java/io/github/townyadvanced/townyprovinces/jobs/land_validation/LandvalidationTask.java:21-33 | the job starts on the given provinces with nothing saved |
| LandValidation.LandValidationTask.SetLandValidationRequestsForAllProvinces | src/main/java/io/github/townyadvanced/townyprovinces/jobs/land_validation/LandvalidationTask.java:40-47 | every flag becomes `value`, nothing else changes, and exactly the provinces whose flag changed are saved, each once |
| LandValidation.LandValidationTask.SetLandValidationRequest | src/main/java/io/github/townyadvanced/townyprovinces/jobs/land_validation/LandvalidationTask.java:42-45 | one province's flag is set, and it is saved exactly when the flag changed |
| LandValidation.LandValidationTask.CountSamples | src/main/java/io/github/townyadvanced/townyprovinces/jobs/land_validation/LandvalidationTask.java:122-149 | the four counts are the tally of the 20 samples |
| LandValidation.LandValidationTask.DoLandValidation | src/main/java/io/github/townyadvanced/townyprovinces/jobs/land_validation/LandvalidationTask.java:117-174 | without a world nothing changes; with a world and no cell the call fails and nothing changes; otherwise the province takes its validation outcome and is saved |
| LandValidation.LandValidationTask.ExecuteLandValidation | src/main/java/io/github/townyadvanced/townyprovinces/jobs/land_validation/LandvalidationTask.java:61-109 | the sweep ends at the first flagged province without cells met with the world present before any stop/restart, leaving it and the later provinces untouched; otherwise it completes; no request remains after a completed run with the world, or after a stop/restart; with neither world nor stop/restart nothing changes; each province validated at its turn holds its outcome and every other one is as before but for its flag |
| LandValidation.LandValidationTask.Sweep | src/main/java/io/github/townyadvanced/townyprovinces/jobs/land_validation/LandvalidationTask.java:72-105 | the loop keeps the sweep invariant up to the turn where it ended, and ends early only at an aborting province |
| LandValidation.LandValidationTask.SweepTurn | src/main/java/io/github/townyadvanced/townyprovinces/jobs/land_validation/LandvalidationTask.java:72-105 | a flagged province is validated, or the turn aborts with nothing changed when it has no cell and the world is present; after a completed turn a stop or restart status clears every request; nothing else changes |
| LandValidation.LandValidationTask.Run | src/main/java/io/github/townyadvanced/townyprovinces/jobs/land_validation/LandvalidationTask.java:21-33 | the job aborts exactly when a flagged province without cells is met with the world present before any stop or restart; a completed job with a world leaves no request; with no world and no stop/restart the provinces are all flagged when none was pending, unchanged otherwise, and exactly the newly flagged ones were saved; every province holds its outcome or is as before but for its flag; when none was pending and the job completed with a world and no stop/restart, every province holds its outcome |
| LandValidation.LandValidationTask.AnyValidationsPendingScan | src/main/java/io/github/townyadvanced/townyprovinces/jobs/land_validation/LandvalidationTask.java:35-38 | the scan answers whether some province has its request set |
| JavaText.NatToString | src/main/java/io/github/townyadvanced/townyprovinces/data/DataHandlerUtil.java:50 | the decimal text is non-empty, all digits, without leading zero, and denotes the number |
| JavaText.IntToString | src/main/java/io/github/townyadvanced/townyprovinces/data/DataHandlerUtil.java:50 | the text starts with '-' exactly for negative numbers and is otherwise digits |
| JavaText.ParseInt | src/main/java/io/github/townyadvanced/townyprovinces/data/DataHandlerUtil.java:130-131 | a parsed value always fits a 32-bit int |
| JavaText.ParseIntToString | src/main/java/io/github/townyadvanced/townyprovinces/data/DataHandlerUtil.java:99-102 | printing an int and parsing it back gives the same value |
| JavaText.ParseBoolean | src/main/java/io/github/townyadvanced/townyprovinces/data/DataHandlerUtil.java:91 | only a four-letter text can read as true, and "true" in either case does |
| JavaText.ParseBooleanToString | src/main/java/io/github/townyadvanced/townyprovinces/data/DataHandlerUtil.java:51-52 | printing a boolean and parsing it back gives the same value |
| JavaText.JoinSplit | src/main/java/io/github/townyadvanced/townyprovinces/data/DataHandlerUtil.java:118 | joining the pieces of a split gives the text back |
| JavaText.SplitJoin | src/main/java/io/github/townyadvanced/townyprovinces/data/DataHandlerUtil.java:118 | splitting joined pieces without the separator gives the pieces back |
| JavaText.DropTrailingEmpty | src/main/java/io/github/townyadvanced/townyprovinces/data/DataHandlerUtil.java:118 | the kept pieces are a prefix ending in a non-empty piece, and only empty pieces are dropped |
| JavaText.JavaSplitJoin | src/main/java/io/github/townyadvanced/townyprovinces/data/DataHandlerUtil.java:118 | `split` of joined pieces whose last is non-empty gives the pieces back |
| DataHandler.CoordText | src/main/java/io/github/townyadvanced/townyprovinces/data/DataHandlerUtil.java:50 | the `x,z` text is non-empty, does not end in a comma and holds no `|` |
| DataHandler.UnpackCoord | src/main/java/io/github/townyadvanced/townyprovinces/data/DataHandlerUtil.java:128-133 | a parsed coordinate has int components |
| DataHandler.UnpackCoordText | src/main/java/io/github/townyadvanced/townyprovinces/data/DataHandlerUtil.java:50 | a home block written as `x,z` parses back to itself |
| DataHandler.WriteCoordsPrefix | src/main/java/io/github/townyadvanced/townyprovinces/data/DataHandlerUtil.java:67-74 | the writer's text for one more coordinate is the old text, a `|` unless first, and `x,z` |
| DataHandler.AllPresentMeans | src/main/java/io/github/townyadvanced/townyprovinces/data/DataHandlerUtil.java:120-123 | the parse of all pieces succeeds exactly when each does, and then holds exactly their values |
| DataHandler.AllPresentFails | src/main/java/io/github/townyadvanced/townyprovinces/data/DataHandlerUtil.java:121 | one piece that does not parse makes the whole parse fail |
| DataHandler.ParsedPieces | src/main/java/io/github/townyadvanced/townyprovinces/data/DataHandlerUtil.java:120-121 | each piece is parsed as a coordinate, in order |
| DataHandler.WriteCoordsSnoc | src/main/java/io/github/townyadvanced/townyprovinces/data/DataHandlerUtil.java:67-74 | writing one more coordinate appends its text, after a `|` unless it is the first |
| DataHandler.AllPresentSomes | src/main/java/io/github/townyadvanced/townyprovinces/data/DataHandlerUtil.java:116-125 | collecting present values gives the set of those values |
| DataHandler.ParsedTexts | src/main/java/io/github/townyadvanced/townyprovinces/data/DataHandlerUtil.java:128-133 | the written coordinate texts parse to the coordinates they came from |
| DataHandler.SplitWritten | src/main/java/io/github/townyadvanced/townyprovinces/data/DataHandlerUtil.java:117-118 | a non-empty written cell text is non-empty and splits at `|` into the coordinate texts |
| DataHandler.WriteUnpackCoords | src/main/java/io/github/townyadvanced/townyprovinces/data/DataHandlerUtil.java:115-126 | writing a province's cells and parsing the text back gives the set of its cells |
| DataHandler.SaveEntries | src/main/java/io/github/townyadvanced/townyprovinces/data/DataHandlerUtil.java:49-55 | a province is saved as exactly the six entries |
| DataHandler.OptionalInt | src/main/java/io/github/townyadvanced/townyprovinces/data/DataHandlerUtil.java:93-103 | a missing cost reads as 0; a present one is parsed |
| DataHandler.LoadData | src/main/java/io/github/townyadvanced/townyprovinces/data/DataHandlerUtil.java:89-105 | loading succeeds exactly when the home block parses and each present cost parses; missing flags read false, missing costs 0 |
| DataHandler.SaveLoad | src/main/java/io/github/townyadvanced/townyprovinces/data/DataHandlerUtil.java:46-113 | loading a saved province's entries gives back the same fields and the same set of cells |
| DataHandler.GetCoordsAsWriteableString | src/main/java/io/github/townyadvanced/townyprovinces/data/DataHandlerUtil.java:64-76 | the writer loop produces the `x,z|x,z` text of the cells in iteration order |
| DataHandler.UnpackCoords | src/main/java/io/github/townyadvanced/townyprovinces/data/DataHandlerUtil.java:115-126 | the parser loop gives the parsed set, or an error at the first piece that does not parse |
| DataHandler.DataHolder.constructor | src/main/java/io/github/townyadvanced/townyprovinces/data/DataHandlerUtil.java:78-85 | loading starts from no provinces and an empty cell index |
| DataHandler.DataHolder.IndexCells | src/main/java/io/github/townyadvanced/townyprovinces/data/DataHandlerUtil.java:110-112 | the index loop points every loaded cell at the new province |
| DataHandler.DataHolder.LoadProvince | src/main/java/io/github/townyadvanced/townyprovinces/data/DataHandlerUtil.java:87-113 | bad fields change nothing; otherwise the province is added, and its cells are indexed exactly when the cell text parses |

## Left out

- Floating point: the area and ideal-number computations (`calculateMaxNumberOfProvinces`, `calculateIdealNumberOfProvinces`, `calculateRegionAreaSquareMetres`) are not modelled. The maximum or ideal number of provinces is a parameter. The claim-limit test compares the claimed area exactly.
- The random home-block window is not modelled. Each random province's candidate positions are a parameter (`tryAt`). This includes the older engine's `xHighest = regionMaxX - r + 3` in block units, where the newer engine has `- 3`.
- `Coord.parseCoord` (block to chunk conversion of a home block), `BiomeUtil.getBiomeType`, the world lookup and `TownyProvincesMathUtil.distance` are not part of this model. Biomes, the world's presence and the distance function are parameters.
- File I/O is not modelled: `saveAllProvinces`, `loadAllProvinces`, `FileUtil` and `FileMgmt` reading and writing files. A province file is its map of entries.
- Locks, logging, progress percentages, the map refresh request and the task controller's status transitions (`stopTask`, `pauseTask`, `restartTask`) are left out. The job status read after each province is a parameter.
- The classes behind the model are not part of this model: `Province`, `TownyProvincesDataHolder`, `ProvinceClaimBrush`, `TPCoord` and `Region`. A province is an identity; its cells are derived from the ownership map; a brush is a value. In the province files, a province's identity is its position in the loaded list.
- The province fields beyond the ones the modelled code reads or writes are not modelled: the name, the type and the proportions outside land validation, and costs outside the files.
- The older engine's one-argument `deleteProvince` belongs to the data holder and is not part of this model. The model drops the province's cells from the map without returning them to the unclaimed index, as the call passes no unclaimed map.
- Hash set and hash map iteration orders are parameters, or an arbitrary choice. No property depends on a particular order.
- JavaText.ParseInt: accepts only ASCII digits, where Java also accepts other Unicode decimal digits.
- JavaText.ParseBoolean: folds letter case for ASCII only.
- LandValidation.LandValidationTask.ExecuteLandValidation: states that the save log only grows. It does not state which provinces were saved in which order.
- LandValidation.LandValidationTask.Run: when a request was pending at the start, or a stop or restart came, states each province's fate only as "its outcome, or as before but for its flag"; ExecuteLandValidation states which one, turn by turn.
- The exception a province without cells raises is modelled as the `false` result of the sweep and the job; what the scheduler does with the exception is not part of this model.
- ProvinceGeneration.PaintRegionAction.ExecuteAction: states only that generation can fail; when it fails, the painting state is whatever generation left.
- The map display actions, the region settings, the configuration nodes and the regeneration task controller are outside this model.
