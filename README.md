# Embroidery stitch-path tools, modelled in Dafny

The Embroidery repository is six stand-alone C++ tools that turn an image
into embroidery stitch paths. Every tool shares one data model. A path is a
list of integer steps `(x, y)`, and its absolute vertices are the running
sums of those steps from a fixed origin. The tools are:

- `path-evolving.c++`: a generational search over a population of
  four-colour bundles (`RGBW`: white, red, green and blue paths). It has
  mutate, grow and shrink operators and a proximity crossover. Fitness is a
  negated sum of squared channel differences minus a stitch cost.
- `path-guessing3.c++` and `path-guessing.c++`: hill climbers over one
  bundle. The operator is picked by a stage-gated table, and a candidate is
  kept only on a strict improvement.
- `path-filling.c++`: jumps to the nearest foreground pixel, walks along
  the contour of the foreground, and records one step per walk.
- `path-filling2.c++`: the same, but it skips regions smaller than
  `MINAREA` pixels and stops a walk once it strays from a straight line.
- `path-filling3.c++`: a back-and-forth scan fill driven by a six-mode
  state machine. Each region is entered at its top-left pixel.

## How the model is organised

Each Dafny module follows one part of the programs.

**Shared data**
- `Geometry`: steps, their prefix sums (`Pos`) and the net displacement (`Total`).
- `Paths`: `Path::mutate`, `grow` and `shrink`.
- `Bundles`: `RGBW`, `stitchCount`, the spiral `initPath` and `initPaths`.
- `PathText`: `savePaths`, modelled as the list of lines it writes, together with a parser that reads them back.

**Fitness**
- `Pixels`: the packed 32-bit pixel, kept as its four bytes with `Word` giving the 32-bit value.
- `Rating`: `rate` and the combined score.
- `Views`: the two `simulateRGBView` variants.

**Search drivers**
- `PathEvolving`: the individual, its operators and `cross`.
- `Population`: one generation of path-evolving's `main`.
- `Guessing`: the path-guessing.c++ hill climber.
- `Guessing3`: the path-guessing3.c++ hill climber.

**Fill tools**
- `Compass`: the `dirx`/`diry` table.
- `Contour`: the two turning loops of the contour walk.
- `Nearest`: the nearest-foreground scan.
- `Regions`: `remainingAreaRec`, `hasAreaAbove`, `moveToTopLeftRec` and `moveToTopLeft`.
- `PathFilling`, `PathFilling2` and `PathFilling3`: the `main` loops of the three fill tools.

**How the source's behaviour is represented**
- Imperative code stays imperative. The loops of `rate`, `simulateRGBView`, `generateRandomPath`, `initPath`, `cross`, the generation step, the hill climbs and all fill loops are Dafny methods with loop invariants. Each method is proved against a specification function or predicate.
- Paths and bundles are values, so copying a bundle never aliases.
- The population and the images are arrays. An image is an `array2<Pixel>` indexed `[x, y]`.
- Every `rand()` call becomes an explicit natural-number argument. The model reduces it with the source's own `%` expression.
- Rendering, and the floating-point stitch-direction rating, are function parameters.
- Where a C++ helper reads pixels without a bounds check, the model requires a background border instead.
  - The contour tools need every foreground pixel to be off the one-pixel border (`Contour.Framed`).
  - path-filling3 also needs every pixel with a non-zero blue byte to be off the border (`PathFilling3.Bordered`).

**Notes on the code as written**
- `grow` draws its insertion index from `[0, len - 1]` (`rand() % size`), so a step is never inserted after the last one. On an empty path it writes past the vector, so the model takes a non-empty path as a precondition.
- `mutate` moves the vertex after step `i`, which is vertex `i + 1` counting the origin as vertex 0.
- `shrink` folds step `i + 1` into step `i` and then deletes step `i + 1`.
- The crossover test compares the vertices after `ai + 1` and `bi + 1` steps. The splice joins the vertices after `ai` and `bi` steps. `PathEvolving.CrossBridgeUnbounded` shows the resulting bridge step is not bounded by `DEFAULT_STITCH`.
- `MINAREA` is 9 in path-filling2.c++ and 2 in path-filling3.c++. path-filling3.c++ defines `hasAreaAbove` but never calls it. The `Regions` model serves both files.

## Model

| member | source | states |
|---|---|---|
| Paths.Mutate | path-evolving.c++:42-54 | a path of fewer than 20 steps is returned unchanged; otherwise length, colour and total displacement are kept |
| Paths.MutateMovesOneVertex | path-evolving.c++:42-54 | for `i` in `[1, len-2]`, only the vertex after step `i` moves, and it moves by exactly `d`; every other absolute vertex keeps its position |
| Paths.MutateInverse | path-evolving.c++:50-53 | mutating the same waypoint by `-d` undoes a mutation by `d` |
| Paths.Grow | path-evolving.c++:56-70 | on a non-empty path, one step longer, same colour and same total displacement |
| Paths.GrowKeepsVertices | path-evolving.c++:60-69 | with insert index `k`, vertices `0..k` keep their index and position, the new vertex `k+1` lies at vertex `k` plus `d`, and old vertex `j > k` is now vertex `j+1` at the same position |
| Paths.Shrink | path-evolving.c++:72-80 | with fewer than 2 steps the path is unchanged; otherwise it is one step shorter with the same colour and total displacement |
| Paths.ShrinkKeepsVertices | path-evolving.c++:75-79 | removing vertex `i+1` leaves every other vertex at its absolute position (later ones shift down one index) |
| Paths.ShrinkUndoesGrow | path-evolving.c++:56-80 | shrink at `k` after grow at `k` restores the path exactly |
| Paths.GrowUndoesShrink | path-evolving.c++:56-80 | grow at `i`, with the removed step as offset, after shrink at `i` restores the path exactly |
| Paths.Offset | path-evolving.c++:47-48 | `rand() % (2 MAXSTITCH + 1) - MAXSTITCH` lies in `[-MAXSTITCH, MAXSTITCH]` |
| Paths.GenerateRandomPath | path-evolving.c++:236-259 | every kept step has components in `[-DEFAULT_STITCH, DEFAULT_STITCH]`; every vertex from the canvas centre lies on `[0,w) x [0,h)`; at most `w h / DEFAULT_STITCH` steps; the colour is the one given (path-guessing3.c++:283-306 is identical, path-guessing.c++:199-222 uses stitch 10) |
| Bundles.NewRGBW | path-evolving.c++:87-91 | the four paths have the colours white, red, green and blue and no steps |
| Bundles.StitchCountWithPath | path-evolving.c++:146-148 | `stitchCount` (the sum of the four lengths) changes by exactly the change in length of the one replaced path |
| Bundles.MutateOne | path-evolving.c++:113-119 | only the chosen path changes, by Path::mutate with the drawn values; stitch count and colours stay |
| Bundles.GrowOne | path-evolving.c++:124-130 | only the chosen path changes, by Path::grow; stitch count rises by one |
| Bundles.ShrinkOne | path-evolving.c++:135-141 | only the chosen path changes, by Path::shrink; stitch count drops by one unless that path has fewer than two steps |
| Bundles.LapTotal | path-evolving.c++:158-175 | one lap of the spiral (k right, k down, k+1 left, k+1 up) ends `(-d, -d)` from where it started |
| Bundles.SpiralShape | path-evolving.c++:157-177 | after `n` laps the spiral ends at `(-n d, -n d)`, has `4n^2 + 2n` steps, and every step is axis-aligned of magnitude `d` |
| Bundles.PushRun | path-evolving.c++:158-161 | one inner loop appends `n` copies of a step and moves the pen by `n` times that step |
| Bundles.SpiralLap | path-evolving.c++:158-175 | one pass of the `while(1)` body appends one lap and moves the pen by `(-d, -d)` |
| Bundles.Spiral | path-evolving.c++:150-177 | the loop appends whole laps; it stops after the first lap whose end is outside `[0,w] x [0,h]` and not before |
| Bundles.MutateEach | path-evolving.c++:179 | the `for(i < 100) mutate` loop equals Path::mutate folded over the draws, keeping length and displacement |
| Bundles.GrowEach | path-evolving.c++:180 | the `for(i < 200) grow` loop equals Path::grow folded over the draws: one step longer per draw, same displacement |
| Bundles.InitPath | path-evolving.c++:150-181 | the path gets the spiral appended, with laps the first lap count at which the pen leaves the image, then the mutates and grows; its length and displacement are given exactly |
| Bundles.InitPaths | path-evolving.c++:183-188 | each of w, r, g, b is what initPath makes of it on the w×h canvas (the spiral up to its first escape, then its own draws); colours stay, no path is empty, and at least 24 steps plus one per grow are added |
| Bundles.InitPathOfUnique | path-evolving.c++:150-181 | initPath's result is determined by the canvas, the distance and the draws: two results that both fit are equal |
| PathText.SavePaths | path-evolving.c++:190-199 | `4 + stitchCount` lines; the headers White, Red, Green and Blue sit at the section boundaries |
| PathText.StepLines | path-evolving.c++:192 | one `"x y"` line per step, in path order |
| PathText.ParseStepLine | path-evolving.c++:192 | the line printed for a step parses back to that step |
| PathText.ParseIntToString | path-evolving.c++:192 | the decimal an int prints as parses back to that int, negative values included |
| PathText.HeaderIsNotStep | path-evolving.c++:191-197 | a colour header never parses as a step line |
| PathText.ReadSectionLines | path-evolving.c++:191-198 | a header followed by step lines reads back as those steps, stopping at the next non-step line |
| PathText.SavedRoundTrip | path-evolving.c++:190-199 | reading the saved lines back gives exactly the four step lists in the order w, r, g, b |
| Pixels.Word | path-evolving.c++:393 | the pixel is the 32-bit word with red in the low byte, then green, blue and alpha |
| Pixels.WordInjective | path-evolving.c++:393 | distinct pixels are distinct words |
| Pixels.Pack | path-evolving.c++:284-288 | the word `r + g 0x100 + b 0x10000 + 0xff000000` has those channels and alpha `0xff` |
| Pixels.StitchedColour | path-filling.c++:159 | the colour `0xff800000` has red byte 0 (background) and blue byte `0x80` |
| Pixels.RejectedColour | path-filling2.c++:190 | the colour `0xff00ff00` has red byte 0 |
| Pixels.Mark | path-filling2.c++:69 | `|= 0x0100` sets the low bit of green only and is idempotent |
| Pixels.ClearGreen | path-filling2.c++:88 | `&= 0xffff00ff` zeroes green and keeps red, blue and alpha |
| Rating.Delta | path-evolving.c++:217-226 | the squared channel difference is zero exactly when red, green and blue agree |
| Rating.RateRow | path-evolving.c++:216-227 | the inner loop subtracts the scaled differences of columns `1..w-2` of the row |
| Rating.Rate | path-evolving.c++:209-234 | the result is minus `pixelCost` times the sum of squared channel differences over rows `1..h-2` and columns `1..w-2`, and at most 0 (pixelCost 1 here and in path-guessing.c++:172-197; PIXEL_COST 10 in path-guessing3.c++:254-281) |
| Rating.RateZeroIff | path-evolving.c++:215-227 | the difference sum is 0 exactly when the two images agree on every channel of every interior pixel |
| Rating.RateIgnoresBorder | path-evolving.c++:215-216 | images that agree on the interior rate the same: row and column 0 and the last row and column are never read |
| Rating.Score | path-evolving.c++:442 | `rate - stitchCount STITCH_COST` is at most `rate`, and equal to it exactly when there are no stitches or no cost |
| Views.BlockMean | path-evolving.c++:285-287 | each channel of the block mean lies in `[0, 255]` |
| Views.BlockPixel | path-evolving.c++:284-288 | the output pixel has alpha `0xff` and each channel is the floor mean of its `SCALE x SCALE` block |
| Views.SumBlock | path-evolving.c++:274-282 | the two inner loops compute the three channel sums of the block |
| Views.BlockCell | path-evolving.c++:274-288 | one output pixel is the block mean pixel |
| Views.BlockViewRow | path-evolving.c++:273-289 | one row of dst becomes block means and every other row is unchanged |
| Views.BlockViewInto | path-evolving.c++:268-294 | every pixel of dst is the mean of its block of src |
| Views.BlockView | path-guessing.c++:231-258 | a fresh `(w/SCALE) x (h/SCALE)` image whose every pixel is the mean of its block |
| Views.BlockUniform | path-evolving.c++:276-288 | a block of one colour reproduces that colour |
| Views.CentreInside | path-guessing3.c++:328-331 | the centre sample of every output pixel's window is in bounds |
| Views.WinFullCount | path-guessing3.c++:324-338 | `count` is at least 1, so there is no division by zero, and at most `(2 SCALE + 1)^2` |
| Views.WinMean | path-guessing3.c++:340-344 | each channel mean lies in `[0, 255]` |
| Views.WindowPixel | path-guessing3.c++:340-344 | alpha `0xff`, and each channel is the floor mean over the in-bounds samples of the centred window |
| Views.SumWindow | path-guessing3.c++:322-338 | the window loops compute the three channel sums and the count of in-bounds samples |
| Views.WindowCell | path-guessing3.c++:322-344 | one output pixel is the window mean pixel |
| Views.WindowViewRow | path-guessing3.c++:321-345 | one row of the output becomes window means and every other row is unchanged |
| Views.WindowView | path-guessing3.c++:315-350 | a fresh `(w/SCALE) x (h/SCALE)` image whose every pixel is the mean of its window |
| Views.WindowUniform | path-guessing3.c++:326-344 | a window whose in-bounds pixels have one colour reproduces that colour |
| PathEvolving.NewIndividual | path-evolving.c++:87-94 | a fresh bundle has no steps and quality `NO_QUALITY` |
| PathEvolving.Mutate | path-evolving.c++:113-122 | the bundle mutate on channel `rand() % 4`, and the quality becomes `NO_QUALITY` |
| PathEvolving.Grow | path-evolving.c++:124-133 | the bundle grow on channel `rand() % 4`; the quality becomes `NO_QUALITY` |
| PathEvolving.Shrink | path-evolving.c++:135-144 | the bundle shrink on channel `rand() % 4`; the quality becomes `NO_QUALITY` |
| PathEvolving.OperatorsTouchOnePath | path-evolving.c++:113-144 | every unchosen path and all colours are unchanged; mutate keeps the stitch count, grow adds one, shrink never adds |
| PathEvolving.PointsRow | path-evolving.c++:321-329 | every pair collected by the inner loop has the current `ai` and a `bi` below the bound |
| PathEvolving.PointsRowIff | path-evolving.c++:321-329 | `(ai, bi)` is collected by the inner loop exactly when `bi < n` and the vertices after `ai+1` and `bi+1` steps are closer than `DEFAULT_STITCH` on each axis |
| PathEvolving.PointsIff | path-evolving.c++:314-330 | the same for the outer loop's first `m` rows |
| PathEvolving.CrossPoints | path-evolving.c++:314-330 | `possiblePoints` holds exactly the index pairs that pass the per-axis proximity test |
| PathEvolving.SpliceShape | path-evolving.c++:336-359 | the spliced path has `ai + 1 + len(B) - bi` steps, follows A's vertices up to `ai`, then B's from `bi`, and ends where B ends |
| PathEvolving.CrossCopiesA | path-evolving.c++:296-332 | the result is A with quality `NO_QUALITY` and A's three unchosen paths and colours; with no candidate pair the chosen path is A's too |
| PathEvolving.CrossSplices | path-evolving.c++:332-359 | with candidates, the picked pair passes the test and the chosen path has the spliced length, B's total displacement and A's colour |
| PathEvolving.CrossBridgeUnbounded | path-evolving.c++:325-355 | the test and the splice look at different vertices: there are paths whose pair passes the test while the bridge step is ten stitches long |
| PathEvolving.CollectRow | path-evolving.c++:321-329 | the inner loop appends exactly that row's candidate pairs |
| PathEvolving.CollectPoints | path-evolving.c++:314-330 | the nested loops build exactly the candidate list |
| PathEvolving.SpliceSteps | path-evolving.c++:336-359 | the `pop_back` and `push_back` loops build exactly the splice of A and B at the pair |
| PathEvolving.Cross | path-evolving.c++:296-362 | the method computes the specified crossover |
| Population.EvaluatedScore | path-evolving.c++:438-444 | evaluation keeps the paths and any cached quality; a stale candidate gets `rate - stitchCount STITCH_COST`, and stays stale only if that score equals the sentinel |
| Population.Evaluate | path-evolving.c++:438-444 | every slot of the population array is evaluated in place |
| Population.SortByQuality | path-evolving.c++:446-448 | the array ends ordered non-decreasing by quality and is a permutation of its old contents |
| Population.InsertOne | path-evolving.c++:446-448 | one insertion step extends the sorted prefix, keeps the multiset and leaves the rest alone |
| Population.Swap | path-evolving.c++:446-448 | exchanging two neighbours changes only those two slots and keeps the multiset |
| Population.Parent | path-evolving.c++:467 | `N/2 + rand() % (N/2)` indexes the upper half |
| Population.MutateMany | path-evolving.c++:471 | ten bundle mutates keep the stitch count and colours and leave the candidate stale |
| Population.GrowMany | path-evolving.c++:474 | ten bundle grows add one stitch each and leave the candidate stale |
| Population.OffspringFacts | path-evolving.c++:466-488 | the offspring is stale and non-empty, has its parent's colours, and its stitch count follows the `sel` threshold chain (10, 20, 40, 60 and 80) |
| Population.OffspringReadsUpperHalf | path-evolving.c++:467-487 | the offspring depends only on the upper half of the population |
| Population.MakeOffspring | path-evolving.c++:466-488 | the loop body builds the specified offspring |
| Population.ReplaceLowerHalf | path-evolving.c++:465-489 | slot `i < N/2` becomes the offspring of the old population; the upper half is unchanged |
| Population.Generation | path-evolving.c++:438-489 | one generation: evaluate, sort, then replace; the upper half is sorted, every lower slot is `NO_QUALITY`, and the result matches some sorted permutation of the evaluated population |
| Population.InitPopulation | path-evolving.c++:418-423 | `POPULATION_SIZE` fresh, stale, non-empty candidates in the fixed colours, each with at least `24 + 4 * 200` stitches, and each path of slot `i` is initPath of an empty path with distance `5 DEFAULT_STITCH` and that slot's draws |
| Population.NewIndividual | path-evolving.c++:420-422 | `RGBW()` followed by `initPaths` is non-empty and stale, and each of its four paths is initPath of the empty path of that colour with distance `5 DEFAULT_STITCH` and its own draws |
| Guessing.StageMax | path-guessing.c++:94-101 | `max` is 2, 4, 6 and 8 for stages 0 to 3, and 8 afterwards |
| Guessing.StageMutateDispatch | path-guessing.c++:103-111 | choice `c`: even means grow and odd means mutate, on path `c/2`; the other paths are unchanged, and the stitch count never decreases |
| Guessing.StageZeroTouchesWhite | path-guessing.c++:96-105 | at stage 0 only the white path can change |
| Guessing.InitRGBW | path-guessing.c++:119-154 | initPaths gives each path the spiral of step 50 up to its first escape from the w×h canvas, with no perturbation |
| Guessing.IterateAccepts | path-guessing.c++:319-329 | `n` replaces `rgbw` exactly when `rate(n) - stitchCount(rgbw) STITCH_COST` is strictly greater than the kept quality; the quality never decreases and the stage grows by one |
| Guessing.ClimbMonotone | path-guessing.c++:312-329 | over any number of iterations the kept quality never decreases, the stitch count never decreases and the colours stay |
| Guessing.HillClimb | path-guessing.c++:301-329 | the loop from the initial quality computes the specified climb |
| Guessing3.StageMax | path-guessing3.c++:109-116 | `max` is 2, 4, 6 and 8 for stages 0 to 3, and 12 afterwards |
| Guessing3.StageMutateDispatch | path-guessing3.c++:118-131 | choice `c`: `c % 3` picks grow, mutate or shrink on path `c/3` in the order w, r, g, b; the other paths are unchanged |
| Guessing3.EarlyStagesTouchFewPaths | path-guessing3.c++:110-131 | the path that can change is `c / 3`: stage 0 touches only white, green stays untouched through stage 2, and blue through stage 3 |
| Guessing3.InitRGBW | path-guessing3.c++:138-173 | initPaths gives each path the spiral of step `5 DEFAULT_STITCH` up to its first escape from the w×h canvas, with no perturbation |
| Guessing3.IterateAccepts | path-guessing3.c++:486-498 | `n` replaces `rgbw` exactly when `rate(n) + direction(rgbw)` strictly exceeds the kept quality; the direction term is computed on `rgbw`, not `n`; the quality never decreases |
| Guessing3.ClimbMonotone | path-guessing3.c++:479-498 | over any number of iterations the kept quality never decreases and the stage counts the iterations |
| Guessing3.ClimbStep | path-guessing3.c++:479-498 | one more draw is one more loop iteration |
| Guessing3.HillClimb | path-guessing3.c++:468-498 | the loop from quality `-999999999999999` computes the specified climb |
| Compass.DirX | path-filling.c++:52-55 | `dirx` lies in `[-1, 1]` |
| Compass.DirY | path-filling.c++:57-60 | `diry` lies in `[-1, 1]` |
| Compass.EightNeighbours | path-filling.c++:52-60 | the eight directions give the eight distinct non-zero neighbour offsets, and the table repeats with period 8 |
| Compass.Opposite | path-filling.c++:52-60 | direction `d + 4` is the negated offset of `d` |
| Compass.Turns | path-filling.c++:161-162 | `(dir + 7) % 8` and `(dir + 1) % 8` stay in `[0, 8)`, and `dirx(dir + 1)` agrees with `dirx((dir + 1) % 8)` |
| Contour.CcwFinds | path-filling.c++:161 | the counter-clockwise loop (at most 9 tries) ends facing foreground exactly when some neighbour is foreground |
| Contour.CwStopsEarly | path-filling.c++:162 | with a background neighbour, the unbounded clockwise loop stops within 8 turns |
| Contour.TurnedFacts | path-filling.c++:161-162 | after both loops the heading is in `[0, 8)`, faces foreground exactly when there is any, and the next heading clockwise faces background |
| Contour.Turn | path-filling.c++:161-162 | the two loops compute the specified heading |
| Nearest.NearestIsNearest | path-filling.c++:129-144 | the scan finds a foreground pixel of least squared distance below 999999999, the first such in row-major order, or reports none |
| Nearest.DistWithinImage | path-filling.c++:136 | no distance within the image exceeds `(w-1)^2 + (h-1)^2` |
| Nearest.CloserNeighbour | path-filling.c++:136-137 | unless the pixel is the cursor itself, its neighbour one step towards the cursor is strictly closer; this is why the nearest foreground pixel has a background neighbour |
| Nearest.ScanRowLoop | path-filling.c++:134-143 | the inner loop updates the best candidate exactly as specified for one row |
| Nearest.NearestForeground | path-filling.c++:129-144 | the nested loops compute the specified nearest pixel |
| PathFilling.StartHasBgNeighbour | path-filling.c++:128-148 | the nearest foreground pixel is interior and has a background neighbour, so the contour turn terminates |
| PathFilling.StitchPixel | path-filling.c++:159 | only the current pixel changes, to `0xff800000` |
| PathFilling.StitchTurn | path-filling.c++:159-162 | the pixel is stitched and the heading becomes the specified turn |
| PathFilling.StepOn | path-filling.c++:159-164 | the cursor moves one pixel in the new heading; if it lands on foreground, that pixel is interior and has a background neighbour |
| PathFilling.Walk | path-filling.c++:158-166 | at most `MAXSTITCH` moves, the first pixel is stitched, only foreground pixels become stitched, and the foreground strictly shrinks |
| PathFilling.Telescope | path-filling.c++:168-170 | pushing `(cx - ox, cy - oy)` then setting `(ox, oy) := (cx, cy)` keeps the steps summing to the cursor minus the first start |
| PathFilling.Round | path-filling.c++:128-170 | one pass of `while(running)`: either the foreground strictly shrinks and one step is recorded, or no foreground is within range and nothing changes |
| PathFilling.Fill | path-filling.c++:115-170 | the loop ends; only foreground pixels were stitched; no foreground remains within range; the steps sum to the end cursor minus the first start, which is the nearest foreground pixel to (0, 0) |
| PathFilling.FillCoversSmallImages | path-filling.c++:128-170 | on images small enough for the 999999999 bound, every foreground pixel ends stitched and every other pixel is unchanged |
| Regions.RemainingAreaRec | path-filling2.c++:66-83 | with `area <= 0` it returns 0 and marks nothing; otherwise it returns a value in `[0, area-1]` and marks exactly `area - result` distinct pixels of the open region, starting at `(x, y)`; if budget remains, it marked the whole region |
| Regions.VisitNeighbour | path-filling2.c++:72-80 | one neighbour visit keeps the entered pixels a chain and uses the budget for exactly the pixels it marks |
| Regions.ClosedIsLargest | path-filling2.c++:66-83 | a closed search holds every pixel reachable from its start, so no region is larger |
| Regions.ClearMarks | path-filling2.c++:86-90 | every pixel's green byte is zeroed and nothing else changes |
| Regions.HasAreaAbove | path-filling2.c++:85-93 | true exactly when the 8-connected foreground region of `(x, y)`, start included, has at least `area` pixels; red, blue and alpha keep their values |
| Regions.MoveToTopLeftRec | path-filling3.c++:85-101 | visits the whole open region from `(sx, sy)`, marks exactly it, and leaves `(x, y)` at its earliest pixel in row-major order, never later than before |
| Regions.MoveToTopLeft | path-filling3.c++:103-111 | the result is the first pixel in row-major order of the region reached from the start; it is foreground; only green bytes change |
| PathFilling2.WalkLength | path-filling2.c++:212 | `maxStitch` lies in `[MINSTITCH, MAXSTITCH)` |
| PathFilling2.CheckArea | path-filling2.c++:188-193 | `hasAreaAbove` on the nearest candidate is true exactly when its region has `MINAREA` pixels; red bytes and the foreground are unchanged |
| PathFilling2.Check | path-filling2.c++:175-193 | one search pass: the nearest candidate and whether its region is large enough |
| PathFilling2.Reject | path-filling2.c++:189-191 | a rejected candidate is overwritten with `0xff00ff00`, so the foreground strictly shrinks; no other pixel changes |
| PathFilling2.Search | path-filling2.c++:168-194 | the do-while ends with the nearest candidate whose region has `MINAREA` pixels, or none |
| PathFilling2.FindStart | path-filling2.c++:161-194 | the same from the tool's state: only foreground pixels are painted and the foreground never grows |
| PathFilling2.Hop | path-filling2.c++:215-229 | one move; the walk stops exactly when the squared distance from `start + i dir(startDir)` exceeds 9 or the cursor lands on background |
| PathFilling2.Follow | path-filling2.c++:214-230 | between 1 and `maxStitch` moves; every earlier position stays within the error bound; a walk ended early broke the bound or left the foreground |
| PathFilling2.Walk | path-filling2.c++:208-230 | the walk stays within `maxStitch` of its start, stitches only foreground, and strictly shrinks it |
| PathFilling2.Resume | path-filling2.c++:161-206 | a foreground cursor stays put; otherwise the search either finds a large enough start or reports that no foreground is within range |
| PathFilling2.Stride | path-filling2.c++:208-230 | one walk strictly shrinks the foreground and leaves the cursor inside |
| PathFilling2.Round | path-filling2.c++:161-234 | one pass of `while(running)`: the foreground shrinks and one step is recorded, or nothing is left within range and nothing changes |
| PathFilling2.Fill | path-filling2.c++:148-234 | the loop ends; only foreground was painted; no foreground remains within range; the steps sum to the end cursor minus the first start |
| PathFilling3.Code | path-filling3.c++:209-215 | the six modes are the constants 0 to 5 |
| PathFilling3.Tick | path-filling3.c++:229-296 | one pass of the `switch`. Only RIGHT and LEFT write, and only the current pixel, to `0xff800000`. Overscan and backscan move `cx` by one. `cy` moves down by one only in RIGHT and LEFT. Every transition is one the table allows. A pass that would read outside the image is reported as a fault. |
| PathFilling3.FindStart | path-filling3.c++:113-151 | With no foreground within range it returns false and changes nothing. Otherwise it moves to the top-left pixel of the nearest region, sets `(ox, oy)` to it, and appends the jump only when `ox > 0`. Only green bytes change. |
| PathFilling3.PlacedSafe | path-filling3.c++:229-296 | on a bordered image, a cursor on foreground, or under an interior pixel in backscan, never reads outside the image |
| PathFilling3.StitchOn | path-filling3.c++:230-242 | a stitching pass keeps the invariant and strictly shrinks the foreground |
| PathFilling3.SlideOn | path-filling3.c++:243-262 | an overscan or backscan pass changes no pixel and moves the scan closer to its end |
| PathFilling3.TickOn | path-filling3.c++:229-296 | every pass that does not ask for a jump keeps the cursor placed and lowers the progress measure |
| PathFilling3.Restart | path-filling3.c++:259-260 | the jump after a failed backscan either lands on a fresh region in RIGHT mode or finds no foreground within range |
| PathFilling3.Pass | path-filling3.c++:229-296 | one pass, with the jump when asked for: the scan goes on and progresses, or it is finished |
| PathFilling3.Round | path-filling3.c++:226-296 | up to `maxStitch` passes; stops when the scan is exhausted (the corrected loop) |
| PathFilling3.Begin | path-filling3.c++:205-217 | the first `findStart` from `(0, 0)` with `ox = oy = -1` records no step |
| PathFilling3.Stretch | path-filling3.c++:226-301 | one pass of `while(running)` then the push: the steps sum to the cursor minus the first start |
| PathFilling3.Fill | path-filling3.c++:205-301 | the loop ends; only foreground pixels become `0xff800000` (other pixels keep red, blue and alpha); no foreground remains within range; the steps sum to the end cursor minus the first start, the top-left pixel of the region nearest to (0, 0) |
| PathFilling3.ScanCoversSmallImages | path-filling3.c++:205-301 | on images small enough for the 999999999 bound, every foreground pixel ends stitched |
| PathFilling3.NothingNear | path-filling3.c++:118-131 | an image with no foreground makes `findStart` fail |
| PathFilling3.RoundAsWritten | path-filling3.c++:228-296 | the loop as written: after a stranded backscan it keeps running in RIGHT mode and reaches a read below the image |
| PathFilling3.OverrunWitness | path-filling3.c++:228-296 | on a 3 x 3 image whose only foreground pixel is the centre, the loop as written reads outside the image |

## Left out

- Rendering: `Path::render` and `RGBW::render` draw through SDL's line renderer. Each driver takes the pixel rating of a bundle (render, downsample, `rate`) as a function parameter.
- The SDL window, blitting, event polling and the `SDL_QUIT` handling are left out, so each `while(running)` of the optimisers is modelled as a run over a finite sequence of draws.
- Image loading (`IMG_Load`, conversion by blit) and writing the `.p` file via `ofstream` are I/O. `savePaths` is modelled only as the list of lines it produces.
- `rand()`: every draw is an explicit argument, reduced with the source's own `%`. The probabilities of the draws are not modelled.
- `time()`, the once-a-second status printing and the periodic save are left out.
- CLI parsing, including the `argv` index mismatches at path-filling2.c++:101/115 and path-filling3.c++:159/173, is left out.
- Floating point: `findEdges` and `rateStitchDirection` in path-guessing3.c++ are replaced by an integer-valued function parameter.
- Bundles.Spiral: `initPath` keeps the pen position in `float`. The model uses integers, which agree with it for every coordinate below 2^24.
- Machine integers: every quantity is an unbounded integer. Not modelled: the `int64_t`/`uint64_t` mix of `stitchCount() * STITCH_COST` (path-evolving.c++:442), `int` overflow of the squared distances and step sums, and the `size_t` arithmetic of `mutate` on short vectors.
- Paths.Grow: the `std::copy` in path-guessing3.c++:66 and path-guessing.c++:61 runs one element past the vector, and an empty path writes `steps[1]`. The model states the intended shift and requires a non-empty path. Every caller keeps its bundle non-empty, since `initPaths` seeds each path with a spiral.
- The `Path` edits are in-place vector operations, modelled on values. Aliasing cannot arise, because bundles are copied whole.
- Population.SortByQuality: `std::sort` is modelled by an insertion sort. The contract is only what `std::sort` promises: sorted, and a permutation. The order among equal qualities is left open, and `Population.Generation` says "some sorted permutation".
- Out-of-bounds reads are handled differently per tool:
  - path-evolving.c++ returns the `badpixel` global for coordinates off the surface, modelled as pixel 0.
  - The other tools read raw memory. Their models require in-bounds coordinates, or a background border for the fill tools (`Contour.Framed`, `PathFilling3.Bordered`).
- Because of the border requirement, pixel (0, 0) is never foreground. So the case where the first recorded origin is `(-1, -1)` cannot occur in the fill models.
- PathFilling3.FindStart: the `ox > 0` test drops the jump from `ox = -1` at the first start. Under the border requirement, every later `ox` is at least 1. So the model's step sum is exact, and a dropped jump from column 0 cannot happen.
- PathFilling3.Tick: a pass that would read outside the image is reported as a fault and changes nothing. Any write the C++ makes before such a read is not modelled.
- The recursion depth of `remainingAreaRec` and `moveToTopLeftRec` (stack overflow on large regions) is not modelled.
- The bound 999999999 of the nearest-foreground search is modelled as written. On large images a far foreground pixel is never found, so full coverage is proved only for small images (`PathFilling.FillCoversSmallImages`, `PathFilling3.ScanCoversSmallImages`).
- Population.InitPopulation, Population.NewIndividual, Guessing3.InitRGBW: `DEFAULT_STITCH` is read from the command line without validation (path-evolving.c++:374, path-guessing3.c++:425). These members require it to be non-zero. With 0, the spiral pen of initPath never moves, so its `while(1)` (path-evolving.c++:157-177) never breaks. A negative value gives a mirrored spiral, which the model covers.
- Paths.GenerateRandomPath: requires `DEFAULT_STITCH >= 1`. With 0, `s->w * s->h / DEFAULT_STITCH` (path-evolving.c++:245) divides by zero. With a negative value, C++'s truncating `/` and `%` on negative operands are not modelled.
- Contour.CwStopsEarly: the clockwise loop of the contour walk has no bound. The model needs a background neighbour for it to stop, and shows that every cursor the walk reaches has one.

## Findings

| source | as written | input that shows it | evidently intended | confidence | as-written member | corrected member |
|---|---|---|---|---|---|---|
| path-filling3.c++:259-260 | when `findStart` fails inside a backscan, `running` becomes false but the `for` loop of line 228 goes on in `MODE_RIGHT`: it stitches background, moves `cy` down and reads below the image | a 3 x 3 image whose only foreground pixel is the centre (1, 1): pass 1 stitches it and drops to (1, 2) in backscan; in pass 2 nothing lies above, `findStart` fails and the mode becomes RIGHT; pass 3 stitches the background pixel (1, 2) and reads (1, 3), below the image | the pass loop stops as soon as `findStart` reports that nothing is left | not executed | PathFilling3.OverrunWitness | PathFilling3.Round |
