# AnimatedEyes, verified

This project models the parts of AnimatedEyes whose behaviour is hardest to see from the code, and
proves what they promise. `dafny verify dfyconfig.toml` (Dafny 4.11) checks all of it.

**The renderer and animation engine** (`src/eyes/EyeController.h`, `src/eyes/eyes.h`).
- `EyeController` is the controller as a class: its methods update the gaze, the pupils and the lids in
  place and draw frames. Every method is tied to a function on values, about which whole runs are proved.
- `Renderer` is the drawing of one eye onto a framebuffer. A frame repaints only the strip of each column
  that may have changed, with a four-way case split and integer factors hoisted out of the loop. The
  display is proved to hold the full picture afterwards, also where the lids overlap, after a change of
  definition and after any blinks or openness requests made between frames. What makes this true frame
  after frame is part of `Renderer.Eye.Valid`: the display shows the last frame's lids, or all of it is
  due to be redrawn.
- `Sampling` says what a pixel shows, by turning a map point back to the first quadrant, and proves the
  symmetries of that and that every table and texture is read in range and within 32 bits.
- `Tracking` is where the pupil is on screen, for lids that follow it, and when that is outside their tables;
  a run of automatic movement that leads there is given.
- `Lids`, `Pupils` and `Gaze` are the moving parts on values; `LidRuns` and `GazeRuns` (and the end of
  `Pupils`) prove properties of every run, on a 32-bit clock that wraps, against unbounded times.
- `FrameRuns` is the main loop with nothing to do but draw. Call after call, what the controller does in place
  is a run of `GazeRuns` and, for each eye, one of `LidRuns`, from the constructor on.

**The table generator** (`resources/eyes/240x240/`).
- `PolarMap` fills the polar tables in place. The slit-pupil search that starts from a neighbour's value is
  proved to find what a search from the first circle finds, through the geometry of nested circles.
- `GeneratedEyes` joins generator and renderer: which part of the eye a pixel shows is decided by its
  place, and a round pupil is drawn as a disc.
- `Displacement` fills the displacement table; with the renderer it is proved to show, at every pixel, the point
  of the sphere that is there.
- `EyelidTable` scans eyelid images, `HexTable` prints tables, `Merge` merges configurations in place.

**The protocols.** `SensorLink` and `EndpointResolver` are the two polling state machines. `Text`, `Fields`,
`Commands` and `Decimals` are the message texts, from the API's printers to the parser. `Endpoints` is the
Master server's table of dotted names.

`Arithmetic`, `Clock` and `Options` hold what the others share.

## How the code is read

- A float is a `real`. Casts to integers truncate towards zero (`Arithmetic.Trunc`), also in the bounds
  of `random()`, which takes whole numbers even where floats are passed. A square root is a function that is
  non-negative and squares to its argument. Half of pi, the sine, the arc of a point of the sphere, the iris
  radius in map pixels and the polar angle formula are parameters.
- A clock reading and a random draw are parameters. A raw draw is cut off to `[lo, hi)`, or is `lo` where
  that is empty, so that "for every draw" covers every outcome. Readings are 32 bits wide in the eyes, where
  the run lemmas keep true times beside them, and unbounded in the network code, which keeps 64 bits.
- A display is a framebuffer. The tables of an eye definition can hold any values of the shapes and ranges in
  `EyeTypes.Definition`, with a pupil that never takes all of the iris; the generator's tables are shown to
  meet them.
- What C++ leaves undefined is kept apart. The code does not check that it reads the lid tables within their
  ends: what is read past them is a parameter of the frame, any two bytes. A float too large for an integer
  becomes any value.
- Sockets and the background lookup are what each poll is told: whether a lookup is pending, found or failed,
  whether connecting and sending succeed, and what has been received.
- How a number is printed and read is a parameter of the command texts. The round trips ask of each number
  that it prints as a word that can be read, and say that what is read arrives. `Commands.NumberArrives` shows
  this of every number that `%g` prints without an exponent, and how close what arrives is, for a reader of
  plain decimals.

## What the proofs found

- `openness()` compares a 32-bit elapsed time. Lids that were told to stay somewhere replay that movement
  each time the clock wraps (every 49.7 days): eyes closed for good are wide open for a moment.
  `LidRuns.ClosedLidsFlashOpen` is such a run, `LidRuns.SettledExactlyWhen` the exact condition.
- A hold is kept exactly if its movement and its hold time together are at most 2^31 ms. A longer one
  can end early: at once, if a frame comes soon enough, and from 2^32 ms on at a frame a clock wrap before its
  deadline
  (`LidRuns.HoldIsKeptExactlyWhen`, `LidRuns.LongHoldEndsEarly`).
- `setOpenness` with a duration of 0 jumps, exactly when it changes anything (`Lids.SettingIsContinuous`).
- Lids that track the pupil are looked up in the column of the pupil, cut to a byte. That reads past the lid
  tables exactly for a pupil 120 to 135 pixels off the middle, but for multiples of 256
  (`Tracking.InTableExactlyWhen`), and then what is there decides how open the lids are, if the pupil's row
  is from 1 to 255 (`Tracking.StrayDecidesExactlyWhen`). For the usual sizes, targets and positions that are
  set stay clear of it, as do big saccades with up to nine microsaccades after them
  (`Tracking.UsualDriftIsInTable`). But eyes left to themselves can get there: a big saccade to the edge and 13
  microsaccades the same way do it in 643 ms (`Tracking.DriftReadsPast`).
- Blinks are drawn as with unbounded times, for frames at most a given gap apart, exactly if the gap is at most
  2^32 - 198 ms (`LidRuns.RefinesExactlyWhen`, and `LidRuns.SlowFramesReplay` for a run one ms beyond). In any
  one run they are exactly if no frame falls into a replay of its phase (`LidRuns.RunRefines`).
- The time to the next automatic blink is cut to 32 bits, so for mean intervals near 2^31 ms it can be over before
  the blink is (`EyeController.GapCutShort`; `EyeController.BlinkIsOverExactlyWhen` is the exact condition).
- A number sent to the eyes loses what is beyond six digits: it arrives as itself exactly if it has no more
  (`Decimals.SentIsClose`).
- The number of microsaccades between big ones fits the interval drawn, in every run, exactly if no pauses
  between frames can let the clock wrap before the next big one, or gazes are too short for any
  (`GazeRuns.CountsExactlyWhen`). The drift bound per microsaccade holds whatever the times.
- The check that a single eye does not set a shared parameter looks for one literally called "key". An eye
  with a radius of its own gets through (`Merge.RadiusSlipsThrough`); `Merge.SharedIsRefusedExactlyWhen` says
  which are refused.
- A reply that starts with a blank is not taken for an error, whatever its first word
  (`SensorLink.IsErrorExactlyWhen`).
- The slit search needs no relation between slit and iris to agree with brute force; only the nesting of the
  circles does. Its warning about values out of range cannot be reached.
- The fixed-point factor of the iris fits 32 bits for every iris that shows, but not for one too thin to show
  (`Sampling.FactorFitsExactlyWhen`, `Sampling.ThinIrisOverflows`).
- The sclera's stored values are 0 to 126, not 0 to 127 as a comment has it, and the default number of
  columns of a hexadecimal table is 16, not 12; here the code is followed.
- A merge stops with an error exactly where a non-empty dictionary meets a plain value; an empty one leaves
  the plain value as it is.

## Model

| member | source | states |
|---|---|---|
| Renderer.RenderEye | src/eyes/EyeController.h:349-547 | whatever strip is repainted, the display ends up holding the full picture at the new damped lid positions, and what the next frame relies on holds again |
| Renderer.RenderColumns | src/eyes/EyeController.h:400-544 | if everything is redrawn, or the lids on the display are those of the previous factors, all columns end up as the full picture |
| Renderer.RenderColumn | src/eyes/EyeController.h:401-543 | one column: lid colour above the upper lid and from the lower lid down, scene between, other columns untouched, overlapping lids included |
| Renderer.ShadePixel | src/eyes/EyeController.h:417-471 | the displacement offsets and sign flips of the inner loop give the colour the symmetric description gives |
| Renderer.LookUpPolar | src/eyes/EyeController.h:472-501 | the four quadrant cases read what turning the point back quarter by quarter reads |
| Renderer.AngleByQuadrant | src/eyes/EyeController.h:472-501 | the table index and added angle of each quadrant, derived from repeated quarter turns |
| Renderer.PickColour | src/eyes/EyeController.h:503-533 | the thresholds and hoisted integer factors pick the colour of the unhoisted formula |
| Renderer.TextureColour | src/eyes/EyeController.h:507-510 | spinning, mirroring and scaling an angle reads the surface's texel, in range |
| Renderer.MakeFrame | src/eyes/EyeController.h:366-384 | the remembered factors reproduce the last frame's lid positions, all within 0 to 1 |
| Renderer.ShownLidsArePainted | src/eyes/EyeController.h:400-443 | a full picture is all the next frame needs to repaint only a strip |
| Renderer.PictureOfLids | src/eyes/EyeController.h:400-533 | fully open lids leave exactly the rows between their open ones to the scene, and closed lids that meet leave none |
| Renderer.ViewFollowsGaze | src/eyes/EyeController.h:356-357 | the screen's corner on the map is half a screen from the gaze, on each axis its own, and each texture has its own angle |
| Renderer.LidFactorIsShare | src/eyes/EyeController.h:380-385 | a lid is drawn at the share of its own openness that hold and blink leave |
| Renderer.DampedSettles | src/eyes/EyeController.h:376-378 | after n frames with the same aim a lid has 0.7^n of its way left |
| Renderer.Eye.constructor | src/eyes/EyeController.h:557-568 | an eye starts valid, looking straight ahead, with open lids that are not blinking, and due to be drawn in full |
| EyeTypes.LidsStayInColumn | src/eyes/eyes.h:162-176 | a lid factor from 0 to 1 keeps each edge between its column's open and closed rows, so the byte cast only truncates; 1 and 0 reach those rows exactly |
| EyeTypes.LidEdgeIsShare | src/eyes/eyes.h:162-176 | in between, an edge has come its share of the way from the closed row to the open one, rounded down |
| Sampling.TurnedScene | src/eyes/EyeController.h:417-533 | with centred gaze, a transposable distance table and a symmetric edge, a quarter turn of the screen shows the same colours once both textures are spun a quarter turn |
| Sampling.TurnedPixelTurnsMapPoint | src/eyes/EyeController.h:417-466 | for any table and even screen size, turning the pixel turns its map point |
| Sampling.TurnedPointTurnsAngle | src/eyes/EyeController.h:472-501 | turning a map point changes the looked-up angle by a quarter turn, modulo 1024 |
| Sampling.MirroredPointKeepsDistance | src/eyes/EyeController.h:472-501 | the looked-up distance is the same in all mirror images |
| Sampling.MirroredPixelMirrorsMapPoint | src/eyes/EyeController.h:417-466 | mirroring the screen in an axis mirrors the map point in it |
| Sampling.MirroredScene | src/eyes/EyeController.h:417-533 | without textures the scene is its own mirror image in both axes, slit pupils included |
| Sampling.AngleAt | src/eyes/EyeController.h:472-501 | looked-up angles lie in the 256 units of the point's quadrant |
| Sampling.IrisRowInTexture | src/eyes/EyeController.h:366-374 | for every iris that shows, the fixed-point row stays below the texture's height and its products within 31 bits, because the iris size and the factor come from the same value |
| Sampling.FactorFitsExactlyWhen | src/eyes/EyeController.h:371-371 | the factor fits 32 bits if and only if the texture is not too tall for the iris that is left |
| Sampling.ThinIrisOverflows | src/eyes/EyeController.h:371-374 | a case where it does not, in which no iris is shown |
| Sampling.IrisValueBounds | src/eyes/EyeController.h:366-367 | for every pupil amount some of the iris is left, and no more than all of it |
| Sampling.IrisValueEnds | src/eyes/EyeController.h:365-366 | a pupil amount of 0 leaves all but min of the iris, 1 all but max, and those in between go evenly |
| Sampling.IrisShrinks | src/eyes/EyeController.h:365-374 | a larger amount never leaves more of the iris, nor more of its levels |
| Sampling.IrisRowIsShare | src/eyes/EyeController.h:371-521 | the fixed-point row is the share of the iris crossed, at most one row and a hundredth off, and 0 at the iris's edge |
| Sampling.IrisShows | src/eyes/EyeController.h:517-521 | an iris point shows the texel of that row and of its angle's share of the width, turned on by the iris's own spin and flipped if mirrored |
| Sampling.ScleraShows | src/eyes/EyeController.h:504-510 | a sclera point shows the sclera's texel of its angle's and its distance's share |
| Sampling.ScaledColumn | src/eyes/EyeController.h:508-508 | every angle's column is in the texture, without overflow |
| Sampling.ScleraRow | src/eyes/EyeController.h:509-509 | every sclera row is in the texture, without overflow |
| Sampling.CoordinatesFitExactlyWhen | src/eyes/EyeController.h:446-466 | map coordinates fit 32 bits for every pixel and displacement if and only if the screen's corner leaves room |
| Tracking.DriftLeavesRoom | src/eyes/EyeController.h:354-466 | the corner does for every gaze of automatic movement, fixated or mirrored, if microsaccades are counted right and big saccades are at most five and a half hours apart |
| GeneratedEyes.GeneratedIsValid | resources/eyes/240x240/tablegen.py:289-356 | generated polar tables have the shape and byte range the renderer relies on |
| GeneratedEyes.RoundMapIsTransposed | resources/eyes/240x240/tablegen.py:313-316 | a round pupil's distance table is its own transpose, which the rotation theorem asks for |
| GeneratedEyes.PartByGeometry | src/eyes/EyeController.h:504-533 | the renderer shows back, sclera or iris and pupil at a map point if and only if the point lies there |
| GeneratedEyes.ShadeByPart | src/eyes/EyeController.h:504-533 | the colour is a colour of the part shown |
| GeneratedEyes.PupilIsClosedInwards | src/eyes/EyeController.h:514-518 | whatever is nearer the centre than a pupil point is pupil: in distance for a round pupil, on both axes for a slit |
| GeneratedEyes.RoundPupilIsDisc | src/eyes/EyeController.h:374-518 | a round pupil is exactly the disc of radius iRad * (127 - n) / 127, n the number of iris levels that show |
| GeneratedEyes.SlitPupilIsCircle | src/eyes/EyeController.h:374-518 | a slit pupil is exactly the inside of the generator's circle 127 - n |
| GeneratedEyes.PartIsByPlace | src/eyes/EyeController.h:504-533 | the part shown at a map point, pupil included, is a function of its place alone |
| GeneratedEyes.SceneByGeometry | src/eyes/EyeController.h:446-541 | the colour of every screen pixel of a generated eye is one of the part of the eye where the displaced pixel falls |
| GeneratedEyes.PupilByShare | src/eyes/EyeController.h:374-518 | a stored distance is pupil if and only if it is beyond the share of the 126 levels that is left of the iris |
| GeneratedEyes.PupilWidens | src/eyes/EyeController.h:365-518 | a map point that is pupil stays pupil for every larger amount |
| GeneratedEyes.WiderPupilOnScreen | src/eyes/EyeController.h:365-541 | so on screen, in the colour of the pupil, while what shows sclera, back or lid is the same for all amounts |
| GeneratedEyes.TableReadsBack | resources/eyes/240x240/tablegen.py:144-153 | a table of bytes as it is printed reads back, at the index the renderer uses, to the entry it looks up |
| GeneratedEyes.PolarTablesReadBack | resources/eyes/240x240/tablegen.py:355-359 | both printed polar tables read back to what brute force stores at every point |
| GeneratedEyes.TextureReadsBack | resources/eyes/240x240/tablegen.py:132-141 | an image as it is printed reads back as a texture that gives, wherever the renderer looks, the packed pixel |
| PolarMap.OutputPolarMaps | resources/eyes/240x240/tablegen.py:274-356 | refuses a slit that does not fit; otherwise both tables hold, entry by entry, what brute force stores, and no warning is given |
| PolarMap.StorePixel | resources/eyes/240x240/tablegen.py:293-353 | one pixel of both tables is stored right and does not warn |
| PolarMap.StartOfScan | resources/eyes/240x240/tablegen.py:318-327 | the neighbour's value is a start from which the search finds the brute-force answer |
| PolarMap.ScanSlit | resources/eyes/240x240/tablegen.py:328-350 | stores the first circle from the start that holds the pixel, or leaves the table alone |
| PolarMap.FirstCircle | resources/eyes/240x240/tablegen.py:328-350 | the least circle from a start that holds the pixel |
| PolarMap.FastSearchIsBruteForce | resources/eyes/240x240/tablegen.py:320-350 | starting at the circle of any neighbour to the left or above finds the circle that starting at 1 finds |
| PolarMap.CircleMonotone | resources/eyes/240x240/tablegen.py:320-322 | pixels to the left and above are in the same circle or an inner one, as the comment claims |
| PolarMap.CirclesNested | resources/eyes/240x240/tablegen.py:328-347 | a pixel inside one circle is inside every later one |
| PolarMap.CircleShrinks | resources/eyes/240x240/tablegen.py:328-347 | a pixel nearer the centre on both axes is in every circle the further one is in |
| PolarMap.LastCircleIsIris | resources/eyes/240x240/tablegen.py:328-347 | the last circle holds exactly the iris |
| PolarMap.IrisPixelIsFound | resources/eyes/240x240/tablegen.py:352-353 | every iris pixel is in some circle, so the warning is unreachable |
| PolarMap.RegionsAreExact | resources/eyes/240x240/tablegen.py:293-316 | 255 exactly outside the map circle, 0 to 127 exactly in the sclera, 128 to 254 exactly in iris and pupil |
| PolarMap.IrisFallsOutwards | resources/eyes/240x240/tablegen.py:313-350 | iris values never grow away from the centre |
| PolarMap.ScleraLevel | resources/eyes/240x240/tablegen.py:306-310 | a sclera value is at least n if and only if the pixel is in the ring that n of 127 equal steps from the edge of the map leave |
| PolarMap.ScleraFallsOutwards | resources/eyes/240x240/tablegen.py:306-310 | sclera values never grow away from the centre |
| PolarMap.AngleGrows | resources/eyes/240x240/tablegen.py:299-304 | for an angle that turns from the y axis to the x axis, so do the stored ones |
| PolarMap.CircleCrosses | resources/eyes/240x240/tablegen.py:330-345 | circle i crosses the axes in the two points it is made from, interpolated between pupil and iris |
| Displacement.OutputDisplacement | resources/eyes/240x240/tablegen.py:362-394 | the nested loops fill the table with what each pixel of the sphere is displaced by, 255 outside it |
| Displacement.DisplacementIsValid | resources/eyes/240x240/tablegen.py:362-394 | for a map that is no smaller than the sphere the table is one of bytes, with the edge the same from both axes, as the rotation theorem asks |
| Displacement.PixelShowsSphere | src/eyes/EyeController.h:417-466 | with centred gaze every pixel's map point is the one that holds the projection of the sphere's point at that pixel, on its side of both axes |
| Displacement.ProjectedDirection | resources/eyes/240x240/tablegen.py:383-391 | that projection is in the pixel's direction, at the distance along the surface |
| PolarMap.RoundTableIsSymmetric | resources/eyes/240x240/tablegen.py:313-316 | exchanging the axes keeps a round pupil's stored distance |
| EyelidTable.OutputEyelid | resources/eyes/240x240/tablegen.py:213-247 | succeeds if and only if every column has a lid, and then prints every column's rows in order |
| EyelidTable.ScanColumn | resources/eyes/240x240/tablegen.py:229-247 | the flags and the early exit print the start and end of the column's first lit stretch, or nothing |
| EyelidTable.LidIsFirstStretch | resources/eyes/240x240/tablegen.py:229-247 | the two rows bound a stretch that is lit, not empty, and the first of its column |
| EyelidTable.LidTableReadsBack | resources/eyes/240x240/tablegen.py:227-247 | the printed table reads back to its rows, each of which fits two digits |
| EyelidTable.GeneratedLidsAreValid | resources/eyes/240x240/tablegen.py:229-247 | tables from two images with a lid in every column are valid eyelid parameters with each open row on its proper side of the closed one |
| EyeController.EyeController.constructor | src/eyes/EyeController.h:554-569 | separate new valid eyes with open lids, looking straight ahead, all due to be drawn in full; the gaze at the centre of the last one's map |
| EyeController.EyeController.RenderFrame | src/eyes/EyeController.h:722-757 | changes nothing if the display is busy; otherwise motion, pupils, blink times, lids and pose move on by exactly one step, the current eye shows its full picture, the other eyes at most start a blink, and the next eye is current |
| EyeController.EyeController.RenderCurrent | src/eyes/EyeController.h:729-751 | the same for the current eye |
| EyeController.EyeController.MoveOn | src/eyes/EyeController.h:729-732 | the automatic movements change the gaze, the pupils and, if a blink is due, every eye's lids, and nothing else |
| EyeController.EyeController.DrawEye | src/eyes/EyeController.h:735-748 | lids, fixation, spin and damping move on by one step and the display holds the full picture seen from there |
| EyeController.EyeController.DrawMirrored | src/eyes/EyeController.h:744-748 | flipping the gaze to draw and back leaves it where it was, and what is shown is seen from the flipped place |
| EyeController.EyeController.ApplyAutoMove | src/eyes/EyeController.h:49-119 | the in-place branches are one step of the motion, and the eye looks along it |
| EyeController.EyeController.Arrive | src/eyes/EyeController.h:63-77 | an arrival turns the move into a hold and draws a new interval only after a big saccade |
| EyeController.EyeController.Depart | src/eyes/EyeController.h:89-117 | a departure is a big saccade or a microsaccade, according to the interval |
| EyeController.EyeController.ApplyAutoPupils | src/eyes/EyeController.h:123-165 | a resize in progress goes first, otherwise the noise moves on; the amount stays within 0 to 1 |
| EyeController.EyeController.ApplyAutoBlink | src/eyes/EyeController.h:193-205 | blinks all eyes if and only if it is time, and draws the next time |
| EyeController.EyeController.NextBlinkGap | src/eyes/EyeController.h:201-203 | the time to the next blink fits 32 bits and is less than twice the mean, less three durations, for means below 2^31 ms |
| EyeController.EyeController.GapsAreEven | src/eyes/EyeController.h:201-203 | every gap has an opposite one that makes twice the mean with it |
| EyeController.EyeController.BlinkIsDueExactlyWhen | src/eyes/EyeController.h:198-199 | by true times a blink is due if and only if the time drawn has passed, across clock wraps |
| EyeController.EyeController.BlinkIsOverExactlyWhen | src/eyes/EyeController.h:201-203 | the next blink leaves this one time to end, whatever is drawn, if and only if the longest gap fits 32 bits |
| EyeController.EyeController.GapCutShort | src/eyes/EyeController.h:201-203 | a mean and a draw for which it does not |
| EyeController.EyeController.DoBlink | src/eyes/EyeController.h:175-182 | every eye that is not blinking starts with the same duration, 50 to 99 ms |
| EyeController.EyeController.WinkEye | src/eyes/EyeController.h:167-173 | a blink in progress is left alone |
| EyeController.EyeController.UpdateBlinkState | src/eyes/EyeController.h:221-261 | one step of the lids and the closure to draw with, from 0 to 1 |
| EyeController.EyeController.FindPupil | src/eyes/EyeController.h:280-289 | the pupil's column and row on screen, mirrored and squinting as the eye is |
| EyeController.EyeController.ComputeEyelids | src/eyes/EyeController.h:277-309 | both factors are in 0 to 1, whatever is read past the lid tables, summing to 1 while tracking, both 1 otherwise |
| Tracking.LidsFollowPupil | src/eyes/EyeController.h:283-303 | where the pupil is between the rows of its column, the tracking upper lid's edge is at the pupil's row |
| Tracking.InTableExactlyWhen | src/eyes/EyeController.h:283-294 | the lid tables are read within their ends if and only if the pupil is not 120 to 135 pixels off the middle, modulo 256, for either mirroring |
| Tracking.CentralGazeIsInTable | src/eyes/EyeController.h:263-294 | gazes near the centre are in the tables, for every sine no steeper than its angle |
| Tracking.BoundedDriftIsInTable | src/eyes/EyeController.h:263-320 | so is every gaze within the drift bound of automatic movement, fixation included, while the bound is small enough |
| Tracking.UsualDriftIsInTable | src/eyes/EyeController.h:263-320 | for eyes of the usual sizes it is, for up to nine microsaccades after a big saccade |
| Tracking.DistantGazeIsNot | src/eyes/EyeController.h:283-294 | gazes for which an eye of the usual size reads past the tables, whichever way it is mirrored |
| Tracking.StrayDecidesExactlyWhen | src/eyes/EyeController.h:283-303 | what is in memory past the tables decides how open the lids are if and only if it is read and the pupil's row is from 1 to 255 |
| Tracking.DriftReadsPast | src/eyes/EyeController.h:56-117 | a run of automatic movement from rest, with frames at most 83 ms apart, at whose end it does, for a single eye and for the second of a pair |
| EyeController.EyeController.ApplyFixation | src/eyes/EyeController.h:314-320 | the fixation stays 7 and moves two eyes towards each other; a single eye is left alone |
| EyeController.EyeController.PairLooksTogether | src/eyes/EyeController.h:314-320 | on their own displays both eyes are drawn 7 to the same side and move opposite ways, the first display being mirrored |
| EyeController.EyeController.SpinIsEven | src/eyes/EyeController.h:325-343 | a texture turned by the clock is, to the nearest unit, where its turns a minute, against its angles, take it from its first angle |
| EyeController.EyeController.SpinByFrame | src/eyes/EyeController.h:325-343 | one turned by the frame goes on by its step |
| EyeController.EyeController.PosedTextures | src/eyes/EyeController.h:325-378 | in a frame each texture turns by its own spin and each lid goes three tenths of its way |
| EyeController.EyeController.SetOpenness | src/eyes/EyeController.h:641-652 | only the eye at the index changes, from where its lids are; no index, no change |
| EyeController.EyeController.Blink | src/eyes/EyeController.h:611-614 | every eye winks for the same time and the automatic timing restarts |
| EyeController.EyeController.Wink | src/eyes/EyeController.h:618-622 | only the eye at the index winks; no index, no change |
| EyeController.EyeController.SetBlinkRate | src/eyes/EyeController.h:626-634 | automatic blinking is on exactly for a positive rate, and then timed from now, with the mean interval of the rate if that fits 32 bits |
| EyeController.EyeController.IntervalFitsExactlyWhen | src/eyes/EyeController.h:629-629 | it fits if and only if the rate is above one blink in 2^32 ms |
| EyeController.EyeController.SetTargetPosition | src/eyes/EyeController.h:660-672 | a new target; a move in progress keeps its timing; a negative duration becomes a very long one |
| Gaze.TargetTellsPlace | src/eyes/EyeController.h:660-685 | inside the unit circle the coordinates can be told back from the target, and from a position |
| Gaze.TargetKeepsDirection | src/eyes/EyeController.h:267-275 | outside it the direction is kept |
| Gaze.RedirectedKeepsTiming | src/eyes/EyeController.h:667-671 | a move under way keeps its start and time, eyes at rest set off |
| Tracking.TargetOnItsSide | src/eyes/EyeController.h:283-289 | once there, the pupil is on the side of the screen asked for, on both axes, for every sine with the sign of its angle |
| EyeController.EyeController.SetPosition | src/eyes/EyeController.h:678-685 | the gaze is put at the constrained place at once |
| Gaze.PositionIsSeen | src/eyes/EyeController.h:53-87 | eyes at rest are seen there at once |
| EyeController.EyeController.SetTargetPupil | src/eyes/EyeController.h:690-696 | a resize from the present amount; the eyes stay valid if and only if the ratio is from 0 to 1 |
| Pupils.ResizeIsValidExactlyWhen | src/eyes/EyeController.h:128-141 | a resize keeps the amount in 0 to 1 at all times if and only if its ratio is |
| Pupils.ResizeGoesEvenly | src/eyes/EyeController.h:128-141 | a resize goes evenly from the present amount and is at its target once its time is up |
| EyeController.EyeController.SetPupil | src/eyes/EyeController.h:703-705 | the clamped ratio at once |
| Arithmetic.ClampedIsNearest | src/eyes/EyeController.h:703-705 | the ratio set is the nearest there is |
| EyeController.EyeController.UpdateDefinition | src/eyes/EyeController.h:184-190 | the eye is valid with its new tables because all of it is due to be redrawn |
| EyeController.EyeController.UpdateDefinitions | src/eyes/EyeController.h:710-715 | every eye has its own new definition and is due to be redrawn |
| Lids.FrameKeepsRange | src/eyes/EyeController.h:221-261 | after any frame the lids' state is in range, the closure is from 0 to 1, and a full blink closes the lids completely |
| Lids.RequestsKeepRange | src/eyes/EyeController.h:641-652 | winks and openness requests keep the range, whatever the level |
| Lids.OpennessInUnit | src/eyes/EyeController.h:208-215 | openness is from 0 to 1 at every clock reading |
| Lids.ReopeningIsContinuous | src/eyes/EyeController.h:224-230 | reopening leaves the openness unchanged at that instant |
| Lids.SettingIsContinuous | src/eyes/EyeController.h:641-652 | a request leaves the openness unchanged at that instant if and only if it takes time or changes nothing |
| Lids.OpennessIsSmooth | src/eyes/EyeController.h:208-215 | between two frames the lids move at most the share of the duration that passed, in every wrap of the clock since the movement began |
| Lids.SmoothExactlyWhen | src/eyes/EyeController.h:208-215 | and between any two frames whatever, if and only if the whole movement is so small that its replay is no jump |
| Lids.LevelIsReached | src/eyes/EyeController.h:641-652 | lids told to move are at their level once the time given is up, and before that if and only if they already were |
| Lids.ReopenedIsOpen | src/eyes/EyeController.h:224-230 | 150 ms after a hold ends the lids are fully open |
| Lids.ClosureIsShare | src/eyes/EyeController.h:259-260 | what a closure leaves open is the share of the openness that the blink leaves |
| Lids.HalfwayBlink | src/eyes/EyeController.h:221-261 | lids held half open are three quarters closed half-way into a blink |
| LidRuns.RunRefines | src/eyes/EyeController.h:231-260 | over a run of frames and requests the 32-bit automaton draws what one with unbounded times draws if and only if no frame falls into a replay of its phase, and then ends in the same phase |
| LidRuns.FrameRefines | src/eyes/EyeController.h:231-260 | the same for one frame |
| LidRuns.PacedIsRecognised | src/eyes/EyeController.h:231-260 | no frame does if frames are at most 2^32 - 198 ms apart |
| LidRuns.RefinesExactlyWhen | src/eyes/EyeController.h:231-260 | every run of frames at most a given gap apart is drawn as with unbounded times if and only if the gap is at most 2^32 - 198 ms |
| LidRuns.SlowFramesReplay | src/eyes/EyeController.h:231-260 | a run of frames one ms further apart that shows a blink twice |
| LidRuns.BlinkRun | src/eyes/EyeController.h:231-260 | from its start a blink's drawn contributions rise to exactly 1 and then fall, in every run up to the next blink whose frames recognise its phases |
| LidRuns.PulsesExactlyWhen | src/eyes/EyeController.h:231-260 | they do for every blink and every run of frames at most a given gap apart if and only if the gap is at most 2^32 - 198 ms |
| LidRuns.BlinkScalesHold | src/eyes/EyeController.h:221-261 | over every run on lids held at a level, what each closure leaves is the share of the level that the blink leaves |
| LidRuns.ClosureIsPulse | src/eyes/EyeController.h:221-261 | so on open lids the closures drawn are the contributions, and the closure itself rises to exactly 1 and then falls |
| LidRuns.AmountIsSmooth | src/eyes/EyeController.h:231-256 | from frame to frame a contribution changes by at most 1 in 50 ms, through all phases |
| LidRuns.PhaseIsSmooth | src/eyes/EyeController.h:231-256 | and evenly within a phase |
| LidRuns.ClosureIsSmooth | src/eyes/EyeController.h:221-261 | from frame to frame the closure drawn moves no faster than blink and hold together |
| LidRuns.BlinkIsPulse | src/eyes/EyeController.h:231-260 | rising to exactly 1, then falling, whatever else is requested and blinks requested while it lasts |
| LidRuns.PhaseLasts | src/eyes/EyeController.h:235-252 | winks, openness requests and frames before a phase's time is up change nothing about it |
| LidRuns.PhaseEnds | src/eyes/EyeController.h:235-247 | the first frame after that ends it: closing becomes an opening twice as long, an opening ends the blink |
| LidRuns.HoldEndsOnTime | src/eyes/EyeController.h:224-230 | a timed hold is kept until its deadline, and from then on a frame ends it if and only if it comes in the first half of a clock wrap after the deadline |
| LidRuns.HoldIsKeptExactlyWhen | src/eyes/EyeController.h:224-224 | no frame before the deadline reopens the lids if and only if duration and hold together are at most 2^31 ms |
| LidRuns.LongHoldEndsEarly | src/eyes/EyeController.h:641-652 | a run in which a hold of a clock wrap ends after 149 ms |
| LidRuns.SettledExactlyWhen | src/eyes/EyeController.h:208-215 | lids that have finished moving stay put at a time if and only if the clock has not wrapped back into the movement |
| LidRuns.ClosedLidsFlashOpen | src/eyes/EyeController.h:208-260 | a run of frames that show eyes closed for good closed, closed and, at the clock wrap, wide open |
| FrameRuns.RenderFrames | src/main.cpp:163-163 | whatever calls of renderFrame are made, the controller's gaze follows a run of the motion on values, and each eye's lids follow a run of the lids on values with a frame each time it is that eye's turn |
| FrameRuns.RenderOnce | src/eyes/EyeController.h:722-757 | one call is one step of the gaze and of the lids of each eye, and nothing if the display is busy |
| FrameRuns.RunFromStart | src/config.h:130-130 | from the constructor on: the gaze stays within its drift bound at every frame, and blinks are drawn as with unbounded times if and only if no frame falls into a replay |
| FrameRuns.BlinksAreSpaced | src/eyes/EyeController.h:193-205 | in every run of calls each automatic blink waits out the time drawn for it and at least 150 ms, across clock wraps |
| Pupils.AutoLevels | src/eyes/EyeController.h:144-159 | the loop over the levels renews both arrays and sums the interpolated noise |
| Pupils.TargetInRange | src/eyes/EyeController.h:144-160 | the sum stays within 1/256 and 255/256, so the clamp never acts |
| Pupils.LevelIsSmooth | src/eyes/EyeController.h:145-157 | a level moves at most one part of its span per step, also where it starts a new span and where the frame counter wraps |
| Pupils.SumIsSmooth | src/eyes/EyeController.h:145-159 | the first k levels together move at most k/256 per step |
| Pupils.PupilRun | src/eyes/EyeController.h:143-164 | over every run of automatic steps and all draws the pupil stays in its band and moves at most 7/256 per step |
| Pupils.StepIsValid | src/eyes/EyeController.h:123-165 | every step keeps the amount in 0 to 1 and the noise in range |
| Pupils.NoiseIsSpread | src/eyes/EyeController.h:155-155 | the draws are a thousand equally spaced values from -0.5 to 0.5 |
| Pupils.LevelGoesEvenly | src/eyes/EyeController.h:145-157 | a level goes evenly from one drawn value to the next, and is half-way in the middle of its span |
| Pupils.TargetWrittenOut | src/eyes/EyeController.h:144-160 | where all levels start a span the target is the draws in shares from 1/128 to 1/2 about the middle |
| Gaze.ConstrainedIsInCircle | src/eyes/EyeController.h:267-275 | the result is in the unit circle, and a point already there is unchanged |
| Gaze.TargetIsInside | src/eyes/EyeController.h:660-667 | every target is within a big saccade's radius of the centre |
| Gaze.PositionIsInside | src/eyes/EyeController.h:678-685 | so is every position set at once |
| Gaze.DiscPointIsInside | src/eyes/EyeController.h:93-96 | both draws together stay within the radius, whatever is drawn |
| Gaze.DiscPointCanBeDrawn | src/eyes/EyeController.h:93-96 | and every whole-number point that the casts leave in the circle can be drawn |
| Gaze.GazeIsContinuous | src/eyes/EyeController.h:56-118 | setting off and arriving leave the gaze where it is at that frame |
| Gaze.TargetingIsContinuous | src/eyes/EyeController.h:660-672 | a target given to eyes at rest does not move them at that instant |
| Gaze.TargetIsReached | src/eyes/EyeController.h:63-77 | a frame finds the eyes at their target if and only if the clock does not show the move as still going on: always from its end until the clock wraps |
| Gaze.EasedIsSmooth | src/eyes/EyeController.h:79-83 | the easing never goes back and is at most one and a half times as fast as an even pace |
| Gaze.EasedEnds | src/eyes/EyeController.h:79-81 | it goes all the way, the second half like the first, and starts and ends at rest |
| GazeRuns.GazeRun | src/eyes/EyeController.h:49-119 | over every run of automatic movement, whatever the draws and the times, the gaze stays within the big radius plus one small radius per microsaccade since the last big one landed |
| GazeRuns.CountRun | src/eyes/EyeController.h:56-117 | over every run whose pauses do not let the clock wrap there are at most (interval - 36) / 43 + 1 of those |
| GazeRuns.CountsExactlyWhen | src/eyes/EyeController.h:56-117 | that count can be relied on for a given longest pause if and only if it does not let the clock wrap between big saccades, or gazes are too short for microsaccades, or no time passes |
| GazeRuns.MiscountedRun | src/eyes/EyeController.h:56-117 | otherwise there is a run, from rest, with more of them |
| GazeRuns.StepIsOk | src/eyes/EyeController.h:56-118 | every step, at any time, keeps the motion in one of its phases, with its distances |
| GazeRuns.StepIsTimed | src/eyes/EyeController.h:56-118 | a step after a pause that is not too long keeps the durations and elapsed times of its phase |
| GazeRuns.StepIsNear | src/eyes/EyeController.h:61-88 | a frame in mid-move looks between the ends of the move |
| GazeRuns.StartIsOk | src/eyes/EyeController.h:554-569 | the controller starts in such a phase |
| Clock.SinceIsElapsed | src/eyes/EyeController.h:56-59 | unsigned subtraction of readings is the elapsed time modulo the wrap |
| HexTable.Table.Write | resources/eyes/240x240/hextable.py:39-63 | appends the comma, line break, numeral and ending of one value and moves the counters on |
| HexTable.Table.Reset | resources/eyes/240x240/hextable.py:65-75 | the counters are those of a new table, so all that is proved of one holds of the next |
| HexTable.Table.WriteAll | resources/eyes/240x240/tablegen.py:151-153 | the text of the whole data is appended |
| HexTable.OutputImage | resources/eyes/240x240/tablegen.py:132-141 | the nested pixel loops append the text of the image in row-major order |
| HexTable.TableReadsBack | resources/eyes/240x240/hextable.py:39-63 | writing exactly as many values as expected gives text that reads back to them, with one closing brace, after the last |
| HexTable.PartialTableReadsBack | resources/eyes/240x240/hextable.py:47-60 | before that there is no brace, and the values so far can be read |
| HexTable.PrintedLinesFit | resources/eyes/240x240/hextable.py:51-56 | in the printed text no line holds more than the set number of values, and only the last may hold fewer |
| HexTable.NumeralWidth | resources/eyes/240x240/hextable.py:57-58 | a number takes the set width if and only if it fits it |
| HexTable.LexNumeral | resources/eyes/240x240/hextable.py:57-58 | a numeral with any padding reads back as its value |
| HexTable.PackedReadsBack | resources/eyes/240x240/tablegen.py:137-141 | the packed pixel fits four digits and holds the upper 5, 6 and 5 bits |
| HexTable.ImageIsReadWhereWritten | src/eyes/eyes.h:17-19 | the renderer's index finds the pixel the generator wrote |
| Merge.Dict.Merge | resources/eyes/240x240/tablegen.py:63-72 | fails exactly on a conflict, otherwise leaves the merged contents; what it adds is new, so nothing is shared with the source, which is unchanged |
| Merge.Dict.Copy | resources/eyes/240x240/tablegen.py:95-101 | a deep copy: the same contents in dictionaries of its own |
| Merge.LoadEyes | resources/eyes/240x240/tablegen.py:88-109 | one eye if neither has parameters of its own, or else two, each with the common parameters overridden by its own and its name; they share nothing, and it fails exactly if an eye is refused or a merge conflicts |
| Merge.EyeIsNamed | resources/eyes/240x240/tablegen.py:88-104 | an eye's parameters are those merged, but for its own name |
| Merge.CheckParamAbsent | resources/eyes/240x240/tablegen.py:54-61 | lets through a null or a dictionary in which nothing is called "key", whatever it is asked for |
| Merge.ValidateSingleEyeParams | resources/eyes/240x240/tablegen.py:74-77 | accepts exactly what passes all three checks |
| Merge.SharedIsRefusedExactlyWhen | resources/eyes/240x240/tablegen.py:54-77 | an eye that sets a shared parameter is refused if and only if something in it is called "key" or is no dictionary where one is looked for |
| Merge.RadiusSlipsThrough | resources/eyes/240x240/tablegen.py:54-77 | an eye with its own radius is accepted |
| Merge.MergedLeaves | resources/eyes/240x240/tablegen.py:63-72 | a value is in the result if and only if it is in the source, or in dest and not overridden |
| Merge.MergedTwice | resources/eyes/240x240/tablegen.py:63-72 | merging again changes nothing and does not fail |
| Merge.ConflictExactlyWhen | resources/eyes/240x240/tablegen.py:67-70 | the merge fails if and only if at some path a plain value meets a non-empty dictionary |
| EndpointResolver.Resolver.Poll | src/net/EndpointResolver.h:36-52 | starts, awaits or finishes a lookup and hands out an address only when one is found |
| EndpointResolver.Resolver.Failed | src/net/EndpointResolver.h:55-58 | the next lookup is ten seconds off and the message is reported |
| EndpointResolver.Resolver.Report | src/net/EndpointResolver.h:61-66 | logs a message unless it repeats the last |
| EndpointResolver.OneInFlight | src/net/EndpointResolver.h:36-52 | in every run as many lookups have finished as have started, but for one in flight |
| EndpointResolver.StartsExactlyWhen | src/net/EndpointResolver.h:36-58 | a poll starts a lookup if and only if none is in flight and every failure is at least ten seconds old |
| EndpointResolver.LogIsSqueezed | src/net/EndpointResolver.h:61-66 | in every run the log is the reported messages with adjacent repeats removed, counting an empty one at the start |
| EndpointResolver.SqueezedHasNoRepeats | src/net/EndpointResolver.h:61-66 | no two adjacent lines are the same and the last line is the last message |
| SensorLink.Link.Poll | src/net/SensorLink.h:72-116 | one step of the link, connecting first where it has to, the clock being read as often as the code does; nothing if no endpoint is set |
| SensorLink.Link.Exchange | src/net/SensorLink.h:83-116 | receives, gives up or sends, and returns a reply only if it is no error |
| SensorLink.Link.TryConnect | src/net/SensorLink.h:34-53 | connects once an address is found; a fault delays the next lookup |
| SensorLink.StaysLive | src/net/SensorLink.h:66-116 | from any accepted reply on, prompt answers to regular polls keep the link live without a gap when interval, two polls and the delay add up to less than 2000 ms |
| SensorLink.OnTimeRun | src/net/SensorLink.h:83-116 | the timing invariant behind it, kept by every poll |
| SensorLink.SendsAreSpaced | src/net/SensorLink.h:107-109 | in every run, requests are at least an interval apart, timeouts and failed sends included |
| SensorLink.LiveExactlyWhen | src/net/SensorLink.h:66-68 | in every run the link is live if and only if a reply that was no error came less than 2000 ms ago |
| SensorLink.GoesQuiet | src/net/SensorLink.h:66-68 | two seconds without one and it is not live |
| SensorLink.KeepsTrying | src/net/SensorLink.h:83-116 | in every run of regular polls an open link tries to send again at the latest an interval, or the timeout and a poll, after the last try, whatever it meets |
| SensorLink.IsErrorExactlyWhen | src/net/SensorLink.h:89-92 | a reply is an error if and only if it starts with that word, with no blank before it |
| Text.SplitWords | src/net/Text.h:46-55 | the loop finds the words of the line |
| Text.SplitJoined | src/net/Text.h:46-55 | any words joined by any blanks split into those words |
| Text.EveryLineIsJoined | src/net/Text.h:46-55 | every line is its words joined by blanks, so no character of a word is lost or invented |
| Text.FirstWordIsFirst | src/net/Text.h:57-60 | the first word is the first of the words, or nothing if the line starts with a blank |
| Fields.ParseFields | src/net/Text.h:16-32 | the map holds, for every key, the value of its first field |
| Fields.FieldsReadBack | src/net/Text.h:16-32 | fields written on a line with any blanks read back, the first of repeated keys counting |
| Fields.PiecesAreWords | src/net/Text.h:18-30 | on a single line the non-empty pieces are the words that the other splitter finds |
| Commands.ParseCommand | src/Commands.h:25-84 | the imperative parser returns the command, or the first error, of the line's words |
| Commands.ParseArguments | src/Commands.h:43-58 | numbers in order, the last eye word chosen, the first bad argument reported |
| Commands.BlinkMeans | src/Commands.h:60-64 | blink is accepted if and only if all arguments are eye words, for the eyes that the last one names, or both |
| Commands.OpenMeans | src/Commands.h:65-71 | open is accepted if and only if one or two numbers of at least 0 are among the eye words, and means those, for the eyes that the last one names, or both |
| Commands.RateMeans | src/Commands.h:72-79 | blink_rate is accepted if and only if it is alone or has one number of at least 0, and means that or no rate |
| Commands.OtherNamesFail | src/Commands.h:80-82 | no other name is accepted, but for style |
| Commands.BothIsDefault | src/Commands.h:43-51 | naming both eyes is like naming none, wherever the word stands |
| Commands.EarlierEyeIsIgnored | src/Commands.h:43-51 | an eye word with another after it says nothing |
| Commands.FirstBadIsReported | src/Commands.h:52-57 | the error names the first argument that is neither an eye word nor a number |
| Commands.EyeWordMoves | src/Commands.h:43-58 | a single eye word can stand anywhere among the arguments without changing the command or the error |
| Commands.BlinkRoundTrip | api/include/AnimatedEyes/Eyes.hpp:143-145 | the text of a blink or wink parses to it, for every eye |
| Commands.OpenRoundTrip | api/include/AnimatedEyes/Eyes.hpp:148-150 | the text of an openness parses to the level that arrives, for the eyes it names |
| Commands.HoldRoundTrip | api/include/AnimatedEyes/Eyes.hpp:153-155 | the text of a timed openness parses to the level and the time that arrive |
| Commands.BlinkRateRoundTrip | api/include/AnimatedEyes/Eyes.hpp:158-160 | the text of a blink rate parses to the rate that arrives |
| Commands.StyleRoundTrip | api/include/AnimatedEyes/Eyes.hpp:163-165 | a name parses back if and only if it is a word without blanks, and is accepted if and only if it is one word with any blanks around it |
| Commands.DecimalArrives | api/include/AnimatedEyes/Eyes.hpp:120-124 | a number printed as a plain decimal arrives as that decimal's value |
| Commands.NumberArrives | api/include/AnimatedEyes/Eyes.hpp:120-124 | a number printed by `%g` without an exponent arrives within a 200000th of itself, and as itself if and only if it has at most six significant digits |
| Decimals.GeneralReadsBack | api/include/AnimatedEyes/Eyes.hpp:120-124 | six significant digits without the zeros at the end are a decimal of the rounded value |
| Decimals.SentIsClose | api/include/AnimatedEyes/Eyes.hpp:120-124 | the rounded value is within a 200000th of the number, and the number itself if and only if it has at most six significant digits |
| Endpoints.Master.Flatten | master/server/Master.cpp:44-59 | the recursion over the map's entries defines what the fold over the tree defines, up to the first key or value that cannot be read |
| Endpoints.Master.Load | master/server/Master.cpp:61-64 | the whole configuration is flattened from an empty prefix |
| Endpoints.FlattensExactlyWhen | master/server/Master.cpp:44-59 | loading succeeds if and only if every key and value can be read |
| Endpoints.LookupIsTreeLookup | master/server/Master.cpp:44-74 | after loading, for every name, looking it up is following its parts down the tree, and a name that leads to no value is unknown |
| Endpoints.PathIsFound | master/server/Master.cpp:44-74 | the value at any path of keys is found under the keys joined by dots |

## Left out

- The rounding of floats, NaN and infinities: reals are used throughout.
- GazeRuns.GazeRun: eyes that share one map radius.
- EndpointResolver.Resolver.Report: the log holds messages without the prefix they all share.
- HexTable.Table.Write: values are not negative; values written beyond the expected count repeat the ending and are not covered by the round trip.
- Merge.LoadEyes: the parameters have been read from JSON, the eyes' own being dictionaries or absent and the name a string; what is then made of them is not modelled.
- Endpoints.Master.Flatten: what the configuration library makes of a key or value, text or an error, is given.
- EyeController.EyeController.RenderFrame: reading past the lid tables is taken to give some bytes; that it could stop the program is not modelled.
- FrameRuns.RunFromStart: eyes that share one map radius, and no requests between frames.
- Displacement.DisplacementIsValid: maps of a radius up to 255, no smaller than the sphere; what becomes of a displacement that is no byte is not modelled.
- Commands.NumberArrives: numbers that are negative or that `%g` prints with an exponent, which are those from 999999.5 on and those below 0.0001 but for 0.
- Commands.ParseCommand: signs, exponents, infinities and NaN are whatever the given reader makes of them.
- fieldFloat, the sensors' mapping of fields, and the threads and sockets under the polling code.
- The arc tangents in the table formulas, the map scale, and the generated data files: the renderer's proofs hold for all tables.
- The display drivers, the rest of the main loop, style switching, image and JSON reading and the address helpers.
- Simple setters and getters (setAutoMove and the like), upperThreshold and lowerThreshold, which nothing calls.
