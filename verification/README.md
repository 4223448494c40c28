# Verified model of the geodetic engine

A model, in Dafny, of the algorithms of the geodetic engine that are hardest to get right, and proofs of what they
promise. `dafny verify dfyconfig.toml` checks all of it.

| files | what they model |
|---|---|
| `Failures.dfy` | finding the rows a batch transformation fails for: one pass, a marked pass, halving |
| `WkbFormat.dfy`, `WkbLayout.dfy`, `Wkb.dfy`, `WkbReplace.dfy`, `WkbLaws.dfy` | rewriting coordinates inside well-known binary, in place |
| `SearchPath.dfy`, `ForkLock.dfy`, `BundledDatabase.dfy` | threads following one search path, its fork-safe lock, and switching to the bundled database and back |
| `Doubles.dfy`, `Rounding.dfy` | rounding half up as a reader sees the decimals, with doubles built from the integers |
| `Segments.dfy`, `Extents.dfy`, `Winding.dfy`, `Antimeridian.dfy` | vectorised geometry: densifying, bounding boxes and lines across the antimeridian, winding rings |
| `Coordinates.dfy`, `CoordinatesLaws.dfy`, `AcceptedCoordinates.dfy`, `CoordinateFaults.dfy`, `CoordinateReader.dfy` | the two readers of GeoJSON coordinates, nesting and paths |
| `Pipelines.dfy`, `Quotes.dfy`, `PipelineRuns.dfy`, `Operations.dfy` | pipelines as text, and accepting the operation PROJ built |
| `Plane.dfy`, `P6.dfy`, `Squaring.dfy`, `SquaringLaws.dfy`, `Helmert.dfy` | bin grids by parameters and by corners, and composing Helmert transformations |
| `Units.dfy` | splitting mixed geometries into uniform units, and joining them |
| `Arrays.dfy`, `Numbers.dfy`, `Options.dfy` | shared pieces |

Code that changes things step by step is a method, a loop or a class here, proved against a specification; what the
specification promises is proved about it in lemmas. Vectorised code is written as the loops numpy runs, and shown to
be the plain loop it stands for.

Six promises hold only under a condition. The model says exactly when, and gives an input that fails:

- A thread whose record is current can read other databases: where a path change and a bump fall between the first two
  reads of the pass that made the record, and the path is then put back (`SearchPath.SomeRunGoesStale`).
- Switching the bundled database on and off restores the very text of a path the bundled directory does not head
  exactly when it has no empty entry and its first directory holds a database; and of one it heads, only where an
  earlier switch remembered a path that comes to the same (`BundledDatabase.OnThenOff`,
  `BundledDatabase.SomePathIsNotRestored`, `BundledDatabase.HeadedPathIsNotRestored`).
- Switching off after on fails where no other directory holds a database, unless the path before had the bundled
  directory: then that is put first, and stays in use (`BundledDatabase.OffRefusesExactly`,
  `BundledDatabase.SomeOffIsNotRefused`).
- Winding again changes nothing exactly unless some ring encloses nothing, is asked to be positive, and reads
  differently backwards (`Winding.WoundAgain`, `Winding.SomeRingIsRestless`).
- Inverting a step turns it over exactly when its `inv` flag does, and is what is taken for the flag. It does not where
  the step has the flag more than once, as only the first is removed; nor where PROJ's pipeline parameters `omit_fwd` or
  `omit_inv` leave it out of one direction only, as those go by the direction the whole pipeline is run in; nor where the
  first `inv` is a word of a value quoted for its spaces, as steps are split at spaces. The transformer of such a step,
  run backwards, is not what its composed definition does; PROJ's own vertical shift in an interpolation CRS holds two
  (`PipelineRuns.TurnedOverExactly`, `PipelineRuns.NotTurnedOverIsMissed`, `PipelineRuns.ShiftIsMissed`,
  `PipelineRuns.TwiceIsMissed`, `PipelineRuns.NameIsMissed`). The two parameters also limit what accepting a fused
  step means (`Operations.OmittedIsMissed`, `Operations.SomeOmittedIsMissed`).
- Cutting a line is undefined exactly where a crossing step is a full turn, which needs a middle unknown or past half a turn
  (`Antimeridian.CutLine`, `Antimeridian.SomeStepIsAFullTurn`).

## Model

| member | source | states |
|---|---|---|
| Failures.TransformArrays | geodetic_engine/geodesy/_failures.py:10-18 | a batch fails exactly when it holds a row that fails alone, or for a reason of its own; values do not depend on the batch |
| Failures.FailingIsExact | geodetic_engine/geodesy/_failures.py:151-203 | the list of failures holds exactly the rows that fail alone, each once, in ascending order |
| Failures.Isolate | geodetic_engine/geodesy/_failures.py:151-203 | for every batch and every marking: each row's own value, NaN for exactly the failing rows, the failures in order; with a cap, raised exactly when more rows fail, with the first cap + 1 |
| Failures.Marked | geodetic_engine/geodesy/_failures.py:233-273 | the marked pass is given up exactly when the marking lets a failing row through; otherwise rows let through hold their own values, the others NaN |
| Failures.Halved | geodetic_engine/geodesy/_failures.py:276-309 | halving with a stack gives the outcome of every row alone, and ends; the stack is an ordered partition of the rows left |
| Failures.PartitionPush | geodetic_engine/geodesy/_failures.py:276-309 | pushing the part before the top of the stack keeps it an ordered partition |
| Failures.FailingRows | geodetic_engine/geodesy/_failures.py:206-230 | the mask is that of every row alone exactly unless a trusted marking blames a row that succeeds |
| Failures.FirstFailure | geodetic_engine/geodesy/_failures.py:117-148 | the least failing row of any batch; rows handed over total at most twice the batch, and calls are logarithmic |
| Failures.HalvingsAreLogarithmic | geodetic_engine/geodesy/_failures.py:117-148 | the number of halvings is the base 2 logarithm, rounded up |
| WkbFormat.Reads | geodetic_engine/geodesy/_wkb.py:70-95 | the encoding of every well-formed tree parses back to it, whatever follows (clause 8.2 of OGC 06-103r4) |
| WkbFormat.IsRead | geodetic_engine/geodesy/_wkb.py:70-95 | whatever bytes are parsed are the encoding of the tree they parse to |
| WkbLayout.HoldsExactly | geodetic_engine/geodesy/_wkb.py:70-95 | bytes are an encoding exactly where, by index, each count, kind and coordinate is at its place with its least byte first in order 1 and its greatest first in order 0 |
| WkbReplace.ReplaceCoordinates | geodetic_engine/geodesy/_wkb.py:28-57 | the result is given exactly when the bytes encode a tree with one row per non-empty position, and is the encoding of that tree with its positions replaced in order; byte by byte, by index: the bytes given are laid out as the tree, the result as the tree with each coordinate that takes a row's value holding it, in the byte order of its geometry |
| Wkb.Writer.Geometry | geodetic_engine/geodesy/_wkb.py:70-95 | the recursive walk overwrites a geometry's bytes with those of its replaced tree, counts its rows, and leaves every other byte; or stops with the fault |
| Wkb.Writer.Positions | geodetic_engine/geodesy/_wkb.py:97-124 | a run of positions is overwritten with rows in order, empty points taking none |
| Wkb.SameLength | geodetic_engine/geodesy/_wkb.py:60-124 | replacing positions keeps the length of an encoding |
| WkbLaws.OtherBytesUnchanged | geodetic_engine/geodesy/_wkb.py:97-124 | every byte that is not a coordinate of a position taking a row is as it was |
| WkbLaws.OwnRowsAreKept | geodetic_engine/geodesy/_wkb.py:28-57 | a tree rewritten with the rows it was read into is itself |
| WkbReplace.TreeBecomes | geodetic_engine/geodesy/_wkb.py:97-124 | each coordinate of a replaced tree is its row's, row by row in order, but for those of empty points and of a column the rows lack |
| WkbReplace.TreeKeepsShape | geodetic_engine/geodesy/_wkb.py:70-124 | a replaced tree has the kinds, orders, dimensions and counts it had |
| WkbReplace.RewritableExactly | geodetic_engine/geodesy/_wkb.py:28-57 | rows fit a tree exactly where there is one for each position that is not an empty point, wide enough for every flag |
| WkbReplace.NaNByBits | geodetic_engine/geodesy/_wkb.py:112-118 | a coordinate is no number exactly where its sign aside its bits are greater than those of infinity |
| SearchPath.RunKeeps | geodetic_engine/_search_path.py:69-118 | every step of any interleaving keeps the invariant of every thread |
| SearchPath.SetAndFollow | geodetic_engine/_search_path.py:69-80 | setting the path points the calling thread's context at it at once, and changes no other thread's |
| SearchPath.SwitchIsSeen | geodetic_engine/_search_path.py:69-80 | after a switch no thread still reads the path by what it recorded, though it may be the very path it read before; the count is one more and the lock free |
| SearchPath.PassEndsWhereFollowed | geodetic_engine/_search_path.py:96-100 | a pass ends at its first comparison exactly where the thread recorded the path and the count as they are; else it goes on with both |
| SearchPath.OwnPathAndFollow | geodetic_engine/_search_path.py:91-94 | a path a caller sets with pyproj is followed at once by that thread, and not counted |
| SearchPath.RunLeaves | geodetic_engine/_search_path.py:83-106 | whatever other threads do, a thread's context and record are its own |
| SearchPath.FollowersReadThePath | geodetic_engine/_search_path.py:109-118 | in every reachable state a thread whose record is current reads the current path's databases, unless a caller set a path since the last bump or a change and a bump fell between the first two reads of the pass that recorded it |
| SearchPath.RecordIsClean | geodetic_engine/_search_path.py:96-106 | a record is clean exactly unless the path was set between the first two reads of the pass that made it, and a switch counted after that, whatever the other threads do |
| SearchPath.PassHistory | geodetic_engine/_search_path.py:96-99 | between those two reads, the history tells exactly which of that happened |
| SearchPath.SwitchHistory | geodetic_engine/_search_path.py:69-80 | since a switch was last counted, the path is a caller's own exactly where a caller set one |
| SearchPath.CaughtPassGoesStale | geodetic_engine/_search_path.py:96-106 | a pass caught between its first two reads by a switch that puts back the path it read first records a stale context as current |
| SearchPath.SomeRunGoesStale | geodetic_engine/_search_path.py:96-106 | such a run exists from the start, so the unconditional claim is false |
| SearchPath.UndisturbedPassFollows | geodetic_engine/_search_path.py:96-106 | a pass no other step falls into records what its context then reads |
| ForkLock.Lock.Enter | geodetic_engine/_search_path.py:43-47 | entering stamps the block with the process id and takes the lock once more |
| ForkLock.Lock.Exit | geodetic_engine/_search_path.py:49-51 | leaving takes the last stamp off and releases only where it is the process's own |
| ForkLock.Lock.Fork | geodetic_engine/_search_path.py:58-66 | a fork leaves the parent as it was and the child with the lock free and the forking thread's open blocks |
| ForkLock.ExitBalanced | geodetic_engine/_search_path.py:49-51 | leaving a block keeps the depth the number of open blocks of the own id, and never releases a lock not held |
| ForkLock.EntersExactly | geodetic_engine/_search_path.py:32-66 | a thread may enter, or fork, exactly where no other thread is in a block of the process; a fork adds one process under an id never used, and changes no other |
| ForkLock.ChildBalancedIff | geodetic_engine/_search_path.py:58-66 | a child starts balanced exactly when its process id is on none of the blocks it inherits |
| ForkLock.ReusedIdReleasesUnheld | geodetic_engine/_search_path.py:49-51 | with an id an inherited block is stamped with, a lock that is not held would be released |
| ForkLock.LeavingInherited | geodetic_engine/_search_path.py:32-51 | a child that leaves the blocks it inherited releases nothing |
| ForkLock.RunIsSound | geodetic_engine/_search_path.py:32-66 | over every run of nested blocks and forks with fresh ids, each process's depth is its own open blocks and no process releases a lock it does not hold |
| BundledDatabase.UniqueIsDistinct | geodetic_engine/_bundled_database.py:354-361 | no two of the directories left have one key |
| BundledDatabase.UniqueKeepsDistinct | geodetic_engine/_bundled_database.py:354-361 | directories that differ are all kept, in order |
| BundledDatabase.Unique | geodetic_engine/_bundled_database.py:354-361 | the loop with the seen set keeps the first of each key |
| BundledDatabase.FrontedKeeps | geodetic_engine/_bundled_database.py:364-372 | the same directories, the first that holds a database moved to the front; unchanged exactly where it was there |
| BundledDatabase.DatabaseFirst | geodetic_engine/_bundled_database.py:364-372 | the loop finds that first directory |
| BundledDatabase.SplitJoined | geodetic_engine/_bundled_database.py:342-343 | joining clean directories and splitting gives them back |
| BundledDatabase.SearchPath.UseBundledDatabase | geodetic_engine/_bundled_database.py:166-209 | one call changes path and choice as specified, or leaves them and fails |
| BundledDatabase.OnAndOffAgain | geodetic_engine/_bundled_database.py:166-209 | over every sequence of calls from an ordinary path: the bundled directory followed by the original after every on, exactly the original after every off, and no call fails |
| BundledDatabase.OnThenOff | geodetic_engine/_bundled_database.py:166-209 | from any path, on then off restores the text exactly where the bundled directory does not head it, it has no empty entry and its first directory holds a database, or where that directory heads it and a path is remembered that is this one with its first holder at the front; what it gives otherwise, and when it fails |
| BundledDatabase.OnAgainThenOff | geodetic_engine/_bundled_database.py:182-205 | on a path a switch left: restored exactly where the path before had no directory twice and the bundled one as its first holder |
| BundledDatabase.SomePathIsNotRestored | geodetic_engine/_bundled_database.py:166-209 | a path that ends in an empty entry comes back without it |
| BundledDatabase.HeadedPathIsNotRestored | geodetic_engine/_bundled_database.py:182-205 | a path headed by the bundled directory, with nothing remembered, comes back without it |
| BundledDatabase.OffDropsBundled | geodetic_engine/_bundled_database.py:192-205 | where someone else set the path meanwhile, off drops the bundled directory and keeps the others, the first holder to the front |
| BundledDatabase.OffTakesOutExactly | geodetic_engine/_bundled_database.py:190-204 | off leaves the bundled directory out of use, exactly unless it is the first holder of the remembered path |
| BundledDatabase.OffRefusesExactly | geodetic_engine/_bundled_database.py:161-164 | after on, off fails exactly where no other directory holds a database, as promised, unless the path before had the bundled directory; then that is put first, and used |
| BundledDatabase.SomeOffIsNotRefused | geodetic_engine/_bundled_database.py:161-164 | a directory without a database before the bundled one is such a path |
| Doubles.RnIsNearest | geodetic_engine/geodesy/_rounding.py:67-92 | rounding to the nearest double: no double is nearer (section 4.3.1 of IEEE 754-2019) |
| Doubles.RnIsTheNearest | geodetic_engine/geodesy/_rounding.py:67-92 | no double is nearer, and of two as near the one with the even significand is taken (section 4.3.1 of IEEE 754-2019) |
| Rounding.CountExactly | geodetic_engine/geodesy/_rounding.py:67-92 | doubles are the whole numbers of units with a significand below 2 to the 53 |
| Doubles.RnError | geodetic_engine/geodesy/_rounding.py:67-92 | the relative and absolute error bound of one rounded operation |
| Doubles.RnKeepsDoubles | geodetic_engine/geodesy/_rounding.py:67-92 | a double rounds to itself |
| Rounding.ScaleIsDouble | geodetic_engine/geodesy/_rounding.py:67-92 | a power of ten up to the 22nd is a double, so dividing by it is correctly rounded |
| Rounding.FarFromTie | geodetic_engine/geodesy/_rounding.py:74-84 | a product outside the tie margin is farther from a tie than all rounding errors together |
| Rounding.FloorAlike | geodetic_engine/geodesy/_rounding.py:74-84 | two values that far from a tie floor alike |
| Rounding.SameHalfUp | geodetic_engine/geodesy/_rounding.py:74-84 | the rounded product has the half-up floor of the exact decimal |
| Rounding.FastIsReference | geodetic_engine/geodesy/_rounding.py:67-92 | wherever the fast branch is taken it gives the double the exact decimal reference gives, for every decimal form that reads back |
| Rounding.ExactIsHalfUp | geodetic_engine/geodesy/_rounding.py:86-88 | the reference is the double nearest to k tenths, hundredths and so on, for the k with the decimal from half a unit below it to less than half a unit above |
| Rounding.ExactKeeps | geodetic_engine/geodesy/_rounding.py:59-64 | a decimal with no more decimals than asked for is not changed |
| Rounding.RoundInPlace | geodetic_engine/geodesy/_rounding.py:67-92 | the two masked overwrites together give the reference for every value |
| Rounding.RoundHalfUp | geodetic_engine/geodesy/_rounding.py:45-92 | a new array, each value by itself the double nearest to its decimal rounded half away from zero, its sign kept and zero unsigned; one with no more decimals comes back as it is; refused for decimals outside 0 to 400 |
| Segments.Pieces | geodetic_engine/geodesy/_segments.py:112-117 | one piece between parts; else no piece is longer than the length, and with one piece less some would be |
| Segments.FewestPieces | geodetic_engine/geodesy/_segments.py:112-117 | no fewer pieces would keep a segment within the length |
| Segments.Ordinals | geodetic_engine/geodesy/_segments.py:120-125 | arange less repeated shifts gives where each vertex comes after its row |
| Segments.Inserted | geodetic_engine/geodesy/_segments.py:120-125 | repeat and cumsum give each vertex its row and its share of the segment |
| Segments.EmittedAt | geodetic_engine/geodesy/_segments.py:128-146 | the nested loop puts row i and its k-th vertex at one known slot |
| Segments.SlotOwner | geodetic_engine/geodesy/_segments.py:128-146 | every slot is some row's own or a vertex of it |
| Segments.SlotIsUnique | geodetic_engine/geodesy/_segments.py:128-146 | and of only one, so each slot is written once |
| Segments.Merged | geodetic_engine/geodesy/_segments.py:128-146 | scattering rows and vertices to their slots equals the nested loop that emits each row and then its vertices |
| Segments.Densify | geodetic_engine/geodesy/_segments.py:60-76 | refused exactly for no positive length; fewer than two rows as they are; else each row at a slot of its own, the next at once where another part starts there, and within a part after the fewest steps that keep to the length, every value of a vertex at its share between its rows |
| Segments.RowsComeBack | geodetic_engine/geodesy/_segments.py:128-146 | original rows come back unchanged, in order, with their part |
| Segments.OriginsAscend | geodetic_engine/geodesy/_segments.py:128-146 | origins go up by one at a row and stay at a vertex |
| Segments.NoSegmentTooLong | geodetic_engine/geodesy/_segments.py:45-58 | no segment within a part is longer than the length |
| Extents.InOrder | geodetic_engine/geojson/_convert.py:1359-1360 | a sorted permutation of the spans |
| Extents.Reaches | geodetic_engine/geojson/_convert.py:1363-1363 | the running maximum of the highs |
| Extents.Widest | geodetic_engine/geojson/_convert.py:1364-1366 | the first of the widest gaps: every earlier one is less |
| Extents.GapFits | geodetic_engine/geojson/_convert.py:1347-1369 | a box across the antimeridian that holds every part has its gap before, after or within one of the gaps between them |
| Extents.NoNarrower | geodetic_engine/geojson/_convert.py:1347-1369 | so no such box is narrower than the widest gap, or the plain box, leaves it |
| Extents.Across | geodetic_engine/geojson/_convert.py:1347-1369 | bounds given: the box holds every part, nothing of its gap, and no box on the circle that holds every part is narrower; none given for parts within half a turn: a box that does not cross serves as well as any that does over half a turn; none for others (section 5.2 of RFC 7946) |
| Extents.PartSpans | geodetic_engine/geojson/_convert.py:1381-1394 | each part with a finite longitude, and only those, has its least and greatest |
| Extents.EveryPositionIsCovered | geodetic_engine/geojson/_convert.py:1381-1394 | a box that holds every part covers every position that did not fail |
| Winding.LocalIsClosed | geodetic_engine/geojson/_convert.py:1526-1540 | the open sum relative to the first finite position is the closed ring's shoelace sum |
| Winding.TriangleArea | geodetic_engine/geojson/_convert.py:1526-1537 | a closed triangle has positive area exactly where it turns left |
| Winding.AreaWithoutLast | geodetic_engine/geojson/_convert.py:1526-1537 | a ring's area is that of the ring without its last position and of the triangle this leaves out; closing it adds nothing |
| Winding.AreaIsTranslationInvariant | geodetic_engine/geojson/_convert.py:1526-1529 | the shoelace sum does not depend on where the ring lies |
| Winding.AreaReversed | geodetic_engine/geojson/_convert.py:1504-1548 | reversing a ring negates its area |
| Winding.FiniteReversed | geodetic_engine/geojson/_convert.py:1524-1525 | the positions that did not fail, of a reversed ring |
| Winding.FiniteSurvive | geodetic_engine/geojson/_convert.py:1524-1525 | the positions kept are those that did not fail, each once, in order |
| Winding.Flattened | geodetic_engine/geojson/_convert.py:1520-1522 | repeat and cumsum give each flattened position its ring, offset and row |
| Winding.Sift | geodetic_engine/geojson/_convert.py:1523-1525 | the kept positions are each ring's finite ones, ring by ring |
| Winding.Firsts | geodetic_engine/geojson/_convert.py:1529-1529 | searchsorted finds each ring's first finite position |
| Winding.Areas | geodetic_engine/geojson/_convert.py:1531-1537 | bincount of the two products gives each ring its own area |
| Winding.LeftIsPositive | geodetic_engine/geojson/_convert.py:1531-1539 | the positions left of a ring that turns left somewhere and right nowhere enclose a positive area |
| Winding.Wound | geodetic_engine/geojson/_convert.py:1504-1548 | each ring is as it was or exactly reversed, as its own area decides, and no other row moves; one that turns left somewhere and right nowhere comes back as it was where asked anticlockwise and reversed where asked clockwise, one that turns right the other way, and one with fewer than three positions left as it was |
| Winding.TurnedAsAsked | geodetic_engine/geojson/_convert.py:1504-1548 | a ring with three finite positions and an area ends with the sign asked for |
| Winding.EveryRingAsAsked | geodetic_engine/geojson/_convert.py:1504-1548 | shells one way and holes the other, in every result (section 3.1.6 of RFC 7946) |
| Winding.TurnedAgain | geodetic_engine/geojson/_convert.py:1538-1539 | winding a ring twice is winding it once, exactly unless it encloses nothing, is asked to be positive, and reads differently backwards |
| Winding.WoundAgain | geodetic_engine/geojson/_convert.py:1504-1548 | winding everything again changes nothing, exactly unless some ring is such |
| Winding.SomeRingIsRestless | geodetic_engine/geojson/_convert.py:1538-1547 | a closed ring of three distinct positions on one line, asked to be positive, is turned every time |
| Antimeridian.Crossings | geodetic_engine/geodesy/_antimeridian.py:50-80 | a segment crosses exactly when it is within a part, over half a turn long, and its middle is unknown or not between its ends |
| Antimeridian.CrossesExactly | geodetic_engine/geodesy/_antimeridian.py:50-80 | by the two ends: crossing is staying within a part, over half a turn long, the middle unknown or west of both ends or east of both |
| Antimeridian.FullTurnNeedsAnUnknownMiddle | geodetic_engine/geodesy/_antimeridian.py:74-79 | a crossing step of exactly a full turn has no known middle within half a turn |
| Antimeridian.SomeStepIsAFullTurn | geodetic_engine/geodesy/_antimeridian.py:70-79 | from half a turn east to half a turn west with the middle unknown crosses, and is a full turn |
| Antimeridian.CarriedFromFirst | geodetic_engine/geodesy/_antimeridian.py:130-133 | a part's count is the running sum less its value where the part starts |
| Antimeridian.Turns | geodetic_engine/geodesy/_antimeridian.py:118-133 | one cumulative sum over all parts gives each part's own running count from 0; no position at all fails |
| Antimeridian.UnwrappedGoesTheShortWay | geodetic_engine/geodesy/_antimeridian.py:118-133 | carried on, every crossing step is under half a turn, and the others are as given |
| Antimeridian.TurnsAreCounted | geodetic_engine/geodesy/_antimeridian.py:118-133 | the turns counted over all positions are, on every line of one part, counted from its own crossing steps, each over half a turn long |
| Antimeridian.CountedIsOrdinary | geodetic_engine/geodesy/_antimeridian.py:118-133 | so no step is more than one turn, and one cannot be cut just where it crosses and is exactly a full turn |
| Antimeridian.TraceIsUnwrapped | geodetic_engine/geodesy/_antimeridian.py:187-210 | what the pieces are laid back to is the unwrapped line, position by position, and nothing besides but each vertex twice before the position it leads to |
| Antimeridian.CutLine | geodetic_engine/geodesy/_antimeridian.py:193-213 | undefined exactly where a step is a full turn; else pieces of two positions or more, joined on the antimeridian on the straight line between the positions before and after, in every value, which laid on successive sheets are the trace; for counted turns, undefined exactly where a crossing step is a full turn, and else all within half a turn |
| Antimeridian.ShareIsAPart | geodetic_engine/geodesy/_antimeridian.py:203-205 | for counted turns, the share of every crossing step that is not a full turn is between 0 and 1 |
| Antimeridian.VertexOnTheMeridian | geodetic_engine/geodesy/_antimeridian.py:203-210 | each vertex is where the unwrapped line passes a meridian an odd number of half turns round |
| Antimeridian.EndsAreTheVertex | geodetic_engine/geodesy/_antimeridian.py:203-210 | the end of one piece and the start of the next are that vertex, each on its sheet |
| Antimeridian.RingOn | geodetic_engine/geodesy/_antimeridian.py:271-288 | a ring on a sheet, positions on it bit for bit, closed through the nearer pole it winds round |
| Antimeridian.RingCloses | geodetic_engine/geodesy/_antimeridian.py:271-288 | a closed ring is closed on every sheet |
| Antimeridian.GoesThroughTheNearerPole | geodetic_engine/geodesy/_antimeridian.py:281-287 | a ring that winds round goes through the north pole exactly where some position is farther north than any is south, and else the south pole |
| Antimeridian.SheetsAreTranslates | geodetic_engine/geodesy/_antimeridian.py:271-288 | the ring on another sheet is the same ring, whole turns away |
| Coordinates.FastIsSlow | geodetic_engine/geojson/_model.py:660-727 | whatever the fast reader accepts, the value-by-value reader reads to the same positions and shape |
| Coordinates.ReadingIsByValue | geodetic_engine/geojson/_model.py:660-665 | so reading is value-by-value reading, for every value |
| CoordinatesLaws.FastTakes | geodetic_engine/geojson/_model.py:695-727 | the fast reader accepts exactly plain arrays of floats and integers the slow one reads positions from, with rings equal at their ends as read |
| CoordinatesLaws.ReadIsSound | geodetic_engine/geojson/_model.py:668-692 | what is read has one width, lines of two positions or more, closed rings of four or more (section 3.1 of RFC 7946) |
| AcceptedCoordinates.AcceptedExactly | geodetic_engine/geojson/_model.py:150-159 | coordinates of each of the six kinds are read exactly where they are an empty array, or nest as that kind does, lines of two positions or more, closed rings of four or more, polygons of a ring or more, with two finite numbers to a position or with three |
| CoordinateFaults.FaultIsThere | geodetic_engine/geojson/_model.py:668-853 | where reading fails, what the fault says is so of the value its path leads to, at the depth it is about; a position of another width differs from another position of the geometry |
| Coordinates.WalkedIsWhole | geodetic_engine/geojson/_model.py:683-684 | there is a first position wherever the width is asked of it, and as many as the shape says |
| Coordinates.SameIsSameReals | geodetic_engine/geojson/_model.py:730-744 | positions equal as read are equal as floats |
| Coordinates.FloatKept | geodetic_engine/geojson/_model.py:848-853 | an integer that is some float is converted to it |
| Coordinates.FloatExactly | geodetic_engine/geojson/_model.py:848-853 | an integer is the nearest float, of its sign; it is none exactly from half a unit in the last place below 2 to the 1024 |
| CoordinatesLaws.NestingGivesBack | geodetic_engine/geojson/_model.py:961-971 | nesting the positions by their shape gives the coordinates back |
| Coordinates.LocateReaches | geodetic_engine/geojson/_model.py:974-985 | following the path of position i reaches position i |
| Coordinates.NoneToLocate | geodetic_engine/geojson/_model.py:974-985 | past the last position there is none |
| Coordinates.OnlyPositionsAreReached | geodetic_engine/geojson/_model.py:974-985 | a path that reaches a position is that position's |
| CoordinatesLaws.PathsNamePositions | geodetic_engine/geojson/_model.py:974-993 | in what was read, the path named for a position is where its coordinates are |
| Coordinates.SizesSum | geodetic_engine/geojson/_model.py:767-773 | the sizes of the innermost arrays add up to the positions |
| CoordinateReader.Walk | geodetic_engine/geojson/_model.py:776-809 | collecting positions while walking gives the positions, the shape, or the first fault |
| CoordinateReader.PlainNesting | geodetic_engine/geojson/_model.py:747-764 | the loop that nests plain arrays gives the positions and the shape, or none |
| CoordinateReader.AreClosed | geodetic_engine/geojson/_model.py:730-744 | the running start and end compare each ring's own ends |
| CoordinateReader.ReadByValue | geodetic_engine/geojson/_model.py:668-692 | reading, then naming the first position of another width |
| Pipelines.WordsOfJoined | geodetic_engine/geodesy/transformation.py:2163-2176 | words joined by spaces split into the same words |
| Pipelines.AnySpaceSplits | geodetic_engine/geodesy/transformation.py:2163-2163 | text apart by any of the spaces is split into the words of either side |
| Pipelines.WordsAreApart | geodetic_engine/geodesy/transformation.py:2163-2163 | and only by those: text is one word exactly where it holds none |
| Quotes.ReadJoined | geodetic_engine/geodesy/transformation.py:2163-2163 | what PROJ reads of words with single spaces between are the words, those of a quoted value glued |
| Quotes.ReadAlikeExactly | geodetic_engine/geodesy/transformation.py:2163-2163 | splitting at spaces agrees with what PROJ reads exactly where no word but the last leaves a quoted value open |
| Pipelines.PipelineSteps | geodetic_engine/geodesy/transformation.py:2154-2176 | the loop groups tokens by step keywords and drops empty steps |
| Pipelines.NoStepsExactly | geodetic_engine/geodesy/transformation.py:2163-2175 | no steps are given exactly for an empty definition or a parameter outside any step |
| Pipelines.SplittingGivesBack | geodetic_engine/geodesy/transformation.py:2122-2176 | splitting the composed text gives the steps back |
| Pipelines.InvertedWords | geodetic_engine/geodesy/transformation.py:2179-2185 | what the inverted step's words are |
| Pipelines.SingleIsStated | geodetic_engine/geodesy/transformation.py:2163-2185 | a definition of one step, a plus in front of any of its words or not, is that step; run backwards it has inv in front, or is without the first it has |
| Pipelines.KeyedIsWritten | geodetic_engine/geodesy/transformation.py:2149-2151 | the text composed: proj=pipeline, and each step after its keyword; proj=noop without any |
| PipelineRuns.InvertedReads | geodetic_engine/geodesy/transformation.py:2179-2185 | PROJ reads an inverted step as its own words turned over exactly where the first inv the original finds is no part of a quoted value |
| PipelineRuns.MeaningByName | geodetic_engine/geodesy/transformation.py:2179-2185 | what PROJ does with words: omit_fwd and omit_inv leave a position alone in their own direction, and inv turns the rest over |
| PipelineRuns.TurnedOver | geodetic_engine/geodesy/transformation.py:2179-2185 | words turned over do the reverse exactly where their inv flag turns them over (omitted in both directions of a pipeline, or in neither and with the flag at most once), or where that does not matter |
| PipelineRuns.TurnedOverExactly | geodetic_engine/geodesy/transformation.py:2179-2185 | an inverted step does the reverse in every world exactly where its flag turns it over and, unless it is always omitted, no inv of a quoted value is taken for the flag |
| PipelineRuns.InvertedRunsBackward | geodetic_engine/geodesy/transformation.py:2146-2147 | steps that turn over, reversed and inverted, run forwards as the steps run backwards |
| Pipelines.WrittenIsTidy | geodetic_engine/geodesy/transformation.py:2162-2176 | the steps of a definition without stray pluses or step keywords split and join as they are |
| PipelineRuns.StatedIsRead | geodetic_engine/geodesy/transformation.py:2154-2176 | PROJ's steps of a definition are the original's, as PROJ reads each, where the definition has single spaces in quoted values and each step closes its quotes |
| PipelineRuns.KeyedIsRead | geodetic_engine/geodesy/transformation.py:2149-2151 | PROJ reads a composed definition as the steps it was composed of |
| PipelineRuns.KeyedIsStated | geodetic_engine/geodesy/transformation.py:2122-2151 | a composed definition may be composed again |
| Pipelines.ComposePipeline | geodetic_engine/geodesy/transformation.py:2122-2151 | the loop composes the chain's steps, or gives none |
| PipelineRuns.Run | geodetic_engine/geodesy/transformation.py:182-201 | each transformer is run on what the one before gave |
| PipelineRuns.ComposedRunsAsChain | geodetic_engine/geodesy/transformation.py:2122-2151 | running the composed text, as PROJ reads it, is running the transformers in turn, inverted ones backwards, where the steps of those turn over |
| PipelineRuns.NotTurnedOverIsMissed | geodetic_engine/geodesy/transformation.py:2146-2147 | for every other step, the transformer of that step run backwards is not what its composed text does |
| PipelineRuns.ShiftIsMissed | geodetic_engine/geodesy/transformation.py:2179-2185 | a grid shift omitted backwards is such a step, without an inv flag |
| PipelineRuns.TwiceIsMissed | geodetic_engine/geodesy/transformation.py:2179-2185 | so is a step with its inv flag twice |
| PipelineRuns.NameIsMissed | geodetic_engine/geodesy/transformation.py:2179-2185 | so is a grid shift by a file whose name holds the word inv |
| PipelineRuns.SpaceIsStated | geodetic_engine/geodesy/transformation.py:2122-2185 | a file name that only holds a space is composed and inverted as it should be |
| Pipelines.NotStatedExactly | geodetic_engine/geodesy/transformation.py:2142-2145 | none is given exactly where some transformer's definition has no steps |
| Operations.FindIn | geodetic_engine/geodesy/operation.py:922-976 | the loop keeps the last matching node |
| Operations.LastMatchIsLast | geodetic_engine/geodesy/operation.py:961-976 | the node kept is the last that matches, and none is kept exactly where none does |
| Operations.IsForExactly | geodetic_engine/geodesy/operation.py:959-976 | a request is for a node exactly when it matches it and no node below |
| Operations.ForByCode | geodetic_engine/geodesy/operation.py:961-976 | a request by code without a name is only for a node with that identifier, or for one without any that is fused and goes by the registered name |
| Operations.ForByName | geodetic_engine/geodesy/operation.py:961-976 | one by name is for nodes with the identifier it may also have, and for those that go by the name |
| Operations.ForWhatIsFound | geodetic_engine/geodesy/operation.py:961-976 | and it is for every such operation with nothing below |
| Operations.NameMatchesExactly | geodetic_engine/geodesy/operation.py:144-173 | a name without a separator matches exactly by its base name; one with some as a whole, or by one of its parts |
| Operations.PartsAreWhole | geodetic_engine/geodesy/operation.py:1111-1116 | the parts of a fused name joined again are the name, and none holds a separator |
| Operations.ExpectedSteps | geodetic_engine/geodesy/operation.py:1098-1136 | the loop over the parts of a fused name gathers the steps of the operations asked for |
| Operations.StepsOf | geodetic_engine/geodesy/operation.py:1145-1159 | the steps a definition executes, without those that do nothing |
| Operations.InverseTokensTurnOver | geodetic_engine/geodesy/operation.py:1162-1178 | an inverted step does backwards what it did forwards, axis swaps and unit conversions included, exactly where it is omitted in both directions or neither, or leaves the position where it is |
| Operations.InverseTokensTurnOverExactly | geodetic_engine/geodesy/operation.py:1162-1178 | it does so in every lawful world exactly where it is omitted in both directions or neither |
| Operations.AcceptedExactly | geodetic_engine/geodesy/operation.py:1078-1142 | a tree is accepted exactly when every node not below a concatenated operation asked for is a conversion, asked for, or fused and runs what was asked for |
| Operations.EveryDatumChangeWasRequested | geodetic_engine/geodesy/operation.py:1078-1142 | every datum change in an accepted tree was asked for, itself, above it, or as what a fused step runs |
| Operations.AcceptedWasAskedFor | geodetic_engine/geodesy/operation.py:1078-1095 | an accepted transformation that is not fused and has an identifier was asked for under that identifier or by name, or lies below a concatenated operation that was |
| Operations.UnrequestedExactly | geodetic_engine/geodesy/operation.py:1078-1142 | with nothing asked for, exactly the trees of conversions are accepted |
| Operations.FusedRunsWhatWasRequested | geodetic_engine/geodesy/operation.py:1093-1142 | an accepted fused step runs the operations its name joins, in turn, inverse ones backwards, where no step of those is omitted in one direction only |
| Operations.OmittedIsMissed | geodetic_engine/geodesy/operation.py:1135-1142 | where such a step is, an accepted fused step can do something else |
| Operations.SomeOmittedIsMissed | geodetic_engine/geodesy/operation.py:1135-1142 | such an accepted fused step |
| P6.ToMapIsStepped | geodetic_engine/bingrid/p6.py:186-209 | PROJ's inverse affine gives the position EPSG methods 9666 and 1049 state |
| P6.ToMapIsTheFormula | geodetic_engine/bingrid/p6.py:9-15 | that position, easting and northing, by the formula of the two methods in plain products |
| P6.ThereAndBack | geodetic_engine/bingrid/p6.py:186-232 | the two directions undo each other |
| P6.ReanchoredMapsAlike | geodetic_engine/bingrid/p6.py:234-251 | a grid with its origin at another of its positions maps every position as before |
| P6.AppliedByAxes | geodetic_engine/bingrid/p6.py:363-382 | the affine's coefficients measure an offset along the two axes |
| Squaring.Turns | geodetic_engine/bingrid/outline.py:104-111 | the cross product of the two edges at each point |
| Squaring.TurnIsSided | geodetic_engine/bingrid/outline.py:104-111 | a turn is positive exactly where the next point is on the left |
| Squaring.OutlineOf | geodetic_engine/bingrid/outline.py:67-101 | accepted exactly for a strictly convex outline A-B-D-C; a closed ring of the same points turning left throughout, reversed where the outline turns right |
| Squaring.CheckedCoordinates | geodetic_engine/bingrid/squaring.py:276-304 | accepted exactly for a strictly convex outline |
| Squaring.SideOfTheBearing | geodetic_engine/bingrid/squaring.py:174-180 | for convex corners the mean bearing vector is never zero, and C is on the side of it the outline turns to |
| Squaring.DeriveP6 | geodetic_engine/bingrid/squaring.py:131-194 | the three refusals exactly, and else the grid |
| SquaringLaws.FittedIsGrid | geodetic_engine/bingrid/squaring.py:167-194 | widths are positive and the axis a direction; right-handed exactly where the outline turns right |
| SquaringLaws.SquaredIsRectangle | geodetic_engine/bingrid/squaring.py:220-226 | the squared corners are a rectangle with positive edges, the mean of the opposite edges, about the corners' centroid |
| SquaringLaws.SquaredByCoordinates | geodetic_engine/bingrid/squaring.py:169-180 | by coordinates: opposite edges alike, neighbouring ones square, the corners' middle kept, each edge the mean of the two it is for, and the J-edges halving the angle between A to B and C to D |
| SquaringLaws.SquaredIsOutlined | geodetic_engine/bingrid/outline.py:82-101 | the squared corners are accepted as an outline, the ring reversed exactly for right-handed grids |
| SquaringLaws.ResidualsSumToNothing | geodetic_engine/bingrid/squaring.py:226-239 | the residuals in numbers and in coordinates add up to zero |
| SquaringLaws.ScaleMovesNothing | geodetic_engine/bingrid/squaring.py:167-172 | neither the scale factor nor the increments move a fitted position |
| SquaringLaws.OwnGridIsRecovered | geodetic_engine/bingrid/squaring.py:131-194 | deriving from a grid's own corners, at its scale factor and increments, recovers it |
| SquaringLaws.OwnGridMapsAlike | geodetic_engine/bingrid/corners.py:195-228 | and so its widths, bearing and handedness, every position, with no residual |
| SquaringLaws.SquareUp | geodetic_engine/bingrid/squaring.py:197-259 | the grid anchored at squared corner A, the squared corners, the residuals and the largest of them |
| Helmert.ProductIsRotationAndDropped | geodetic_engine/_referencing/helmert.py:259-273 | the product of two linearised rotations is the composed rotation and a symmetric matrix |
| Helmert.TransformedByCoordinates | geodetic_engine/_referencing/helmert.py:169-172 | the transformation coordinate by coordinate, in the position vector convention |
| Helmert.ComposedByCoordinates | geodetic_engine/_referencing/helmert.py:226-276 | composed rotations are the sum of the two and half the product of the second across the first; the translation is the first's transformed by the second, and scales multiply |
| Helmert.ComposedButForDropped | geodetic_engine/_referencing/helmert.py:226-276 | one transformation after the other is the composed one and what the dropped matrix does, scaled by both |
| Helmert.ExactlyExact | geodetic_engine/_referencing/helmert.py:226-276 | composing is exact for every position exactly where one of the two does not rotate, or the scale is nothing |
| Helmert.FoldedButForDropped | geodetic_engine/_referencing/helmert.py:387-389 | any chain is the transformation it collapses to and what each composition dropped, taken on by the steps after |
| Helmert.Collapse | geodetic_engine/_referencing/helmert.py:387-389 | the loop folds a chain; for any chain the result differs from it by exactly what was dropped, which is nothing with at most one rotating step |
| Units.UnitsAreWhole | geodetic_engine/geodesy/geometry.py:931-965 | every unit has members alike in z and m, at any depth |
| Units.WholeExactly | geodetic_engine/geodesy/geometry.py:931-937 | a geometry is left whole exactly where any two members that are not empty, wherever they lie below members that are not, both have z or neither, and both m or neither |
| Units.Split | geodetic_engine/geodesy/geometry.py:968-983 | the geometries as they are exactly where all are alike, else their units and where each is from; every unit given is alike throughout |
| Units.Join | geodetic_engine/geodesy/geometry.py:986-1001 | rebuilt by taking the units in turn, none left and none wanting |
| Units.SplitThenJoined | geodetic_engine/geodesy/geometry.py:968-1001 | split and joined, geometries are as they were |
| Units.ChangedUnitsLand | geodetic_engine/geodesy/geometry.py:968-1001 | each changed unit lands where its original was |

## Left out

- PROJ, pyproj, shapely, numpy and SQLite: transforming is a function per row, geodesics and overlays are not modelled, and numpy's operations are loops and sequences here.
- Floating point outside the rounding: reals elsewhere, so what rounding does to areas, gaps, shares and fitted corners is not captured. Square roots are a function whose square is its argument.
- Overflow in the rounding's doubles: a value past the greatest double stays a large number rather than infinity.
- Error texts: which error, and for coordinates where, but not what it says.
- Segments.Densify: takes the lengths of the segments, of which only the squares are assumed; the geodesic branch is not modelled.
- Antimeridian.Turns: gives none for no position at all, where the original raises an IndexError.
- Antimeridian.CutLine: where a step is exactly a full turn the original divides 0 by 0 and goes on with NaN; here the result is undefined. Cutting polygons is not modelled.
- Coordinates.FastIsSlow: numbers of other types, such as decimals, are given with what float() makes of them, and numpy is taken to convert an integer as float() does.
- PipelineRuns.ComposedRunsAsChain: is stated for definitions without a bare plus, a word with a second plus, a step keyword outside a pipeline or a step that is only an inv flag; whose quoted values hold single spaces and no word with a plus, and close within their step; run backwards, of steps that turn over (see above); and, where they are no pipeline, without `omit_fwd` and `omit_inv`, which PROJ's documentation gives a meaning in pipelines only. The two parameters are taken as bare words, and any double quote opens or closes a value. Whitespace beyond Latin-1 is not split at.
- Operations.FusedRunsWhatWasRequested: is stated where no step asked for backwards is omitted in one direction only, and nothing that is no pipeline has either parameter.
- PipelineRuns.Run: what a position holds, PROJ's push and pop stack included, goes on from one transformer to the next, where in the original each transformer starts with an empty stack. Steps are time-free; the observation epoch each leg is given is not modelled.
- Operations.AcceptedExactly: names, the registry and shell-like splitting are functions; a definition of blanks only, on which the original fails to index, is taken as none. Tokens of a unit conversion are exchanged as the original's text replacement does, and that this undoes it is a law of the modelled PROJ.
- WkbReplace.ReplaceCoordinates: too few rows is no result, as for every other fault; the original raises an IndexError there although its documentation names a ValueError; and struct.error, which is no ValueError either, for bytes cut short.
- Squaring.DeriveP6: the J-axis is a direction rather than a bearing in degrees, so folding degrees into 0 to 360 is not modelled; labelling four corners given in any order is not modelled either.
- Helmert.Collapse: checking the result against PROJ and stating it as WKT are not modelled.
- Units.Split: the one-pass comparison of simple members is taken as the member-by-member one, and empty geometries, z and m are functions.
- SearchPath.FollowersReadThePath: reading a path's identity is one step, and the identity of a path does not change while it is on disk.
- GeoJSON documents around coordinates (features, flavours, bounding box members, foreign members), the groups a conversion gathers and scatters positions by, the HTTP client, caches, provenance and exports: no harder property than those above.
