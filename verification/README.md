# sumpnet: a verified model of its recomputations, protocols, geometry and firmware

sumpnet watches basement sump pumps and rain gauges: nodes send uplinks over MQTT, bridges batch them into an
ingest service, Postgres consumers derive rainfall, storms, detections and alerts from the stored rows, and a
gateway streams the neighbourhood's state to browsers. Almost everything after ingest is recomputed piece by piece,
and is right only if the pieces agree with a simple definition over the whole history. This project states those
definitions and proves the agreement.

How to read it:

- **Rainfall from gauge uplinks.** `GaugeRainfall.dfy` (derivation, uplink and rainfall tables, the reconciler),
  `GaugeRuns.dfy` (every order and batching of arrivals), `GaugeNode.dfy` and `GaugeTruth.dfy` (the gauge firmware,
  and what the derived rows say about the rain it counted), `GaugeLives.dfy` (gauges that reboot).
- **Storms.** `Rain.dfy` (merging stations), `Storms.dfy` (segmentation), `StormPipeline.dfy` (the pipeline and its
  refinement), `SimStorms.dfy` (the simulator's own finder), `Selection.dfy` (gauge or ECCC), `StormWindow.dfy`,
  `WindowMeaning.dfy` and `StormWindowExact.dfy` (the widened window against the whole record), `LongRow.dfy` (the
  rows it cannot see), `StormRows.dfy`, `StormRecords.dfy` and `StormRefresh.dfy` (stored rows with stable ids),
  `CappedWindow.dfy` (a window cut at its cap).
- **Site outlines.** `Grid.dfy`, `Components.dfy`, `Holes.dfy` (flood fill), `Boundary.dfy`, `Jordan.dfy`,
  `Circuits.dfy` (when a boundary is one circuit), `Shoelace.dfy`, `Corners.dfy`, `RingShape.dfy` (what a ring looks
  like), `Trace.dfy` (tracing and its area).
- **Protocols.** `Watermark.dfy`, `WatermarkRuns.dfy` (polling consumers against in-flight writers); `BulkStore.dfy`,
  `IngestStream.dfy`, `BridgeClient.dfy`, `Batcher.dfy`, `Delivery.dfy`, `DeliveryProgress.dfy` (MQTT at QoS 1,
  section 4.3.2 of MQTT Version 5.0, to the idempotent table); `Watch.dfy`, `ChangeTracker.dfy` (the gateway's live
  stream).
- **Firmware and rules.** `HomeNode.dfy` (storm-mode roll-up), `Streaks.dfy` (short cycling in a bounded or loaded
  window), `Detector.dfy` (one condition), `DetectorHandler.dfy` (all of them, in place), `Alerts.dfy`,
  `AlertRules.dfy`, `AlertMeaning.dfy` (what each source does to each alert).
- `Common.dfy` holds what several modules share.

Conventions. Times are integers (nanoseconds in the rain and gauge modules, seconds or ticks elsewhere); depths are
exact reals. SQL statements are functions or methods on maps, sets and ordered lists; each stands for one statement
of the generated query code. What the database, the clock, the network or the scheduler decides is a parameter or a
step of a state machine, so a theorem over all runs covers every choice. Each stateful part of the source is a class
whose methods are tied to a specification function; the theorems are about those functions and about whole runs.

## What is proved, hardest first

1. A connected region without holes has exactly one boundary circuit and no saddle vertex, and conversely
   (`Circuits.CircuitExactly`, by a discrete winding-number argument in `Jordan`). So the tracer succeeds exactly on
   such regions (`Trace.TraceRing`), the comment before it in geom.go is right, and the ring it returns encloses
   exactly the kept cells (`Trace.RingArea`): its vertices are exactly the points where the region's boundary turns,
   its edges alternate between horizontal and vertical and run along the boundary (`RingShape.CornersOutline`).
   Largest component, hole filling and tracing together never fail on a non-empty window (`Trace.Outline`).
2. When window widening settles, the storms of the window are a contiguous stretch of the whole record's storms, with
   the same fields and Closed flags (`StormWindowExact.WindowStormsExact`), gauge/ECCC selection included, provided the
   window's query scans every row that overlaps the window. It scans seven days back; `LongRow.LongRowHidden` shows for
   every longer row, as the derivation writes it after lost uplinks, a settled window that misses its storm.
3. Whatever order and batches a gauge's uplinks arrive in, the rainfall rows converge to the from-scratch rows **if
   and only if** no booting uplink reports an interval reaching before the first uplink's own stretch
   (`GaugeRuns.ConvergesExactly`). The comment in gauge.go does not name this condition;
   `GaugeRuns.LateUplinkBehindBoot` is a concrete history that breaks it. Distinct event times are not needed. With
   the firmware in front, the rows add up to the tips the gauge counted if and only if its 32-bit counter has not
   wrapped (`GaugeTruth.NodeConserves`, `GaugeTruth.RowsExact`, for all rain), whatever uplinks are lost on the way
   (`GaugeTruth.LossyRowsExact`); and the rows of a gauge that reboots are those of its lives, each by itself, and
   count every life's tips (`GaugeLives.LivesApart`, `GaugeLives.LivesConserve`).
4. In every interleaving of writers, polls, handler failures and rollbacks with timely writers, the committed effects
   are exactly the rows up to the watermark, each once and oldest first (`WatermarkRuns.RunCovers`); for every lag a
   writer that takes exactly that long can lose its row (`WatermarkRuns.LagIsTight`).
5. Over crashes, retries, lost acknowledgements and redeliveries an acknowledged message was stored, refused or
   dropped, and none is lost (`Delivery.RunSafe`). A run's flush is the client's submission over any attempts, each a
   stream under any schedule, and it confirms a batch exactly when that submission succeeded; all that is asked of
   the transport is that messages arrive in order and that a stream on which a send failed does not end well, and
   without the latter a row can go missing (`BridgeClient.FailedSendMatters`). How a stream is cut into batches
   changes neither the table nor the counts (`BulkStore.BatchingIrrelevant`, `IngestStream.StreamMeaning`). A
   submission succeeds exactly if some attempt wins after retryable failures only (`BridgeClient.SubmissionExactly`),
   and from every state any unacknowledged message can still be acknowledged (`DeliveryProgress.NeverStuck`).
6. Two refreshes in a row with no new rain: the second changes nothing **if and only if** every storm's row is found
   again in the window (`StormRows.RefreshTwice`, `StormRefresh.RefreshAgain`). That holds whenever the widening
   stopped on its own with no rain past the window's right end, whatever the scan missed
   (`StormRefresh.SettledRefreshTwice`); and there is none past it if the first window's query scans every row that
   overlaps it (`StormRefresh.ScannedEndsInside`). It fails at the cap: in the spells of rain of
   `CappedWindow.WetSpell` a storm lies across the window's left end, and its row is never found again.
7. Detections: from any starting condition raise and clear alternate, a condition is active exactly if it is latched,
   and clears come in time exactly if no healthy observation was counted before (`Detector.LatchedExactly`,
   `Detector.ClearsInTimeExactly`); a seeding keeps the alternation exactly if the loaded window agrees with the
   condition (`Detector.SeedAlternates`); a loaded window gives the verdict of all history exactly if it holds four
   cycles or the whole streak (`Streaks.LoadedVerdict`).
8. Publishing gives each subscriber exactly what it asked for and may see, and folding its stream gives the hub's
   statuses, the last event of every storm and the standing alerts of its owner (`Watch.Hub.Publish`,
   `Watch.LiveView`); the change tracker delivers each version exactly once; storm summaries describe exactly the
   runs of their window (`HomeNode.SendsExactly`); and in every interleaving of their sources alerts stay sound, one
   open per device and code, with the number and times of its triggers (`AlertRules.AlwaysSound`,
   `AlertMeaning.EpisodeExact`).

Where a promise does not hold for all inputs there is an exact condition, and an input that breaks it:

| condition | input |
|---|---|
| `GaugeRuns.ConvergesExactly` | `GaugeRuns.LateUplinkBehindBoot` |
| `GaugeTruth.NodeConserves`, `GaugeTruth.RowsExact` | `GaugeTruth.WrapLoses` |
| `StormWindow.InReach`, asked by `StormWindowExact.WindowStormsExact` (one way) | `LongRow.LongRowHidden` |
| `StormRefresh.RefreshAgain` | `CappedWindow.WetSpell` |
| `WatermarkRuns.RunCovers` (writers within the lag, one way) | `WatermarkRuns.LagIsTight` |
| `ChangeTracker.ExactlyOnce` (commits within the overlap, one way) | `ChangeTracker.OverlapIsTight` |
| `BridgeClient.SubmissionLands` (failed sends end the stream, one way) | `BridgeClient.FailedSendMatters` |
| `HomeNode.ConservedExactly` | `HomeNode.OverfullWindow` |
| `Streaks.WindowVerdict`, `Streaks.LoadedVerdict` | `Streaks.SmallWindow`, `Streaks.BackupsHideStreak` |
| `Detector.ClearsInTimeExactly`, `Detector.SeedAlternates` | `Detector.SeedClearsTwice` |
| `AlertRules.LateBeat` | `AlertRules.LateBeatExample` |

## Model
| member | source | states |
|---|---|---|
| GaugeRainfall.DeriveOne | internal/weather/gauge.go:83-115 | rows lie between the previous uplink (or the boot) and this one, at most two; a first uplink yields rows exactly if it reports a usable boot, one with a sensor fault none |
| GaugeLives.Follows | internal/weather/gauge.go:58-67 | after another uplink: the new tips since it; after a restart the new count, over the node's own interval but not from before that uplink |
| GaugeLives.Placed | internal/weather/gauge.go:68-71 | rows lie end to end up to the uplink; late tips are placed in the last wake period unless an uplink is missing |
| GaugeLives.UnseenReboot | internal/weather/gauge.go:96-104 | when the uplink that reported a reboot is lost: the count is right exactly if it is smaller than the old one |
| GaugeLives.LivesApart | internal/weather/gauge.go:73-104 | the rows of a history of several lives are those of each life derived by itself |
| GaugeLives.LivesConserve | internal/weather/gauge.go:58-67 | depths add up to the tips each life counted last, whatever the counts before, under losses that keep each life's first and last uplink |
| GaugeRainfall.DeriveGaugeRainfall | internal/weather/gauge.go:73-81 | the running-predecessor loop computes the derivation of consecutive uplinks |
| GaugeRainfall.DeriveAt | internal/weather/gauge.go:73-115 | a moment in one uplink's stretch gets its row from that uplink and its predecessor alone |
| GaugeRainfall.RewriteCleans | internal/weather/gauge.go:225-250 | deleting and upserting a stretch leaves exactly the derived rows in it |
| GaugeRainfall.ReconciledMeaning | internal/weather/gauge.go:196-255 | after reconciling, every touched stretch holds exactly its derived rows and nothing outside changed |
| GaugeRainfall.GaugeStore.Handle | internal/weather/gauge.go:141-192 | a poll reconciles the span between its first and last uplink; the change count is the number of starts at which the table differs |
| GaugeRainfall.GaugeStore.Reconcile | internal/weather/gauge.go:196-255 | the table becomes the reconciled one, the change count is the number of starts at which it differs, the reported range runs from where the first stretch begins to the last uplink, rows outside it untouched |
| GaugeRainfall.UpsertRows | internal/store/sqlcgen/weather.sql.go:315-345 | the count is the number of rows the table did not hold |
| GaugeRainfall.ScanStarts | internal/weather/gauge.go:225-236 | the kept starts and the lower end of the deleted range |
| GaugeRuns.RunInv | internal/weather/gauge.go:141-255 | over every order of stores and polls, each uplink whose neighbours are handled has exactly its derived rows, and rows are bounded by a boot |
| GaugeRuns.Converges | internal/weather/gauge.go:57-81 | once every uplink is handled the rows equal the from-scratch derivation, when boots stay inside |
| GaugeRuns.StaleRow | internal/weather/gauge.go:225-236 | a boot reaching before the first stretch can leave a row no later poll removes |
| GaugeRuns.ConvergesExactly | internal/weather/gauge.go:57-255 | all arrival orders converge if and only if boots stay inside the history |
| GaugeRuns.LateUplinkBehindBoot | internal/weather/gauge.go:225-236 | a concrete two-uplink history whose rows differ from scratch |
| GaugeNode.Gauge.Step | internal/sim/gauge.go:91-121 | one second of the node: bucket, wake test, transmit rule |
| GaugeNode.FillCounts | internal/sim/gauge.go:92-99 | all rain has tipped or is in the bucket, and the counter shows the tips modulo its 32 bits |
| GaugeNode.StepKnows | internal/sim/gauge.go:91-121 | a report comes at a wake within fifteen minutes, and sooner only with a new count; after more than one wake period the counter was unchanged at the wake before |
| GaugeTruth.RunChains | internal/sim/gauge.go:91-121 | for every rain series: the counter follows the rain, wrapping around, and each uplink's interval reaches back to the one before |
| GaugeTruth.RowsExact | internal/weather/gauge.go:27-36 | without losses every derived row holds exactly the tips counted in its interval, if and only if the counter has not wrapped by the last uplink |
| GaugeTruth.LossyRowsExact | internal/weather/gauge.go:27-39 | whatever uplinks but the first are lost, every row holds exactly the tips counted in its interval while the counter has not wrapped |
| GaugeTruth.LossConserves | internal/weather/gauge.go:61-63 | losing uplinks other than the first and last does not change the total depth |
| GaugeTruth.NodeConserves | internal/sim/gauge.go:91-121 | rows derived from any part of a node's uplinks that keeps the first and last sum to the tips counted by the last, if and only if the counter has not wrapped by then |
| GaugeTruth.WrapLoses | internal/weather/gauge.go:88-95 | for every bucket and phase, a cloudburst whose tips a wrapped counter hides |
| Rain.FloorDiv | internal/hydrology/storm.go:214-220 | floor division for negative times as well |
| Rain.MergeRain | internal/hydrology/storm.go:46-93 | for any bin width the bin maps compute the per-bin mean of the stations that cover a bin; a width that is not positive means five minutes |
| Rain.MergedSorted | internal/hydrology/storm.go:40-93 | merged rain is sorted and does not overlap |
| Rain.MeanBetween | internal/hydrology/storm.go:46-93 | a bin's merged depth lies between the depths of the stations that report for it |
| Rain.MergeConserves | internal/hydrology/storm.go:46-93 | a single station's total depth is conserved, for negative and unaligned times too |
| Rain.SpreadEvenly | internal/hydrology/storm.go:40-67 | an interval's depth is spread over its bins in proportion to the overlap |
| Storms.SegmentStorms | internal/hydrology/storm.go:113-149 | the scan reports the described runs of wet intervals |
| Storms.GroupsAreSegmentation | internal/hydrology/storm.go:95-112 | the runs partition the wet intervals, unbroken inside and six hours apart |
| Storms.SegmentationUnique | internal/hydrology/storm.go:95-112 | no other partition has that property |
| Storms.ClosedIsFinal | internal/hydrology/storm.go:107-149 | closed storms stay as they are, in place, whatever rain comes at or after the horizon |
| Storms.ClosedExactly | internal/hydrology/storm.go:107-149 | a storm is closed if and only if no rain at or after the horizon can change it |
| Storms.ReportMeaning | internal/hydrology/storm.go:107-149 | the storms are exactly the runs with at least five millimetres, with their span and depth; which of them are closed |
| Storms.SplitSegments | internal/hydrology/storm.go:113-149 | series separated by a long dry gap segment independently |
| Storms.OnsetMeaning | internal/hydrology/storm.go:95-149 | the onset is where the run's first strong interval starts, or its first one if none is strong |
| Storms.PeakMeaning | internal/hydrology/storm.go:95-149 | the peak bounds every interval's intensity and is attained |
| StormPipeline.FindStorms | internal/hydrology/storm.go:159-185 | merge, segment, refine |
| StormPipeline.RefineStorm | internal/hydrology/storm.go:163-184 | the refinement picks the first strong and the last wet interval near the storm |
| StormPipeline.RefineMeaning | internal/hydrology/storm.go:163-184 | onset and end are those of the earliest strong and the latest wet interval near the storm |
| StormPipeline.CandidateInside | internal/hydrology/storm.go:166-176 | an interval overlapping a storm's padded span lies inside the storm |
| StormPipeline.RefineInside | internal/hydrology/storm.go:159-185 | refined onset and end stay inside the merged span |
| StormPipeline.FoundApart | internal/hydrology/storm.go:159-185 | refined storms match the segmented ones and stay ordered, six hours apart |
| StormPipeline.RefineLocal | internal/hydrology/storm.go:159-185 | the refinement depends only on the rain near the storm |
| SimStorms.FindStorms | internal/sim/truth.go:97-135 | the simulator's minute scan reports the same storms as the analytics segmentation, ends as minute indices |
| Selection.UnionSpans | internal/storms/select.go:69-87 | sorted disjoint spans cover exactly the moments the intervals do |
| Selection.SearchSpan | internal/storms/select.go:89-100 | the binary search finds the first span ending after a moment |
| Selection.KeepUncovered | internal/storms/select.go:89-100 | exactly the intervals that no gauge interval overlaps |
| Selection.SelectRain | internal/storms/select.go:23-67 | all gauge series and the uncovered part of each ECCC series, in station order |
| WindowMeaning.ListedExactly | internal/store/sqlcgen/weather.sql.go:91-138 | the query returns exactly the rows it should, each as often as stored and in the table's order |
| WindowMeaning.SelectedExactly | internal/storms/select.go:23-67 | one series for every station with an interval to use, gauges first and each kind in station order; a series holds that station's intervals in order, an ECCC one only those no gauge row overlaps |
| WindowMeaning.WidenedBy | internal/storms/storms.go:221-247 | each end moves a day exactly if wet rain lies near it (and, on the right, the record goes on), until neither does or the cap is reached |
| StormWindow.WetExtent | internal/storms/select.go:102-119 | the first wet start and last wet end, or none |
| StormWindow.ReachMeaning | internal/store/sqlcgen/weather.sql.go:296-313 | the horizon is the latest interval end from a time on |
| StormWindow.ListedMember | internal/store/sqlcgen/weather.sql.go:91-138 | which rows the window query returns |
| StormWindow.WidenWindow | internal/storms/storms.go:221-247 | the loop returns the window that the day-by-day widening ends with, its rain and which series are a gauge's |
| StormWindow.WidenedSettles | internal/storms/storms.go:221-247 | widening only grows the window, by at most a day a side each time, and ends settled or at the cap |
| StormWindow.FinalWindowSettles | internal/storms/storms.go:205-247 | if every row that overlaps the first window is scanned, the horizon found is the record's, or the window is dry |
| StormWindow.SelectedMember | internal/storms/select.go:23-99 | which rows the selection keeps, without its loops |
| StormWindowExact.ValueSame | internal/storms/storms.go:221-249 | inside a settled window every bin has the value the whole record gives it |
| StormWindowExact.WindowStormsExact | internal/storms/storms.go:221-249 | a settled window whose overlapping rows are all scanned has exactly the whole record's storms between those that end before it and those that begin after it |
| LongRow.LostUplinks | internal/weather/gauge.go:83-115 | the single row, of any length, that the derivation writes when all uplinks in between were lost |
| LongRow.LongRowHidden | internal/store/sqlcgen/weather.sql.go:91-138 | for every such row longer than the scan: a settled window inside it with no storm, and the whole record's storm across it |
| StormRows.MatchRows | internal/storms/storms.go:262-283 | the earliest stored row in a storm's span is its match, the others are deleted, marks and table say so |
| StormRows.ListOwned | internal/storms/storms.go:249-261 | the rows the window answers for, ordered by start and id |
| StormRows.StormTable.RefreshOne | internal/storms/storms.go:262-318 | one storm takes over, updates or inserts its row; changes are counted exactly |
| StormRows.StormTable.Refresh | internal/storms/storms.go:249-333 | one row per kept storm, distinct ids, heirs keep their id, rows outside untouched, zero changes exactly if unchanged |
| StormRecords.RowRecords | internal/storms/storms.go:348-364 | what a row says of its storm: start and end to the microsecond, depth and peak to the nearest hundredth, closed or open, its source |
| StormRecords.RefreshedMeans | internal/storms/storms.go:249-333 | a refresh in terms of rows alone: which storms have one, that it records the storm, whose id it has, what is gone and what stays |
| StormRows.RefreshTwice | internal/storms/storms.go:249-333 | a second refresh with the same storms changes nothing if and only if every row is found again in the window and its storm's span, and then returns the same ids |
| StormRefresh.SettledFindsBack | internal/storms/storms.go:249-369 | if all rain of a window begins well after its left end and ends by its right end, every storm is kept and its row is found again |
| StormRefresh.SettledRefreshTwice | internal/storms/storms.go:221-333 | so refreshing is idempotent when the widening stopped before the cap and no rain in the window reaches past its right end |
| StormRefresh.ScannedEndsInside | internal/storms/storms.go:198-247 | no rain does if the first window's query scans every row that overlaps it, and the storms are then those of the record's horizon |
| StormRefresh.RefreshStorms | internal/storms/storms.go:199-333 | the whole operation on a table: widen, find, name the source, reconcile; the rows then record the storms the rainfall determines |
| StormRefresh.SourceMeaning | internal/storms/select.go:129-144 | a storm is put down to the gauges if and only if a gauge's row in the window was wet during it |
| StormRefresh.RefreshAgain | internal/storms/storms.go:199-333 | called twice in a row, the second call changes nothing exactly if all rows are found again, and then ids are equal |
| CappedWindow.CutStorm | internal/storms/storms.go:221-333 | a storm with strong rain across the final window's left end never finds its row again |
| CappedWindow.WetSpell | internal/storms/storms.go:234-247 | for every spell of more than ninety days with rain across midnight: the window stops at the cap and a storm's row is not found again |
| Components.Flood | internal/site/geom.go:324-345 | labels exactly one component and counts its cells |
| Components.LargestComponent | internal/site/geom.go:317-355 | keeps exactly one component of maximum size, the raster-first on a tie |
| Holes.FillHoles | internal/site/geom.go:358-390 | in place, adds exactly the cells the window border cannot reach |
| Holes.BorderExactly | internal/site/geom.go:358-390 | the border cells flooding starts from are exactly those from which a step leaves the window |
| Holes.FilledConnected | internal/site/geom.go:357-390 | a connected region stays connected |
| Holes.FilledOutside | internal/site/geom.go:357-390 | every unkept cell is connected to the window border |
| Jordan.WindingUp | internal/site/geom.go:392-395 | the winding number changes across a side by the net steps along it |
| Jordan.LoopIsAll | internal/site/geom.go:392-395 | round a connected region without holes, any closed walks along boundary edges take all of them |
| Circuits.TrailCloses | internal/site/geom.go:392-452 | following one edge out of each vertex from anywhere closes the whole circuit |
| Circuits.CircuitExactly | internal/site/geom.go:392-395 | one boundary circuit, if and only if the region is not empty, connected and without holes |
| Shoelace.BoundaryEncloses | internal/site/geom.go:411-428 | the boundary edges' cross products sum to twice the number of cells |
| Shoelace.CircuitArea | internal/site/geom.go:437-452 | a circuit has as many vertices as there are edges and encloses exactly the region |
| Shoelace.SignedArea | internal/site/geom.go:520-527 | half the closed shoelace sum |
| Corners.KeepCorners | internal/site/geom.go:457-465 | the vertices where the boundary turns, in order |
| Corners.CornersArea | internal/site/geom.go:457-465 | dropping straight vertices keeps the area |
| Corners.FirstIsCorner | internal/site/geom.go:429-436 | the raster-first vertex is a corner |
| RingShape.CornersOutline | internal/site/geom.go:437-466 | the ring's vertices are exactly the points where the region's boundary turns, from the raster-first on; its edges alternate in direction and run along the boundary |
| Trace.RecordAll | internal/site/geom.go:397-428 | every boundary edge is recorded once; the saddle flag says whether a vertex has two |
| Trace.WalkRound | internal/site/geom.go:440-455 | the walk succeeds exactly if the links close after all edges, and then visits distinct vertices |
| Trace.RingArea | internal/site/geom.go:437-466 | the corner ring's doubled area is twice the kept cells, so it is counter-clockwise |
| Trace.TraceRing | internal/site/geom.go:396-466 | saddle, empty and ring results exactly characterised; a ring outlines the region and encloses it |
| Trace.Outline | internal/site/geom.go:290-303 | largest component, filled and traced: always a ring that outlines the kept cells unless the window is empty |
| Watermark.TakeGroupsWhole | internal/store/sqlcgen/watermarks.sql.go:93-105 | a poll never splits rows of one inserted_at |
| Watermark.TakeGroupsCount | internal/store/sqlcgen/watermarks.sql.go:93-105 | a poll takes as many groups as allowed, or all |
| Watermark.PolledMeaning | internal/store/sqlcgen/watermarks.sql.go:93-105 | polled rows are all rows between the watermark and the last of them; none means none pending |
| Watermark.PollAdvances | internal/watermark/consumer.go:291-318 | a successful poll extends the handled rows exactly from one watermark to the next |
| Watermark.Consumer.RunStage | internal/watermark/consumer.go:272-327 | commit advances effects and watermark; failure leaves them and resets the handler |
| Watermark.Consumer.RunOnce | internal/watermark/consumer.go:153-170 | each stage with its own clock and table: every stage stays covered; a failure leaves that and later stages untouched; a round without rows reaches the lag boundary |
| WatermarkRuns.RunCovers | internal/watermark/consumer.go:272-327 | with writers that commit within the lag, effects are exactly the rows up to the watermark in every interleaving, commits whose answer is lost included, and handlers remember no rolled-back row |
| WatermarkRuns.RunAtMostOnce | internal/watermark/consumer.go:272-327 | without that, still nothing twice and nothing out of order |
| WatermarkRuns.MissedStays | internal/watermark/consumer.go:272-327 | a row the watermark passed is never handled |
| WatermarkRuns.LagIsTight | internal/store/sqlcgen/watermarks.sql.go:29-31 | for every lag, a writer taking exactly the lag can lose its row |
| WatermarkRuns.DrainsAll | internal/watermark/consumer.go:189-206 | draining handles all pending rows in order, in the fewest rounds the group limit allows |
| BulkStore.Store.Insert | internal/store/bulk.go:131-211 | one atomic insert: stage, register or reject, merge, count |
| BulkStore.StatementsAgree | internal/store/bulk.go:164-200 | the statements over the whole batch do what inserting row by row would |
| BulkStore.BatchingIrrelevant | internal/store/bulk.go:131-211 | cutting rows into batches changes neither data nor counts |
| BulkStore.CountsAddUp | internal/store/bulk.go:15-20 | accepted, duplicates and rejected account for every row; accepted is the growth of the table |
| BulkStore.RejectedExactly | internal/store/bulk.go:164-190 | rejected counts exactly the rows of devices the store does not take |
| BulkStore.StoredExactly | internal/store/bulk.go:131-211 | which keys are stored after an insert |
| BulkStore.DevicesExactly | internal/store/bulk.go:164-190 | which devices are registered and when each was last seen |
| BulkStore.StoredStays | internal/store/bulk.go:193-200 | a stored row is never changed |
| BulkStore.FirstWins | internal/store/bulk.go:193-200 | a new key holds the first row that brought it |
| BulkStore.AgainNothing | internal/store/bulk.go:128-211 | rows that have landed change nothing when sent again |
| IngestStream.RunStream | internal/ingest/server.go:190-311 | under any schedule the handler leaves the data and gives the answer of the stream's specification |
| IngestStream.StreamMeaning | internal/ingest/server.go:190-311 | success means every valid row received landed and is counted; failure stored a prefix; other writers in between change neither |
| IngestStream.StreamLog | internal/ingest/server.go:267-311 | a stream leaves nothing but inserts of its own valid rows and of rows others wrote |
| IngestStream.StreamPrompt | internal/ingest/server.go:225-266 | a full batch goes to the store at once and a due one then |
| IngestStream.AnswerComes | internal/ingest/server.go:190-311 | once the client closes its side and what is queued is stored, the answer comes |
| BridgeClient.ChunksJoin | internal/bridge/client.go:123-129 | chunking keeps all messages in order; every chunk but the last is full, none is empty |
| BridgeClient.AttemptSubmit | internal/bridge/client.go:169-185 | one attempt leaves what its stream leaves; success means the valid rows of what was sent have landed, and the counts add up to them |
| BridgeClient.Submit | internal/bridge/client.go:133-167 | the retry loop leaves the data and outcome of the submission, for any attempts |
| BridgeClient.SubmissionExactly | internal/bridge/client.go:133-167 | success if and only if some attempt wins on the data its predecessors left, all of which failed with retryable errors; the data are those left by the attempts made |
| BridgeClient.SubmissionLands | internal/bridge/client.go:133-185 | success means some attempt landed what it sent; every valid row, if streams with a failed send do not end well |
| BridgeClient.SubmissionLog | internal/bridge/client.go:133-185 | failed or not, a submission leaves nothing but inserts of its own valid rows and of rows others wrote |
| BridgeClient.SubmitBatch | internal/bridge/client.go:80-88 | the same for a whole batch through chunking |
| BridgeClient.FailedSendMatters | internal/bridge/client.go:174-182 | why a stream on which a send failed must not end well: otherwise a row is missing |
| Batcher.NextKeeps | internal/bridge/batcher.go:70-152 | every event keeps: batches, the current one and the queue are the arrivals in order; batches have one to the limit; acknowledged is exactly what was flushed |
| Batcher.LifeKeeps | internal/bridge/batcher.go:70-152 | so in every life of a batcher |
| Batcher.Batcher.Run | internal/bridge/batcher.go:70-130 | the loop, in place, is those events until a flush fails or the process is told to stop; a stop that drains without failure acknowledges everything |
| Batcher.Batcher.TakeOne | internal/bridge/batcher.go:84-101 | the oldest message joins the batch, which is flushed when full |
| Batcher.DrainedAll | internal/bridge/batcher.go:104-130 | a drain without failure acknowledges every arrival |
| Batcher.DueFlushes | internal/bridge/batcher.go:84-103 | once what is queued has been taken, the next due flush acknowledges every arrival |
| Batcher.OnlyFull | internal/bridge/batcher.go:84-103 | before it is due only a full batch is flushed |
| Batcher.FullPieces | internal/bridge/batcher.go:104-127 | a drain flushes as much at a time as it may |
| Batcher.Batcher.Submit | internal/bridge/batcher.go:132-152 | acknowledges a batch after its flush and not otherwise |
| Batcher.Batcher.Drain | internal/bridge/batcher.go:104-127 | takes everything queued and flushes it in order, in pieces of at most the limit |
| Delivery.FlushHandles | internal/bridge/run.go:166-205 | a flush whose submission succeeded has stored or refused every valid message of its batch |
| Delivery.RunSafe | internal/bridge/run.go:166-205 | in every run: acknowledged means stored, refused or dropped; nothing lost; stored values were published; each life hands on a prefix of its arrivals |
| Delivery.RunKeepsRows | internal/store/bulk.go:193-200 | a stored row keeps its value for the rest of every run |
| DeliveryProgress.NeverStuck | internal/bridge/run.go:166-205 | whatever has happened, a new life that finds the server up acknowledges any message the broker still has |
| Watch.FoldStatuses | web/src/lib/neighbourhood.ts:17-24 | the client's fold holds the last status the stream gave for each segment |
| Watch.FoldStorms | web/src/lib/neighbourhood.ts:24-26 | and the last event of each storm |
| Watch.FoldAlerts | web/src/lib/neighbourhood.ts:27-32 | and exactly the alerts that stand, as last told |
| Watch.FoldAsOf | web/src/lib/neighbourhood.ts:17-23 | and the time of the last status |
| Watch.Hub.Publish | internal/gateway/watch.go:263-302 | each live subscriber's queue grows by exactly the changed statuses of its segments, every storm, and the alerts of its subject's homes there, in order; it is dropped exactly if they do not fit |
| Watch.Hub.Register | internal/gateway/watch.go:324-338 | registration and snapshot in one step leave the subscriber up to date |
| Watch.SnapshotAre | internal/gateway/watch.go:324-338 | a snapshot holds exactly the statuses of the segments asked for, in catalogue order |
| Watch.Hub.SendSnapshot | internal/gateway/watch.go:340-354 | storms and alerts sent with the snapshot do not disturb the statuses |
| Watch.Hub.SendNext | internal/gateway/watch.go:355-368 | sending the oldest queued update leaves the stream's content as it was |
| Watch.Hub.Remove | internal/gateway/watch.go:304-309 | removes one subscriber and no other |
| Watch.PublishFollows | internal/gateway/watch.go:263-289 | what a subscriber's stream says of each wanted segment is again the hub's status |
| Watch.PublishDiscreet | internal/gateway/watch.go:449-461 | every alert queued for a subscriber is for a home that authenticated subject owns |
| Watch.LiveView | internal/gateway/watch.go:263-337 | folding a live subscriber's stream gives the hub's status of every segment it wants, the last event of every storm published since it came, and of its alerts exactly those that stand |
| ChangeTracker.Tracker.Record | internal/gateway/watch.go:504-517 | notes versions, then forgets what no later query returns |
| ChangeTracker.Tracker.Round | internal/gateway/watch.go:180-235 | publishes the versions not seen; a failed round records nothing |
| ChangeTracker.RunKeeps | internal/gateway/watch.go:486-517 | over every run, published versions are remembered or out of reach, timely ones published or still to come |
| ChangeTracker.ExactlyOnce | internal/gateway/watch.go:180-235 | no version is published twice, and every timely current one by the next successful round |
| ChangeTracker.OverlapIsTight | internal/gateway/watch.go:25-28 | for every overlap, a version that commits exactly that late can be missed |
| HomeNode.Home.EndCycle | internal/sim/home.go:446-491 | a run becomes an uplink or goes into the storm window |
| HomeNode.Home.Pass | internal/sim/home.go:425-428 | the storm summary goes out when its window is over |
| HomeNode.RunsConserved | internal/sim/home.go:446-512 | completed runs are uplinks plus summary counts plus accumulator plus what was clipped; the accumulator is empty outside storm mode |
| HomeNode.ConservedExactly | internal/sim/home.go:497-512 | nothing is clipped exactly if no window folds more than 255 runs |
| HomeNode.OverfullWindow | internal/sim/home.go:497-512 | a burst of runs that one window clips |
| HomeNode.AccumulatorExact | internal/sim/home.go:474-512 | the accumulator holds the number, total time, highest current and lowest level of exactly the runs of the current window |
| HomeNode.RecentExact | internal/sim/home.go:458-466 | the remembered ends are exactly those less than a window before the last |
| HomeNode.EntersStorm | internal/sim/home.go:467-472 | storm mode begins exactly when more than six runs ended within one window |
| HomeNode.SeventhRun | internal/sim/home.go:458-472 | that is, with the seventh run to end within fifteen minutes |
| HomeNode.WindowBegan | internal/sim/home.go:458-512 | in storm mode the accumulator is about the runs since the window began, with the run that started it or with the last summary |
| HomeNode.SendsExactly | internal/sim/home.go:425-512 | which uplink each event sends, every field of it, and when storm mode ends |
| Streaks.ShortCyclingRun | internal/hydrology/hydrology.go:55-69 | the length of the trailing run of close cycles |
| Streaks.StreakMeaning | internal/hydrology/hydrology.go:48-69 | at least n, if and only if the last n cycles are close to their predecessors |
| Streaks.ShortMeaning | internal/detector/detector.go:284-303 | what the window says of its last cycle, from the pauses alone |
| Streaks.WindowVerdict | internal/detector/detector.go:278-302 | the latest cycles give the verdict of all history, for every history, if and only if the window holds at least five |
| Streaks.LoadedSuffix | internal/detector/detector.go:309-321 | a loaded window is a suffix of the pump's history, at most as long as the query's limit |
| Streaks.LoadedVerdict | internal/detector/detector.go:278-321 | a loaded window gives the verdict of all history from then on, if and only if it holds four cycles or the whole current streak |
| Streaks.BackupsHideStreak | internal/store/sqlcgen/detector.sql.go:72-77 | a history in which other pumps' cycles push a streak out of the query's limit |
| Detector.ActionsAlternate | internal/detector/detector.go:253-303 | raise and clear strictly alternate from any starting condition |
| Detector.LatchedExactly | internal/detector/detector.go:253-303 | from any starting condition: active exactly if a bad observation, or the start, was never followed by enough good ones in a row |
| Detector.IdleCount | internal/detector/detector.go:253-303 | an inactive condition keeps its count until a long pause or an observation of neither kind zeroes it |
| Detector.ClearsExactly | internal/detector/detector.go:260-269 | a good observation clears exactly if the condition is latched and the count, the start's included, is reached |
| Detector.ClearsInTimeExactly | internal/detector/detector.go:260-269 | every clear follows the configured number of good observations, if and only if the start was inactive or had counted none, or one is enough |
| Detector.SeedsMeaning | internal/detector/detector.go:309-328 | which conditions a loaded window makes active, from its last cycle and its last five pauses |
| Detector.SeedAlternates | internal/detector/detector.go:309-328 | detections alternate across a seeding whatever comes, if and only if the loaded window says of the condition what was so already |
| Detector.SeedClearsTwice | internal/detector/detector.go:309-328 | a history with two clears in a row, the second after one healthy cycle |
| DetectorHandler.Handler.Note | internal/detector/detector.go:250-303 | one observation changes its condition and count exactly, and no other |
| DetectorHandler.Handler.Seed | internal/detector/detector.go:309-328 | the window, and every condition of the device, that a seeding leaves; counts stay |
| DetectorHandler.Handler.Classify | internal/detector/detector.go:234-305 | one cycle, its pump's window seeded on first sight, makes one observation of each rule; a continuous run is raised and cleared; what time each detection bears |
| DetectorHandler.Handler.Summary | internal/detector/detector.go:333-357 | one summary makes one short-cycling observation |
| DetectorHandler.ObservationsMean | internal/hydrology/hydrology.go:38-79 | which cycles are dry and which summaries short cycling |
| DetectorHandler.Handler.Process | internal/detector/detector.go:134-188 | over any interleaving of stages, devices and pumps, each condition's state and detections follow from its own seedings and observations |
| DetectorHandler.Stretch | internal/detector/detector.go:253-328 | between seedings every theorem about observations applies, from whatever condition the seeding left |
| DetectorHandler.WindowIsLatest | internal/detector/detector.go:278-284 | over every run a held window is the latest of what was loaded and the pump's cycles since |
| DetectorHandler.RunVerdict | internal/detector/detector.go:278-302 | so in every run short cycling is judged as from all the pump's history, when the window was loaded with enough of it |
| DetectorHandler.FirstVerdict | internal/detector/detector.go:234-302 | the same for the cycle that loads the window |
| Alerts.RaisedMeaning | internal/store/sqlcgen/alerts.sql.go:172-178 | raising opens or extends one episode and leaves all others |
| Alerts.ResolvedMeaning | internal/store/sqlcgen/alerts.sql.go:560-568 | resolving closes the open episode unless it began later, and leaves all others |
| AlertRules.Engine.Raise | internal/alerts/engine.go:176-205 | the table after a raise, and whether a row was created |
| AlertRules.Engine.Resolve | internal/alerts/engine.go:209-224 | the table after a resolve, and whether it changed |
| AlertRules.Engine.HandleReading | internal/alerts/rules.go:69-161 | a heartbeat's effect on alerts and level samples, verdict included |
| AlertRules.Engine.JudgeLevels | internal/alerts/rules.go:124-157 | what the last levels and the rain say of an outage |
| AlertRules.Engine.HandleAlarm | internal/alerts/rules.go:30-44 | a node alarm raises its alert; unknown codes do nothing |
| AlertRules.Engine.HandleDetection | internal/alerts/rules.go:227-247 | a detection raises or resolves its alert |
| AlertRules.Engine.SweepOffline | internal/alerts/rules.go:287-303 | every stale device is raised as offline |
| AlertRules.LevelRising | internal/hydrology/hydrology.go:89-99 | strictly falling distances with enough total rise |
| AlertRules.AlwaysSound | internal/alerts/engine.go:170-224 | in every interleaving: one open alert per device and code, raised no later than last seen or resolved |
| AlertRules.RiskNeedsOutage | internal/alerts/rules.go:115-157 | with each device's heartbeats in order, an open outage risk stands beside an open mains loss |
| AlertRules.LateBeat | internal/alerts/rules.go:115-123 | exactly when an out-of-order heartbeat leaves a risk without its outage |
| AlertRules.LateBeatExample | internal/alerts/rules.go:115-157 | for every configuration with a window of at least two: readings, judged as they come, whose last leaves a risk without its outage |
| AlertMeaning.EventMeaning | internal/alerts/rules.go:30-303 | what any event of any source makes of any open alert, condition by condition |
| AlertMeaning.EventKept | internal/store/sqlcgen/alerts.sql.go:560-619 | closed episodes are never touched; an episode that an event closes ends at the event's time |
| AlertMeaning.EpisodeExact | internal/store/sqlcgen/alerts.sql.go:614-631 | in every interleaving an open alert counts its triggers, was raised at the earliest and last seen at the latest |
| AlertMeaning.VerdictMeaning | internal/alerts/rules.go:124-157 | when three levels and the rain speak for or against an outage risk |
| AlertMeaning.SamplesMeaning | internal/alerts/rules.go:120-133 | the levels judged are this reading's and the two before it, kept or loaded |
| AlertMeaning.LevelsMeaning | internal/alerts/rules.go:107-133 | when a device's levels are kept and when forgotten |

## Left out
- Floating point: depths, intensities and areas are exact reals, and the 1e-9 tolerances of storm.go are zero; rain
  is taken as non-negative where storms are found.
- Rainfall table facts taken as given in the window theorems: intervals are positive, ECCC rows are whole hours,
  windows span at least twice the edge pad, as storms.go builds them.
- GaugeRainfall: one gauge; rows of different gauges never meet in the reconciler, and the grouping of a poll by
  device and the metrics are not modelled.
- Selection.SelectRain: station ids are ranks; the library sorts are stand-ins with the sort's contract. The query lists rows in key
  order, which the source's sort of each series keeps; the model keeps the order of its rows.
- StormWindowExact.WindowStormsExact: asks that the query scans every row that overlaps the window (LongRow says
  why), and says nothing of windows stopped at the cap of ninety days.
- Home metrics of storms (internal/storms/storms.go from nextStormOnset on) and internal/hydrology/response.go:
  estimators tuned by hand.
- Simplification of rings, projections, ring tests and centrelines in geom.go: floating-point geometry; outlines'
  labelling of cells is an arbitrary input.
- Trace.TraceRing: cells, vertices and links are pairs of coordinates instead of flat indices.
- Watermark.Consumer.RunOnce: one consumer process per watermark; LISTEN, timers and backoff are scheduling, and
  polls are inputs defined by the query.
- BulkStore.Store.Insert: partitions and notifications; rows are one table at a time, so the cycle stream's two
  transactions per batch are not modelled as a pair. A commit whose answer is lost is an insert by another writer
  before the stream fails.
- IngestStream.RunStream: totals are unbounded, the source adds 32-bit counters; the bound on queued batches only
  delays.
- BridgeClient.Submit: backoff and timeouts are the end of the list of attempts.
- Batcher.Batcher.Run: the queue bound only blocks the producer; timers are the Due event.
- Delivery.RunSafe: one kind of message; the four batchers of run.go do not interact.
- Watch.Hub.Publish: statuses are opaque values; the privacy aggregation, the clamping of counts and the sorting of
  ids in convert.go are not modelled. Storms and alerts in the snapshot are read after registration and may briefly
  be newer than queued ones, so the theorem is about statuses.
- ChangeTracker.ExactlyOnce: a version is an id with its stamp; two commits of one row in the same microsecond count
  as one.
- GaugeNode.Gauge.Step: radio, battery and payload encoding; rain falls in every second, the source lets it fall at
  the end of each minute.
- HomeNode.Home.EndCycle: hydraulics, alarms, heartbeats and transmission delay; the events are any sequence of
  completed runs and seconds.
- DetectorHandler.Handler.Classify: the pit area estimate and metrics; detection details other than key, action and
  time; the idempotent insert of detections.
- AlertRules.Engine.Raise: severities, messages, notification state and cooldown.
- HTTP, gRPC, MQTT and SMTP plumbing, TLS, authentication, payload codecs, site import, the web interface and
  configuration: library input and output without a hard invariant.
