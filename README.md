# Wildlife tracker core in Dafny

This project models the algorithmic core of a wildlife-monitoring application and proves properties of the model.

- **Tracker** (`tracker.py`, `ObjectTracker`). A frame-by-frame multi-object tracker. Each call of `update` does five things:
  - predicts every live track with a constant-velocity Kalman model;
  - greedily associates detections to predictions, IoU first, with a distance fallback;
  - corrects the matched tracks;
  - ages ("coasts") the unmatched tracks and archives those missed too often;
  - starts fresh tracks for the leftover detections.
- **Behaviour analyser** (`behavior.py`). A per-id exponential moving average of speed, speed bands and a border test.
- **Heatmap** (`heatmap.py`). Accumulates one unit of heat per detection in a 2-D grid.
- **Species classifier** (`classifier.py`). Picks a candidate pool by box area.
- **Frame filter** (`image_filters.py`). Validates the selected filter mode.

Layout, one Dafny module per file:

| file | module | contents |
|---|---|---|
| `wrappers.dfy` | `Wrappers` | `Option`, min/max, ascending id order of a dict, small sequence facts |
| `boxes.dfy` | `Boxes` | integer boxes, centres, IoU |
| `kalman.dfy` | `Kalman` | 4-vectors and 4x4 matrices; prediction (mean and covariance); predicted-box clamp |
| `tracks.dfy` | `Tracks` | the track record, its views, and the per-track steps |
| `association.dfy` | `Association` | the greedy association loop and its specification |
| `table.dfy` | `Table` | the track table as a value; `Step`, the specification of one `update` |
| `steps.dfy` | `StepFacts` | what `Step` does to each track, the archive and the id counter |
| `loops.dfy` | `LoopSteps` | the loops of `update` as methods, proved against `Table` |
| `tracker.dfy` | `Tracker` | the `ObjectTracker` class with `update`, `get_all_tracks` and `get_object_summaries` |
| `behavior.dfy` | `Behavior` | `BehaviorAnalyzer` |
| `heatmap.dfy` | `Heatmap` | `HeatmapGenerator` over an `array2<int>` |
| `classifier.dfy` | `Classifier` | `classify` and `SPECIES` |
| `image_filters.dfy` | `ImageFilters` | `FrameFilter` |

## How the tracker is modelled

**Table state.** `ObjectTracker` keeps three things:
- the live table `tracks: map<int, Track>`;
- the archive `finished: seq<Track>`;
- the id counter `nextId`.

The loops of `update` run, in the source's order, on the table value; `Update` stores the result in the three fields at the end. The loops are:
1. predict;
2. associate;
3. correct the matched tracks;
4. age the other tracks and collect `to_finish`;
5. archive;
6. spawn.

Each loop is a method and is proved equal to a value-level function in `Table`. Together these functions make up `Table.Step`.

**Invariant.** `Table.WellFormed` is the invariant that every update preserves:
- every key is its track's id and lies below `nextId`;
- `0 <= missed <= max(max_missed, 0)` (a negative `max_missed` is accepted, and a new or matched track then has `missed == 0`);
- archived ids are distinct, below `nextId` and never live again.

**Iteration orders.**
- The dict `_tracks` has increasing ids in insertion order, so the model walks it in ascending id order (`SortedIds`).
- The loops over Python sets have an unspecified order:
  - the candidate loop is modelled with a nondeterministic choice among the unvisited candidates;
  - the returned list is constrained only as a duplicate-free list of the right ids (the ghost `order`).
- The association that the greedy loop chose is returned as a ghost out-parameter, so the contract can name it.

**Kalman filter.**
- The prediction is modelled exactly over reals with `dt = 1`:
  - the mean is `F·x`;
  - the covariance is `F·P·Fᵀ + Q`.
- The correction step (`_kalman_update`: innovation, gain, matrix inverse, posterior) is a caller-supplied function `correct` in the configuration.

**Distances.** `math.hypot` is a caller-supplied non-negative function (`Metric`).

**History.** An unmatched track gets no `history` entry (tracker.py:185-203); only a matched track appends its box. `StepMatched` proves the append on a match, and `StepUnmatched`/`StepFacts.Coasted` prove there is none on coasting.

## Model

| member | source | states |
|---|---|---|
| Boxes.CenterOf | tracker.py:391-394 | the centre is the midpoint of each side, and lies inside a box with non-negative sides |
| Boxes.Distance | tracker.py:137-139 | the distance between two centres is non-negative |
| Boxes.Iou | tracker.py:396-421 | IoU lies in [0, 1], and is positive exactly when the clipped intersection area is positive |
| Boxes.IouOfOverlap | tracker.py:413-421 | with a positive intersection the union is positive and IoU is intersection/union, in (0, 1] |
| Boxes.IouOfDisjoint | tracker.py:409-414 | IoU is 0 whenever the clipped intersection area is at most 0 |
| Boxes.InterWithinUnion | tracker.py:404-418 | a positive intersection is at most each box's area and at most the union |
| Boxes.IouSymmetric | tracker.py:396-421 | IoU does not depend on the order of its arguments |
| Boxes.IouSelf | tracker.py:396-421 | a box with positive sides has IoU 1 with itself |
| Kalman.PredictMean | tracker.py:345-355 | the predicted mean is (x+vx, y+vy, vx, vy) |
| Kalman.PredictIsWrittenOut | tracker.py:351-352 | the matrix products F·x and F·P·Fᵀ+Q equal the entry-wise formulas |
| Kalman.PredictTimesMean | tracker.py:345-355 | n predictions in a row move the position by n times the velocity and keep the velocity |
| Kalman.PredictKeepsSymmetric | tracker.py:352 | the predicted covariance of a symmetric covariance is symmetric |
| Kalman.Trunc | tracker.py:363-364 | `int()` truncates toward zero for both signs |
| Kalman.PredictedBox | tracker.py:357-370 | the predicted box keeps w and h; px, py >= 0; px <= W-w when w <= W (likewise py); inside the frame the box is centred on the prediction |
| StepFacts.Coasted | tracker.py:185-200 | a coasting track gets missed+1, the predicted centre, box and filter, last_frame = frame, no history entry, and a non-decreasing path length |
| Association.IouWith | tracker.py:133-135 | a candidate's IoU score lies in [0, 1] |
| Association.DistWith | tracker.py:137-139 | a candidate's distance score is non-negative |
| Association.BestCandidate | tracker.py:127-145 | the candidate loop returns None only for an empty pool; otherwise it returns a best candidate (maximal IoU, ties to the smaller distance) with that candidate's IoU and distance |
| Association.BestExists | tracker.py:131-145 | every non-empty candidate pool has a best candidate |
| Association.BestScoresAgree | tracker.py:142-145 | any two best candidates have the same IoU and the same distance |
| Association.Associate | tracker.py:124-152 | the assignment is greedy in detection order: each detection gets a best still-unassigned track exactly when that track is accepted |
| Association.GreedyMatchIff | tracker.py:147-151 | a detection is assigned iff a best available candidate has IoU >= min_iou or distance <= max_distance |
| Association.GreedyIsInjective | tracker.py:131-154 | greedy assignments are injective and assign only real detections to live tracks |
| Table.PredictAll | tracker.py:115-117 | prediction keeps the set of live ids |
| Table.GreedyFitsTable | tracker.py:120-154 | the assignment found on the predicted table fits the live table |
| Table.DetOfInjective | tracker.py:154-161 | each matched track has exactly one detection |
| Table.ExpiringWithin | tracker.py:184-203 | `to_finish` holds exactly the unmatched ids whose missed count exceeds max_missed, in ascending order |
| Table.UnassignedMembers | tracker.py:209-212 | the leftover detections are exactly the unassigned indices |
| Table.UnassignedIncreasing | tracker.py:210-212 | leftover detections are visited in detection order |
| Table.SpawnSpec | tracker.py:208-215 | new tracks take consecutive ids from the counter, one per leftover detection, in order |
| Table.BirthsSpec | tracker.py:208-215 | the tracks born this frame have ids nextId .. nextId+count-1; the k-th is the new track of the k-th leftover detection |
| StepFacts.UpdFacts | tracker.py:158-200 | the id is kept, path length does not decrease, missed is reset to 0 on a match and increased by one otherwise |
| StepFacts.GoneSpec | tracker.py:184-203 | the ids to archive are exactly the unmatched live ids whose missed count exceeds max_missed, ascending |
| StepFacts.ReportedKeys | tracker.py:154-215 | the reported ids are the matched ids together with the ids born this frame |
| StepFacts.StepKeeps | tracker.py:185-206 | an old id stays live iff it is not archived, and then holds its updated track |
| StepFacts.StepNew | tracker.py:208-215 | a new id is live iff it is in the range just allocated, and then holds the new track of its detection |
| StepFacts.StepTracksAt | tracker.py:185-215 | both cases above for any id |
| StepFacts.StepTrackOk | tracker.py:202-215 | every live track afterwards has its key as id, an id below the counter, and 0 <= missed <= max(max_missed, 0) |
| StepFacts.OldArchiveClear | tracker.py:205-215 | an archived track never becomes live again |
| StepFacts.ArchivedClear | tracker.py:205-206 | each newly archived track has left the live table in the same frame |
| StepFacts.StepFinishedOk | tracker.py:205-215 | archive ids stay distinct, below the counter, and never live |
| StepFacts.StepKeepsWellFormed | tracker.py:100-215 | each update preserves the table invariant |
| StepFacts.StepMatched | tracker.py:158-181 | a matched track stays live with missed 0, the measured box, the corrected filter and its centre, last_center = center, last_frame = frame, one history entry appended, path length grown by the step distance |
| StepFacts.StepUnmatched | tracker.py:185-206 | an unmatched track becomes its coasted version; it stays live iff its missed count is within max_missed, and otherwise it is in the newly archived part |
| StepFacts.StepArchive | tracker.py:184-206 | the old archive is a prefix; every newly archived entry is a coasted unmatched track with missed > max_missed, in ascending id order |
| StepFacts.StepCreates | tracker.py:208-215 | leftover detections are the unassigned ones in order; the counter grows by their number; each gets the next id; no other id is new |
| StepFacts.StepSpawned | tracker.py:208-215 | every id in the freshly allocated range holds the new track of its detection |
| StepFacts.StepNewRange | tracker.py:208-215 | every id that was not live before lies in the freshly allocated range |
| StepFacts.StepReportedLive | tracker.py:219-240 | every reported id is live, with missed 0 and last_frame = frame |
| StepFacts.StepFromEmpty | tracker.py:102-105 | on an empty table nothing is associated, one track per detection is created with consecutive ids, and the archive is untouched |
| StepFacts.StepNoDetections | tracker.py:115-215 | with no detections no track is created; every live track coasts, and stays live iff its missed count is within max_missed, holding its coasted version |
| LoopSteps.PredictEachAll | tracker.py:116-117 | predicting the tracks one at a time in table order gives the whole predicted table |
| LoopSteps.MatchesAllDone | tracker.py:158-181 | correcting the matches one detection at a time gives the matched table |
| LoopSteps.CoastEnd | tracker.py:185-200 | aging the tracks one at a time in table order gives the aged table |
| LoopSteps.PredictPass | tracker.py:115-117 | the predict loop computes the predicted table |
| LoopSteps.MatchPass | tracker.py:157-181 | the correction loop computes the matched table and the matched ids |
| LoopSteps.AgePass | tracker.py:184-203 | the aging loop computes the aged table and `to_finish` |
| LoopSteps.RetirePass | tracker.py:205-206 | the archive loop removes `to_finish` from the table and appends those tracks to the archive, in order |
| LoopSteps.SpawnPass | tracker.py:208-215 | the spawn loop adds the tracks born this frame and advances the counter by their number |
| Tracker.Summarize | tracker.py:260-277 | dwell = max(1, last-first+1) >= 1; average speed times (dwell-1) is the path length when dwell > 1, and 0 otherwise; it is non-negative for a non-negative path |
| Tracker.BriefViews | tracker.py:106-113 | one short {id, box, center} view per live track, in table order |
| Tracker.FullViews | tracker.py:219-240 | one full view per requested live id, without duplicates |
| Tracker.NoDetectionsNoViews | tracker.py:100-240 | a frame without detections matches nothing, starts no track and returns an empty list |
| Tracker.UpdateEmpty | tracker.py:102-113 | the empty-table path creates a track per detection and returns their short views |
| Tracker.MatchAndAge | tracker.py:115-203 | predict, associate, correct and age give the greedy assignment, the aged table and `to_finish` |
| Tracker.RetireAndSpawn | tracker.py:205-215 | archive then spawn give the next table and the created ids |
| Tracker.UpdateBusy | tracker.py:115-240 | on a non-empty table, the update meets `Updates` and keeps the invariant |
| Tracker.Advance | tracker.py:100-240 | one update on the table value meets `Updates` and keeps the invariant |
| Tracker.ObjectTracker.constructor | tracker.py:30-65 | the tracker starts with no tracks, an empty archive and next id 1 |
| Tracker.ObjectTracker.StartNewTrack | tracker.py:316-343 | a standalone counterpart of `_start_new_track` that `Update` does not call (it spawns through `LoopSteps.SpawnPass`): a new track is stored under the current id, the counter goes up by one, and the archive is kept |
| Tracker.ObjectTracker.Update | tracker.py:100-240 | the fields move to `Step` of the old table under the greedy assignment; the invariant is kept; the returned views are as `Updates` says (short views of all tracks on the empty path, full views of exactly the matched and created tracks otherwise) |
| Tracker.ObjectTracker.AllTracks | tracker.py:245-247 | the archive first, then the live tracks in table order |
| Tracker.ObjectTracker.ObjectSummaries | tracker.py:249-279 | one summary per track of `AllTracks`, in that order; nothing changes |
| Wrappers.SortedIds | tracker.py:185 | the ascending id order lists each live id exactly once |
| Wrappers.SortedIdsIncreasing | tracker.py:185 | that order is strictly increasing |
| Behavior.EstimateSpeed | behavior.py:84-97 | the instantaneous speed is never negative |
| Behavior.BriefViewHasNoSpeed | behavior.py:86-95 | a track without a filter state and a last centre has speed 0 |
| Behavior.FullViewUsesVelocity | behavior.py:86-90 | a track with a filter state moves at the hypot of its velocity components |
| Behavior.FirstSightingUnsmoothed | behavior.py:39-41 | for an id seen for the first time the smoothed speed is the instantaneous speed |
| Behavior.SmoothBetween | behavior.py:42-44 | with 0 <= alpha <= 1 the smoothed speed lies between the previous value and the new speed |
| Behavior.SmoothSteady | behavior.py:42-44 | smoothing a speed equal to the previous value leaves it unchanged |
| Behavior.ObjScale | behavior.py:49 | the object scale is at least 1, at least w and h, and is 1, w or h |
| Behavior.DescribeSpeeds | behavior.py:48-54 | speed_px is the smoothed speed; speed_rel times the scale is the smoothed speed, and lies in [0, smoothed]; speed_norm is 0 for a zero diagonal and otherwise times the diagonal gives the smoothed speed |
| Behavior.DescribeStatus | behavior.py:61-79 | is_near_border is the border test; the status carries the suffix exactly when near; the status starts with the speed band |
| Behavior.SuffixExactlyWhenNear | behavior.py:61-73 | the suffix appears exactly when near a border, after the band text |
| Behavior.StatusDetermines | behavior.py:61-73 | the status text determines both the band and the border flag |
| Behavior.BandMonotone | behavior.py:61-66 | a faster relative speed never gives a slower band |
| Behavior.StillIsStationary | behavior.py:61-90 | a first sighting with zero velocity is Stationary |
| Behavior.Margin | behavior.py:111-112 | the margin is a tenth of the size, truncated toward zero |
| Behavior.NearBorderMirror | behavior.py:110-124 | the border test is the same for a box and its mirror image in either axis |
| Behavior.InteriorNotNear | behavior.py:110-124 | a box well inside the inner 80% of the frame is not near the border |
| Behavior.BehaviorAnalyzer.constructor | behavior.py:23-26 | an analyser starts with an empty speed table |
| Behavior.BehaviorAnalyzer.Analyze | behavior.py:29-81 | the result is the analysis of the track with the id's previous average; only that id's entry changes, to the new smoothed speed; the table stays non-negative |
| Heatmap.TargetCell | heatmap.py:22-27 | the heated cell always lies in the grid |
| Heatmap.TargetCellIsClampedCentre | heatmap.py:22-27 | the cell is the floor-division centre when inside the grid, and otherwise the nearest edge in each axis |
| Heatmap.Heated | heatmap.py:30 | heating changes exactly one cell, by +1 |
| Heatmap.HeatedTotal | heatmap.py:30 | heating one cell raises the grid total by exactly 1 |
| Heatmap.HeatmapGenerator.constructor | heatmap.py:12-15 | a fresh height x width grid of zeros, with total 0 |
| Heatmap.HeatmapGenerator.AddPoint | heatmap.py:17-30 | no box leaves the grid unchanged; a box raises exactly its clamped centre cell by 1 and the total by 1 |
| Classifier.Round2 | classifier.py:52 | rounding to two decimals moves a value by at most 0.005 |
| Classifier.Classify | classifier.py:40-54 | the species is drawn from the area's pool |
| Classifier.ClassifyInRange | classifier.py:37-52 | the species is in SPECIES and is never Hyena; the confidence is a two-decimal number in [0.60, 0.98] |
| Classifier.PoolReachable | classifier.py:43-51 | every species of the area's pool can be drawn |
| Classifier.LabelBySize | classifier.py:43-49 | Gazelle only below 8000; Buffalo only from 8000; Elephant, Giraffe and Lion only from 20000; Zebra and Wildebeest only below 20000 |
| ImageFilters.Normalize | image_filters.py:27-31 | the stored mode is valid; a valid name is kept and any other name becomes "None" |
| ImageFilters.NormalizeIdempotent | image_filters.py:27-31 | setting the stored mode again changes nothing |
| ImageFilters.NoneExactly | image_filters.py:29-30 | the mode is "None" exactly for "None" and for unknown names |
| ImageFilters.FrameFilter.constructor | image_filters.py:20-25 | a new filter holds the normalised initial mode |
| ImageFilters.FrameFilter.SetMode | image_filters.py:27-31 | the mode becomes the normalised name, always a valid one |

## Left out

- Floating point: positions, speeds, IoU and the filter are exact reals. The model has no float32 or float64 rounding.
- Kalman correction: `_kalman_update` (innovation, S, gain via `np.linalg.inv`, posterior covariance) is the caller-supplied function `correct`. The model states only that a matched track takes its result.
- `math.hypot` is the caller-supplied non-negative function `hypot`. The model has no square root.
- Python set iteration order is not fixed. The candidate loop picks any unvisited candidate, and the returned list is any duplicate-free order of the reported ids.
- `export_object_summaries_csv`: directory creation, file writing and `.3f` formatting are I/O. The fps-derived columns (`dwell_frames / fps`, `avg_speed_per_frame * fps`) are plain arithmetic, but they exist only in the export, which is out of scope.
- Default arguments are not modelled; every parameter is explicit. The source's defaults are `max_distance=120.0`, `max_missed=15` and `min_iou=0.15` for `ObjectTracker` (tracker.py:34-36), `smoothing=0.7` for `BehaviorAnalyzer` (behavior.py:23) and `mode="None"` for `FrameFilter` (image_filters.py:20).
- Behavior.BehaviorAnalyzer.Analyze: the result holds the unrounded values. `round(..., 2)` and `round(..., 4)` on the output are not modelled.
- Behavior.Margin: `int(W * 0.10)` is modelled as truncating `W / 10` exactly. The float product `W * 0.10` is not modelled; for ordinary frame sizes it truncates to the same integer.
- Classifier.Round2: rounds halves up. Python's `round` on floats can round a half down.
- Classifier.Classify: `random.choice` and `random.uniform` are replaced by a caller-supplied index and a caller-supplied value in [0, 1).
- Heatmap.HeatmapGenerator.constructor: requires non-negative sizes. With a negative size the source's `np.zeros` raises `ValueError`; that error path is not modelled.
- Heatmap.HeatmapGenerator.AddPoint: requires a grid of at least one cell when a box is given. On an empty grid the source fails with an index error.
- Heatmap:
  - the grid holds unbounded integers, not float32;
  - `save_heatmap` (OpenCV normalisation, colour map, image file) is not modelled.
- `FrameFilter.apply` (OpenCV filters) is not modelled.
- The GUI, video capture, detectors, YOLO test, CSV logger and wall-clock statistics (gui_app.py, tracking.py, detector.py, yoloTest.py, logger.py, stats.py) are not part of this model.
- Tracker.ObjectTracker.Update: the loops run on map and sequence values held in local variables. The fields are assigned once at the end, so the model does not capture aliasing of the per-track dicts by callers.
