# Car tracking with YOLO: the track-history store, modelled in Dafny

The repository tracks cars in a video with an Ultralytics YOLO model. For
every frame it reads, the detector returns boxes and track IDs. The program
keeps a *track history*: a map from track ID to the recent centre points of
that track. It draws these trails on the detector's plot and writes the
frame to a `<stem>_tracked.mp4` file.

This project models the parts of that program that are logic rather than
library calls:

- **The prune-and-truncate store** (`Scripts/yolo_tracker.py`, repeated in
  `yolo_video_main.py`). It is modelled in the modules `YoloTracker` and
  `VideoMain`.
  - An update does nothing when the batch has no IDs or every box
    coordinate is zero.
  - Otherwise it appends each identified observation's `(x, y)` to its
    trail.
  - It then keeps only the IDs of the batch, each cut to its last five
    points.
  - Both files reach the same history, `YoloTracker.Updated`. Each file has
    its own `YOLOTracker` class, whose loops are proved against that
    function.
- **The fading store** (`yolov8_tracking_OOP.py`, module `OopTracking`).
  - An update appends every observation.
  - Every track absent from the batch, or longer than five points, then
    loses its oldest point.
  - Empty tracks are deleted.
  - The same file has the `YOLOModel` singleton and the `split('.')[0]`
    output-path rule.
- **The output-path rule** `rsplit('.', 1)[0] + '_tracked.mp4'` and an
  abstract capture/writer (`Scripts/video_handler.py`, module `Video`).
- **The frame loop** of `Scripts/app.py` (module `App`).
  - The detector is a function from frame to result.
  - The capture is the sequence of results its reads deliver.
  - The run is proved equal to a fold, `Pipeline`, over the frames read
    before the first failed read. Lemmas about `Pipeline` say which frames
    are written and what history each one carries.

Module `Tracks` holds the shared values (`Box`, `Point`, `History`) and the
append fold `Appended` that all variants run first. The lemma `AppendedAt`
says exactly what the fold leaves under each key.

Coordinates are integers. `track_ids` elements are `Option<int>` where the
code checks for `None`. They are plain `int` in the fading store, which has
no such check. `Tracks.Identified` only converts the app's integer ID list
into the former; it is a helper, not a modelled operation.

### Behaviour worth knowing

- A skipped update (no IDs, or only all-zero boxes) leaves the history
  untouched (`Scripts/yolo_tracker.py:14-15`).
- An ID repeated within one batch appends both positions, in batch order
  (`UpdatedTrail`; `DuplicateIdAppendsBoth` is an instance).
- After an update that passes the guard, an old key survives when its ID is
  anywhere in `track_ids`, even past the end of `zip(track_ids, boxes)`.
  The keys are therefore not exactly the zipped IDs. `EqualLengthKeys`
  gives the exactly-the-batch statement for equal lengths.
- The guard looks at every box, also those past the end of
  `zip(track_ids, boxes)`, and at width and height: a box that only changes
  there can decide whether an update happens at all.
- The run releases the video only after the loop ends normally. There is no
  `try`/`finally`.

Two path details follow from the rules as written:

- `rsplit` removes everything from the last dot on, even when that dot is
  in a directory name. For example, `./clip` gives `_tracked.mp4`, because
  its stem is empty. `OutputPathShape` states the rule exactly.
- `split('.')[0]` keeps only the part before the first dot:
  `a.b.mp4` becomes `a_tracked.mp4` (`SplitOutputPathExample`), where the
  other two files give `a.b_tracked.mp4` (`LastDotExample`).

## Model

| member | source | states |
|---|---|---|
| Tracks.AppendOne | Scripts/yolo_tracker.py:17-19 | definition, no contract of its own: one pass of the append loop; its properties are stated by `Tracks.AppendedAt` |
| Tracks.Appended | Scripts/yolo_tracker.py:16-19 | definition, no contract of its own: the append loop over the first `n` zipped pairs; stated by `Tracks.AppendedAt`, `Tracks.AppendedReadsPositions` |
| Tracks.AppendedAt | Scripts/yolo_tracker.py:16-19 | after the append loop over the first `n` zipped pairs, a key is stored iff it was stored before or was observed with a non-`None` ID; its trail is the old trail followed by every position observed for it, in batch order |
| Tracks.PointsForPresence | Scripts/yolo_tracker.py:16-19 | a key gains no points iff it is not among the zipped non-`None` IDs |
| Tracks.PointsForDistinct | yolov8_tracking_OOP.py:40-42 | with no ID repeated among the zipped pairs, a track gains at most one point per batch |
| Tracks.AppendedReadsPositions | Scripts/yolo_tracker.py:16-19 | the append loop reads only `(x, y)`, and only of boxes paired with a non-`None` ID: boxes agreeing there give the same history |
| YoloTracker.AllZero | Scripts/yolo_tracker.py:14 | definition, no contract of its own: `not boxes.any()`; used by `YoloTracker.SkippedLeavesHistory` |
| YoloTracker.Skipped | Scripts/yolo_tracker.py:14 | definition, no contract of its own: the early-return guard; stated by `YoloTracker.SkippedLeavesHistory` |
| YoloTracker.Pruned | Scripts/yolo_tracker.py:20-23 | definition, no contract of its own: the rebuild; `YoloTracker.Rebuild` is proved equal to it, `YoloTracker.UpdatedKeys`, `YoloTracker.UpdatedTrail` state its effect |
| YoloTracker.Updated | Scripts/yolo_tracker.py:13-25 | definition, no contract of its own: the history after one update; stated by `YoloTracker.SkippedLeavesHistory`, `UpdatedKeys`, `UpdatedTrail`, `EqualLengthKeys`, `UpdatedReadsPositions`, `UpdatedWellFormed` |
| YoloTracker.KeepLast | Scripts/yolo_tracker.py:23 | `v[-5:]` has `min(5, len(v))` elements and is a suffix of `v` |
| YoloTracker.Rebuild | Scripts/yolo_tracker.py:20-25 | the rebuild loop produces exactly the stored keys that are in `track_ids`, each with the last five points of its trail |
| YoloTracker.YOLOTracker.constructor | Scripts/yolo_tracker.py:6-8 | a new tracker has an empty history |
| YoloTracker.YOLOTracker.UpdateHistory | Scripts/yolo_tracker.py:13-25 | the guard, append loop and rebuild leave the history `Updated(old history, boxes, ids)` and keep every trail between one and five points |
| YoloTracker.SkippedLeavesHistory | Scripts/yolo_tracker.py:14-15 | with no IDs, or every box coordinate zero, the history is left exactly unchanged |
| YoloTracker.UpdatedKeys | Scripts/yolo_tracker.py:16-25 | after a guarded-through update, `k` is stored iff `k` is in `track_ids` and was stored before or observed; an ID absent from the batch is gone, and a `None` ID never creates an entry |
| YoloTracker.UpdatedTrail | Scripts/yolo_tracker.py:16-23 | after a guarded-through update, every trail is the last `min(5, m)` points of (old trail + positions observed for that key in batch order), oldest first |
| YoloTracker.EqualLengthKeys | Scripts/yolo_tracker.py:16-25 | with as many boxes as IDs, the stored keys are exactly the non-`None` IDs of the batch, each with a non-empty trail |
| YoloTracker.UpdatedReadsPositions | Scripts/yolo_tracker.py:16-19 | when the guard lets both batches through, width, height, unidentified boxes and boxes beyond the `zip` length do not affect the history (they can still decide the guard) |
| YoloTracker.UpdatedWellFormed | Scripts/yolo_tracker.py:16-25 | an update keeps every stored trail non-empty and at most five points long |
| YoloTracker.DuplicateIdAppendsBoth | Scripts/yolo_tracker.py:16-19 | for example, ID 7 seen twice in one batch on an empty tracker stores both positions, in batch order (the general statement is `YoloTracker.UpdatedTrail` with `Tracks.AppendedAt`) |
| YoloTracker.FirstObservation | yolo_video_unit_test.py:18-22 | box `[100, 100, 50, 50]` with ID 1 on an empty tracker stores exactly `{1: [(100, 100)]}` |
| VideoMain.YOLOTracker.constructor | yolo_video_main.py:23-25 | a new tracker has an empty history |
| VideoMain.YOLOTracker.UpdateHistory | yolo_video_main.py:30-44 | the guard, the append loop that first binds a missing key to `[]`, and the dict-comprehension prune give the same history as `Scripts/yolo_tracker.py`, keeping trails between one and five points |
| Video.OutputPath | Scripts/video_handler.py:9 | definition, no contract of its own: `rsplit('.', 1)[0] + '_tracked.mp4'`; stated by `Video.OutputPathShape`, `Video.LastDotExample` |
| Video.LastIndexOf | Scripts/video_handler.py:9 | the position found holds the character and no later position does; none is found iff the character does not occur |
| Video.StemBeforeLastDot | Scripts/video_handler.py:9 | `rsplit('.', 1)[0]` is a prefix of the input; the whole input when it has no dot; otherwise it stops at a dot after which no dot follows |
| Video.OutputPathShape | Scripts/video_handler.py:9 | the output path ends in `_tracked.mp4`; the part before is the input without dot, or else the input minus a tail that starts with `.` and contains no other `.` |
| Video.LastDotExample | yolo_video_main.py:59 | `a.b.mp4` gives `a.b_tracked.mp4`: only the last suffix is removed |
| Video.VideoHandler.constructor | Scripts/video_handler.py:4-9 | the writer is opened on the output path of the input path; nothing read, written or released yet |
| Video.VideoHandler.ReadFrame | Scripts/video_handler.py:18-19 | a read consumes one capture result and succeeds iff one is pending and it succeeded, returning its frame |
| Video.VideoHandler.WriteFrame | Scripts/video_handler.py:21-22 | a write appends the frame to the output, in order |
| Video.VideoHandler.Release | Scripts/video_handler.py:24-27 | a release is recorded once per call |
| OopTracking.Faded | yolov8_tracking_OOP.py:46-48 | definition, no contract of its own: the fade step of one trail; stated by `OopTracking.PresentShortTrackKept`, `OopTracking.FadingTrackLosesOldest` |
| OopTracking.Grown | yolov8_tracking_OOP.py:40-42 | definition, no contract of its own: the history after the append loop; stated by `Tracks.AppendedAt`, `OopTracking.AbsentTrackNotGrown` |
| OopTracking.FadeUpdated | yolov8_tracking_OOP.py:36-52 | definition, no contract of its own: the history after one update; `OopTracking.YOLOTracker.UpdateTrackHistory` is proved equal to it, and `PresentShortTrackKept`, `FadingTrackLosesOldest`, `NoEmptyTrails`, `FadeKeepsBound`, `EmptyBatchFades` state its properties |
| OopTracking.FadeAll | yolov8_tracking_OOP.py:36-52 | definition, no contract of its own: one update per batch, in order; stated by `OopTracking.AbsentTrackLifetime` |
| OopTracking.SplitOutputPath | yolov8_tracking_OOP.py:66 | definition, no contract of its own: `split('.')[0] + '_tracked.mp4'`; stated by `OopTracking.StemBeforeFirstDot`, `OopTracking.SplitOutputPathExample` |
| OopTracking.DropFirst | yolov8_tracking_OOP.py:47-48 | `track[1:]` drops exactly the oldest point, leaving nothing of a shorter track |
| OopTracking.YOLOTracker.constructor | yolov8_tracking_OOP.py:26-29 | a new tracker has an empty track history |
| OopTracking.YOLOTracker.UpdateTrackHistory | yolov8_tracking_OOP.py:36-52 | the append loop and the fade loop over the keys leave the history `FadeUpdated(old history, boxes, ids)` |
| OopTracking.PresentShortTrackKept | yolov8_tracking_OOP.py:40-48 | a track of the batch with at most five points after the append is kept exactly as appended |
| OopTracking.FadingTrackLosesOldest | yolov8_tracking_OOP.py:45-52 | a track absent from the batch or longer than five loses exactly its oldest point, and is deleted iff that was its only point |
| OopTracking.NoEmptyTrails | yolov8_tracking_OOP.py:51-52 | no stored track has an empty trail after an update, and every key was stored before or observed in the batch |
| OopTracking.FadeKeepsBound | yolov8_tracking_OOP.py:40-48 | with no repeated ID in the batch, trails of one to five points stay one to five points |
| OopTracking.RepeatedIdBreaksBound | yolov8_tracking_OOP.py:40-48 | a five-point track observed twice in one batch keeps six points, so the bound needs distinct IDs |
| OopTracking.EmptyBatchFades | yolov8_tracking_OOP.py:37-52 | an empty batch shortens every track by its oldest point and deletes one-point tracks, rather than clearing the map |
| OopTracking.AbsentTrackNotGrown | yolov8_tracking_OOP.py:40-42 | a batch that does not hold `k` leaves `k`'s entry (or its absence) unchanged by the append loop |
| OopTracking.AbsentTrackLifetime | yolov8_tracking_OOP.py:45-52 | after `n` updates whose batches hold other IDs but not `k`, a track of `L` points is still stored iff `n < L`, holding its last `L - n` points |
| OopTracking.StemBeforeFirstDot | yolov8_tracking_OOP.py:66 | `split('.')[0]` is a prefix of the input without any dot, ending at the first dot or at the end |
| OopTracking.SplitOutputPathExample | yolov8_tracking_OOP.py:66 | `a.b.mp4` gives `a_tracked.mp4` |
| OopTracking.YOLOModel.constructor | yolov8_tracking_OOP.py:12-13 | a created instance is loaded with the given weights path |
| OopTracking.YOLOModelClass.constructor | yolov8_tracking_OOP.py:9 | the class starts with no instance |
| OopTracking.YOLOModelClass.New | yolov8_tracking_OOP.py:10-14 | the first construction creates and stores a fresh instance with the given path; every later one returns the stored instance |
| OopTracking.ConstructTwice | yolov8_tracking_OOP.py:10-14 | two constructions return one instance, loaded with the first call's path |
| App.Qualifies | Scripts/app.py:18 | definition, no contract of its own: the result has boxes and IDs; used by `App.Selected`, `App.YOLOTrackingApp.HandleFrame` |
| App.Pipeline | Scripts/app.py:12-25 | definition, no contract of its own: the loop body over the processed frames; `App.YOLOTrackingApp.Run` is proved equal to it, and `WrittenAreSelected`, `HistoryFromSelected`, `PipelineWellFormed` state its properties |
| App.Advance | Scripts/app.py:17-25 | definition, no contract of its own: one loop body; `App.YOLOTrackingApp.HandleFrame` is proved equal to it |
| App.Finish | Scripts/app.py:12-25 | definition, no contract of its own: the loop body folded over the frames still to come; related to `App.Pipeline` by `App.FinishIsPipeline` |
| App.Processed | Scripts/app.py:12-15 | the frames processed are successful reads, in order, and every successful read before the first failed one is processed: the first read not processed, if any, failed |
| App.Selected | Scripts/app.py:18 | the qualifying frames are read frames whose result has boxes and IDs, every such frame is among them, and no more of them than frames read |
| App.SelectedConcat | Scripts/app.py:12-18 | selection keeps read order: selecting from two stretches one after the other concatenates their selections |
| App.StopsAtFirstFailure | Scripts/app.py:12-15 | nothing at or after the first failed read is processed |
| App.WrittenAreSelected | Scripts/app.py:17-25 | the frames written are exactly the qualifying frames, in read order, so no more are written than read |
| App.UpdateAll | Scripts/app.py:18-21 | definition, no contract of its own: history updates with qualifying results one after the other; related to `App.Pipeline` by `App.HistoryFromSelected`, `App.TrailsFromSelected` |
| App.HistoryFromSelected | Scripts/app.py:18-21 | only qualifying frames change the history: the final history is the update with the qualifying results alone, in read order |
| App.TrailsFromSelected | Scripts/app.py:18-25 | each written frame carries the history as updated by its own result and those of the qualifying frames before it, so the update comes before the drawing and writing |
| App.PipelineWellFormed | Scripts/app.py:12-25 | a run keeps every trail, final and drawn, between one and five points |
| App.FinishIsPipeline | Scripts/app.py:12-25 | running the loop body over the remaining frames from any point completes the run's outcome |
| App.YOLOTrackingApp.constructor | Scripts/app.py:6-9 | the app opens the video on its output path and starts with an empty tracker |
| App.YOLOTrackingApp.HandleFrame | Scripts/app.py:17-25 | a frame updates the history and is then written with it iff its result has boxes and IDs; otherwise nothing changes |
| App.YOLOTrackingApp.Run | Scripts/app.py:11-27 | the run's final history and written frames are those of `Pipeline` over the frames before the first failed read; one read more than processed when the capture is open, none when it is not; one release |

## Left out

- Trail drawing (`draw_tracks`, `cv2.polylines`, `np.hstack`): foreign raster calls.
- The YOLO model itself, `.track(persist=True)`, `.plot()` and tensor conversions: library calls. The detector is a total function from frame to result. The tracker state that `persist=True` keeps inside the library is therefore not modelled.
- `cv2.VideoCapture` and `VideoWriter`: I/O. A capture is the sequence of results its reads deliver. The writer is the sequence of frames written. FPS, frame size, codec and `destroyAllWindows` are not modelled.
- Floating-point coordinates (`float(x)`, `np.int32` casts): points are integers.
- `missing_frames` in `yolov8_tracking_OOP.py`: it is initialised and never used.
- The run loops of `yolo_video_main.py:84-100` and `yolov8_tracking_OOP.py:93-112` are not modelled separately. The first is the same as `Scripts/app.py`. The second has the same shape, using the fading store.
- `YOLOModelFactory`, `Scripts/yolo_model.py`, `Scripts/base_model.py`, `Scripts/run.py` and the command-line entry points: thin wrappers and argument parsing.
- Exceptions: no failure path of the library calls is modelled, and nothing is released on error, as in the code.
- OopTracking.FadeKeepsBound: requires distinct IDs in the batch, because with a repeated ID the five-point bound does not hold (`RepeatedIdBreaksBound`).
- OopTracking.AbsentTrackLifetime: requires the track's trail to be non-empty, because the code never stores an empty trail (`NoEmptyTrails`); and it speaks of batches without `k` only, since a batch holding `k` appends to it.
