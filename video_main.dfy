/**
  The track store of `yolo_video_main.py`. Its `update_history` has the same
  guard and append loop as `Scripts/yolo_tracker.py`, except that a missing
  key is first bound to an empty list before the append, and the rebuild is a
  single dict comprehension. Both end in the same history, `YoloTracker.Updated`.
 */
module VideoMain {
  import opened Tracks
  import opened YoloTracker

  class YOLOTracker {
    var history: History

    ghost predicate Valid()
      reads this
    {
      WellFormed(history)
    }

    constructor ()
      ensures Valid() && history == map[]
    {
      history := map[];
    }

    method UpdateHistory(boxes: seq<Box>, trackIds: seq<Option<int>>)
      requires Valid()
      modifies this
      ensures Valid()
      ensures history == Updated(old(history), boxes, trackIds)
    {
      UpdatedWellFormed(history, boxes, trackIds);
      if |trackIds| == 0 || AllZero(boxes) {
        return;
      }
      for i := 0 to Min(|trackIds|, |boxes|)
        invariant history == Appended(old(history), trackIds, boxes, i)
      {
        if trackIds[i].None? {
          continue;
        }
        var trackId := trackIds[i].value;
        if trackId !in history {
          history := history[trackId := []];
        }
        history := history[trackId := history[trackId] + [Position(boxes[i])]];
      }
      history := map k | k in history && Some(k) in trackIds :: KeepLast(history[k], MaxTrail);
    }
  }
}
