/**
  The frame loop of `Scripts/app.py`. While the capture is open it reads a
  frame, stops at the first failed read, runs the detector, and only when the
  result has boxes and IDs updates the track history, draws the trails on the
  detector's plot and writes that frame. After the loop the video is released.

  The detector is a parameter, a function from a frame to its result.
 */
module App {
  import opened Tracks
  import opened YoloTracker
  import opened Video

  /** What the loop reads from `results[0].boxes`: the xywh boxes and, when assigned, their IDs. */
  datatype Detection = Detection(boxes: seq<Box>, ids: Option<seq<int>>)

  /** `results[0].boxes and results[0].boxes.id is not None`. */
  predicate Qualifies(d: Detection) {
    |d.boxes| > 0 && d.ids.Some?
  }

  /** `boxes.id.int().tolist()`, as the track IDs handed to the tracker. */
  function TrackIds(d: Detection): seq<Option<int>>
    requires d.ids.Some?
  {
    Identified(d.ids.value)
  }

  /** What a run leaves behind: the final history and the frames written, in order. */
  datatype Outcome = Outcome(history: History, written: seq<AnnotatedFrame>)

  /**
    The frames the loop gets to process: those of the successful reads before
    the first failed one.
   */
  function Processed(captured: seq<CaptureRead>): (r: seq<Frame>)
    ensures |r| <= |captured|
    ensures forall i :: 0 <= i < |r| ==> captured[i].success && r[i] == captured[i].frame
    ensures |r| < |captured| ==> !captured[|r|].success
  {
    if captured == [] || !captured[0].success then [] else [captured[0].frame] + Processed(captured[1..])
  }

  /** The loop body applied to each processed frame in turn. */
  function Pipeline(h: History, frames: seq<Frame>, detect: Frame -> Detection): Outcome
    decreases |frames|
  {
    if frames == [] then Outcome(h, [])
    else
      var d := detect(frames[0]);
      if Qualifies(d) then
        var h' := Updated(h, d.boxes, TrackIds(d));
        var rest := Pipeline(h', frames[1..], detect);
        Outcome(rest.history, [AnnotatedFrame(frames[0], h')] + rest.written)
      else Pipeline(h, frames[1..], detect)
  }

  /** The frames whose detector result qualifies, in read order. */
  function Selected(frames: seq<Frame>, detect: Frame -> Detection): (r: seq<Frame>)
    ensures |r| <= |frames|
    ensures forall i :: 0 <= i < |r| ==> r[i] in frames && Qualifies(detect(r[i]))
    ensures forall f :: f in frames && Qualifies(detect(f)) ==> f in r
    decreases |frames|
  {
    if frames == [] then []
    else if Qualifies(detect(frames[0])) then [frames[0]] + Selected(frames[1..], detect)
    else Selected(frames[1..], detect)
  }

  /** Selecting from two stretches of frames one after the other keeps the read order: the selections concatenate. */
  lemma {:induction false} SelectedConcat(a: seq<Frame>, b: seq<Frame>, detect: Frame -> Detection)
    ensures Selected(a + b, detect) == Selected(a, detect) + Selected(b, detect)
    decreases |a|
  {
    if a != [] {
      assert (a + b)[0] == a[0];
      assert (a + b)[1..] == a[1..] + b;
      SelectedConcat(a[1..], b, detect);
      if Qualifies(detect(a[0])) {
        assert Selected(a + b, detect) == [a[0]] + Selected(a[1..] + b, detect);
      } else {
        assert Selected(a + b, detect) == Selected(a[1..] + b, detect);
      }
    } else {
      assert a + b == b;
    }
  }

  /** The history after updating with the results of `frames` one after the other. */
  function UpdateAll(h: History, frames: seq<Frame>, detect: Frame -> Detection): History
    requires forall i :: 0 <= i < |frames| ==> Qualifies(detect(frames[i]))
    decreases |frames|
  {
    if frames == [] then h
    else
      var d := detect(frames[0]);
      assert Qualifies(d);
      UpdateAll(Updated(h, d.boxes, TrackIds(d)), frames[1..], detect)
  }

  /** Updating with a qualifying frame and then others is updating with the others from its history. */
  lemma UpdateAllFirst(h: History, f: Frame, rest: seq<Frame>, detect: Frame -> Detection)
    requires Qualifies(detect(f))
    requires forall i :: 0 <= i < |rest| ==> Qualifies(detect(rest[i]))
    ensures var d := detect(f);
      UpdateAll(h, [f] + rest, detect) == UpdateAll(Updated(h, d.boxes, TrackIds(d)), rest, detect)
  {
    assert ([f] + rest)[1..] == rest;
  }

  /** Processing stops at the first failed read: nothing from that read on is ever processed. */
  lemma {:induction false} StopsAtFirstFailure(captured: seq<CaptureRead>, j: nat)
    requires j < |captured| && !captured[j].success
    ensures Processed(captured) == Processed(captured[..j])
    ensures |Processed(captured)| <= j
  {
    if j > 0 && captured[0].success {
      StopsAtFirstFailure(captured[1..], j - 1);
      assert captured[1..][..j - 1] == captured[..j][1..];
    }
  }

  /**
    The written frames are exactly the processed frames whose result
    qualifies, in read order; so no more frames are written than read.
   */
  lemma {:induction false} WrittenAreSelected(h: History, frames: seq<Frame>, detect: Frame -> Detection)
    ensures var w := Pipeline(h, frames, detect).written;
      && |w| == |Selected(frames, detect)| <= |frames|
      && forall i :: 0 <= i < |w| ==> w[i].frame == Selected(frames, detect)[i]
    decreases |frames|
  {
    if frames != [] {
      var d := detect(frames[0]);
      if Qualifies(d) {
        WrittenAreSelected(Updated(h, d.boxes, TrackIds(d)), frames[1..], detect);
      } else {
        WrittenAreSelected(h, frames[1..], detect);
      }
    }
  }

  /**
    Only qualifying frames change the history: the final history is what
    updating with the qualifying results alone gives.
   */
  lemma {:induction false} HistoryFromSelected(h: History, frames: seq<Frame>, detect: Frame -> Detection)
    ensures Pipeline(h, frames, detect).history == UpdateAll(h, Selected(frames, detect), detect)
    decreases |frames|
  {
    if frames != [] {
      var d := detect(frames[0]);
      if Qualifies(d) {
        var h' := Updated(h, d.boxes, TrackIds(d));
        var sel := Selected(frames, detect);
        assert sel[1..] == Selected(frames[1..], detect);
        HistoryFromSelected(h', frames[1..], detect);
      } else {
        HistoryFromSelected(h, frames[1..], detect);
      }
    }
  }

  /**
    Each written frame carries the history as updated by its own result and
    those of the qualifying frames before it (the update comes before the
    drawing).
   */
  lemma {:induction false} TrailsFromSelected(h: History, frames: seq<Frame>, detect: Frame -> Detection)
    ensures var w := Pipeline(h, frames, detect).written;
      |w| == |Selected(frames, detect)| &&
      forall i :: 0 <= i < |w| ==> w[i].trails == UpdateAll(h, Selected(frames, detect)[..i + 1], detect)
    decreases |frames|
  {
    if frames != [] {
      var d := detect(frames[0]);
      if Qualifies(d) {
        var h' := Updated(h, d.boxes, TrackIds(d));
        var sel := Selected(frames, detect);
        var tail := Selected(frames[1..], detect);
        assert sel == [frames[0]] + tail;
        TrailsFromSelected(h', frames[1..], detect);
        var w := Pipeline(h, frames, detect).written;
        assert w == [AnnotatedFrame(frames[0], h')] + Pipeline(h', frames[1..], detect).written;
        forall i | 0 <= i < |w| ensures w[i].trails == UpdateAll(h, sel[..i + 1], detect) {
          UpdateAllFirst(h, frames[0], tail[..i], detect);
          assert sel[..i + 1] == [frames[0]] + tail[..i];
        }
      } else {
        TrailsFromSelected(h, frames[1..], detect);
      }
    }
  }

  /** A run keeps every trail non-empty and at most five long. */
  lemma {:induction false} PipelineWellFormed(h: History, frames: seq<Frame>, detect: Frame -> Detection)
    requires WellFormed(h)
    ensures WellFormed(Pipeline(h, frames, detect).history)
    ensures forall i :: 0 <= i < |Pipeline(h, frames, detect).written| ==>
      WellFormed(Pipeline(h, frames, detect).written[i].trails)
    decreases |frames|
  {
    if frames != [] {
      var d := detect(frames[0]);
      if Qualifies(d) {
        UpdatedWellFormed(h, d.boxes, TrackIds(d));
        PipelineWellFormed(Updated(h, d.boxes, TrackIds(d)), frames[1..], detect);
      } else {
        PipelineWellFormed(h, frames[1..], detect);
      }
    }
  }

  /** One pass of the loop body over a frame that was read, from the history and frames written so far. */
  function Advance(o: Outcome, frame: Frame, detect: Frame -> Detection): Outcome {
    var d := detect(frame);
    if Qualifies(d) then
      var h' := Updated(o.history, d.boxes, TrackIds(d));
      Outcome(h', o.written + [AnnotatedFrame(frame, h')])
    else o
  }

  /** The loop body over each of `frames` in turn, from `o`. */
  function Finish(o: Outcome, frames: seq<Frame>, detect: Frame -> Detection): Outcome
    decreases |frames|
  {
    if frames == [] then o else Finish(Advance(o, frames[0], detect), frames[1..], detect)
  }

  /** Running the loop from a point it has reached completes what `Pipeline` describes from the start. */
  lemma {:induction false} FinishIsPipeline(h: History, written: seq<AnnotatedFrame>, frames: seq<Frame>, detect: Frame -> Detection)
    ensures var out := Pipeline(h, frames, detect);
      Finish(Outcome(h, written), frames, detect) == Outcome(out.history, written + out.written)
    decreases |frames|
  {
    if frames != [] {
      var d := detect(frames[0]);
      if Qualifies(d) {
        var h' := Updated(h, d.boxes, TrackIds(d));
        var w' := written + [AnnotatedFrame(frames[0], h')];
        FinishIsPipeline(h', w', frames[1..], detect);
        assert w' + Pipeline(h', frames[1..], detect).written == written + Pipeline(h, frames, detect).written;
      } else {
        FinishIsPipeline(h, written, frames[1..], detect);
      }
    }
  }

  class YOLOTrackingApp {
    const video: VideoHandler
    const tracker: YOLOTracker
    /** `tracker.process_frame`: the detector's result for a frame. */
    const detect: Frame -> Detection

    constructor (videoPath: string, isOpened: bool, capture: seq<CaptureRead>, detect: Frame -> Detection)
      ensures fresh(video) && fresh(tracker)
      ensures video.outputPath == OutputPath(videoPath)
      ensures video.isOpened == isOpened && video.capture == capture
      ensures video.position == 0 && video.written == [] && video.releases == 0
      ensures tracker.Valid() && tracker.history == map[]
      ensures this.detect == detect
    {
      video := new VideoHandler(videoPath, isOpened, capture);
      tracker := new YOLOTracker();
      this.detect := detect;
    }

    /**
      The body of the loop for a frame that was read: when the detector's
      result has boxes and IDs, update the history, then draw it on the plot
      and write that; otherwise do nothing.
     */
    method HandleFrame(frame: Frame)
      requires tracker.Valid()
      modifies video`written, tracker
      ensures tracker.Valid()
      ensures Outcome(tracker.history, video.written) == Advance(old(Outcome(tracker.history, video.written)), frame, detect)
    {
      var results := detect(frame);
      if |results.boxes| > 0 && results.ids.Some? {
        var boxes := results.boxes;
        var trackIds := Identified(results.ids.value);
        tracker.UpdateHistory(boxes, trackIds);
        var annotatedFrame := AnnotatedFrame(frame, tracker.history);
        video.WriteFrame(annotatedFrame);
      }
    }

    /**
      Process the pending reads up to the first failed one, then release the
      video once. The history and the frames written are those of `Pipeline`
      over the processed frames; one read more than the frames processed is
      made (the one that fails), and none when the capture is not open.
     */
    method Run()
      requires tracker.Valid()
      modifies video, tracker
      ensures tracker.Valid()
      ensures var frames := if video.isOpened then Processed(old(video.Pending())) else [];
        var out := Pipeline(old(tracker.history), frames, detect);
        && tracker.history == out.history
        && video.written == old(video.written) + out.written
        && video.position == old(video.position) + (if video.isOpened then |frames| + 1 else 0)
      ensures video.releases == old(video.releases) + 1
    {
      ghost var h0 := tracker.history;
      ghost var w0 := video.written;
      ghost var p0 := video.position;
      ghost var frames := Processed(video.Pending());
      ghost var rest := frames;
      while video.isOpened
        invariant tracker.Valid()
        invariant video.position - p0 == |frames| - |rest|
        invariant rest == Processed(video.Pending())
        invariant Finish(Outcome(tracker.history, video.written), rest, detect) == Finish(Outcome(h0, w0), frames, detect)
        invariant !video.isOpened ==> rest == frames && tracker.history == h0 && video.written == w0
        invariant video.releases == old(video.releases)
        decreases |video.capture| - video.position
      {
        ghost var pending := video.Pending();
        var success, frame := video.ReadFrame();
        if !success {
          break;
        }
        assert pending[1..] == video.Pending();
        HandleFrame(frame);
        rest := rest[1..];
      }
      FinishIsPipeline(h0, w0, frames, detect);
      video.Release();
    }
  }
}
