/**
  The fading track store, the model singleton and the output-path rule of
  `yolov8_tracking_OOP.py`.

  An update appends every observation (there is no guard and no `None`
  check), then visits every stored track once: a track that is absent from
  the batch, or longer than five points, loses its oldest point, and a track
  left empty is deleted.
 */
module OopTracking {
  import opened Tracks
  import opened Video

  /** The `5` of `len(...) > 5`. */
  const FadeLimit: nat := 5

  /** `fade_speed`: how many of the oldest points one update removes. */
  const FadeSpeed: nat := 1

  /** Python's `s[n:]`: `s` without its first `n` elements (empty when `s` is shorter). */
  function DropFirst(s: seq<Point>, n: nat): (r: seq<Point>)
    ensures |s| <= n ==> r == []
    ensures |s| > n ==> s == s[..n] + r
  {
    if |s| <= n then [] else s[n..]
  }

  /** The trail of one track after the fade step. */
  function Faded(trail: seq<Point>, present: bool): seq<Point> {
    if !present || |trail| > FadeLimit then DropFirst(trail, FadeSpeed) else trail
  }

  /** The track history after the append loop of `update_track_history(boxes, ids)`. */
  function Grown(h: History, boxes: seq<Box>, ids: seq<int>): History {
    Appended(h, Identified(ids), boxes, Min(|boxes|, |ids|))
  }

  /** The track history after `update_track_history(boxes, ids)`. */
  function FadeUpdated(h: History, boxes: seq<Box>, ids: seq<int>): History {
    var a := Grown(h, boxes, ids);
    map k | k in a && Faded(a[k], k in ids) != [] :: Faded(a[k], k in ids)
  }

  class YOLOTracker {
    var trackHistory: History

    constructor ()
      ensures trackHistory == map[]
    {
      trackHistory := map[];
    }

    method UpdateTrackHistory(boxes: seq<Box>, trackIds: seq<int>)
      modifies this
      ensures trackHistory == FadeUpdated(old(trackHistory), boxes, trackIds)
    {
      var currentIds := set i | 0 <= i < |trackIds| :: trackIds[i];
      assert forall k :: k in currentIds <==> k in trackIds;
      for i := 0 to Min(|boxes|, |trackIds|)
        invariant trackHistory == Appended(old(trackHistory), Identified(trackIds), boxes, i)
      {
        var trackId := trackIds[i];
        trackHistory := trackHistory[trackId := Trail(trackHistory, trackId) + [Position(boxes[i])]];
      }
      ghost var grown := trackHistory;
      var keys := trackHistory.Keys;
      while keys != {}
        invariant keys <= grown.Keys
        invariant forall k :: k in trackHistory ==> k in grown
        invariant forall k :: k in keys ==> k in trackHistory && trackHistory[k] == grown[k]
        invariant forall k :: k in grown && k !in keys ==>
          (k in trackHistory <==> Faded(grown[k], k in trackIds) != [])
        invariant forall k :: k in trackHistory && k !in keys ==> trackHistory[k] == Faded(grown[k], k in trackIds)
        decreases keys
      {
        NonEmptyHasKey(keys);
        var trackId :| trackId in keys;
        if trackId !in currentIds || |trackHistory[trackId]| > FadeLimit {
          trackHistory := trackHistory[trackId := DropFirst(trackHistory[trackId], FadeSpeed)];
        }
        if trackHistory[trackId] == [] {
          trackHistory := trackHistory - {trackId};
        }
        keys := keys - {trackId};
      }
      var expected := FadeUpdated(old(trackHistory), boxes, trackIds);
      forall k ensures k in trackHistory <==> k in expected {
      }
      forall k | k in expected ensures trackHistory[k] == expected[k] {
      }
    }
  }

  /**
    A track of the batch whose trail has at most five points after the
    append is kept exactly as appended.
   */
  lemma PresentShortTrackKept(h: History, boxes: seq<Box>, ids: seq<int>, k: int)
    requires k in Grown(h, boxes, ids) && k in ids
    requires 0 < |Grown(h, boxes, ids)[k]| <= FadeLimit
    ensures k in FadeUpdated(h, boxes, ids)
    ensures FadeUpdated(h, boxes, ids)[k] == Grown(h, boxes, ids)[k]
  {
  }

  /**
    A track absent from the batch, or longer than five points after the
    append, loses exactly its oldest point; it is deleted when that was its
    only point.
   */
  lemma FadingTrackLosesOldest(h: History, boxes: seq<Box>, ids: seq<int>, k: int)
    requires k in Grown(h, boxes, ids)
    requires k !in ids || |Grown(h, boxes, ids)[k]| > FadeLimit
    ensures var a := Grown(h, boxes, ids)[k];
      && (k in FadeUpdated(h, boxes, ids) <==> |a| > 1)
      && (k in FadeUpdated(h, boxes, ids) ==> FadeUpdated(h, boxes, ids)[k] == a[1..])
  {
  }

  /** No stored track is ever left with an empty trail, and no key appears from nowhere. */
  lemma NoEmptyTrails(h: History, boxes: seq<Box>, ids: seq<int>)
    ensures forall k :: k in FadeUpdated(h, boxes, ids) ==> FadeUpdated(h, boxes, ids)[k] != []
    ensures forall k :: k in FadeUpdated(h, boxes, ids) ==> k in h || k in ids[..Min(|boxes|, |ids|)]
  {
    var n := Min(|boxes|, |ids|);
    forall k | k in FadeUpdated(h, boxes, ids) ensures k in h || k in ids[..n] {
      AppendedAt(h, Identified(ids), boxes, n, k);
      if Some(k) in Identified(ids)[..n] {
        var i :| 0 <= i < n && Identified(ids)[..n][i] == Some(k);
        assert ids[..n][i] == k;
      }
    }
  }

  /** Every stored trail has between one and five points. */
  predicate Bounded(h: History) {
    forall k :: k in h ==> 0 < |h[k]| <= FadeLimit
  }

  /**
    When the batch holds no ID twice, trails of at most five points stay at
    most five points long: each grows by at most one and is cut back once
    it passes five.
   */
  lemma FadeKeepsBound(h: History, boxes: seq<Box>, ids: seq<int>)
    requires Bounded(h)
    requires Distinct(ids)
    ensures Bounded(FadeUpdated(h, boxes, ids))
  {
    var n := Min(|boxes|, |ids|);
    var lifted := Identified(ids);
    assert Distinct(lifted[..n]) by {
      forall i, j | 0 <= i < j < n ensures lifted[..n][i] != lifted[..n][j] {
        assert ids[i] != ids[j];
      }
    }
    var a := Grown(h, boxes, ids);
    forall k | k in a ensures |a[k]| <= FadeLimit + 1 {
      AppendedAt(h, lifted, boxes, n, k);
      PointsForDistinct(lifted, boxes, n, k);
    }
    NoEmptyTrails(h, boxes, ids);
  }

  /** With a repeated ID the bound fails: a five-point track seen twice in one batch keeps six points. */
  lemma RepeatedIdBreaksBound()
    ensures var h := map[1 := [Point(0, 0), Point(0, 0), Point(0, 0), Point(0, 0), Point(0, 0)]];
      |FadeUpdated(h, [Box(1, 1, 0, 0), Box(2, 2, 0, 0)], [1, 1])[1]| == 6
  {
    var h := map[1 := [Point(0, 0), Point(0, 0), Point(0, 0), Point(0, 0), Point(0, 0)]];
    var boxes := [Box(1, 1, 0, 0), Box(2, 2, 0, 0)];
    var lifted := Identified([1, 1]);
    assert lifted[..2] == lifted;
    AppendedAt(h, lifted, boxes, 2, 1);
    assert PointsFor(lifted, boxes, 2, 1) == [Point(1, 1), Point(2, 2)];
  }

  /** An update with an empty batch removes one point from every track, and deletes one-point tracks. */
  lemma EmptyBatchFades(h: History)
    ensures forall k :: k in FadeUpdated(h, [], []) <==> k in h && |h[k]| > 1
    ensures forall k :: k in FadeUpdated(h, [], []) ==> FadeUpdated(h, [], [])[k] == h[k][1..]
  {
  }

  /** The arguments of one `update_track_history(boxes, track_ids)` call. */
  datatype Batch = Batch(boxes: seq<Box>, ids: seq<int>)

  /** The history after one update per batch, in order. */
  function FadeAll(h: History, bs: seq<Batch>): History
    decreases |bs|
  {
    if bs == [] then h
    else
      var last := bs[|bs| - 1];
      FadeUpdated(FadeAll(h, bs[..|bs| - 1]), last.boxes, last.ids)
  }

  /** An update whose batch does not hold `k` leaves `k`'s trail as it was before the fade step. */
  lemma AbsentTrackNotGrown(h: History, boxes: seq<Box>, ids: seq<int>, k: int)
    requires k !in ids
    ensures k in Grown(h, boxes, ids) <==> k in h
    ensures k in h ==> Grown(h, boxes, ids)[k] == h[k]
  {
    var n := Min(|boxes|, |ids|);
    var lifted := Identified(ids);
    assert Some(k) !in lifted[..n] by {
      forall i | 0 <= i < n ensures lifted[..n][i] != Some(k) {
        assert ids[i] != k;
      }
    }
    AppendedAt(h, lifted, boxes, n, k);
    PointsForPresence(lifted, boxes, n, k);
  }

  /**
    Once a track stops being observed, a trail of `L` points survives the
    next `L - 1` updates whose batches do not hold it, losing its oldest
    point each time (whatever other IDs those batches hold); the `L`-th
    removes it.
   */
  lemma {:induction false} AbsentTrackLifetime(h: History, bs: seq<Batch>, k: int)
    requires k in h && h[k] != []
    requires forall i :: 0 <= i < |bs| ==> k !in bs[i].ids
    ensures k in FadeAll(h, bs) <==> |bs| < |h[k]|
    ensures |bs| < |h[k]| ==> FadeAll(h, bs)[k] == h[k][|bs|..]
    decreases |bs|
  {
    if bs != [] {
      var n := |bs|;
      var init := bs[..n - 1];
      var last := bs[n - 1];
      var prev := FadeAll(h, init);
      assert forall i :: 0 <= i < |init| ==> k !in init[i].ids by {
        forall i | 0 <= i < |init| ensures k !in init[i].ids {
          assert init[i] == bs[i];
        }
      }
      AbsentTrackLifetime(h, init, k);
      AbsentTrackNotGrown(prev, last.boxes, last.ids, k);
      if k in prev {
        FadingTrackLosesOldest(prev, last.boxes, last.ids, k);
        assert h[k][n - 1..][1..] == h[k][n..];
      }
    }
  }

  /**
    `s.split('.')[0]`: the part of `s` before its first dot, or all of `s`
    when it has none.
   */
  function StemBeforeFirstDot(s: string): (r: string)
    ensures r <= s
    ensures '.' !in r
    ensures |r| < |s| ==> s[|r|] == '.'
  {
    if |s| == 0 || s[0] == '.' then "" else [s[0]] + StemBeforeFirstDot(s[1..])
  }

  /** `input_path.split('.')[0] + '_tracked.mp4'`. */
  function SplitOutputPath(inputPath: string): string {
    StemBeforeFirstDot(inputPath) + TrackedSuffix
  }

  /**
    The output path is everything before the first dot, then `_tracked.mp4`:
    `a.b.mp4` gives `a_tracked.mp4`, where `Scripts/video_handler.py` gives
    `a.b_tracked.mp4` (`Video.LastDotExample`).
   */
  lemma SplitOutputPathExample()
    ensures SplitOutputPath("a.b.mp4") == "a_tracked.mp4"
  {
    assert StemBeforeFirstDot("a.b.mp4") == "a" by {
      assert "a.b.mp4"[1..] == ".b.mp4";
      assert StemBeforeFirstDot(".b.mp4") == "";
    }
  }

  /** The weights a model instance was loaded with. */
  class YOLOModel {
    const modelPath: string

    constructor (modelPath: string)
      ensures this.modelPath == modelPath
    {
      this.modelPath := modelPath;
    }
  }

  /** The class object of `YOLOModel`, holding its `_instance` field. */
  class YOLOModelClass {
    var instance: YOLOModel?

    constructor ()
      ensures instance == null
    {
      instance := null;
    }

    /**
      `YOLOModel(model_path)`: the first call creates and loads the one
      instance; every later call returns it and ignores its argument.
     */
    method New(modelPath: string := "yolov8n.pt") returns (m: YOLOModel)
      modifies this
      ensures old(instance) == null ==> fresh(m) && m.modelPath == modelPath
      ensures old(instance) != null ==> m == old(instance)
      ensures instance == m
    {
      if instance == null {
        instance := new YOLOModel(modelPath);
      }
      m := instance;
    }
  }

  /** Two constructions give one instance, loaded with the first call's path. */
  method ConstructTwice(cls: YOLOModelClass, first: string, second: string) returns (a: YOLOModel, b: YOLOModel)
    requires cls.instance == null
    modifies cls
    ensures a == b && a.modelPath == first
  {
    a := cls.New(first);
    b := cls.New(second);
  }
}
