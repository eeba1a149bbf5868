/**
  The prune-and-truncate track store of `Scripts/yolo_tracker.py`.

  One update first checks a guard: with no track IDs, or with every box
  coordinate zero, nothing changes. Otherwise each observation with a
  non-`None` ID appends its `(x, y)` to that ID's trail, then the map is
  rebuilt with only the IDs of the current batch, each cut to its last five
  points.
 */
module YoloTracker {
  import opened Tracks

  /** The literal `5` of `v[-5:]`. */
  const MaxTrail: nat := 5

  /** `not boxes.any()`: every coordinate of every box is zero (true of no boxes at all). */
  predicate AllZero(boxes: seq<Box>) {
    forall i :: 0 <= i < |boxes| ==> boxes[i] == Box(0, 0, 0, 0)
  }

  /** The early-return guard `not track_ids or not boxes.any()`. */
  predicate Skipped(boxes: seq<Box>, ids: seq<Option<int>>) {
    |ids| == 0 || AllZero(boxes)
  }

  /** Python's `s[-n:]` for `n > 0`: the last `n` elements, or all of `s` when it is shorter. */
  function KeepLast(s: seq<Point>, n: nat): (r: seq<Point>)
    ensures |r| == Min(|s|, n)
    ensures s == s[..|s| - |r|] + r
  {
    if |s| <= n then s else s[|s| - n..]
  }

  /** The rebuild: IDs of the batch only, each trail cut to its last `MaxTrail` points. */
  function Pruned(a: History, ids: seq<Option<int>>): History {
    map k | k in a && Some(k) in ids :: KeepLast(a[k], MaxTrail)
  }

  /** The history after `update_history(boxes, ids)`. */
  function Updated(h: History, boxes: seq<Box>, ids: seq<Option<int>>): History {
    if Skipped(boxes, ids) then h
    else Pruned(Appended(h, ids, boxes, Min(|ids|, |boxes|)), ids)
  }

  /** Every stored trail is non-empty and at most `MaxTrail` long. */
  predicate WellFormed(h: History) {
    forall k :: k in h ==> 0 < |h[k]| <= MaxTrail
  }

  /**
    The second loop of `update_history`: a fresh map holding, for each stored
    key that is in the batch, the last `MaxTrail` points of its trail.
   */
  method Rebuild(history: History, trackIds: seq<Option<int>>) returns (newHistory: History)
    ensures newHistory == Pruned(history, trackIds)
  {
    newHistory := map[];
    var todo := history.Keys;
    while todo != {}
      invariant todo <= history.Keys
      invariant forall k :: k in newHistory ==>
        k in history && k !in todo && Some(k) in trackIds && newHistory[k] == KeepLast(history[k], MaxTrail)
      invariant forall k :: k in history && k !in todo && Some(k) in trackIds ==> k in newHistory
      decreases todo
    {
      NonEmptyHasKey(todo);
      var k :| k in todo;
      if Some(k) in trackIds {
        newHistory := newHistory[k := KeepLast(history[k], MaxTrail)];
      }
      todo := todo - {k};
    }
    var pruned := Pruned(history, trackIds);
    forall k ensures k in newHistory <==> k in pruned {
    }
    forall k | k in pruned ensures newHistory[k] == pruned[k] {
    }
  }

  class YOLOTracker {
    var history: History

    ghost predicate Valid()
      reads this
    {
      WellFormed(history)
    }

    constructor ()
      ensures Valid() && history == map[]
    {
      history := map[];
    }

    method UpdateHistory(boxes: seq<Box>, trackIds: seq<Option<int>>)
      requires Valid()
      modifies this
      ensures Valid()
      ensures history == Updated(old(history), boxes, trackIds)
    {
      UpdatedWellFormed(history, boxes, trackIds);
      if |trackIds| == 0 || AllZero(boxes) {
        return;
      }
      var n := Min(|trackIds|, |boxes|);
      for i := 0 to n
        invariant history == Appended(old(history), trackIds, boxes, i)
      {
        match trackIds[i]
        case None =>
        case Some(k) =>
          history := history[k := Trail(history, k) + [Position(boxes[i])]];
      }
      var newHistory := Rebuild(history, trackIds);
      history := newHistory;
    }
  }

  /** A guarded call (no IDs, or all-zero boxes) leaves the history exactly as it was. */
  lemma SkippedLeavesHistory(h: History, boxes: seq<Box>, ids: seq<Option<int>>)
    requires Skipped(boxes, ids)
    ensures Updated(h, boxes, ids) == h
  {
  }

  /**
    After an update that passes the guard, a key is stored exactly when it is
    in the batch and either was stored before or was observed among the
    zipped pairs; so every key is in the batch, an ID missing from the batch
    is gone whatever its history, and a `None` ID never creates an entry.
   */
  lemma UpdatedKeys(h: History, boxes: seq<Box>, ids: seq<Option<int>>, k: int)
    requires !Skipped(boxes, ids)
    ensures k in Updated(h, boxes, ids) <==>
      Some(k) in ids && (k in h || Some(k) in ids[..Min(|ids|, |boxes|)])
  {
    AppendedAt(h, ids, boxes, Min(|ids|, |boxes|), k);
  }

  /**
    After an update that passes the guard, a stored trail is the last
    `min(5, m)` points of the old trail followed by every position observed
    for that key in batch order, where `m` is the length of that list.
   */
  lemma UpdatedTrail(h: History, boxes: seq<Box>, ids: seq<Option<int>>, k: int)
    requires !Skipped(boxes, ids)
    requires k in Updated(h, boxes, ids)
    ensures var full := Trail(h, k) + PointsFor(ids, boxes, Min(|ids|, |boxes|), k);
      && |Updated(h, boxes, ids)[k]| == Min(|full|, MaxTrail)
      && full == full[..|full| - |Updated(h, boxes, ids)[k]|] + Updated(h, boxes, ids)[k]
  {
    AppendedAt(h, ids, boxes, Min(|ids|, |boxes|), k);
  }

  /**
    With as many boxes as IDs, the stored keys after an update that passes the
    guard are exactly the non-`None` IDs of the batch, each with a non-empty trail.
   */
  lemma EqualLengthKeys(h: History, boxes: seq<Box>, ids: seq<Option<int>>)
    requires !Skipped(boxes, ids)
    requires |boxes| == |ids|
    ensures Updated(h, boxes, ids).Keys == set i | 0 <= i < |ids| && ids[i].Some? :: ids[i].value
    ensures forall k :: k in Updated(h, boxes, ids) ==> Updated(h, boxes, ids)[k] != []
  {
    var r := Updated(h, boxes, ids);
    var n := |ids|;
    assert ids[..n] == ids;
    forall k
      ensures k in r <==> k in set i | 0 <= i < |ids| && ids[i].Some? :: ids[i].value
      ensures k in r ==> r[k] != []
    {
      AppendedAt(h, ids, boxes, n, k);
      PointsForPresence(ids, boxes, n, k);
      if Some(k) in ids {
        var i :| 0 <= i < |ids| && ids[i] == Some(k);
        assert ids[i].value == k;
      }
    }
  }

  /**
    An update reads a box only for its `(x, y)`, and only when that box is
    paired with a non-`None` ID among the zipped pairs: width, height, the box
    of an unidentified observation and boxes beyond the last ID have no effect
    on the history (as long as the guard decides the same way).
   */
  lemma UpdatedReadsPositions(h: History, boxes: seq<Box>, boxes': seq<Box>, ids: seq<Option<int>>)
    requires !Skipped(boxes, ids) && !Skipped(boxes', ids)
    requires Min(|ids|, |boxes|) == Min(|ids|, |boxes'|)
    requires forall i :: 0 <= i < Min(|ids|, |boxes|) && ids[i].Some? ==> Position(boxes[i]) == Position(boxes'[i])
    ensures Updated(h, boxes, ids) == Updated(h, boxes', ids)
  {
    AppendedReadsPositions(h, ids, boxes, boxes', Min(|ids|, |boxes|));
  }

  /** Every update keeps trails non-empty and at most five long. */
  lemma UpdatedWellFormed(h: History, boxes: seq<Box>, ids: seq<Option<int>>)
    requires WellFormed(h)
    ensures WellFormed(Updated(h, boxes, ids))
  {
    if !Skipped(boxes, ids) {
      var n := Min(|ids|, |boxes|);
      var a := Appended(h, ids, boxes, n);
      forall k | k in a ensures a[k] != [] {
        AppendedAt(h, ids, boxes, n, k);
        PointsForPresence(ids, boxes, n, k);
      }
    }
  }

  /** Two observations of one ID in a batch append both positions, in batch order. */
  lemma DuplicateIdAppendsBoth()
    ensures Updated(map[], [Box(1, 2, 0, 0), Box(3, 4, 0, 0)], [Some(7), Some(7)])
         == map[7 := [Point(1, 2), Point(3, 4)]]
  {
    var ids := [Some(7), Some(7)];
    var boxes := [Box(1, 2, 0, 0), Box(3, 4, 0, 0)];
    var expected := map[7 := [Point(1, 2), Point(3, 4)]];
    assert Updated(map[], boxes, ids) == Pruned(Appended(map[], ids, boxes, 2), ids) by {
      assert boxes[0] != Box(0, 0, 0, 0);
    }
    var first: History := map[7 := [Point(1, 2)]];
    assert Appended(map[], ids, boxes, 1) == first by {
      assert Trail(map[], 7) + [Position(boxes[0])] == [Point(1, 2)];
    }
    assert Appended(map[], ids, boxes, 2) == expected by {
      assert Trail(first, 7) + [Position(boxes[1])] == [Point(1, 2), Point(3, 4)];
    }
    assert Pruned(expected, ids) == expected by {
      var r := Pruned(expected, ids);
      forall k ensures k in r <==> k in expected {
      }
      assert KeepLast(expected[7], MaxTrail) == expected[7];
    }
  }

  /** Updating an empty tracker with box `[100, 100, 50, 50]` and ID `1` stores `[(100, 100)]` under 1. */
  lemma FirstObservation()
    ensures Updated(map[], [Box(100, 100, 50, 50)], [Some(1)]) == map[1 := [Point(100, 100)]]
  {
    var ids := [Some(1)];
    var boxes := [Box(100, 100, 50, 50)];
    var expected := map[1 := [Point(100, 100)]];
    assert Updated(map[], boxes, ids) == Pruned(Appended(map[], ids, boxes, 1), ids) by {
      assert boxes[0] != Box(0, 0, 0, 0);
    }
    assert Appended(map[], ids, boxes, 1) == expected by {
      assert Trail(map[], 1) + [Position(boxes[0])] == [Point(100, 100)];
    }
    assert Pruned(expected, ids) == expected by {
      var r := Pruned(expected, ids);
      forall k ensures k in r <==> k in expected {
      }
      assert KeepLast(expected[1], MaxTrail) == expected[1];
    }
  }
}
