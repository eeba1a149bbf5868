/**
  Values shared by the three track-history stores: detector boxes, trail
  points, the per-ID history map, and the append step that every variant runs
  first (one `append((x, y))` per observation, in batch order).
 */
module Tracks {

  datatype Option<T> = None | Some(value: T)

  /** One trail point: the centre of a box, in whole pixels. */
  datatype Point = Point(x: int, y: int)

  /** One detector box in xywh form: centre x, centre y, width, height. */
  datatype Box = Box(x: int, y: int, w: int, h: int)

  /** Track ID to its trail, oldest point first. */
  type History = map<int, seq<Point>>

  /** The `(x, y)` a box contributes to a trail; width and height are dropped. */
  function Position(b: Box): Point {
    Point(b.x, b.y)
  }

  function Min(a: nat, b: nat): nat {
    if a <= b then a else b
  }

  /** `history[k]` on a `defaultdict(list)`: a missing key reads as the empty list. */
  function Trail(h: History, k: int): seq<Point> {
    if k in h then h[k] else []
  }

  /** Seen as track IDs, every entry of an integer ID list is present. */
  function Identified(ids: seq<int>): (r: seq<Option<int>>)
    ensures |r| == |ids|
    ensures forall i :: 0 <= i < |ids| ==> r[i] == Some(ids[i])
  {
    seq(|ids|, i requires 0 <= i < |ids| => Some(ids[i]))
  }

  /** One pass of the append loop: skip a `None` ID, else append the box's position. */
  function AppendOne(h: History, id: Option<int>, b: Box): History {
    match id
    case None => h
    case Some(k) => h[k := Trail(h, k) + [Position(b)]]
  }

  /**
    The history after the append loop has handled the first `n` pairs
    `(ids[i], boxes[i])` of `zip(ids, boxes)`.
   */
  function Appended(h: History, ids: seq<Option<int>>, boxes: seq<Box>, n: nat): History
    requires n <= |ids| && n <= |boxes|
  {
    if n == 0 then h else AppendOne(Appended(h, ids, boxes, n - 1), ids[n - 1], boxes[n - 1])
  }

  /** The positions observed for track `k` among the first `n` pairs, in batch order. */
  function PointsFor(ids: seq<Option<int>>, boxes: seq<Box>, n: nat, k: int): seq<Point>
    requires n <= |ids| && n <= |boxes|
  {
    if n == 0 then []
    else PointsFor(ids, boxes, n - 1, k) + (if ids[n - 1] == Some(k) then [Position(boxes[n - 1])] else [])
  }

  /** A non-empty key set has a member to pick (what iterating over its keys relies on). */
  lemma NonEmptyHasKey(keys: set<int>)
    requires keys != {}
    ensures exists k :: k in keys
  {
    if forall k :: k !in keys {
      assert false;
    }
  }

  /** No two entries of `s` are equal. */
  predicate Distinct<T(==)>(s: seq<T>) {
    forall i, j :: 0 <= i < j < |s| ==> s[i] != s[j]
  }

  /**
    Per key, the append loop leaves the old trail followed by every position
    observed for that key, in batch order (a duplicate ID appends each of its
    positions); a key exists afterwards exactly when it existed before or was
    observed with a non-`None` ID.
   */
  lemma {:induction false} AppendedAt(h: History, ids: seq<Option<int>>, boxes: seq<Box>, n: nat, k: int)
    requires n <= |ids| && n <= |boxes|
    ensures k in Appended(h, ids, boxes, n) <==> k in h || Some(k) in ids[..n]
    ensures Trail(Appended(h, ids, boxes, n), k) == Trail(h, k) + PointsFor(ids, boxes, n, k)
  {
    if n > 0 {
      var prev := Appended(h, ids, boxes, n - 1);
      AppendedAt(h, ids, boxes, n - 1, k);
      assert ids[..n] == ids[..n - 1] + [ids[n - 1]];
      if ids[n - 1] == Some(k) {
        assert Appended(h, ids, boxes, n) == prev[k := Trail(prev, k) + [Position(boxes[n - 1])]];
      } else {
        assert Trail(Appended(h, ids, boxes, n), k) == Trail(prev, k);
        assert k in Appended(h, ids, boxes, n) <==> k in prev;
      }
    }
  }

  /** A key that was never observed gets no points; an observed key gets at least one. */
  lemma {:induction false} PointsForPresence(ids: seq<Option<int>>, boxes: seq<Box>, n: nat, k: int)
    requires n <= |ids| && n <= |boxes|
    ensures PointsFor(ids, boxes, n, k) == [] <==> Some(k) !in ids[..n]
  {
    if n > 0 {
      PointsForPresence(ids, boxes, n - 1, k);
      assert ids[..n] == ids[..n - 1] + [ids[n - 1]];
    }
  }

  /** With distinct IDs in the batch, each key receives at most one point per batch. */
  lemma {:induction false} PointsForDistinct(ids: seq<Option<int>>, boxes: seq<Box>, n: nat, k: int)
    requires n <= |ids| && n <= |boxes|
    requires Distinct(ids[..n])
    ensures |PointsFor(ids, boxes, n, k)| <= 1
  {
    if n > 0 {
      assert ids[..n - 1] == ids[..n][..n - 1];
      PointsForDistinct(ids, boxes, n - 1, k);
      if ids[n - 1] == Some(k) {
        assert Some(k) !in ids[..n - 1] by {
          forall i | 0 <= i < n - 1 ensures ids[i] != Some(k) {
            assert ids[..n][i] != ids[..n][n - 1];
          }
        }
        PointsForPresence(ids, boxes, n - 1, k);
      }
    }
  }

  /**
    The append loop reads a box only for its position, and only when its ID
    is not `None`: boxes that agree there give the same history.
   */
  lemma {:induction false} AppendedReadsPositions(h: History, ids: seq<Option<int>>, boxes: seq<Box>, boxes': seq<Box>, n: nat)
    requires n <= |ids| && n <= |boxes| && n <= |boxes'|
    requires forall i :: 0 <= i < n && ids[i].Some? ==> Position(boxes[i]) == Position(boxes'[i])
    ensures Appended(h, ids, boxes, n) == Appended(h, ids, boxes', n)
  {
    if n > 0 {
      AppendedReadsPositions(h, ids, boxes, boxes', n - 1);
    }
  }
}
