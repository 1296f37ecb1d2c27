/**
  Face selection for the detect-then-track loop.

  When the detector reports several candidate faces in one frame, the one
  whose centre lies nearest to the centre of the frame is handed to the
  tracker. The selection is a single left-to-right scan with a running best
  candidate that starts from a sentinel distance of 999999999; a box only
  replaces the current best when it is strictly nearer, so ties go to the
  earliest box, and a list in which no box beats the sentinel yields no box.

  Distances are compared squared over exact reals: the square root is monotone
  on non-negative values, so the comparisons (and therefore the choice) are the
  same; SqrtComparisonAgrees states this for one comparison and
  SquaredChoiceAgrees for the whole choice.
 */
module Tracking {

  /** A detected face: top-left corner and size, in pixels, as the detector reports it. */
  datatype Box = Box(x: int, y: int, w: int, h: int)

  /** The frame size as the caller supplies it: index 0 is the width, index 1 the height. */
  datatype FrameDimensions = FrameDimensions(width: int, height: int)

  datatype Point = Point(x: real, y: real)

  datatype Option<T> = None | Some(value: T)

  /** The error raised when the list of boxes is empty (a ValueError in the original). */
  datatype Error = NoBoundingBoxes

  datatype Result<T> = Ok(value: T) | Err(error: Error)

  /** The running best pair: a squared distance and the box that has it (none yet at the start). */
  datatype Candidate = Candidate(distSq: real, box: Option<Box>)

  /** The initial best distance, before any box has been looked at. */
  const SENTINEL: real := 999999999.0

  /** The sentinel on the squared scale the model compares on: 999999999 squared (see SentinelSquared). */
  const SENTINEL_SQ: real := 999999998000000001.0

  /** The frame centre, by true (not truncating) division; a 0x0 frame has its centre at the origin. */
  function FrameCentre(dims: FrameDimensions): (c: Point)
    ensures 0 <= dims.width ==> 0.0 <= c.x <= dims.width as real
    ensures 0 <= dims.height ==> 0.0 <= c.y <= dims.height as real
    ensures dims.width == 0 && dims.height == 0 ==> c == Point(0.0, 0.0)
  {
    Point(dims.width as real / 2.0, dims.height as real / 2.0)
  }

  /** The centre of a box; it lies within the box whenever the box has non-negative size. */
  function BoxCentre(b: Box): (c: Point)
    ensures 0 <= b.w ==> b.x as real <= c.x <= (b.x + b.w) as real
    ensures 0 <= b.h ==> b.y as real <= c.y <= (b.y + b.h) as real
  {
    Point(b.x as real + b.w as real / 2.0, b.y as real + b.h as real / 2.0)
  }

  /** The square of a coordinate difference, as a power of two. */
  function Square(d: real): (s: real)
    ensures s >= 0.0
  {
    d * d
  }

  /** The squared Euclidean distance from the centre of b to the point c. */
  function DistSq(b: Box, c: Point): (d: real)
    ensures d >= 0.0
    ensures BoxCentre(b) == c ==> d == 0.0
  {
    var bc := BoxCentre(b);
    Square(bc.x - c.x) + Square(bc.y - c.y)
  }

  /** No box is nearer to c than the sentinel distance. */
  ghost predicate NoneBeatsSentinel(boxes: seq<Box>, c: Point) {
    forall j :: 0 <= j < |boxes| ==> DistSq(boxes[j], c) >= SENTINEL_SQ
  }

  /**
    Index k is the box the scan keeps: it beats the sentinel, no box is
    strictly nearer, and every earlier box is strictly farther.
   */
  ghost predicate IsEarliestNearest(boxes: seq<Box>, c: Point, k: int) {
    && 0 <= k < |boxes|
    && DistSq(boxes[k], c) < SENTINEL_SQ
    && (forall j :: 0 <= j < |boxes| ==> DistSq(boxes[k], c) <= DistSq(boxes[j], c))
    && (forall j :: 0 <= j < k ==> DistSq(boxes[k], c) < DistSq(boxes[j], c))
  }

  /**
    Chooses the face to track: Err(NoBoundingBoxes) for an empty list,
    Ok(None) when no box beats the sentinel, and otherwise the earliest of
    the boxes nearest to the frame centre, unchanged.
   */
  method ChooseFace(boxes: seq<Box>, dims: FrameDimensions) returns (r: Result<Option<Box>>)
    ensures boxes == [] <==> r == Err(NoBoundingBoxes)
    ensures r == Ok(None) <==> boxes != [] && NoneBeatsSentinel(boxes, FrameCentre(dims))
    ensures r.Ok? && r.value.Some? ==>
              exists k :: IsEarliestNearest(boxes, FrameCentre(dims), k) && boxes[k] == r.value.value
  {
    if |boxes| == 0 {
      return Err(NoBoundingBoxes);
    }
    var centre := FrameCentre(dims);
    var nearest := Candidate(SENTINEL_SQ, None);
    ghost var k := 0;
    var i := 0;
    while i < |boxes|
      invariant 0 <= i <= |boxes|
      invariant nearest.box.None? ==>
                  nearest.distSq == SENTINEL_SQ && NoneBeatsSentinel(boxes[..i], centre)
      invariant nearest.box.Some? ==>
                  && IsEarliestNearest(boxes[..i], centre, k)
                  && nearest.box.value == boxes[k]
                  && nearest.distSq == DistSq(boxes[k], centre)
    {
      var dist := DistSq(boxes[i], centre);
      if dist < nearest.distSq {
        nearest := Candidate(dist, Some(boxes[i]));
        k := i;
      }
      i := i + 1;
    }
    assert boxes[..i] == boxes;
    r := Ok(nearest.box);
  }

  /** At most one index satisfies IsEarliestNearest, so the choice is never ambiguous. */
  lemma EarliestNearestUnique(boxes: seq<Box>, c: Point, k1: int, k2: int)
    requires IsEarliestNearest(boxes, c, k1) && IsEarliestNearest(boxes, c, k2)
    ensures k1 == k2
  {
  }

  /** Unless no box beats the sentinel, some index satisfies IsEarliestNearest. */
  lemma {:induction false} EarliestNearestExists(boxes: seq<Box>, c: Point)
    requires !NoneBeatsSentinel(boxes, c)
    ensures exists k :: IsEarliestNearest(boxes, c, k)
  {
    var n := |boxes|;
    var init := boxes[..n - 1];
    var last := boxes[n - 1];
    if NoneBeatsSentinel(init, c) {
      assert IsEarliestNearest(boxes, c, n - 1);
    } else {
      EarliestNearestExists(init, c);
      var k :| IsEarliestNearest(init, c, k);
      if DistSq(last, c) < DistSq(init[k], c) {
        assert IsEarliestNearest(boxes, c, n - 1);
      } else {
        assert IsEarliestNearest(boxes, c, k);
      }
    }
  }

  /**
    Comparing non-negative distances gives the same answer as comparing their
    squares, so the squared model makes every choice the Euclidean scan makes,
    including the comparison against the sentinel.
   */
  lemma SqrtComparisonAgrees(dist: real, bound: real)
    requires 0.0 <= dist && 0.0 <= bound
    ensures dist < bound <==> Square(dist) < Square(bound)
  {
    var dd, db, bb := dist * dist, dist * bound, bound * bound;
    if dist < bound {
      assert dd <= db < bb;
    } else {
      assert bb <= db <= dd;
    }
  }

  /** The scan's choice stated on Euclidean distances, with the sentinel 999999999 itself. */
  ghost predicate IsEarliestNearestByDistance(dists: seq<real>, k: int) {
    && 0 <= k < |dists|
    && dists[k] < SENTINEL
    && (forall j :: 0 <= j < |dists| ==> dists[k] <= dists[j])
    && (forall j :: 0 <= j < k ==> dists[k] < dists[j])
  }

  /** No Euclidean distance beats the sentinel 999999999. */
  ghost predicate NoneBeatsSentinelByDistance(dists: seq<real>) {
    forall j :: 0 <= j < |dists| ==> dists[j] >= SENTINEL
  }

  /**
    Given the Euclidean distance of each box (a non-negative root of its
    squared distance), the scan on squared distances and the scan on
    Euclidean distances make the same choice and report no box in the same case.
   */
  lemma SquaredChoiceAgrees(boxes: seq<Box>, c: Point, dists: seq<real>, k: int)
    requires |dists| == |boxes|
    requires forall j :: 0 <= j < |dists| ==> 0.0 <= dists[j] && Square(dists[j]) == DistSq(boxes[j], c)
    ensures IsEarliestNearest(boxes, c, k) <==> IsEarliestNearestByDistance(dists, k)
    ensures NoneBeatsSentinel(boxes, c) <==> NoneBeatsSentinelByDistance(dists)
  {
    forall i, j | 0 <= i < |dists| && 0 <= j < |dists|
      ensures dists[i] < dists[j] <==> DistSq(boxes[i], c) < DistSq(boxes[j], c)
    {
      SqrtComparisonAgrees(dists[i], dists[j]);
    }
    SentinelSquared();
    forall j | 0 <= j < |dists|
      ensures dists[j] < SENTINEL <==> DistSq(boxes[j], c) < SENTINEL_SQ
    {
      SqrtComparisonAgrees(dists[j], SENTINEL);
    }
  }

  /** SENTINEL_SQ is the square of the sentinel distance. */
  lemma SentinelSquared()
    ensures SENTINEL_SQ == Square(SENTINEL)
  {
  }

  /** A single box that beats the sentinel is returned, whatever the frame size. */
  method ChooseSingleFace(b: Box, dims: FrameDimensions) returns (r: Result<Option<Box>>)
    requires DistSq(b, FrameCentre(dims)) < SENTINEL_SQ
    ensures r == Ok(Some(b))
  {
    r := ChooseFace([b], dims);
    assert !NoneBeatsSentinel([b], FrameCentre(dims)) by {
      assert [b][0] == b;
    }
    assert r.Ok?;
    assert r.value.Some?;
  }

  /** Of two boxes, the first is kept when it is not farther than the second and beats the sentinel. */
  lemma FirstOfTwoNearest(a: Box, b: Box, c: Point)
    requires DistSq(a, c) <= DistSq(b, c) && DistSq(a, c) < SENTINEL_SQ
    ensures IsEarliestNearest([a, b], c, 0)
  {
  }

  /** Of two boxes at the same distance that beats the sentinel, the first is returned. */
  method ChooseTiedFaces(a: Box, b: Box, dims: FrameDimensions) returns (r: Result<Option<Box>>)
    requires DistSq(a, FrameCentre(dims)) == DistSq(b, FrameCentre(dims)) < SENTINEL_SQ
    ensures r == Ok(Some(a))
  {
    var centre := FrameCentre(dims);
    FirstOfTwoNearest(a, b, centre);
    r := ChooseFace([a, b], dims);
    assert !NoneBeatsSentinel([a, b], centre) by {
      assert [a, b][0] == a;
    }
    ghost var k :| IsEarliestNearest([a, b], centre, k) && [a, b][k] == r.value.value;
    EarliestNearestUnique([a, b], centre, k, 0);
  }

  /** The squared distances of the two boxes of the central-face example from the centre of a 100x100 frame. */
  lemma CentralFaceDistances()
    ensures FrameCentre(FrameDimensions(100, 100)) == Point(50.0, 50.0)
    ensures DistSq(Box(0, 0, 20, 20), Point(50.0, 50.0)) == 3200.0
    ensures DistSq(Box(45, 45, 20, 20), Point(50.0, 50.0)) == 50.0
  {
  }

  /** Of two boxes, the second is kept when it is strictly nearer than the first and beats the sentinel. */
  lemma SecondOfTwoNearest(a: Box, b: Box, c: Point)
    requires DistSq(b, c) < DistSq(a, c) && DistSq(b, c) < SENTINEL_SQ
    ensures IsEarliestNearest([a, b], c, 1)
  {
  }

  /** Of two boxes, the second is returned when it is strictly nearer than the first and beats the sentinel. */
  method ChooseNearerOfTwo(a: Box, b: Box, dims: FrameDimensions) returns (r: Result<Option<Box>>)
    requires DistSq(b, FrameCentre(dims)) < DistSq(a, FrameCentre(dims))
    requires DistSq(b, FrameCentre(dims)) < SENTINEL_SQ
    ensures r == Ok(Some(b))
  {
    var centre := FrameCentre(dims);
    SecondOfTwoNearest(a, b, centre);
    r := ChooseFace([a, b], dims);
    assert !NoneBeatsSentinel([a, b], centre) by {
      assert [a, b][1] == b;
    }
    ghost var k :| IsEarliestNearest([a, b], centre, k) && [a, b][k] == r.value.value;
    EarliestNearestUnique([a, b], centre, k, 1);
  }

  /** Of the boxes (0,0,20,20) and (45,45,20,20) in a 100x100 frame, the second is chosen. */
  method ChooseCentralFace() returns (r: Result<Option<Box>>)
    ensures r == Ok(Some(Box(45, 45, 20, 20)))
  {
    CentralFaceDistances();
    r := ChooseNearerOfTwo(Box(0, 0, 20, 20), Box(45, 45, 20, 20), FrameDimensions(100, 100));
  }

  /** An empty list of boxes is rejected, whatever the frame. */
  method ChooseNoFace(dims: FrameDimensions) returns (r: Result<Option<Box>>)
    ensures r == Err(NoBoundingBoxes)
  {
    r := ChooseFace([], dims);
  }
}
