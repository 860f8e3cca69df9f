/** The detection decoder: turns the detector's candidate rows into pixel
    corner boxes whose confidence clears a threshold. No non-max suppression
    and no clamping to the image are applied. */
module Decoder {
  import opened Sequences

  /** One candidate row of the detector output: a box centre and size relative
      to the image, plus the objectness and class scores. */
  datatype Candidate = Candidate(
    xCenter: real, yCenter: real, width: real, height: real,
    objectness: real, classScore: real)

  /** The `(height, width)` of the captured frame, in pixels. */
  datatype ImageShape = ImageShape(height: nat, width: nat)

  /** A decoded detection: pixel corners, its confidence and its class id. */
  datatype Box = Box(x1: int, y1: int, x2: int, y2: int, confidence: real, classId: int)

  /** The threshold the capture loop decodes with. */
  const DefaultThreshold: real := 0.2

  /** `n` is `x` truncated toward zero: it lies between 0 and `x`, less than
      one away from `x`. */
  predicate TowardZero(x: real, n: int) {
    && (0.0 <= x ==> 0 <= n && n as real <= x < n as real + 1.0)
    && (x < 0.0 ==> n <= 0 && n as real - 1.0 < x <= n as real)
  }

  /** Conversion of a real to an integer by truncation toward zero. */
  function Trunc(x: real): (n: int)
    ensures TowardZero(x, n)
  {
    if x >= 0.0 then x.Floor else -((-x).Floor)
  }

  /** Truncation never reverses the order of two reals. */
  lemma TruncMonotone(x: real, y: real)
    ensures x <= y ==> Trunc(x) <= Trunc(y)
  {
  }

  /** Truncation is symmetric about zero, unlike rounding down. */
  lemma TruncOdd(x: real)
    ensures Trunc(-x) == -Trunc(x)
  {
  }

  /** A candidate's confidence: the product of its objectness and class score.
      A zero score on either side gives zero, and two non-negative scores give
      a non-negative confidence. */
  function Confidence(c: Candidate): (conf: real)
    ensures c.objectness == 0.0 || c.classScore == 0.0 ==> conf == 0.0
    ensures c.objectness >= 0.0 && c.classScore >= 0.0 ==> conf >= 0.0
  {
    c.objectness * c.classScore
  }

  /** A candidate survives the threshold only when its confidence is strictly above it. */
  predicate Kept(c: Candidate, threshold: real) {
    Confidence(c) > threshold
  }

  /** The length in pixels of a relative extent `size` in an image `scale` pixels long. */
  function Scaled(size: real, scale: nat): real {
    size * scale as real
  }

  /** The unclamped, untruncated low end, in pixels, of a box with relative
      centre `center` and relative size `size` in an image `scale` pixels long. */
  function LowEnd(center: real, size: real, scale: nat): real {
    (center - size / 2.0) * scale as real
  }

  /** The unclamped, untruncated high end of the same box. */
  function HighEnd(center: real, size: real, scale: nat): real {
    (center + size / 2.0) * scale as real
  }

  /** A centred interval scaled by `scale` is `Scaled(size, scale)` long,
      which is non-negative when `size` is. */
  lemma ScaledSpan(center: real, size: real, scale: nat)
    ensures HighEnd(center, size, scale) - LowEnd(center, size, scale) == Scaled(size, scale)
    ensures size >= 0.0 ==> Scaled(size, scale) >= 0.0
  {
  }

  /** Truncating both ends of an interval changes its length by less than two,
      and by less than one when both ends lie on the same side of zero. */
  lemma TruncSpan(lo: real, hi: real)
    ensures hi - lo - 2.0 < (Trunc(hi) - Trunc(lo)) as real < hi - lo + 2.0
    ensures (0.0 <= lo && 0.0 <= hi) || (lo <= 0.0 && hi <= 0.0) ==>
      hi - lo - 1.0 < (Trunc(hi) - Trunc(lo)) as real < hi - lo + 1.0
  {
  }

  /** The truncated pixel ends, along one axis, of a box with relative centre
      `center` and relative size `size` in an image `scale` pixels long. */
  function AxisCorners(center: real, size: real, scale: nat): (r: (int, int))
    ensures TowardZero(LowEnd(center, size, scale), r.0)
    ensures TowardZero(HighEnd(center, size, scale), r.1)
    ensures size >= 0.0 ==> r.0 <= r.1
    ensures Scaled(size, scale) - 2.0 < (r.1 - r.0) as real < Scaled(size, scale) + 2.0
    ensures || (0.0 <= LowEnd(center, size, scale) && 0.0 <= HighEnd(center, size, scale))
            || (LowEnd(center, size, scale) <= 0.0 && HighEnd(center, size, scale) <= 0.0) ==>
      Scaled(size, scale) - 1.0 < (r.1 - r.0) as real < Scaled(size, scale) + 1.0
  {
    var lo := LowEnd(center, size, scale);
    var hi := HighEnd(center, size, scale);
    ScaledSpan(center, size, scale);
    TruncMonotone(lo, hi);
    TruncSpan(lo, hi);
    (Trunc(lo), Trunc(hi))
  }

  /** The pixel corner box of one kept candidate: each corner is its unclamped
      position truncated toward zero, x scaled by the image width and y by the
      image height; the box carries the candidate's confidence and class id 0. */
  function ToBox(c: Candidate, shape: ImageShape): (b: Box)
    ensures b.confidence == Confidence(c) && b.classId == 0
    ensures TowardZero(LowEnd(c.xCenter, c.width, shape.width), b.x1)
    ensures TowardZero(LowEnd(c.yCenter, c.height, shape.height), b.y1)
    ensures TowardZero(HighEnd(c.xCenter, c.width, shape.width), b.x2)
    ensures TowardZero(HighEnd(c.yCenter, c.height, shape.height), b.y2)
    ensures c.width >= 0.0 ==> b.x1 <= b.x2
    ensures c.height >= 0.0 ==> b.y1 <= b.y2
    ensures Scaled(c.width, shape.width) - 2.0 < (b.x2 - b.x1) as real < Scaled(c.width, shape.width) + 2.0
    ensures Scaled(c.height, shape.height) - 2.0 < (b.y2 - b.y1) as real < Scaled(c.height, shape.height) + 2.0
  {
    var xs := AxisCorners(c.xCenter, c.width, shape.width);
    var ys := AxisCorners(c.yCenter, c.height, shape.height);
    Box(xs.0, ys.0, xs.1, ys.1, Confidence(c), 0)
  }

  /** `boxes` is what the first `n` rows select, and `kept` says which rows
      produced them: the k-th box is the box of row `kept[k]`, the rows in
      `kept` are in increasing order, and a row among the first `n` is in
      `kept` exactly when its confidence clears the threshold. */
  predicate Selection(rows: seq<Candidate>, n: nat, shape: ImageShape, threshold: real,
                      boxes: seq<Box>, kept: seq<nat>)
  {
    && n <= |rows|
    && |kept| == |boxes|
    && (forall k :: 0 <= k < |kept| ==> kept[k] < n && boxes[k] == ToBox(rows[kept[k]], shape))
    && (forall k, l :: 0 <= k < l < |kept| ==> kept[k] < kept[l])
    && (forall j :: 0 <= j < n ==> (Kept(rows[j], threshold) <==> j in kept))
  }

  /** Looking at one more row extends a selection by that row's box exactly
      when the row is kept. */
  lemma SelectionStep(rows: seq<Candidate>, n: nat, shape: ImageShape, threshold: real,
                      boxes: seq<Box>, kept: seq<nat>)
    requires n < |rows|
    requires Selection(rows, n, shape, threshold, boxes, kept)
    ensures Kept(rows[n], threshold) ==>
      Selection(rows, n + 1, shape, threshold, boxes + [ToBox(rows[n], shape)], kept + [n])
    ensures !Kept(rows[n], threshold) ==> Selection(rows, n + 1, shape, threshold, boxes, kept)
  {
  }

  /** The positions of the rows that clear the threshold, in increasing order. */
  function KeptRows(rows: seq<Candidate>, threshold: real): (kept: seq<nat>)
    ensures forall k :: 0 <= k < |kept| ==> kept[k] < |rows|
  {
    if |rows| == 0 then []
    else
      var n := |rows| - 1;
      KeptRows(rows[..n], threshold) + (if Kept(rows[n], threshold) then [n] else [])
  }

  /** The reference decoder: every kept candidate, in input order, as a corner box. */
  function Decode(rows: seq<Candidate>, shape: ImageShape, threshold: real): (boxes: seq<Box>)
    ensures |boxes| <= |rows|
    ensures forall b :: b in boxes ==> b.confidence > threshold && b.classId == 0
  {
    if |rows| == 0 then []
    else
      var n := |rows| - 1;
      Decode(rows[..n], shape, threshold) + (if Kept(rows[n], threshold) then [ToBox(rows[n], shape)] else [])
  }

  /** Decoding one more row appends at most that row's box. */
  lemma DecodeStep(rows: seq<Candidate>, i: nat, shape: ImageShape, threshold: real)
    requires i < |rows|
    ensures Decode(rows[..i + 1], shape, threshold)
         == Decode(rows[..i], shape, threshold) + (if Kept(rows[i], threshold) then [ToBox(rows[i], shape)] else [])
  {
    assert rows[..i + 1][..i] == rows[..i];
  }

  /** A selection from the first `n` rows only looks at those rows. */
  lemma SelectionPrefix(rows: seq<Candidate>, n: nat, shape: ImageShape, threshold: real,
                        boxes: seq<Box>, kept: seq<nat>)
    requires n <= |rows|
    requires Selection(rows[..n], n, shape, threshold, boxes, kept)
    ensures Selection(rows, n, shape, threshold, boxes, kept)
  {
  }

  /** The decoder's result is a selection of the rows: the k-th box is the box
      of the k-th kept row, the kept rows are in input order, and a row is kept
      exactly when its confidence clears the threshold. */
  lemma {:induction false} DecodeSelection(rows: seq<Candidate>, shape: ImageShape, threshold: real)
    ensures Selection(rows, |rows|, shape, threshold, Decode(rows, shape, threshold), KeptRows(rows, threshold))
  {
    if |rows| > 0 {
      var n := |rows| - 1;
      var init := Decode(rows[..n], shape, threshold);
      DecodeSelection(rows[..n], shape, threshold);
      SelectionPrefix(rows, n, shape, threshold, init, KeptRows(rows[..n], threshold));
      SelectionStep(rows, n, shape, threshold, init, KeptRows(rows[..n], threshold));
    }
  }

  /** The decoder loop: walks the rows once and appends a box for each kept
      one, producing exactly the reference decoding. */
  method Postprocess(rows: seq<Candidate>, shape: ImageShape, threshold: real)
    returns (boxes: seq<Box>)
    ensures boxes == Decode(rows, shape, threshold)
  {
    boxes := [];
    for i := 0 to |rows|
      invariant boxes == Decode(rows[..i], shape, threshold)
    {
      var c := rows[i];
      var confidence := Confidence(c);
      DecodeStep(rows, i, shape, threshold);
      if confidence > threshold {
        boxes := boxes + [ToBox(c, shape)];
      }
    }
    assert rows[..|rows|] == rows;
  }

  /** The boxes whose confidence is strictly above `threshold`, in order. */
  function Above(boxes: seq<Box>, threshold: real): (r: seq<Box>)
    ensures |r| <= |boxes|
    ensures forall b :: b in r ==> b in boxes && b.confidence > threshold
  {
    if |boxes| == 0 then []
    else
      var last := boxes[|boxes| - 1];
      Above(boxes[..|boxes| - 1], threshold) + (if last.confidence > threshold then [last] else [])
  }

  /** Filtering by confidence keeps an order-preserving sub-sequence. */
  lemma {:induction false} AboveIsSubsequence(boxes: seq<Box>, threshold: real)
    ensures IsSubsequence(Above(boxes, threshold), boxes)
  {
    if |boxes| > 0 {
      var init := boxes[..|boxes| - 1];
      var last := boxes[|boxes| - 1];
      var r := Above(boxes, threshold);
      AboveIsSubsequence(init, threshold);
      if last.confidence > threshold {
        assert r[..|r| - 1] == Above(init, threshold);
      } else {
        assert r == Above(init, threshold);
      }
    }
  }

  /** Raising the threshold only removes boxes: the result for the higher
      threshold is the lower threshold's result filtered by confidence, and so
      an order-preserving sub-sequence of it. */
  lemma {:induction false} RaiseThreshold(rows: seq<Candidate>, shape: ImageShape, low: real, high: real)
    requires low <= high
    ensures Decode(rows, shape, high) == Above(Decode(rows, shape, low), high)
    ensures IsSubsequence(Decode(rows, shape, high), Decode(rows, shape, low))
  {
    if |rows| > 0 {
      var init := rows[..|rows| - 1];
      var last := rows[|rows| - 1];
      RaiseThreshold(init, shape, low, high);
      var d := Decode(rows, shape, low);
      if Kept(last, low) {
        assert d[..|d| - 1] == Decode(init, shape, low);
      } else {
        assert d == Decode(init, shape, low);
      }
    }
    AboveIsSubsequence(Decode(rows, shape, low), high);
  }

  /** The decoder returns the empty list exactly when no candidate clears the threshold. */
  lemma {:induction false} DecodeEmptyIff(rows: seq<Candidate>, shape: ImageShape, threshold: real)
    ensures Decode(rows, shape, threshold) == [] <==> forall i :: 0 <= i < |rows| ==> !Kept(rows[i], threshold)
  {
    if |rows| > 0 {
      var init := rows[..|rows| - 1];
      DecodeEmptyIff(init, shape, threshold);
      assert forall i :: 0 <= i < |init| ==> init[i] == rows[i];
    }
  }

  /** Rows whose objectness or class score is zero never produce a box under a
      non-negative threshold, so an all-zero output decodes to no boxes. */
  lemma {:induction false} ZeroScoresDecodeEmpty(rows: seq<Candidate>, shape: ImageShape, threshold: real)
    requires threshold >= 0.0
    requires forall i :: 0 <= i < |rows| ==> rows[i].objectness == 0.0 || rows[i].classScore == 0.0
    ensures Decode(rows, shape, threshold) == []
  {
    forall i | 0 <= i < |rows|
      ensures !Kept(rows[i], threshold)
    {
      assert Confidence(rows[i]) == 0.0;
    }
    DecodeEmptyIff(rows, shape, threshold);
  }

  /** A single certain candidate centred in a 1536x864 frame with a 0.2 x 0.2
      box gives exactly one box, its corners truncated. */
  lemma CentredCandidateExample()
    ensures Decode([Candidate(0.5, 0.5, 0.2, 0.2, 1.0, 1.0)], ImageShape(864, 1536), DefaultThreshold)
         == [Box(614, 345, 921, 518, 1.0, 0)]
  {
  }

  /** Corners are neither clamped to the frame nor rounded down: a box centred
      on the frame's corner reaches to negative coordinates, truncated toward zero. */
  lemma NoClampingExample()
    ensures Decode([Candidate(0.0, 0.0, 0.51, 0.51, 1.0, 1.0)], ImageShape(100, 100), DefaultThreshold)
         == [Box(-25, -25, 25, 25, 1.0, 0)]
  {
  }
}
