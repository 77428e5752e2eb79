/**
 * Per-detection helpers of the video pipeline: the object filter, the
 * minimum region size, and the box relations used by motion and clustering.
 */
module VideoFilter {
  import opened Wrappers
  import opened PyBuiltins

  /** A pixel box `(x_min, y_min, x_max, y_max)`. */
  datatype Box = Box(xMin: int, yMin: int, xMax: int, yMax: int)

  /** A detection `(name, score, box, area, ratio, region)`. */
  datatype Detection = Detection(name: string, score: real, box: Box, area: int, ratio: real, region: Box)

  /** The per-label filter settings; `mask` is `None` when no mask is configured. */
  datatype ObjectFilter = ObjectFilter(
    minArea: int, maxArea: int, minScore: real, minRatio: real, maxRatio: real,
    mask: Option<seq<seq<int>>>)

  /** The corners are in order. */
  predicate WellFormed(b: Box)
  {
    b.xMin <= b.xMax && b.yMin <= b.yMax
  }

  /** The pixel `(x, y)` lies in the closed box. */
  predicate InBox(b: Box, x: int, y: int)
  {
    b.xMin <= x <= b.xMax && b.yMin <= y <= b.yMax
  }

  // ---------------------------------------------------------------------------
  // filtered

  /** Any of the size, score and shape thresholds rejects the detection. */
  predicate OutsideThresholds(d: Detection, f: ObjectFilter)
  {
    || f.minArea > d.area || f.maxArea < d.area
    || f.minScore > d.score
    || f.minRatio > d.ratio || f.maxRatio < d.ratio
  }

  /**
   * The mask cell under the bottom centre of the box: the row is `int(y_max)`
   * and the column `int((x_max + x_min) / 2)`, each capped at the last index.
   */
  function MaskCell(mask: seq<seq<int>>, b: Box): (r: Result<int, PyError>)
    ensures mask == [] ==> r == Failure(IndexError)
  {
    var yLocation := Min(b.yMax, |mask| - 1);
    if mask == [] then Failure(IndexError)
    else
      var xLocation := Min(TruncDiv(b.xMax + b.xMin, 2), |mask[0]| - 1);
      match Index(mask, yLocation)
      case Failure(e) => Failure(e)
      case Success(row) => Index(row, xLocation)
  }

  /** `filtered(obj, objects_to_track, object_filters)`: whether the detection is dropped. */
  function Filtered(d: Detection, tracked: set<string>, filters: map<string, ObjectFilter>): (r: Result<bool, PyError>)
    ensures d.name !in tracked ==> r == Success(true)
    ensures d.name in tracked && d.name !in filters ==> r == Success(false)
    ensures d.name in tracked && d.name in filters && OutsideThresholds(d, filters[d.name]) ==> r == Success(true)
    ensures d.name in tracked && d.name in filters && !OutsideThresholds(d, filters[d.name]) ==>
              if filters[d.name].mask.None? then r == Success(false)
              else match MaskCell(filters[d.name].mask.value, d.box)
                case Success(cell) => r == Success(cell == 0)
                case Failure(e) => r == Failure(e)
  {
    if d.name !in tracked then Success(true)
    else if d.name !in filters then Success(false)
    else
      var f := filters[d.name];
      if f.minArea > d.area then Success(true)
      else if f.maxArea < d.area then Success(true)
      else if f.minScore > d.score then Success(true)
      else if f.minRatio > d.ratio then Success(true)
      else if f.maxRatio < d.ratio then Success(true)
      else if f.mask.Some? then
        match MaskCell(f.mask.value, d.box)
        case Failure(e) => Failure(e)
        case Success(cell) => Success(cell == 0)
      else Success(false)
  }

  /** Every row of the mask has the width of the first. */
  predicate Rectangular(mask: seq<seq<int>>)
  {
    |mask| >= 1 && |mask[0]| >= 1 && forall i :: 0 <= i < |mask| ==> |mask[i]| == |mask[0]|
  }

  /**
   * The capping keeps the lookup inside the mask from above: for a
   * non-empty rectangular mask and a box with non-negative bottom and centre,
   * the lookup succeeds and reads the capped cell.
   */
  lemma MaskLookupInBounds(mask: seq<seq<int>>, b: Box)
    requires Rectangular(mask)
    requires b.yMax >= 0 && b.xMin + b.xMax >= 0
    ensures var y := Min(b.yMax, |mask| - 1);
            var x := Min((b.xMax + b.xMin) / 2, |mask[0]| - 1);
            && 0 <= y < |mask| && 0 <= x < |mask[y]|
            && MaskCell(mask, b) == Success(mask[y][x])
  {
  }

  /** Coordinates past the right or bottom edge read the last column or row instead of failing. */
  lemma MaskClampsFarCorner(mask: seq<seq<int>>, b: Box)
    requires Rectangular(mask)
    requires b.yMax >= |mask| && b.xMin >= |mask[0]| && b.xMax >= |mask[0]|
    ensures MaskCell(mask, b) == Success(mask[|mask| - 1][|mask[0]| - 1])
  {
    MaskLookupInBounds(mask, b);
  }

  // ---------------------------------------------------------------------------
  // Region size

  /**
   * `get_min_region_size` on the given height and width: half the larger
   * dimension, truncated, rounded up to a multiple of 4.
   */
  function MinRegionSize(height: int, width: int): (r: int)
    ensures r % 4 == 0
    ensures Max(height, width) >= 0 ==>
              var half := Max(height, width) / 2;
              && half <= r <= half + 3
              && (half % 4 == 0 ==> r == half)
  {
    var half := TruncDiv(Max(height, width), 2);
    if half % 4 == 0 then half else TruncDiv(half + 3, 4) * 4
  }

  /** The result is the least multiple of 4 not below the truncated half. */
  lemma MinRegionSizeLeast(height: int, width: int, m: int)
    requires Max(height, width) >= 0
    requires m % 4 == 0 && m >= Max(height, width) / 2
    ensures MinRegionSize(height, width) <= m
  {
  }

  // ---------------------------------------------------------------------------
  // Box relations

  /** `box_overlaps(b1, b2)`: neither box lies wholly to one side of the other. */
  predicate BoxOverlaps(b1: Box, b2: Box)
  {
    !(b1.xMax < b2.xMin || b1.xMin > b2.xMax || b1.yMin > b2.yMax || b1.yMax < b2.yMin)
  }

  lemma BoxOverlapsSymmetric(b1: Box, b2: Box)
    ensures BoxOverlaps(b1, b2) <==> BoxOverlaps(b2, b1)
  {
  }

  /** For well-formed boxes, overlapping means sharing a pixel. */
  lemma BoxOverlapsIffCommonPixel(b1: Box, b2: Box)
    requires WellFormed(b1) && WellFormed(b2)
    ensures BoxOverlaps(b1, b2) <==> exists x, y :: InBox(b1, x, y) && InBox(b2, x, y)
  {
    if BoxOverlaps(b1, b2) {
      var x := Max(b1.xMin, b2.xMin);
      var y := Max(b1.yMin, b2.yMin);
      assert InBox(b1, x, y) && InBox(b2, x, y);
    }
  }

  /** `box_inside(b1, b2)`: `b2` lies within `b1`. */
  predicate BoxInside(b1: Box, b2: Box)
  {
    b2.xMin >= b1.xMin && b2.yMin >= b1.yMin && b2.xMax <= b1.xMax && b2.yMax <= b1.yMax
  }

  lemma BoxInsideReflexive(b: Box)
    ensures BoxInside(b, b)
  {
  }

  lemma BoxInsideTransitive(a: Box, b: Box, c: Box)
    requires BoxInside(a, b) && BoxInside(b, c)
    ensures BoxInside(a, c)
  {
  }

  /** For a well-formed inner box, lying within means every pixel of it lies in the outer box. */
  lemma BoxInsideIffPixels(b1: Box, b2: Box)
    requires WellFormed(b2)
    ensures BoxInside(b1, b2) <==> forall x, y :: InBox(b2, x, y) ==> InBox(b1, x, y)
  {
    if forall x, y :: InBox(b2, x, y) ==> InBox(b1, x, y) {
      assert InBox(b2, b2.xMin, b2.yMin);
      assert InBox(b2, b2.xMax, b2.yMax);
    }
  }

  /** `intersects_any(box_a, boxes)`. */
  function IntersectsAny(a: Box, boxes: seq<Box>): (r: bool)
    ensures r <==> exists k :: 0 <= k < |boxes| && BoxOverlaps(a, boxes[k])
  {
    if boxes == [] then false
    else if BoxOverlaps(a, boxes[0]) then true
    else
      assert forall k :: 1 <= k < |boxes| ==> boxes[k] == boxes[1..][k - 1];
      IntersectsAny(a, boxes[1..])
  }
}
