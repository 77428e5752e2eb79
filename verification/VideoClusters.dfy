/**
 * Grouping of boxes in the video pipeline: merging motion boxes into
 * clusters, choosing which boxes share a detection region, the region around
 * a cluster, and dropping detections mostly covered by a larger one. The
 * image helpers these call (`intersection_over_union`, `calculate_region`,
 * `get_cluster_boundary`, the area ratios) are passed in as functions.
 */
module VideoClusters {
  import opened Wrappers
  import opened PyBuiltins
  import opened VideoFilter

  // ---------------------------------------------------------------------------
  // reduce_boxes

  /** The smallest box holding both `c` and `b`. */
  function Grow(c: Box, b: Box): (g: Box)
    ensures BoxInside(g, c) && BoxInside(g, b)
  {
    Box(Min(c.xMin, b.xMin), Min(c.yMin, b.yMin), Max(c.xMax, b.xMax), Max(c.yMax, b.yMax))
  }

  /** Some cluster overlaps `b` above the threshold. */
  predicate Matches(clusters: seq<Box>, b: Box, iou: (Box, Box) -> real, threshold: real)
  {
    exists k :: 0 <= k < |clusters| && iou(b, clusters[k]) > threshold
  }

  /** One step of `reduce_boxes`: every matching cluster grows to take `b`; without a match `b` starts a cluster. */
  function Absorb(clusters: seq<Box>, b: Box, iou: (Box, Box) -> real, threshold: real): (r: seq<Box>)
    ensures |r| == if Matches(clusters, b, iou, threshold) then |clusters| else |clusters| + 1
  {
    var merged := seq(|clusters|, k requires 0 <= k < |clusters| =>
      if iou(b, clusters[k]) > threshold then Grow(clusters[k], b) else clusters[k]);
    if Matches(clusters, b, iou, threshold) then merged else merged + [b]
  }

  /** The clusters `reduce_boxes` builds from `boxes`, taken in order. */
  function Reduced(boxes: seq<Box>, iou: (Box, Box) -> real, threshold: real): seq<Box>
  {
    if boxes == [] then []
    else Absorb(Reduced(boxes[..|boxes| - 1], iou, threshold), boxes[|boxes| - 1], iou, threshold)
  }

  /** `reduce_boxes(boxes, iou_threshold)`, growing the cluster list in place. */
  method ReduceBoxes(boxes: seq<Box>, iou: (Box, Box) -> real, threshold: real) returns (clusters: seq<Box>)
    ensures clusters == Reduced(boxes, iou, threshold)
  {
    clusters := [];
    for i := 0 to |boxes|
      invariant clusters == Reduced(boxes[..i], iou, threshold)
    {
      assert boxes[..i + 1][..i] == boxes[..i];
      var box := boxes[i];
      ghost var before := clusters;
      var matched := false;
      for j := 0 to |clusters|
        invariant |clusters| == |before|
        invariant forall k :: 0 <= k < j ==>
                    clusters[k] == if iou(box, before[k]) > threshold then Grow(before[k], box) else before[k]
        invariant forall k :: j <= k < |clusters| ==> clusters[k] == before[k]
        invariant matched <==> exists k :: 0 <= k < j && iou(box, before[k]) > threshold
      {
        if iou(box, clusters[j]) > threshold {
          matched := true;
          clusters := clusters[j := Grow(clusters[j], box)];
        }
      }
      if !matched {
        clusters := clusters + [box];
      }
    }
    assert boxes[..|boxes|] == boxes;
  }

  /** There are never more clusters than boxes, and at least one once there is a box. */
  lemma {:induction false} ReducedCount(boxes: seq<Box>, iou: (Box, Box) -> real, threshold: real)
    ensures |Reduced(boxes, iou, threshold)| <= |boxes|
    ensures boxes != [] ==> |Reduced(boxes, iou, threshold)| >= 1
  {
    if boxes != [] {
      ReducedCount(boxes[..|boxes| - 1], iou, threshold);
    }
  }

  /** Clusters only grow: whatever a cluster held before a step, the same cluster still holds after it. */
  lemma AbsorbKeeps(clusters: seq<Box>, b: Box, iou: (Box, Box) -> real, threshold: real, m: nat, x: Box)
    requires m < |clusters| && BoxInside(clusters[m], x)
    ensures BoxInside(Absorb(clusters, b, iou, threshold)[m], x)
  {
    var c := clusters[m];
    if iou(b, c) > threshold {
      BoxInsideTransitive(Grow(c, b), c, x);
    }
  }

  /** Every input box lies inside some returned cluster. */
  lemma {:induction false} ReducedCovers(boxes: seq<Box>, iou: (Box, Box) -> real, threshold: real, i: nat)
    requires i < |boxes|
    ensures exists m :: 0 <= m < |Reduced(boxes, iou, threshold)| && BoxInside(Reduced(boxes, iou, threshold)[m], boxes[i])
  {
    var init := boxes[..|boxes| - 1];
    var last := boxes[|boxes| - 1];
    var prev := Reduced(init, iou, threshold);
    var r := Absorb(prev, last, iou, threshold);
    assert Reduced(boxes, iou, threshold) == r;
    if i < |boxes| - 1 {
      ReducedCovers(init, iou, threshold, i);
      var m :| 0 <= m < |prev| && BoxInside(prev[m], init[i]);
      AbsorbKeeps(prev, last, iou, threshold, m, init[i]);
      assert init[i] == boxes[i];
      assert BoxInside(r[m], boxes[i]);
    } else if Matches(prev, last, iou, threshold) {
      var m :| 0 <= m < |prev| && iou(last, prev[m]) > threshold;
      assert r[m] == Grow(prev[m], last);
    } else {
      assert r[|prev|] == last;
      BoxInsideReflexive(last);
    }
  }

  /** Each edge of a cluster is the same edge of some input box. */
  lemma {:induction false} ReducedEdges(boxes: seq<Box>, iou: (Box, Box) -> real, threshold: real, m: nat)
    requires m < |Reduced(boxes, iou, threshold)|
    ensures var c := Reduced(boxes, iou, threshold)[m];
            && (exists i :: 0 <= i < |boxes| && c.xMin == boxes[i].xMin)
            && (exists i :: 0 <= i < |boxes| && c.yMin == boxes[i].yMin)
            && (exists i :: 0 <= i < |boxes| && c.xMax == boxes[i].xMax)
            && (exists i :: 0 <= i < |boxes| && c.yMax == boxes[i].yMax)
  {
    var init := boxes[..|boxes| - 1];
    var last := boxes[|boxes| - 1];
    var prev := Reduced(init, iou, threshold);
    var c := Reduced(boxes, iou, threshold)[m];
    assert last == boxes[|boxes| - 1];
    if m < |prev| {
      ReducedEdges(init, iou, threshold, m);
      assert forall i :: 0 <= i < |init| ==> init[i] == boxes[i];
    }
  }

  // ---------------------------------------------------------------------------
  // get_cluster_region

  /**
   * The bounds `get_cluster_region` accumulates: starting from
   * `(frame width, frame height, 0, 0)`, the least x/y minimum and the
   * greatest x/y maximum over the clustered boxes.
   */
  function Hull(frameHeight: int, frameWidth: int, cluster: seq<nat>, boxes: seq<Box>): Box
    requires forall k :: 0 <= k < |cluster| ==> cluster[k] < |boxes|
  {
    if cluster == [] then Box(frameWidth, frameHeight, 0, 0)
    else
      var h := Hull(frameHeight, frameWidth, cluster[..|cluster| - 1], boxes);
      var b := boxes[cluster[|cluster| - 1]];
      Box(Min(b.xMin, h.xMin), Min(b.yMin, h.yMin), Max(b.xMax, h.xMax), Max(b.yMax, h.yMax))
  }

  /** `get_cluster_region(frame_shape, min_region, cluster, boxes)`, with `calculate_region` as `regionOf`. */
  method GetClusterRegion(frameHeight: int, frameWidth: int, cluster: seq<nat>, boxes: seq<Box>, regionOf: Box -> Box)
    returns (region: Box)
    requires forall k :: 0 <= k < |cluster| ==> cluster[k] < |boxes|
    ensures region == regionOf(Hull(frameHeight, frameWidth, cluster, boxes))
  {
    var minX := frameWidth;
    var minY := frameHeight;
    var maxX := 0;
    var maxY := 0;
    for k := 0 to |cluster|
      invariant Box(minX, minY, maxX, maxY) == Hull(frameHeight, frameWidth, cluster[..k], boxes)
    {
      assert cluster[..k + 1][..k] == cluster[..k];
      var b := cluster[k];
      minX := Min(boxes[b].xMin, minX);
      minY := Min(boxes[b].yMin, minY);
      maxX := Max(boxes[b].xMax, maxX);
      maxY := Max(boxes[b].yMax, maxY);
    }
    assert cluster[..|cluster|] == cluster;
    region := regionOf(Box(minX, minY, maxX, maxY));
  }

  /**
   * The bounds hold every clustered box and stay within the start values;
   * each bound is its start value or the same edge of a clustered box.
   */
  lemma {:induction false} HullBounds(frameHeight: int, frameWidth: int, cluster: seq<nat>, boxes: seq<Box>)
    requires forall k :: 0 <= k < |cluster| ==> cluster[k] < |boxes|
    ensures var h := Hull(frameHeight, frameWidth, cluster, boxes);
            && (forall k :: 0 <= k < |cluster| ==> BoxInside(h, boxes[cluster[k]]))
            && h.xMin <= frameWidth && h.yMin <= frameHeight && h.xMax >= 0 && h.yMax >= 0
            && (h.xMin == frameWidth || exists k :: 0 <= k < |cluster| && h.xMin == boxes[cluster[k]].xMin)
            && (h.xMax == 0 || exists k :: 0 <= k < |cluster| && h.xMax == boxes[cluster[k]].xMax)
  {
    if cluster != [] {
      var init := cluster[..|cluster| - 1];
      HullBounds(frameHeight, frameWidth, init, boxes);
      assert forall k :: 0 <= k < |init| ==> init[k] == cluster[k];
    }
  }

  // ---------------------------------------------------------------------------
  // get_cluster_candidates

  predicate StrictlyIncreasing(c: seq<nat>)
  {
    forall i, j :: 0 <= i < j < |c| ==> c[i] < c[j]
  }

  /** Some cluster holds the box index `x`. */
  predicate InSomeCluster(clusters: seq<seq<nat>>, x: nat)
  {
    exists k :: 0 <= k < |clusters| && x in clusters[k]
  }

  /** No box index is in two clusters. */
  predicate Disjoint(clusters: seq<seq<nat>>)
  {
    forall k1, k2, x :: 0 <= k1 < k2 < |clusters| && x in clusters[k1] ==> x !in clusters[k2]
  }

  /** A non-empty, strictly increasing list of indices of `boxes`. */
  predicate IndexList(c: seq<nat>, n: nat)
  {
    |c| >= 1 && StrictlyIncreasing(c) && forall m :: 0 <= m < |c| ==> c[m] < n
  }

  /** Every member after the first lies in the boundary of the first. */
  predicate InBoundary(c: seq<nat>, boxes: seq<Box>, boundary: Box -> Box)
    requires IndexList(c, |boxes|)
  {
    forall m :: 1 <= m < |c| ==> BoxInside(boundary(boxes[c[0]]), boxes[c[m]])
  }

  /**
   * The size test of `get_cluster_candidates`: a region wider than
   * `minRegion` rejects the cluster when any member is too small for it.
   */
  method ShouldCluster(potentialCluster: seq<nat>, boxes: seq<Box>, clusterRegion: Box, minRegion: int,
                       tooSmall: (Box, Box) -> bool)
    returns (shouldCluster: bool)
    requires forall m :: 0 <= m < |potentialCluster| ==> potentialCluster[m] < |boxes|
    ensures shouldCluster <==>
              !(clusterRegion.xMax - clusterRegion.xMin > minRegion &&
                exists m :: 0 <= m < |potentialCluster| && tooSmall(boxes[potentialCluster[m]], clusterRegion))
  {
    shouldCluster := true;
    if clusterRegion.xMax - clusterRegion.xMin > minRegion {
      for m := 0 to |potentialCluster|
        invariant shouldCluster
        invariant forall j :: 0 <= j < m ==> !tooSmall(boxes[potentialCluster[j]], clusterRegion)
      {
        if tooSmall(boxes[potentialCluster[m]], clusterRegion) {
          shouldCluster := false;
          break;
        }
      }
    }
  }

  /** The size test passes for a potential cluster whose region is `clusterRegion`. */
  predicate PassesSizeTest(potentialCluster: seq<nat>, boxes: seq<Box>, clusterRegion: Box, minRegion: int,
                           tooSmall: (Box, Box) -> bool)
    requires forall m :: 0 <= m < |potentialCluster| ==> potentialCluster[m] < |boxes|
  {
    !(clusterRegion.xMax - clusterRegion.xMin > minRegion &&
      exists m :: 0 <= m < |potentialCluster| && tooSmall(boxes[potentialCluster[m]], clusterRegion))
  }

  /**
   * Index `compare` considered for the cluster of box `current`: an index
   * already used or taken, or outside the boundary of box `current`, is
   * passed over; any other joins exactly when the cluster with it added
   * passes the size test on its region.
   */
  ghost function GrowStep(
    current: nat, cluster: seq<nat>, used: seq<nat>, compare: nat,
    frameHeight: int, frameWidth: int, minRegion: int, boxes: seq<Box>,
    boundary: Box -> Box, regionOf: Box -> Box, tooSmall: (Box, Box) -> bool): (r: seq<nat>)
    requires current < |boxes| && compare < |boxes|
    requires forall k :: 0 <= k < |cluster| ==> cluster[k] < |boxes|
    ensures r == cluster || r == cluster + [compare]
    ensures r == cluster + [compare] ==> compare !in used && BoxInside(boundary(boxes[current]), boxes[compare])
  {
    if compare in used || compare in cluster || !BoxInside(boundary(boxes[current]), boxes[compare]) then cluster
    else
      var potential := cluster + [compare];
      if PassesSizeTest(potential, boxes, regionOf(Hull(frameHeight, frameWidth, potential, boxes)), minRegion, tooSmall)
      then potential
      else cluster
  }

  /** The cluster grown from `cluster` by the indices `compare` onwards, in index order. */
  ghost function Grown(
    current: nat, cluster: seq<nat>, used: seq<nat>, compare: nat,
    frameHeight: int, frameWidth: int, minRegion: int, boxes: seq<Box>,
    boundary: Box -> Box, regionOf: Box -> Box, tooSmall: (Box, Box) -> bool): (r: seq<nat>)
    requires current < |boxes|
    requires forall k :: 0 <= k < |cluster| ==> cluster[k] < |boxes|
    ensures |cluster| <= |r|
    decreases |boxes| - compare
  {
    if compare >= |boxes| then cluster
    else
      var next := GrowStep(current, cluster, used, compare, frameHeight, frameWidth, minRegion, boxes,
                           boundary, regionOf, tooSmall);
      Grown(current, next, used, compare + 1, frameHeight, frameWidth, minRegion, boxes, boundary, regionOf, tooSmall)
  }

  /**
   * When no cluster region is ever wider than `minRegion`, the size test
   * never rejects, and the cluster takes every unused index in the boundary.
   */
  lemma {:induction false} GrownWithoutSizeTest(
    current: nat, cluster: seq<nat>, used: seq<nat>, compare: nat,
    frameHeight: int, frameWidth: int, minRegion: int, boxes: seq<Box>,
    boundary: Box -> Box, regionOf: Box -> Box, tooSmall: (Box, Box) -> bool)
    requires current < |boxes|
    requires forall k :: 0 <= k < |cluster| ==> cluster[k] < |boxes|
    requires forall b :: regionOf(b).xMax - regionOf(b).xMin <= minRegion
    ensures forall x :: x in Grown(current, cluster, used, compare, frameHeight, frameWidth, minRegion, boxes,
                                   boundary, regionOf, tooSmall) <==>
              x in cluster ||
              (compare <= x < |boxes| && x !in used && BoxInside(boundary(boxes[current]), boxes[x]))
    decreases |boxes| - compare
  {
    if compare < |boxes| {
      var inside := BoxInside(boundary(boxes[current]), boxes[compare]);
      var next := GrowStep(current, cluster, used, compare, frameHeight, frameWidth, minRegion, boxes,
                           boundary, regionOf, tooSmall);
      if compare in used || compare in cluster || !inside {
        assert next == cluster;
      } else {
        var potential := cluster + [compare];
        assert PassesSizeTest(potential, boxes, regionOf(Hull(frameHeight, frameWidth, potential, boxes)), minRegion, tooSmall);
        assert next == potential;
      }
      GrownWithoutSizeTest(current, next, used, compare + 1, frameHeight, frameWidth, minRegion, boxes,
                           boundary, regionOf, tooSmall);
    }
  }

  /**
   * The inner loop of `get_cluster_candidates`: box `current` (already
   * marked used) takes, in index order, each unused box in its boundary that
   * passes the size test, marking it used.
   */
  method GrowCluster(
    current: nat, used: seq<nat>, frameHeight: int, frameWidth: int, minRegion: int, boxes: seq<Box>,
    boundary: Box -> Box, regionOf: Box -> Box, tooSmall: (Box, Box) -> bool)
    returns (cluster: seq<nat>, usedAfter: seq<nat>)
    requires current < |boxes|
    requires forall x :: 0 <= x <= current ==> x in used
    ensures cluster == Grown(current, [current], used, 0, frameHeight, frameWidth, minRegion, boxes,
                             boundary, regionOf, tooSmall)
    ensures IndexList(cluster, |boxes|) && cluster[0] == current && InBoundary(cluster, boxes, boundary)
    ensures forall m :: 1 <= m < |cluster| ==> current < cluster[m] && cluster[m] !in used
    ensures forall x :: x in usedAfter <==> x in used || x in cluster
    ensures usedAfter == used + cluster[1..]
  {
    cluster := [current];
    usedAfter := used;
    for compare := 0 to |boxes|
      invariant Growing(current, cluster, used, compare, boxes, boundary)
      invariant forall x :: x in usedAfter <==> x in used || x in cluster
      invariant usedAfter == used + cluster[1..]
      invariant Grown(current, cluster, used, compare, frameHeight, frameWidth, minRegion, boxes,
                      boundary, regionOf, tooSmall) ==
                Grown(current, [current], used, 0, frameHeight, frameWidth, minRegion, boxes,
                      boundary, regionOf, tooSmall)
    {
      GrowStepKeeps(current, cluster, used, compare, frameHeight, frameWidth, minRegion, boxes,
                    boundary, regionOf, tooSmall);
      cluster, usedAfter := ConsiderIndex(current, cluster, used, usedAfter, compare, frameHeight, frameWidth,
                                          minRegion, boxes, boundary, regionOf, tooSmall);
    }
  }

  /** The shape of the cluster of box `current` once the indices below `compare` are considered. */
  predicate Growing(current: nat, cluster: seq<nat>, used: seq<nat>, compare: nat, boxes: seq<Box>,
                    boundary: Box -> Box)
  {
    && IndexList(cluster, |boxes|) && cluster[0] == current
    && (forall m :: 1 <= m < |cluster| ==> current < cluster[m] < compare && cluster[m] !in used)
    && InBoundary(cluster, boxes, boundary)
  }

  /** Considering one more index keeps the shape of the cluster. */
  lemma GrowStepKeeps(
    current: nat, cluster: seq<nat>, used: seq<nat>, compare: nat,
    frameHeight: int, frameWidth: int, minRegion: int, boxes: seq<Box>,
    boundary: Box -> Box, regionOf: Box -> Box, tooSmall: (Box, Box) -> bool)
    requires current < |boxes| && compare < |boxes|
    requires forall x :: 0 <= x <= current ==> x in used
    requires Growing(current, cluster, used, compare, boxes, boundary)
    ensures Growing(current, GrowStep(current, cluster, used, compare, frameHeight, frameWidth, minRegion, boxes,
                                      boundary, regionOf, tooSmall), used, compare + 1, boxes, boundary)
  {
    var next := GrowStep(current, cluster, used, compare, frameHeight, frameWidth, minRegion, boxes,
                         boundary, regionOf, tooSmall);
    if next == cluster + [compare] {
      assert compare !in used;
      assert forall m :: 1 <= m < |next| ==> current < next[m] < compare + 1 && next[m] !in used;
    }
  }

  /** One pass of the inner loop: index `compare` is considered for the cluster of box `current`. */
  method ConsiderIndex(
    current: nat, cluster: seq<nat>, used: seq<nat>, usedNow: seq<nat>, compare: nat,
    frameHeight: int, frameWidth: int, minRegion: int, boxes: seq<Box>,
    boundary: Box -> Box, regionOf: Box -> Box, tooSmall: (Box, Box) -> bool)
    returns (next: seq<nat>, usedNext: seq<nat>)
    requires current < |boxes| && compare < |boxes| && IndexList(cluster, |boxes|)
    requires forall x :: x in usedNow <==> x in used || x in cluster
    requires usedNow == used + cluster[1..]
    ensures next == GrowStep(current, cluster, used, compare, frameHeight, frameWidth, minRegion, boxes,
                             boundary, regionOf, tooSmall)
    ensures forall x :: x in usedNext <==> x in used || x in next
    ensures usedNext == used + next[1..]
  {
    next, usedNext := cluster, usedNow;
    if compare in usedNow || !BoxInside(boundary(boxes[current]), boxes[compare]) {
      return;
    }
    var potentialCluster := cluster + [compare];
    var clusterRegion := GetClusterRegion(frameHeight, frameWidth, potentialCluster, boxes, regionOf);
    var shouldCluster := ShouldCluster(potentialCluster, boxes, clusterRegion, minRegion, tooSmall);
    if shouldCluster {
      next := potentialCluster;
      usedNext := usedNow + [compare];
      assert next[1..] == cluster[1..] + [compare];
    }
  }

  /**
   * `get_cluster_candidates(frame_shape, min_region, boxes)`. Each unused box
   * in turn starts a cluster and takes every later unused box that lies in
   * its boundary (`boundary`, from `get_cluster_boundary`), unless the
   * cluster's region (`regionOf`, from `calculate_region`) is wider than
   * `minRegion` and some member is too small for it (`tooSmall`, the 5% area
   * test). The clusters partition the box indices, so the set that removes
   * duplicates removes none; they are returned in the order they were made.
   */
  method GetClusterCandidates(
    frameHeight: int, frameWidth: int, minRegion: int, boxes: seq<Box>,
    boundary: Box -> Box, regionOf: Box -> Box, tooSmall: (Box, Box) -> bool)
    returns (candidates: seq<seq<nat>>)
    ensures forall k :: 0 <= k < |candidates| ==> IndexList(candidates[k], |boxes|)
    ensures forall x: nat :: x < |boxes| ==> InSomeCluster(candidates, x)
    ensures Disjoint(candidates)
    ensures forall k :: 0 <= k < |candidates| ==> InBoundary(candidates[k], boxes, boundary)
    ensures candidates == Candidates(0, [], frameHeight, frameWidth, minRegion, boxes, boundary, regionOf, tooSmall)
  {
    candidates := [];
    var used: seq<nat> := [];
    assert candidates + Candidates(0, used, frameHeight, frameWidth, minRegion, boxes, boundary, regionOf, tooSmall) ==
           Candidates(0, [], frameHeight, frameWidth, minRegion, boxes, boundary, regionOf, tooSmall);
    for current := 0 to |boxes|
      invariant candidates + Candidates(current, used, frameHeight, frameWidth, minRegion, boxes, boundary, regionOf, tooSmall) ==
                Candidates(0, [], frameHeight, frameWidth, minRegion, boxes, boundary, regionOf, tooSmall)
      invariant forall x :: 0 <= x < current ==> x in used
      invariant forall x :: x in used <==> InSomeCluster(candidates, x)
      invariant forall k :: 0 <= k < |candidates| ==> IndexList(candidates[k], |boxes|)
      invariant Disjoint(candidates)
      invariant forall k :: 0 <= k < |candidates| ==> InBoundary(candidates[k], boxes, boundary)
    {
      if current in used {
        continue;
      }
      var cluster, usedAfter := GrowCluster(current, used + [current], frameHeight, frameWidth, minRegion, boxes,
                                           boundary, regionOf, tooSmall);
      assert forall x :: x in cluster ==> !InSomeCluster(candidates, x);
      var grown := candidates + [cluster];
      ClusterAdded(candidates, cluster, boxes, boundary);
      AppendCandidate(candidates, cluster,
                      Candidates(current + 1, usedAfter, frameHeight, frameWidth, minRegion, boxes, boundary, regionOf, tooSmall));
      candidates := grown;
      used := usedAfter;
    }
    assert candidates + [] == candidates;
  }

  /**
   * The candidates the outer loop makes from index `current` on: each index
   * not yet used, in order, seeds the cluster `Grown` builds, and the used
   * list grows by that cluster.
   */
  ghost function Candidates(
    current: nat, used: seq<nat>, frameHeight: int, frameWidth: int, minRegion: int, boxes: seq<Box>,
    boundary: Box -> Box, regionOf: Box -> Box, tooSmall: (Box, Box) -> bool): seq<seq<nat>>
    decreases |boxes| - current
  {
    if current >= |boxes| then []
    else if current in used then
      Candidates(current + 1, used, frameHeight, frameWidth, minRegion, boxes, boundary, regionOf, tooSmall)
    else
      var cluster := Grown(current, [current], used + [current], 0, frameHeight, frameWidth, minRegion, boxes,
                           boundary, regionOf, tooSmall);
      [cluster] + Candidates(current + 1, used + [current] + cluster[1..], frameHeight, frameWidth, minRegion, boxes,
                             boundary, regionOf, tooSmall)
  }

  lemma AppendCandidate(candidates: seq<seq<nat>>, cluster: seq<nat>, rest: seq<seq<nat>>)
    ensures candidates + ([cluster] + rest) == (candidates + [cluster]) + rest
  {
  }

  /** A new cluster over indices no earlier cluster holds keeps the candidates well formed. */
  lemma ClusterAdded(candidates: seq<seq<nat>>, cluster: seq<nat>, boxes: seq<Box>, boundary: Box -> Box)
    requires forall k :: 0 <= k < |candidates| ==> IndexList(candidates[k], |boxes|)
    requires forall k :: 0 <= k < |candidates| ==> InBoundary(candidates[k], boxes, boundary)
    requires Disjoint(candidates)
    requires IndexList(cluster, |boxes|) && InBoundary(cluster, boxes, boundary)
    requires forall x :: x in cluster ==> !InSomeCluster(candidates, x)
    ensures var grown := candidates + [cluster];
            && (forall k :: 0 <= k < |grown| ==> IndexList(grown[k], |boxes|))
            && (forall k :: 0 <= k < |grown| ==> InBoundary(grown[k], boxes, boundary))
            && Disjoint(grown)
            && forall x :: InSomeCluster(grown, x) <==> InSomeCluster(candidates, x) || x in cluster
  {
    var grown := candidates + [cluster];
    forall x ensures InSomeCluster(grown, x) <==> InSomeCluster(candidates, x) || x in cluster {
      if x in cluster {
        assert x in grown[|candidates|];
      }
      if InSomeCluster(candidates, x) {
        var k :| 0 <= k < |candidates| && x in candidates[k];
        assert x in grown[k];
      }
    }
  }

  // ---------------------------------------------------------------------------
  // get_consolidated_object_detections

  predicate SortedByArea(s: seq<Detection>)
  {
    forall i, j :: 0 <= i < j < |s| ==> s[i].area <= s[j].area
  }

  /** Insert `d` after every entry whose area is not larger, so equal areas keep their order. */
  function InsertByArea(d: Detection, s: seq<Detection>): (r: seq<Detection>)
    ensures multiset(r) == multiset(s) + multiset{d}
  {
    if s == [] then [d]
    else if s[|s| - 1].area <= d.area then s + [d]
    else
      var init := s[..|s| - 1];
      assert s == init + [s[|s| - 1]];
      InsertByArea(d, init) + [s[|s| - 1]]
  }

  /** `sorted(group, key=lambda g: g[3])`: a stable sort by area, as an insertion sort. */
  function SortByArea(g: seq<Detection>): (r: seq<Detection>)
    ensures multiset(r) == multiset(g)
  {
    if g == [] then []
    else
      var init := g[..|g| - 1];
      assert g == init + [g[|g| - 1]];
      InsertByArea(g[|g| - 1], SortByArea(init))
  }

  lemma {:induction false} InsertByAreaSorted(d: Detection, s: seq<Detection>)
    requires SortedByArea(s)
    ensures SortedByArea(InsertByArea(d, s))
  {
    if s != [] && s[|s| - 1].area > d.area {
      var init := s[..|s| - 1];
      InsertByAreaSorted(d, init);
      var r := InsertByArea(d, init);
      forall x | x in r ensures x.area <= s[|s| - 1].area {
        assert x in multiset(r);
        if x != d {
          assert x in init;
        }
      }
    }
  }

  /** The sort orders by area and keeps exactly the group's detections. */
  lemma {:induction false} SortByAreaSorted(g: seq<Detection>)
    ensures SortedByArea(SortByArea(g))
    ensures |SortByArea(g)| == |g|
  {
    assert |SortByArea(g)| == |multiset(SortByArea(g))| == |multiset(g)| == |g|;
    if g != [] {
      SortByAreaSorted(g[..|g| - 1]);
      InsertByAreaSorted(g[|g| - 1], SortByArea(g[..|g| - 1]));
    }
  }

  /** The detections of `s` whose area is `a`, in their order in `s`. */
  function WithArea(s: seq<Detection>, a: int): seq<Detection>
  {
    if s == [] then []
    else WithArea(s[..|s| - 1], a) + OfArea(s[|s| - 1], a)
  }

  /** `[d]` when `d` has area `a`, else nothing. */
  function OfArea(d: Detection, a: int): seq<Detection>
  {
    if d.area == a then [d] else []
  }

  lemma WithAreaSnoc(s: seq<Detection>, d: Detection, a: int)
    ensures WithArea(s + [d], a) == WithArea(s, a) + OfArea(d, a)
  {
    assert (s + [d])[..|s|] == s;
  }

  /** Inserting `d` puts it after every detection of the same area. */
  lemma {:induction false} InsertByAreaStable(d: Detection, s: seq<Detection>, a: int)
    ensures WithArea(InsertByArea(d, s), a) == WithArea(s, a) + OfArea(d, a)
  {
    if s == [] {
      WithAreaSnoc([], d, a);
    } else if s[|s| - 1].area <= d.area {
      WithAreaSnoc(s, d, a);
    } else {
      var init, last := s[..|s| - 1], s[|s| - 1];
      assert s == init + [last];
      InsertByAreaStable(d, init, a);
      PassLarger(InsertByArea(d, init), init, d, last, a);
    }
  }

  /** Passing over a larger `last` keeps `d` behind every detection of its area. */
  lemma PassLarger(r: seq<Detection>, init: seq<Detection>, d: Detection, last: Detection, a: int)
    requires d.area < last.area
    requires WithArea(r, a) == WithArea(init, a) + OfArea(d, a)
    ensures WithArea(r + [last], a) == WithArea(init + [last], a) + OfArea(d, a)
  {
    WithAreaSnoc(r, last, a);
    WithAreaSnoc(init, last, a);
    SwapPastEmpty(WithArea(init, a), OfArea(d, a), OfArea(last, a));
  }

  /** Of two lists, one empty, either may come first. */
  lemma SwapPastEmpty<T>(w: seq<T>, x: seq<T>, y: seq<T>)
    requires x == [] || y == []
    ensures w + x + y == w + y + x
  {
    if x == [] {
      assert w + x == w;
    } else {
      assert w + x + y == w + x;
    }
  }

  /** The sort is stable: detections of equal area keep their order in the group. */
  lemma {:induction false} SortByAreaStable(g: seq<Detection>, a: int)
    ensures WithArea(SortByArea(g), a) == WithArea(g, a)
  {
    if g != [] {
      var init, last := g[..|g| - 1], g[|g| - 1];
      SortByAreaStable(init, a);
      InsertByAreaStable(last, SortByArea(init), a);
    }
  }

  /** Some later (no smaller) detection mostly covers the detection at `i`. */
  predicate CoveredLater(s: seq<Detection>, i: nat, mostlyInside: (Box, Box) -> bool)
    requires i < |s|
  {
    exists j :: i < j < |s| && mostlyInside(s[i].box, s[j].box)
  }

  /** The first `n` detections of `s` that no later detection mostly covers, in order. */
  function Survivors(s: seq<Detection>, n: nat, mostlyInside: (Box, Box) -> bool): seq<Detection>
    requires n <= |s|
  {
    if n == 0 then []
    else Survivors(s, n - 1, mostlyInside) + (if CoveredLater(s, n - 1, mostlyInside) then [] else [s[n - 1]])
  }

  /** What one group contributes: a single detection as it is, otherwise the survivors of the sorted group. */
  function ConsolidateGroup(g: seq<Detection>, mostlyInside: (Box, Box) -> bool): seq<Detection>
  {
    if |g| == 1 then [g[0]]
    else
      var sortedByArea := SortByArea(g);
      Survivors(sortedByArea, |sortedByArea|, mostlyInside)
  }

  /** The consolidated detections of the groups, group by group. */
  function Consolidated(groups: seq<seq<Detection>>, mostlyInside: (Box, Box) -> bool): seq<Detection>
  {
    if groups == [] then []
    else Consolidated(groups[..|groups| - 1], mostlyInside) + ConsolidateGroup(groups[|groups| - 1], mostlyInside)
  }

  /** The scan for a later detection that mostly covers the one at `idx`, stopping at the first. */
  method OverlapsLater(sortedByArea: seq<Detection>, idx: nat, mostlyInside: (Box, Box) -> bool)
    returns (overlap: bool)
    requires idx < |sortedByArea|
    ensures overlap <==> CoveredLater(sortedByArea, idx, mostlyInside)
  {
    var currentDetection := sortedByArea[idx].box;
    overlap := false;
    var toCheck := Min(idx + 1, |sortedByArea|);
    while toCheck < |sortedByArea|
      invariant idx < toCheck <= |sortedByArea|
      invariant forall j :: idx < j < toCheck ==> !mostlyInside(currentDetection, sortedByArea[j].box)
    {
      if mostlyInside(currentDetection, sortedByArea[toCheck].box) {
        overlap := true;
        break;
      }
      toCheck := toCheck + 1;
    }
  }

  /** The loop over a sorted group: keep each detection that no later one mostly covers. */
  method KeepUncovered(sortedByArea: seq<Detection>, mostlyInside: (Box, Box) -> bool) returns (kept: seq<Detection>)
    ensures kept == Survivors(sortedByArea, |sortedByArea|, mostlyInside)
  {
    kept := [];
    for idx := 0 to |sortedByArea|
      invariant kept == Survivors(sortedByArea, idx, mostlyInside)
    {
      var overlap := OverlapsLater(sortedByArea, idx, mostlyInside);
      if !overlap {
        kept := kept + [sortedByArea[idx]];
      }
    }
  }

  /**
   * `get_consolidated_object_detections(detected_object_groups)`, the groups
   * in dictionary order; `mostlyInside(a, b)` stands for "the intersection of
   * `a` and `b` exists and covers more than 90% of the area of `a`".
   */
  method GetConsolidatedObjectDetections(groups: seq<seq<Detection>>, mostlyInside: (Box, Box) -> bool)
    returns (consolidated: seq<Detection>)
    ensures consolidated == Consolidated(groups, mostlyInside)
  {
    consolidated := [];
    for gi := 0 to |groups|
      invariant consolidated == Consolidated(groups[..gi], mostlyInside)
    {
      assert groups[..gi + 1][..gi] == groups[..gi];
      var group := groups[gi];
      if |group| == 1 {
        consolidated := consolidated + [group[0]];
        continue;
      }
      var sortedByArea := SortByArea(group);
      var kept := KeepUncovered(sortedByArea, mostlyInside);
      consolidated := consolidated + kept;
    }
    assert groups[..|groups|] == groups;
  }

  /** Survivors are drawn from `s`, in order, and the last entry always survives. */
  lemma {:induction false} SurvivorsFrom(s: seq<Detection>, n: nat, mostlyInside: (Box, Box) -> bool)
    requires n <= |s|
    ensures |Survivors(s, n, mostlyInside)| <= n
    ensures forall d :: d in Survivors(s, n, mostlyInside) ==> d in s[..n]
    ensures n == |s| && n > 0 ==> Survivors(s, n, mostlyInside)[|Survivors(s, n, mostlyInside)| - 1] == s[n - 1]
  {
    if n > 0 {
      SurvivorsFrom(s, n - 1, mostlyInside);
      assert forall d :: d in s[..n - 1] ==> d in s[..n];
      assert !CoveredLater(s, |s| - 1, mostlyInside);
    }
  }

  /** The last entry of the sorted group has the greatest area in the group. */
  lemma SortedLastIsLargest(g: seq<Detection>)
    requires g != []
    ensures |SortByArea(g)| == |g|
    ensures forall e :: e in g ==> e.area <= SortByArea(g)[|g| - 1].area
  {
    var s := SortByArea(g);
    SortByAreaSorted(g);
    forall e | e in g ensures e.area <= s[|s| - 1].area {
      assert e in multiset(s);
    }
  }

  /** Whatever the sorted group keeps is one of the group's detections. */
  lemma SurvivorsFromGroup(g: seq<Detection>, mostlyInside: (Box, Box) -> bool)
    ensures forall d :: d in Survivors(SortByArea(g), |SortByArea(g)|, mostlyInside) ==> d in g
  {
    var s := SortByArea(g);
    SurvivorsFrom(s, |s|, mostlyInside);
    assert s[..|s|] == s;
    forall d | d in Survivors(s, |s|, mostlyInside) ensures d in g {
      assert d in multiset(s);
    }
  }

  /** A group keeps its largest-area detection, and contributes only its own detections, never more of them. */
  lemma ConsolidateGroupKeeps(g: seq<Detection>, mostlyInside: (Box, Box) -> bool)
    requires g != []
    ensures forall d :: d in ConsolidateGroup(g, mostlyInside) ==> d in g
    ensures 1 <= |ConsolidateGroup(g, mostlyInside)| <= |g|
    ensures exists d :: d in ConsolidateGroup(g, mostlyInside) && forall e :: e in g ==> e.area <= d.area
  {
    if |g| == 1 {
      assert forall e :: e in g ==> e == g[0];
      assert g[0] in ConsolidateGroup(g, mostlyInside);
    } else {
      var s := SortByArea(g);
      SortedLastIsLargest(g);
      SurvivorsFromGroup(g, mostlyInside);
      SurvivorsFrom(s, |s|, mostlyInside);
      var out := Survivors(s, |s|, mostlyInside);
      assert out[|out| - 1] == s[|s| - 1];
      assert s[|s| - 1] in ConsolidateGroup(g, mostlyInside);
    }
  }

  /** A group of one detection passes through unchanged. */
  lemma ConsolidateSingleton(d: Detection, mostlyInside: (Box, Box) -> bool)
    ensures ConsolidateGroup([d], mostlyInside) == [d]
  {
  }

  /** Every consolidated detection is one of the input detections. */
  lemma {:induction false} ConsolidatedFromInputs(groups: seq<seq<Detection>>, mostlyInside: (Box, Box) -> bool)
    ensures forall d :: d in Consolidated(groups, mostlyInside) ==>
              exists gi :: 0 <= gi < |groups| && d in groups[gi]
  {
    if groups != [] {
      var init := groups[..|groups| - 1];
      var last := groups[|groups| - 1];
      ConsolidatedFromInputs(init, mostlyInside);
      if last != [] {
        ConsolidateGroupKeeps(last, mostlyInside);
      } else {
        assert ConsolidateGroup(last, mostlyInside) == [];
      }
      forall d | d in Consolidated(groups, mostlyInside)
        ensures exists gi :: 0 <= gi < |groups| && d in groups[gi]
      {
        if d in Consolidated(init, mostlyInside) {
          var gi :| 0 <= gi < |init| && d in init[gi];
          assert groups[gi] == init[gi];
        } else {
          assert d in groups[|groups| - 1];
        }
      }
    }
  }
}
