/** Nearest-marker search: the linear scan that gives every enemy its first
    waypoint. The scan keeps the first marker of smallest distance
    (comparison by strict `<`), starting from a sentinel distance of 100000
    and the index -1. Distances are compared squared, which orders them the
    same way. */
module Pathing {
  import opened Geometry

  const Sentinel: real := 100000.0
  const SentinelSq: real := Sentinel * Sentinel

  /** Squared distance from `pos` to the top-left corner of marker `j`. */
  function MarkerDist(pos: Vec2, path: seq<Box>, j: int): real
    requires 0 <= j < |path|
  {
    SqDist(pos, path[j].position)
  }

  /** What the scan promises: -1 when no marker is nearer than the
      sentinel, otherwise the lowest index among the nearest markers. */
  ghost predicate IsNearestChoice(pos: Vec2, path: seq<Box>, k: int) {
    (k == -1 &&
     forall j :: 0 <= j < |path| ==> MarkerDist(pos, path, j) >= SentinelSq) ||
    (0 <= k < |path| &&
     MarkerDist(pos, path, k) < SentinelSq &&
     (forall j :: 0 <= j < |path| ==> MarkerDist(pos, path, k) <= MarkerDist(pos, path, j)) &&
     (forall j :: 0 <= j < k ==> MarkerDist(pos, path, k) < MarkerDist(pos, path, j)))
  }

  /** The state of the scan after it has looked at markers [0, i). */
  ghost predicate ScanState(pos: Vec2, path: seq<Box>, i: int, bestD: real, bestIdx: int) {
    0 <= i <= |path| &&
    ((bestIdx == -1 && bestD == SentinelSq &&
      forall j :: 0 <= j < i ==> MarkerDist(pos, path, j) >= SentinelSq) ||
     (0 <= bestIdx < i && bestD == MarkerDist(pos, path, bestIdx) && bestD < SentinelSq &&
      (forall j :: 0 <= j < i ==> bestD <= MarkerDist(pos, path, j)) &&
      (forall j :: 0 <= j < bestIdx ==> bestD < MarkerDist(pos, path, j))))
  }

  /** The rest of the scan, from marker `i` on, with the best distance and
      index found so far. */
  function NearestFrom(pos: Vec2, path: seq<Box>, i: int, bestD: real, bestIdx: int): (k: int)
    requires ScanState(pos, path, i, bestD, bestIdx)
    ensures IsNearestChoice(pos, path, k)
    decreases |path| - i
  {
    if i == |path| then bestIdx
    else
      var d := MarkerDist(pos, path, i);
      if d < bestD then NearestFrom(pos, path, i + 1, d, i)
      else NearestFrom(pos, path, i + 1, bestD, bestIdx)
  }

  /** The index the bootstrap scan selects for an enemy at `pos`. */
  function Nearest(pos: Vec2, path: seq<Box>): (k: int)
    ensures -1 <= k < |path|
    ensures IsNearestChoice(pos, path, k)
  {
    NearestFrom(pos, path, 0, SentinelSq, -1)
  }

  /** The scan's promise determines its result. */
  lemma NearestChoiceUnique(pos: Vec2, path: seq<Box>, k1: int, k2: int)
    requires IsNearestChoice(pos, path, k1) && IsNearestChoice(pos, path, k2)
    ensures k1 == k2
  {
  }

  /** The scan as a loop, as the bootstrap runs it for one enemy. */
  method NearestMarker(pos: Vec2, path: seq<Box>) returns (minIdx: int)
    ensures minIdx == Nearest(pos, path)
    ensures IsNearestChoice(pos, path, minIdx)
  {
    var minDist := SentinelSq;
    minIdx := -1;
    var markerIdx := 0;
    while markerIdx < |path|
      invariant ScanState(pos, path, markerIdx, minDist, minIdx)
      invariant NearestFrom(pos, path, markerIdx, minDist, minIdx) == Nearest(pos, path)
      decreases |path| - markerIdx
    {
      var dist := MarkerDist(pos, path, markerIdx);
      if dist < minDist {
        minDist := dist;
        minIdx := markerIdx;
      }
      markerIdx := markerIdx + 1;
    }
  }

  /** An enemy standing exactly on marker `k` selects `k`, provided every
      earlier marker is at a positive distance. */
  lemma NearestAtMarker(path: seq<Box>, k: int)
    requires 0 <= k < |path|
    requires forall j :: 0 <= j < k ==> MarkerDist(path[k].position, path, j) > 0.0
    ensures Nearest(path[k].position, path) == k
  {
    var pos := path[k].position;
    assert MarkerDist(pos, path, k) == 0.0;
    assert IsNearestChoice(pos, path, k);
    NearestChoiceUnique(pos, path, k, Nearest(pos, path));
  }

  /** When some marker is nearer than the sentinel the scan never leaves the
      index at -1. */
  lemma NearestFindsMarker(pos: Vec2, path: seq<Box>, j: int)
    requires 0 <= j < |path| && MarkerDist(pos, path, j) < SentinelSq
    ensures 0 <= Nearest(pos, path) < |path|
  {
  }
}
