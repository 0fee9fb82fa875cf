/** The start-up pass that gives every enemy its first waypoint, and the
    per-frame pass that ticks every enemy, over the game's list of enemies
    and its route of markers. */
module Simulation {
  import opened Geometry
  import opened Path
  import opened Pathing
  import opened Enemies

  /** The elements of the enemy list are distinct objects (the list owns
      its enemies by value). */
  ghost predicate Distinct(enemies: seq<Enemy>) {
    forall i, j :: 0 <= i < j < |enemies| ==> enemies[i] != enemies[j]
  }

  /** The cursor the start-up pass leaves in an enemy: an enemy still
      waiting for its first waypoint gets the nearest marker (or -1 when
      none is nearer than the sentinel); any other enemy has its cursor
      reset to -1, because the result is stored whether or not a scan ran. */
  function BootstrapTarget(e: EnemyState, path: seq<Box>): (t: int)
    ensures e.pathfindingTarget == -1 ==> IsNearestChoice(e.box.position, path, t)
    ensures e.pathfindingTarget != -1 ==> t == -1
    ensures -1 <= t < |path|
  {
    if e.pathfindingTarget == -1 then Nearest(e.box.position, path) else -1
  }

  /** The start-up pass: only the waypoint cursors change. */
  method Bootstrap(enemies: seq<Enemy>, path: seq<Box>)
    requires Distinct(enemies)
    modifies set e | e in enemies
    ensures forall i :: 0 <= i < |enemies| ==>
      enemies[i].State() ==
        old(enemies[i].State()).(pathfindingTarget := BootstrapTarget(old(enemies[i].State()), path))
  {
    var enemyIdx := 0;
    while enemyIdx < |enemies|
      invariant 0 <= enemyIdx <= |enemies|
      invariant forall i :: 0 <= i < enemyIdx ==>
        enemies[i].State() ==
          old(enemies[i].State()).(pathfindingTarget := BootstrapTarget(old(enemies[i].State()), path))
      invariant forall i :: enemyIdx <= i < |enemies| ==> enemies[i].State() == old(enemies[i].State())
      decreases |enemies| - enemyIdx
    {
      var enemy := enemies[enemyIdx];
      var minIdx := -1;
      if enemy.pathfindingTarget == -1 {
        minIdx := NearestMarker(enemy.box.position, path);
      }
      enemy.pathfindingTarget := minIdx;
      enemyIdx := enemyIdx + 1;
    }
  }

  /** The per-frame pass: every enemy, in list order, takes one tick. */
  method TickEnemies(enemies: seq<Enemy>, path: seq<Box>, move: Step)
    requires Distinct(enemies)
    requires forall i :: 0 <= i < |enemies| ==> TargetValid(enemies[i].State(), path)
    modifies set e | e in enemies
    ensures forall i :: 0 <= i < |enemies| ==>
      enemies[i].State() == Tick(old(enemies[i].State()), path, move)
    ensures forall i :: 0 <= i < |enemies| ==> TargetValid(enemies[i].State(), path)
  {
    var enemyIdx := 0;
    while enemyIdx < |enemies|
      invariant 0 <= enemyIdx <= |enemies|
      invariant forall i :: 0 <= i < enemyIdx ==>
        enemies[i].State() == Tick(old(enemies[i].State()), path, move)
      invariant forall i :: enemyIdx <= i < |enemies| ==> enemies[i].State() == old(enemies[i].State())
      decreases |enemies| - enemyIdx
    {
      enemies[enemyIdx].OnTick(path, move);
      enemyIdx := enemyIdx + 1;
    }
  }

  /** Every marker of the route is at a positive distance from every other
      one, because their x coordinates strictly increase. */
  lemma MarkersApart(i: int, j: int)
    requires 0 <= i < |PathMarkers()| && 0 <= j < |PathMarkers()| && i != j
    ensures MarkerDist(PathMarkers()[i].position, PathMarkers(), j) > 0.0
  {
    PathMarkersShape();
    SqDistPositive(PathMarkers()[i].position, PathMarkers()[j].position);
  }

  /** An enemy without a waypoint, placed exactly on marker k of the route,
      gets k from the start-up pass. */
  lemma BootstrapAtMarker(e: EnemyState, k: int)
    requires 0 <= k < |PathMarkers()|
    requires e.pathfindingTarget == -1 && e.box.position == PathMarkers()[k].position
    ensures BootstrapTarget(e, PathMarkers()) == k
  {
    forall j | 0 <= j < k
      ensures MarkerDist(PathMarkers()[k].position, PathMarkers(), j) > 0.0
    {
      MarkersApart(k, j);
    }
    NearestAtMarker(PathMarkers(), k);
  }

  lemma SquareAtMostFour(r: real)
    requires -2.0 <= r <= 2.0
    ensures r * r <= 4.0
  {
    if r >= 0.0 {
      assert r * r <= 2.0 * r;
    } else {
      assert r * r == (-r) * (-r);
      assert (-r) * (-r) <= 2.0 * (-r);
    }
  }

  /** An enemy that starts anywhere in the device square gets a marker of
      the route as its first waypoint, never -1: so the first tick's
      unchecked marker lookup is safe. */
  lemma BootstrapOnScreenFindsMarker(e: EnemyState)
    requires -1.0 <= e.box.position.x <= 1.0 && -1.0 <= e.box.position.y <= 1.0
    requires e.pathfindingTarget == -1
    ensures 0 <= BootstrapTarget(e, PathMarkers()) < MarkerCount
    ensures TargetValid(e.(pathfindingTarget := BootstrapTarget(e, PathMarkers())), PathMarkers())
  {
    PathMarkersShape();
    var pos := e.box.position;
    var m := PathMarkers()[0].position;
    SquareAtMostFour(pos.x - m.x);
    SquareAtMostFour(pos.y - m.y);
    assert MarkerDist(pos, PathMarkers(), 0) <= 8.0;
    NearestFindsMarker(pos, PathMarkers(), 0);
  }

  /** The three enemies the game starts with: full health (or a fifth of
      it for the second), on the horizontal centre line, no waypoint yet. */
  function InitialEnemies(): seq<EnemyState> {
    var size := 0.05 / AspectRatio;
    [EnemyState(true, 100, 100, Box(Vec2(0.0, 0.0), size, 0.05), -1),
     EnemyState(true, 100, 500, Box(Vec2(0.2, 0.0), size, 0.05), -1),
     EnemyState(true, 300, 300, Box(Vec2(-0.2, 0.0), size, 0.05), -1)]
  }

  /** After the start-up pass every initial enemy heads for a marker of the
      route, so the first tick never reads outside the route. */
  lemma InitialEnemiesGetMarkers()
    ensures forall i :: 0 <= i < |InitialEnemies()| ==>
      var e := InitialEnemies()[i];
      0 <= BootstrapTarget(e, PathMarkers()) < MarkerCount &&
      TargetValid(e.(pathfindingTarget := BootstrapTarget(e, PathMarkers())), PathMarkers())
  {
    forall i | 0 <= i < |InitialEnemies()|
      ensures var e := InitialEnemies()[i];
        0 <= BootstrapTarget(e, PathMarkers()) < MarkerCount &&
        TargetValid(e.(pathfindingTarget := BootstrapTarget(e, PathMarkers())), PathMarkers())
    {
      BootstrapOnScreenFindsMarker(InitialEnemies()[i]);
    }
  }
}
