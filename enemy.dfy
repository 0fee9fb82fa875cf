/** An enemy and what one simulation tick does to it: follow the route
    marker by marker, advancing the waypoint cursor when close enough to
    the current marker, and switch off when out of health. */
module Enemies {
  import opened Geometry

  /** The movement step: the enemy's new top-left corner, given its old one
      and the top-left corner of the marker it heads for. The game moves a
      fixed distance along the normalised direction, with the vertical
      component scaled by the aspect ratio; that float computation is not
      modelled, so the step is a parameter. */
  type Step = (Vec2, Vec2) -> Vec2

  /** An enemy is considered at a marker when closer than 0.01 to it
      (compared squared). */
  const ArrivalRadius: real := 0.01

  predicate Arrived(pos: Vec2, marker: Vec2) {
    SqDist(pos, marker) < ArrivalRadius * ArrivalRadius
  }

  /** The fields of an enemy, as a value. A waypoint cursor of -1 means the
      first waypoint has not been chosen yet. */
  datatype EnemyState = EnemyState(
    isActive: bool,
    hp: int,
    hpMax: int,
    box: Box,
    pathfindingTarget: int)

  /** The route index of an active enemy must name a marker: the tick reads
      that marker without a bounds check. */
  predicate TargetValid(e: EnemyState, path: seq<Box>) {
    e.isActive ==> 0 <= e.pathfindingTarget < |path|
  }

  /** One tick of an enemy. An inactive enemy is left alone. An active one
      looks up its current marker, advances the cursor (cyclically) when it
      has arrived there, steps towards that same marker and is switched off
      when its health is not positive. */
  function Tick(e: EnemyState, path: seq<Box>, move: Step): (r: EnemyState)
    requires TargetValid(e, path)
    ensures TargetValid(r, path)
    ensures !e.isActive ==> r == e
    ensures r.hp == e.hp && r.hpMax == e.hpMax
    ensures r.box.width == e.box.width && r.box.height == e.box.height
    ensures e.isActive ==> (r.isActive <==> e.hp > 0)
  {
    if !e.isActive then e
    else
      var target := path[e.pathfindingTarget];
      var next :=
        if Arrived(e.box.position, target.position)
        then (e.pathfindingTarget + 1) % |path|
        else e.pathfindingTarget;
      var moved := e.box.(position := move(e.box.position, target.position));
      EnemyState(e.hp > 0, e.hp, e.hpMax, moved, next)
  }

  /** The cursor moves on by one exactly when the enemy has arrived at its
      current marker, and otherwise stays. */
  lemma TickAdvancesOnArrival(e: EnemyState, path: seq<Box>, move: Step)
    requires e.isActive && TargetValid(e, path)
    ensures var t := e.pathfindingTarget;
      Tick(e, path, move).pathfindingTarget ==
        if Arrived(e.box.position, path[t].position) then (t + 1) % |path| else t
  {
  }

  /** At the last marker the cursor wraps to the first, and nothing else
      about the enemy changes on that account. */
  lemma TickWrapsAtLastMarker(e: EnemyState, path: seq<Box>, move: Step)
    requires e.isActive && TargetValid(e, path)
    requires e.pathfindingTarget == |path| - 1
    requires Arrived(e.box.position, path[|path| - 1].position)
    ensures Tick(e, path, move).pathfindingTarget == 0
    ensures Tick(e, path, move).hp == e.hp
    ensures Tick(e, path, move).hpMax == e.hpMax
  {
  }

  /** The enemy steps towards the marker that was current at the start of
      the tick, even when the cursor has just moved on. */
  lemma TickMovesTowardsOldTarget(e: EnemyState, path: seq<Box>, move: Step)
    requires e.isActive && TargetValid(e, path)
    ensures Tick(e, path, move).box ==
      e.box.(position := move(e.box.position, path[e.pathfindingTarget].position))
  {
  }

  /** Switching off is permanent: a switched-off enemy stays as it is. */
  lemma InactiveStaysInactive(e: EnemyState, path: seq<Box>, move: Step)
    requires !e.isActive
    ensures Tick(e, path, move) == e
  {
  }

  /** An enemy that has taken at least its remaining health in damage is
      switched off on its next tick. */
  lemma DamageThenTickKills(e: EnemyState, amount: int, path: seq<Box>, move: Step)
    requires e.isActive && TargetValid(e, path) && amount >= e.hp
    ensures !Tick(e.(hp := e.hp - amount), path, move).isActive
  {
  }

  class Enemy {
    var isActive: bool
    var hp: int
    var hpMax: int
    var box: Box
    var pathfindingTarget: int

    function State(): EnemyState
      reads this
    {
      EnemyState(isActive, hp, hpMax, box, pathfindingTarget)
    }

    /** A new enemy has not chosen its first waypoint yet. */
    constructor (isActive: bool, hp: int, hpMax: int, box: Box)
      ensures State() == EnemyState(isActive, hp, hpMax, box, -1)
    {
      this.isActive := isActive;
      this.hp := hp;
      this.hpMax := hpMax;
      this.box := box;
      this.pathfindingTarget := -1;
    }

    method Death()
      modifies this
      ensures State() == old(State()).(isActive := false)
    {
      isActive := false;
    }

    method TakeDamage(amount: int)
      modifies this
      ensures State() == old(State()).(hp := old(hp) - amount)
    {
      hp := hp - amount;
    }

    method OnTick(path: seq<Box>, move: Step)
      requires TargetValid(State(), path)
      modifies this
      ensures State() == Tick(old(State()), path, move)
    {
      if !isActive {
        return;
      }
      var target := path[pathfindingTarget];
      if Arrived(box.position, target.position) {
        pathfindingTarget := (pathfindingTarget + 1) % |path|;
      }
      box := box.(position := move(box.position, target.position));
      if isActive {
        if hp <= 0 {
          Death();
        }
      }
    }
  }
}
