/** Axis-aligned boxes and the two collision tests of the game.
    Coordinates are the device space of the renderer: x grows to the right,
    y grows upwards, and a box is anchored at its TOP-LEFT corner, so its
    bottom edge lies at `y - height`. Single-precision floats are modelled
    as exact reals. */
module Geometry {

  datatype Vec2 = Vec2(x: real, y: real)

  function Abs(r: real): real { if r < 0.0 then -r else r }

  /** Squared Euclidean distance. Distances are only ever compared with each
      other or with a non-negative constant, and the square root is monotone,
      so comparing squares decides the same way. */
  function SqDist(a: Vec2, b: Vec2): (d: real)
    ensures d >= 0.0
    ensures a == b ==> d == 0.0
  {
    SquareNonNegative(a.x - b.x);
    SquareNonNegative(a.y - b.y);
    (a.x - b.x) * (a.x - b.x) + (a.y - b.y) * (a.y - b.y)
  }

  lemma SquareNonNegative(r: real)
    ensures r * r >= 0.0
  {
    if r < 0.0 {
      assert (-r) * (-r) > 0.0;
      assert r * r == (-r) * (-r);
    }
  }

  lemma SquarePositive(r: real)
    requires r != 0.0
    ensures r * r > 0.0
  {
    if r < 0.0 {
      assert (-r) * (-r) > 0.0;
      assert r * r == (-r) * (-r);
    } else {
      assert r * r > 0.0;
    }
  }

  /** Points with different x coordinates are at a positive distance. */
  lemma SqDistPositive(a: Vec2, b: Vec2)
    requires a.x != b.x
    ensures SqDist(a, b) > 0.0
  {
    var u := a.x - b.x;
    var v := a.y - b.y;
    SquarePositive(u);
    SquareNonNegative(v);
    calc {
      SqDist(a, b);
      u * u + v * v;
    >= u * u;
    > 0.0;
    }
  }

  datatype Box = Box(position: Vec2, width: real, height: real)
  {
    function LeftEdge(): real { position.x }
    function RightEdge(): real { position.x + width }
    function TopEdge(): real { position.y }
    function BottomEdge(): real { position.y - height }
    function Center(): Vec2 { Vec2((LeftEdge() + RightEdge()) * 0.5, (TopEdge() + BottomEdge()) * 0.5) }

    /** A point strictly inside the box (not on its border). */
    predicate HasInteriorPoint(p: Vec2) {
      LeftEdge() < p.x < RightEdge() && BottomEdge() < p.y < TopEdge()
    }
  }

  /** Strict overlap test of two boxes: boxes that only touch along an edge
      or at a corner do not collide. */
  predicate Collides(b1: Box, b2: Box) {
    var xcoll := b1.position.x < b2.position.x + b2.width &&
                 b1.position.x + b1.width > b2.position.x;
    var ycoll := b1.position.y > b2.position.y - b2.height &&
                 b1.position.y - b1.height < b2.position.y;
    xcoll && ycoll
  }

  datatype CollisionDirection = None | Left | Right | Top | Bottom

  /** Centre-to-centre offset from `b1` to `b2`. */
  function CenterDelta(b1: Box, b2: Box): Vec2 {
    Vec2(b2.Center().x - b1.Center().x, b2.Center().y - b1.Center().y)
  }

  /** Penetration depth along x: the sum of the half widths minus the
      distance between the centres along x. */
  function PenetrationX(b1: Box, b2: Box): real {
    (b1.width * 0.5 + b2.width * 0.5) - Abs(CenterDelta(b1, b2).x)
  }

  function PenetrationY(b1: Box, b2: Box): real {
    (b1.height * 0.5 + b2.height * 0.5) - Abs(CenterDelta(b1, b2).y)
  }

  /** Classifies on which side `b1` and `b2` collide. The axis of smaller
      penetration is the separation axis; on a tie the vertical axis wins.
      The sign of the centre offset on that axis picks the side. */
  function DirectionalCollision(b1: Box, b2: Box): (r: CollisionDirection)
    ensures r == None <==> !Collides(b1, b2)
    ensures (r == Left || r == Right) ==> PenetrationX(b1, b2) < PenetrationY(b1, b2)
    ensures (r == Top || r == Bottom) ==> PenetrationY(b1, b2) <= PenetrationX(b1, b2)
    ensures r == Left ==> CenterDelta(b1, b2).x > 0.0
    ensures r == Right ==> CenterDelta(b1, b2).x <= 0.0
    ensures r == Bottom ==> CenterDelta(b1, b2).y > 0.0
    ensures r == Top ==> CenterDelta(b1, b2).y <= 0.0
  {
    var left1 := b1.position.x;
    var right1 := b1.position.x + b1.width;
    var top1 := b1.position.y;
    var bottom1 := b1.position.y - b1.height;
    var left2 := b2.position.x;
    var right2 := b2.position.x + b2.width;
    var top2 := b2.position.y;
    var bottom2 := b2.position.y - b2.height;
    var xcoll := left1 < right2 && right1 > left2;
    var ycoll := top1 > bottom2 && bottom1 < top2;
    if !(xcoll && ycoll) then None
    else
      var c1x := (left1 + right1) * 0.5;
      var c1y := (top1 + bottom1) * 0.5;
      var c2x := (left2 + right2) * 0.5;
      var c2y := (top2 + bottom2) * 0.5;
      var dx := c2x - c1x;
      var dy := c2y - c1y;
      var penX := (b1.width * 0.5 + b2.width * 0.5) - Abs(dx);
      var penY := (b1.height * 0.5 + b2.height * 0.5) - Abs(dy);
      if penX < penY then
        (if dx > 0.0 then Left else Right)
      else
        (if dy > 0.0 then Bottom else Top)
  }

  /** Overlap on an axis is the same as a positive penetration depth on it,
      so the two tests of this module agree on whether boxes collide. */
  lemma CollidesIffPositivePenetration(b1: Box, b2: Box)
    ensures Collides(b1, b2) <==> PenetrationX(b1, b2) > 0.0 && PenetrationY(b1, b2) > 0.0
  {
  }

  /** For boxes with positive extent the test is the usual geometric one:
      the two boxes share a point that is strictly inside both. */
  lemma CollidesIffSharedInteriorPoint(b1: Box, b2: Box)
    requires b1.width > 0.0 && b1.height > 0.0 && b2.width > 0.0 && b2.height > 0.0
    ensures Collides(b1, b2) <==> exists p :: b1.HasInteriorPoint(p) && b2.HasInteriorPoint(p)
  {
    if Collides(b1, b2) {
      var lo := if b1.LeftEdge() < b2.LeftEdge() then b2.LeftEdge() else b1.LeftEdge();
      var hi := if b1.RightEdge() < b2.RightEdge() then b1.RightEdge() else b2.RightEdge();
      var bot := if b1.BottomEdge() < b2.BottomEdge() then b2.BottomEdge() else b1.BottomEdge();
      var top := if b1.TopEdge() < b2.TopEdge() then b1.TopEdge() else b2.TopEdge();
      var p := Vec2((lo + hi) * 0.5, (bot + top) * 0.5);
      assert b1.HasInteriorPoint(p) && b2.HasInteriorPoint(p);
    }
  }

  lemma CollidesSymmetric(b1: Box, b2: Box)
    ensures Collides(b1, b2) == Collides(b2, b1)
  {
  }

  /** Boxes that only share an edge do not collide. */
  lemma EdgeContactIsNoCollision(b1: Box, b2: Box)
    requires b2.LeftEdge() == b1.RightEdge() || b2.TopEdge() == b1.BottomEdge()
    ensures !Collides(b1, b2)
    ensures DirectionalCollision(b1, b2) == None
  {
  }

  /** On overlapping boxes the result is never `None`, and it is decided by
      the smaller penetration (vertical on a tie) and the offset's sign. */
  lemma DirectionalOnOverlap(b1: Box, b2: Box)
    requires Collides(b1, b2)
    ensures var d := CenterDelta(b1, b2);
      DirectionalCollision(b1, b2) ==
        if PenetrationX(b1, b2) < PenetrationY(b1, b2) then (if d.x > 0.0 then Left else Right)
        else (if d.y > 0.0 then Bottom else Top)
  {
  }

  function Opposite(d: CollisionDirection): CollisionDirection {
    match d
    case None => None
    case Left => Right
    case Right => Left
    case Top => Bottom
    case Bottom => Top
  }

  /** Swapping the two boxes reports the opposite side, as long as the
      centres differ along the separation axis (with equal centres both
      orders fall to the `Right` or `Top` default). */
  lemma DirectionalSwap(b1: Box, b2: Box)
    requires PenetrationX(b1, b2) < PenetrationY(b1, b2) ==> CenterDelta(b1, b2).x != 0.0
    requires PenetrationX(b1, b2) >= PenetrationY(b1, b2) ==> CenterDelta(b1, b2).y != 0.0
    ensures DirectionalCollision(b2, b1) == Opposite(DirectionalCollision(b1, b2))
  {
    assert PenetrationX(b2, b1) == PenetrationX(b1, b2);
    assert PenetrationY(b2, b1) == PenetrationY(b1, b2);
  }
}
