/** The two affine maps between normalised window coordinates (origin at
    the top-left corner, y pointing down, both axes in [0, 1]) and
    normalised device coordinates (origin at the centre, y pointing up, both
    axes in [-1, 1]). */
module Transforms {
  import opened Geometry

  function WindowNormalizedToNdc(p: Vec2): (q: Vec2)
    ensures 0.0 <= p.x <= 1.0 <==> -1.0 <= q.x <= 1.0
    ensures 0.0 <= p.y <= 1.0 <==> -1.0 <= q.y <= 1.0
    // the window's y axis points down, the device's points up
    ensures p.y < 0.5 <==> q.y > 0.0
  {
    Vec2(p.x * 2.0 - 1.0, 1.0 - p.y * 2.0)
  }

  function NdcToWindowNormalized(q: Vec2): (p: Vec2)
    ensures -1.0 <= q.x <= 1.0 <==> 0.0 <= p.x <= 1.0
    ensures -1.0 <= q.y <= 1.0 <==> 0.0 <= p.y <= 1.0
    ensures q.y > 0.0 <==> p.y < 0.5
  {
    Vec2((q.x + 1.0) * 0.5, (1.0 - q.y) * 0.5)
  }

  lemma NdcRoundTrip(p: Vec2)
    ensures NdcToWindowNormalized(WindowNormalizedToNdc(p)) == p
  {
  }

  lemma WindowRoundTrip(q: Vec2)
    ensures WindowNormalizedToNdc(NdcToWindowNormalized(q)) == q
  {
  }
}
