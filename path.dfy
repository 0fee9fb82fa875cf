/** The fixed route of the enemies: fifteen square markers, authored in
    normalised window coordinates and converted to device coordinates. */
module Path {
  import opened Geometry
  import opened Transforms

  const WindowWidth: int := 1280
  const WindowHeight: int := 720
  const AspectRatio: real := WindowWidth as real / WindowHeight as real

  const MarkerWidth: real := 0.05 / AspectRatio
  const MarkerHeight: real := 0.05

  const MarkerCount: nat := 15

  function Marker(nx: real, ny: real): Box {
    Box(WindowNormalizedToNdc(Vec2(nx, ny)), MarkerWidth, MarkerHeight)
  }

  function PathMarkers(): seq<Box> {
    [Marker(0.131, 0.931), Marker(0.133, 0.729), Marker(0.173, 0.573),
     Marker(0.243, 0.436), Marker(0.350, 0.204), Marker(0.411, 0.163),
     Marker(0.441, 0.227), Marker(0.477, 0.355), Marker(0.524, 0.583),
     Marker(0.596, 0.820), Marker(0.667, 0.786), Marker(0.710, 0.558),
     Marker(0.716, 0.368), Marker(0.774, 0.226), Marker(0.939, 0.166)]
  }

  /** The route has fifteen markers, all inside the device square, laid out
      from left to right, so no two markers share a position. */
  lemma PathMarkersShape()
    ensures |PathMarkers()| == MarkerCount
    ensures forall i :: 0 <= i < |PathMarkers()| ==>
      -1.0 <= PathMarkers()[i].position.x <= 1.0 && -1.0 <= PathMarkers()[i].position.y <= 1.0
    ensures forall i, j :: 0 <= i < j < |PathMarkers()| ==>
      PathMarkers()[i].position.x < PathMarkers()[j].position.x
  {
  }
}
