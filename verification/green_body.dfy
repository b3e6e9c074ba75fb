/** The mascot's body: the blob construction applied to the diamond inscribed
    in the canvas, with the corner-radius ratio and the concavity fixed by the
    drawing code. The canvas size is the input; nothing checks it, as in the
    drawing code. */
module GreenBody {
  import opened Geometry
  import opened BlobPath

  /** The fraction of the canvas' smaller side used as corner radius (`0.15f`). */
  const CornerRadiusRatio: real := 0.15

  /** How far each edge's control point is pulled towards the centre (`0.2f`). */
  const ConcavityFactor: real := 0.2

  /** The centre of a `w` by `h` canvas: where its two diagonals cross. */
  function Center(w: real, h: real): (c: Point)
    ensures c == Midpoint(BoxCorner(w, h, 0), BoxCorner(w, h, 2))
    ensures c == Midpoint(BoxCorner(w, h, 1), BoxCorner(w, h, 3))
  {
    Point(w / 2.0, h / 2.0)
  }

  /** The diamond's vertices in drawing order: top, right, bottom, left. Each
      touches its side of the canvas. */
  function Diamond(w: real, h: real): (vs: seq<Point>)
    ensures |vs| == 4
    ensures vs[0].y == 0.0 && vs[1].x == w && vs[2].y == h && vs[3].x == 0.0
  {
    [Point(w / 2.0, 0.0), Point(w, h / 2.0), Point(w / 2.0, h), Point(0.0, h / 2.0)]
  }

  /** The canvas' corners, clockwise on screen from the top-left one. */
  function BoxCorner(w: real, h: real, k: int): Point
    requires 0 <= k < 4
  {
    [Point(0.0, 0.0), Point(w, 0.0), Point(w, h), Point(0.0, h)][k]
  }

  /** `minOf(width, height) * ratio`: for a non-negative ratio, the ratio
      applied to one of the sides and to no more than either of them. */
  function CornerRadius(w: real, h: real, ratio: real): (r: real)
    ensures r == w * ratio || r == h * ratio
    ensures ratio >= 0.0 ==> r <= w * ratio && r <= h * ratio
  {
    (if w <= h then w else h) * ratio
  }

  /** The inbound points of all vertices, in vertex order. */
  function InPoints(vs: seq<Point>, r: real, sqrt: real -> real): (ps: seq<Point>)
    ensures |ps| == |vs|
    ensures forall i :: 0 <= i < |vs| ==> ps[i] == PIn(vs, i, r, sqrt)
  {
    seq(|vs|, i requires 0 <= i < |vs| => PIn(vs, i, r, sqrt))
  }

  /** The outbound points of all vertices, in vertex order. */
  function OutPoints(vs: seq<Point>, r: real, sqrt: real -> real): (ps: seq<Point>)
    ensures |ps| == |vs|
    ensures forall i :: 0 <= i < |vs| ==> ps[i] == POut(vs, i, r, sqrt)
  {
    seq(|vs|, i requires 0 <= i < |vs| => POut(vs, i, r, sqrt))
  }

  /** The body's path for a `w` by `h` canvas and the given shape parameters. */
  function BuildPath(w: real, h: real, ratio: real, concavity: real, sqrt: real -> real): (path: seq<Cmd>)
    ensures |path| == 10
    ensures path[0] == MoveTo(POut(Diamond(w, h), 0, CornerRadius(w, h, ratio), sqrt))
    ensures path[9] == Close
  {
    var vs := Diamond(w, h);
    var r := CornerRadius(w, h, ratio);
    AssemblePath(vs, InPoints(vs, r, sqrt), OutPoints(vs, r, sqrt), Center(w, h), concavity)
  }

  /** The body's drawing code: the offset loop, then the path loop, with the
      fixed ratio and concavity. The result is one closed contour of a move,
      eight curves and a close. */
  method DrawGreenBody(width: real, height: real, sqrt: real -> real) returns (path: seq<Cmd>)
    ensures path == BuildPath(width, height, CornerRadiusRatio, ConcavityFactor, sqrt)
    ensures |path| == 10 && IsClosedContour(path)
  {
    var center := Center(width, height);
    var vertices := Diamond(width, height);
    var cornerRadius := CornerRadius(width, height, CornerRadiusRatio);
    var pIns, pOuts := ComputeOffsets(vertices, cornerRadius, sqrt);
    assert pIns == InPoints(vertices, cornerRadius, sqrt);
    assert pOuts == OutPoints(vertices, cornerRadius, sqrt);
    path := ConstructPath(vertices, pIns, pOuts, center, ConcavityFactor);
    PathShape(vertices, pIns, pOuts, center, ConcavityFactor);
  }

  /** The diamond is inscribed in the canvas: its vertices are the midpoints
      of the canvas' sides, taken clockwise on screen from the top side, and
      the centre is the midpoint of both diagonals. */
  lemma DiamondInscribed(w: real, h: real)
    ensures |Diamond(w, h)| == 4
    ensures forall k :: 0 <= k < 4 ==>
      Diamond(w, h)[k] == Midpoint(BoxCorner(w, h, k), BoxCorner(w, h, Next(k, 4)))
    ensures Center(w, h) == Midpoint(Diamond(w, h)[0], Diamond(w, h)[2])
    ensures Center(w, h) == Midpoint(Diamond(w, h)[1], Diamond(w, h)[3])
  {
  }

  /** For a canvas of positive size and a ratio strictly between 0 and 1/2
      (the fixed 0.15 among them), the corner radius is positive and smaller
      than half of either side. */
  lemma CornerRadiusBounds(w: real, h: real, ratio: real)
    requires w > 0.0 && h > 0.0
    requires 0.0 < ratio < 0.5
    ensures 0.0 < CornerRadius(w, h, ratio)
    ensures CornerRadius(w, h, ratio) < w / 2.0
    ensures CornerRadius(w, h, ratio) < h / 2.0
  {
    var m := if w <= h then w else h;
    RatioBelowHalfSide(m, w, ratio);
    RatioBelowHalfSide(m, h, ratio);
    assert CornerRadius(w, h, ratio) == m * ratio;
  }

  /** A ratio strictly between 0 and 1/2 of a positive length `m` is positive
      and below half of any side at least `m` long. */
  lemma RatioBelowHalfSide(m: real, side: real, ratio: real)
    requires 0.0 < m <= side
    requires 0.0 < ratio < 0.5
    ensures 0.0 < m * ratio < side / 2.0
  {
    MultiplyStrictlyMonotone(0.0, m, ratio);
    MultiplyStrictlyMonotone(ratio, 0.5, m);
    assert m * ratio == ratio * m && 0.5 * m == m / 2.0;
  }

  /** Every edge of the diamond has nonzero length exactly when the canvas is
      not a single point; in particular whenever both sides are positive. */
  lemma DiamondEdgesNonzero(w: real, h: real)
    ensures forall i :: 0 <= i < 4 ==>
      (Diamond(w, h)[Next(i, 4)] != Diamond(w, h)[i] <==> w != 0.0 || h != 0.0)
    ensures forall i :: 0 <= i < 4 ==>
      (Diamond(w, h)[Prev(i, 4)] != Diamond(w, h)[i] <==> w != 0.0 || h != 0.0)
  {
  }

  /** The body's path has the promised shape for every canvas size and shape
      parameters: a move to the top vertex' outbound point, eight curves
      alternating edge and corner, and a close, forming one closed contour;
      the last curve ends at the top vertex' outbound point. */
  lemma BuildPathShape(w: real, h: real, ratio: real, concavity: real, sqrt: real -> real)
    ensures var path := BuildPath(w, h, ratio, concavity, sqrt);
      var r := CornerRadius(w, h, ratio);
      && |path| == 10
      && path[0] == MoveTo(POut(Diamond(w, h), 0, r, sqrt))
      && (forall k :: 1 <= k <= 8 ==> path[k].Quad?)
      && path[9] == Close
      && path[8].end == POut(Diamond(w, h), 0, r, sqrt)
      && IsClosedContour(path)
  {
    var vs := Diamond(w, h);
    var r := CornerRadius(w, h, ratio);
    var pIns, pOuts := InPoints(vs, r, sqrt), OutPoints(vs, r, sqrt);
    PathShape(vs, pIns, pOuts, Center(w, h), concavity);
  }

  /** Every edge segment of the body's path starts at the outbound point of its
      vertex, bulges towards the centre by the concavity, and ends at the next
      vertex' inbound point; every corner segment turns about the next vertex
      and ends at its outbound point. */
  lemma BuildPathContinuous(w: real, h: real, ratio: real, concavity: real, sqrt: real -> real)
    ensures var path := BuildPath(w, h, ratio, concavity, sqrt);
      var vs := Diamond(w, h);
      var r := CornerRadius(w, h, ratio);
      forall i :: 0 <= i < 4 ==>
        && !path[2 * i].Close?
        && EndPoint(path[2 * i]) == POut(vs, i, r, sqrt)
        && path[2 * i + 1] == Quad(EdgeControl(POut(vs, i, r, sqrt), PIn(vs, Next(i, 4), r, sqrt),
                                               Center(w, h), concavity),
                                   PIn(vs, Next(i, 4), r, sqrt))
        && path[2 * i + 2] == Quad(vs[Next(i, 4)], POut(vs, Next(i, 4), r, sqrt))
  {
    var vs := Diamond(w, h);
    var r := CornerRadius(w, h, ratio);
    var pIns, pOuts := InPoints(vs, r, sqrt), OutPoints(vs, r, sqrt);
    PathShape(vs, pIns, pOuts, Center(w, h), concavity);
    PathContinuous(vs, pIns, pOuts, Center(w, h), concavity);
  }
}
