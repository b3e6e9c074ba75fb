/** The polygon-to-blob path construction: for every vertex of a closed
    polygon, an inbound and an outbound point at a fixed distance from the
    vertex along its two edges; then one closed contour made of a concave
    quadratic segment along every edge and a rounded quadratic segment around
    every corner.

    The construction in `MainActivity.kt` is written for `n` vertices (it uses
    `vertices.size` and cyclic indices), so it is modelled here for any
    non-empty polygon; the diamond it is applied to lives in `GreenBody`. */
module BlobPath {
  import opened Geometry

  /** One drawing command of the path handed to the canvas. */
  datatype Cmd =
    | MoveTo(p: Point)
    | Quad(ctrl: Point, end: Point)  // quadratic Bezier from the pen position
    | Close

  /** The cyclic predecessor of vertex `i` among `n`, computed as `(i - 1 + n) % n`. */
  function Prev(i: int, n: int): (j: int)
    requires 0 <= i < n
    ensures 0 <= j < n
    ensures j == if i == 0 then n - 1 else i - 1
  {
    (i - 1 + n) % n
  }

  /** The cyclic successor of vertex `i` among `n`, computed as `(i + 1) % n`. */
  function Next(i: int, n: int): (j: int)
    requires 0 <= i < n
    ensures 0 <= j < n
    ensures j == if i == n - 1 then 0 else i + 1
  {
    (i + 1) % n
  }

  /** Stepping back and forward around the polygon are inverse to each other. */
  lemma PrevNextInverse(i: int, n: int)
    requires 0 <= i < n
    ensures Next(Prev(i, n), n) == i
    ensures Prev(Next(i, n), n) == i
  {
  }

  /** The unit direction of the edge arriving at vertex `i`; a vertex that
      repeats its predecessor has none. */
  function DirIn(vs: seq<Point>, i: int, sqrt: real -> real): (d: Point)
    requires 0 <= i < |vs|
    ensures vs[Prev(i, |vs|)] == vs[i] ==> d == Origin
  {
    Normalize(Sub(vs[i], vs[Prev(i, |vs|)]), sqrt)
  }

  /** The unit direction of the edge leaving vertex `i`; a vertex that
      repeats its successor has none. */
  function DirOut(vs: seq<Point>, i: int, sqrt: real -> real): (d: Point)
    requires 0 <= i < |vs|
    ensures vs[Next(i, |vs|)] == vs[i] ==> d == Origin
  {
    Normalize(Sub(vs[Next(i, |vs|)], vs[i]), sqrt)
  }

  /** The inbound point of vertex `i`: `r` back along the arriving edge, so
      that walking `r` along the arriving direction from it reaches the
      vertex. A zero radius or a repeated predecessor leaves it on the vertex. */
  function PIn(vs: seq<Point>, i: int, r: real, sqrt: real -> real): (p: Point)
    requires 0 <= i < |vs|
    ensures Add(p, Scale(DirIn(vs, i, sqrt), r)) == vs[i]
    ensures r == 0.0 || vs[Prev(i, |vs|)] == vs[i] ==> p == vs[i]
  {
    Sub(vs[i], Scale(DirIn(vs, i, sqrt), r))
  }

  /** The outbound point of vertex `i`: `r` forward along the leaving edge, so
      that walking `r` back along the leaving direction from it reaches the
      vertex. A zero radius or a repeated successor leaves it on the vertex. */
  function POut(vs: seq<Point>, i: int, r: real, sqrt: real -> real): (p: Point)
    requires 0 <= i < |vs|
    ensures Sub(p, Scale(DirOut(vs, i, sqrt), r)) == vs[i]
    ensures r == 0.0 || vs[Next(i, |vs|)] == vs[i] ==> p == vs[i]
  {
    Add(vs[i], Scale(DirOut(vs, i, sqrt), r))
  }

  /** The loop that fills `pIns` and `pOuts`, one entry per vertex in vertex order. */
  method ComputeOffsets(vs: seq<Point>, r: real, sqrt: real -> real)
    returns (pIns: seq<Point>, pOuts: seq<Point>)
    ensures |pIns| == |vs| && |pOuts| == |vs|
    ensures forall i :: 0 <= i < |vs| ==> pIns[i] == PIn(vs, i, r, sqrt)
    ensures forall i :: 0 <= i < |vs| ==> pOuts[i] == POut(vs, i, r, sqrt)
  {
    var n := |vs|;
    pIns, pOuts := [], [];
    for i := 0 to n
      invariant |pIns| == i && |pOuts| == i
      invariant forall j :: 0 <= j < i ==> pIns[j] == PIn(vs, j, r, sqrt)
      invariant forall j :: 0 <= j < i ==> pOuts[j] == POut(vs, j, r, sqrt)
    {
      var current := vs[i];
      var prev := vs[(i - 1 + n) % n];
      var next := vs[(i + 1) % n];
      var dirIn := Normalize(Sub(current, prev), sqrt);
      var dirOut := Normalize(Sub(next, current), sqrt);
      pIns := pIns + [Sub(current, Scale(dirIn, r))];
      pOuts := pOuts + [Add(current, Scale(dirOut, r))];
    }
  }

  /** The control point of the edge segment from `start` to `end`: the chord's
      midpoint pulled towards `center` by the fraction `concavity`. */
  function EdgeControl(start: Point, end: Point, center: Point, concavity: real): (c: Point)
    ensures concavity == 0.0 ==> c == Midpoint(start, end)
    ensures concavity == 1.0 ==> c == center
  {
    var mid := Midpoint(start, end);
    Add(mid, Scale(Sub(center, mid), concavity))
  }

  /** Offset sequences that fit the polygon: one inbound and one outbound point per vertex. */
  predicate WellShaped(vs: seq<Point>, pIns: seq<Point>, pOuts: seq<Point>) {
    0 < |vs| && |pIns| == |vs| && |pOuts| == |vs|
  }

  /** The concave segment along the edge leaving vertex `i`. */
  function EdgeSegment(vs: seq<Point>, pIns: seq<Point>, pOuts: seq<Point>,
                       center: Point, concavity: real, i: int): Cmd
    requires WellShaped(vs, pIns, pOuts) && 0 <= i < |vs|
  {
    var j := Next(i, |vs|);
    Quad(EdgeControl(pOuts[i], pIns[j], center, concavity), pIns[j])
  }

  /** The rounded segment around the vertex after `i`, with that vertex as control point. */
  function CornerSegment(vs: seq<Point>, pIns: seq<Point>, pOuts: seq<Point>, i: int): Cmd
    requires WellShaped(vs, pIns, pOuts) && 0 <= i < |vs|
  {
    var j := Next(i, |vs|);
    Quad(vs[j], pOuts[j])
  }

  /** The segments the first `k` turns of the drawing loop emit: an edge
      segment then a corner segment per turn. */
  function Segments(vs: seq<Point>, pIns: seq<Point>, pOuts: seq<Point>,
                    center: Point, concavity: real, k: int): (s: seq<Cmd>)
    requires WellShaped(vs, pIns, pOuts) && 0 <= k <= |vs|
    ensures |s| == 2 * k
    ensures forall i :: 0 <= i < k ==>
      s[2 * i] == EdgeSegment(vs, pIns, pOuts, center, concavity, i) &&
      s[2 * i + 1] == CornerSegment(vs, pIns, pOuts, i)
    decreases k
  {
    if k == 0 then []
    else
      Segments(vs, pIns, pOuts, center, concavity, k - 1)
      + [EdgeSegment(vs, pIns, pOuts, center, concavity, k - 1), CornerSegment(vs, pIns, pOuts, k - 1)]
  }

  /** The whole path: a move to the first outbound point, every turn's two segments, a close. */
  function AssemblePath(vs: seq<Point>, pIns: seq<Point>, pOuts: seq<Point>,
                        center: Point, concavity: real): (path: seq<Cmd>)
    requires WellShaped(vs, pIns, pOuts)
    ensures |path| == 2 * |vs| + 2
    ensures path[0] == MoveTo(pOuts[0]) && path[|path| - 1] == Close
  {
    [MoveTo(pOuts[0])] + Segments(vs, pIns, pOuts, center, concavity, |vs|) + [Close]
  }

  /** The `Path().apply { ... }` block: the drawing loop, command by command. */
  method ConstructPath(vs: seq<Point>, pIns: seq<Point>, pOuts: seq<Point>,
                       center: Point, concavity: real)
    returns (path: seq<Cmd>)
    requires WellShaped(vs, pIns, pOuts)
    ensures path == AssemblePath(vs, pIns, pOuts, center, concavity)
  {
    var n := |vs|;
    path := [MoveTo(pOuts[0])];
    for i := 0 to n
      invariant path == [MoveTo(pOuts[0])] + Segments(vs, pIns, pOuts, center, concavity, i)
    {
      var currentIndex := i;
      var nextIndex := (i + 1) % n;
      var startEdge := pOuts[currentIndex];
      var endEdge := pIns[nextIndex];
      var midEdge := Point((startEdge.x + endEdge.x) / 2.0, (startEdge.y + endEdge.y) / 2.0);
      var concaveControl := Add(midEdge, Scale(Sub(center, midEdge), concavity));
      path := path + [Quad(concaveControl, endEdge)];
      var vertex := vs[nextIndex];
      var roundedEnd := pOuts[nextIndex];
      path := path + [Quad(vertex, roundedEnd)];
    }
    path := path + [Close];
  }

  /** Where the pen stands after a move or a curve. */
  function EndPoint(c: Cmd): Point
    requires !c.Close?
  {
    if c.MoveTo? then c.p else c.end
  }

  /** A single closed contour: one move, then only curves, then a close, with
      the last curve ending where the move put the pen. */
  ghost predicate IsClosedContour(path: seq<Cmd>) {
    && |path| >= 3
    && path[0].MoveTo?
    && path[|path| - 1] == Close
    && (forall k :: 0 < k < |path| - 1 ==> path[k].Quad?)
    && EndPoint(path[|path| - 2]) == path[0].p
  }

  /** The shape of the assembled path: `2n + 2` commands, a move, `2n` curves
      alternating edge and corner, and a close; and it is one closed contour,
      whatever the offset points are. */
  lemma {:induction false} PathShape(vs: seq<Point>, pIns: seq<Point>, pOuts: seq<Point>,
                                     center: Point, concavity: real)
    requires WellShaped(vs, pIns, pOuts)
    ensures var path := AssemblePath(vs, pIns, pOuts, center, concavity);
      && |path| == 2 * |vs| + 2
      && path[0] == MoveTo(pOuts[0])
      && path[|path| - 1] == Close
      && (forall i :: 0 <= i < |vs| ==>
            path[2 * i + 1] == EdgeSegment(vs, pIns, pOuts, center, concavity, i) &&
            path[2 * i + 2] == CornerSegment(vs, pIns, pOuts, i))
      && IsClosedContour(path)
  {
    var n := |vs|;
    var path := AssemblePath(vs, pIns, pOuts, center, concavity);
    var segs := Segments(vs, pIns, pOuts, center, concavity, n);
    assert path[1..2 * n + 1] == segs;
    forall k | 0 < k < |path| - 1
      ensures path[k].Quad?
    {
      assert path[k] == segs[k - 1];
      SegmentIsQuad(vs, pIns, pOuts, center, concavity, k - 1);
    }
    assert path[2 * n] == CornerSegment(vs, pIns, pOuts, n - 1) by {
      assert path[2 * n] == segs[2 * (n - 1) + 1];
    }
  }

  /** Every command the drawing loop emits is a curve: the edge segments sit
      at even positions of `Segments` and the corner segments at odd ones. */
  lemma SegmentIsQuad(vs: seq<Point>, pIns: seq<Point>, pOuts: seq<Point>,
                      center: Point, concavity: real, j: int)
    requires WellShaped(vs, pIns, pOuts) && 0 <= j < 2 * |vs|
    ensures Segments(vs, pIns, pOuts, center, concavity, |vs|)[j].Quad?
  {
    var segs := Segments(vs, pIns, pOuts, center, concavity, |vs|);
    var i := j / 2;
    if j % 2 == 0 {
      assert j == 2 * i;
      assert segs[2 * i] == EdgeSegment(vs, pIns, pOuts, center, concavity, i);
    } else {
      assert j == 2 * i + 1;
      assert segs[2 * i + 1] == CornerSegment(vs, pIns, pOuts, i);
    }
  }

  /** Continuity: every edge segment starts where the previous command left the
      pen, at the outbound point of its vertex, and ends at the inbound point
      of the next vertex; the corner segment that follows starts there, bends
      towards that vertex and ends at its outbound point. */
  lemma {:induction false} PathContinuous(vs: seq<Point>, pIns: seq<Point>, pOuts: seq<Point>,
                                          center: Point, concavity: real)
    requires WellShaped(vs, pIns, pOuts)
    ensures var path := AssemblePath(vs, pIns, pOuts, center, concavity);
      forall i :: 0 <= i < |vs| ==>
        && !path[2 * i].Close?
        && EndPoint(path[2 * i]) == pOuts[i]
        && path[2 * i + 1].end == pIns[Next(i, |vs|)]
        && path[2 * i + 1].ctrl == EdgeControl(pOuts[i], pIns[Next(i, |vs|)], center, concavity)
        && path[2 * i + 2].ctrl == vs[Next(i, |vs|)]
        && path[2 * i + 2].end == pOuts[Next(i, |vs|)]
  {
    var n := |vs|;
    var path := AssemblePath(vs, pIns, pOuts, center, concavity);
    PathShape(vs, pIns, pOuts, center, concavity);
    forall i | 0 <= i < n
      ensures !path[2 * i].Close? && EndPoint(path[2 * i]) == pOuts[i]
    {
      if i > 0 {
        assert path[2 * i] == path[2 * (i - 1) + 2] == CornerSegment(vs, pIns, pOuts, i - 1);
        assert Next(i - 1, n) == i;
      }
    }
  }
  /** When the edges around vertex `i` have nonzero length, its inbound and
      outbound points lie exactly `r` from it, along the arriving and the
      leaving edge respectively. */
  lemma OffsetDistance(vs: seq<Point>, i: int, r: real, sqrt: real -> real)
    requires IsSqrt(sqrt)
    requires 0 <= i < |vs| && r >= 0.0
    requires vs[Prev(i, |vs|)] != vs[i] && vs[Next(i, |vs|)] != vs[i]
    ensures Norm2(DirIn(vs, i, sqrt)) == 1.0 && Norm2(DirOut(vs, i, sqrt)) == 1.0
    ensures Length(Sub(vs[i], PIn(vs, i, r, sqrt)), sqrt) == r
    ensures Length(Sub(POut(vs, i, r, sqrt), vs[i]), sqrt) == r
  {
    var n := |vs|;
    var eIn := Sub(vs[i], vs[Prev(i, n)]);
    var eOut := Sub(vs[Next(i, n)], vs[i]);
    assert eIn != Origin && eOut != Origin;
    NormalizeUnit(eIn, sqrt);
    NormalizeUnit(eOut, sqrt);
    assert Sub(vs[i], PIn(vs, i, r, sqrt)) == Scale(DirIn(vs, i, sqrt), r);
    assert Sub(POut(vs, i, r, sqrt), vs[i]) == Scale(DirOut(vs, i, sqrt), r);
    LengthOfScaledUnit(DirIn(vs, i, sqrt), r, sqrt);
    LengthOfScaledUnit(DirOut(vs, i, sqrt), r, sqrt);
  }

  /** Along the edge from vertex `i` to the next one, both offset points use
      the same direction `d`, and the inbound point of the next vertex sits
      `L - 2r` past the outbound point of vertex `i`, where `L` is the edge's
      length: the two do not cross exactly when `2r < L`. */
  lemma OffsetsAlongEdge(vs: seq<Point>, i: int, r: real, sqrt: real -> real)
    requires IsSqrt(sqrt)
    requires 0 <= i < |vs|
    requires vs[Next(i, |vs|)] != vs[i]
    ensures DirIn(vs, Next(i, |vs|), sqrt) == DirOut(vs, i, sqrt)
    ensures Sub(PIn(vs, Next(i, |vs|), r, sqrt), POut(vs, i, r, sqrt))
         == Scale(DirOut(vs, i, sqrt), Length(Sub(vs[Next(i, |vs|)], vs[i]), sqrt) - 2.0 * r)
  {
    var n := |vs|;
    var j := Next(i, n);
    assert Prev(j, n) == i;
    var e := Sub(vs[j], vs[i]);
    var d := DirOut(vs, i, sqrt);
    var len := Length(e, sqrt);
    NormalizeUnit(e, sqrt);
    assert Scale(d, len) == e;
    assert Sub(PIn(vs, j, r, sqrt), POut(vs, i, r, sqrt)) == Sub(e, Scale(d, 2.0 * r));
  }

  /** When twice the radius is shorter than the edge from vertex `i` to the
      next one (compared through squares), the next vertex' inbound point lies
      strictly past the outbound point of vertex `i` along that edge. */
  lemma EdgeKeepsOffsetsOrdered(vs: seq<Point>, i: int, r: real, sqrt: real -> real)
    requires IsSqrt(sqrt)
    requires 0 <= i < |vs| && r >= 0.0
    requires (2.0 * r) * (2.0 * r) < Norm2(Sub(vs[Next(i, |vs|)], vs[i]))
    ensures 2.0 * r < Length(Sub(vs[Next(i, |vs|)], vs[i]), sqrt)
    ensures Sub(PIn(vs, Next(i, |vs|), r, sqrt), POut(vs, i, r, sqrt))
         == Scale(DirOut(vs, i, sqrt), Length(Sub(vs[Next(i, |vs|)], vs[i]), sqrt) - 2.0 * r)
  {
    var e := Sub(vs[Next(i, |vs|)], vs[i]);
    ProductNonNegative(2.0 * r, 2.0 * r);
    assert Norm2(e) != 0.0;
    Norm2ZeroIff(e);
    SqrtBelowIff(Norm2(e), 2.0 * r, sqrt);
    OffsetsAlongEdge(vs, i, r, sqrt);
  }
}
