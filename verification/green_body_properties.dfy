/** Metric and symmetry properties of the body's path: where the offset points
    lie, when they stay in order along each edge, how they move with the
    corner-radius ratio, the quarter-turn symmetry of a square canvas, and the
    exact values for a 100 by 100 canvas. */
module GreenBodyProperties {
  import opened Geometry
  import opened BlobPath
  import opened GreenBody

  /** The square of a half-side, whichever its sign. */
  lemma SquareOfHalf(a: real, b: real)
    requires b == a / 2.0 || b == -(a / 2.0)
    ensures b * b == (a * a) / 4.0
  {
    if b == a / 2.0 {
      assert b * b == (a / 2.0) * (a / 2.0);
    } else {
      assert b * b == (a / 2.0) * (a / 2.0);
    }
  }

  /** Each diamond edge spans half the width and half the height. */
  lemma DiamondEdgeNorm2(w: real, h: real, i: int)
    requires 0 <= i < 4
    ensures Norm2(Sub(Diamond(w, h)[Next(i, 4)], Diamond(w, h)[i])) == (w * w) / 4.0 + (h * h) / 4.0
  {
    var e := Sub(Diamond(w, h)[Next(i, 4)], Diamond(w, h)[i]);
    assert e.x == w / 2.0 || e.x == -(w / 2.0);
    assert e.y == h / 2.0 || e.y == -(h / 2.0);
    SquareOfHalf(w, e.x);
    SquareOfHalf(h, e.y);
  }

  /** With a positive canvas and a non-negative ratio, every direction of the
      diamond normalises to a unit vector (never to the zero vector), and every
      inbound and outbound point lies exactly one corner radius from its vertex. */
  lemma OffsetsAtCornerRadius(w: real, h: real, ratio: real, sqrt: real -> real)
    requires IsSqrt(sqrt)
    requires w > 0.0 && h > 0.0 && ratio >= 0.0
    ensures var vs := Diamond(w, h);
      var r := CornerRadius(w, h, ratio);
      forall i :: 0 <= i < 4 ==>
        && DirIn(vs, i, sqrt) != Origin
        && DirOut(vs, i, sqrt) != Origin
        && Length(Sub(vs[i], PIn(vs, i, r, sqrt)), sqrt) == r
        && Length(Sub(POut(vs, i, r, sqrt), vs[i]), sqrt) == r
  {
    var vs := Diamond(w, h);
    var r := CornerRadius(w, h, ratio);
    ProductNonNegative(if w <= h then w else h, ratio);
    DiamondEdgesNonzero(w, h);
    forall i | 0 <= i < 4
      ensures DirIn(vs, i, sqrt) != Origin && DirOut(vs, i, sqrt) != Origin
      ensures Length(Sub(vs[i], PIn(vs, i, r, sqrt)), sqrt) == r
      ensures Length(Sub(POut(vs, i, r, sqrt), vs[i]), sqrt) == r
    {
      OffsetDistance(vs, i, r, sqrt);
      Norm2ZeroIff(DirIn(vs, i, sqrt));
      Norm2ZeroIff(DirOut(vs, i, sqrt));
    }
  }

  /** A larger ratio moves every inbound and outbound point strictly further
      from its vertex. */
  lemma OffsetsMoveOutward(w: real, h: real, ratio1: real, ratio2: real, sqrt: real -> real)
    requires IsSqrt(sqrt)
    requires w > 0.0 && h > 0.0 && 0.0 <= ratio1 < ratio2
    ensures var vs := Diamond(w, h);
      var r1, r2 := CornerRadius(w, h, ratio1), CornerRadius(w, h, ratio2);
      forall i :: 0 <= i < 4 ==>
        && Length(Sub(vs[i], PIn(vs, i, r1, sqrt)), sqrt) < Length(Sub(vs[i], PIn(vs, i, r2, sqrt)), sqrt)
        && Length(Sub(POut(vs, i, r1, sqrt), vs[i]), sqrt) < Length(Sub(POut(vs, i, r2, sqrt), vs[i]), sqrt)
  {
    var vs := Diamond(w, h);
    var r1, r2 := CornerRadius(w, h, ratio1), CornerRadius(w, h, ratio2);
    CornerRadiusIncreasing(w, h, ratio1, ratio2);
    OffsetsAtCornerRadius(w, h, ratio1, sqrt);
    OffsetsAtCornerRadius(w, h, ratio2, sqrt);
    forall i | 0 <= i < 4
      ensures Length(Sub(vs[i], PIn(vs, i, r1, sqrt)), sqrt) < Length(Sub(vs[i], PIn(vs, i, r2, sqrt)), sqrt)
      ensures Length(Sub(POut(vs, i, r1, sqrt), vs[i]), sqrt) < Length(Sub(POut(vs, i, r2, sqrt), vs[i]), sqrt)
    {
    }
  }

  lemma CornerRadiusIncreasing(w: real, h: real, ratio1: real, ratio2: real)
    requires w > 0.0 && h > 0.0 && ratio1 < ratio2
    ensures CornerRadius(w, h, ratio1) < CornerRadius(w, h, ratio2)
  {
    var m := if w <= h then w else h;
    MultiplyStrictlyMonotone(ratio1, ratio2, m);
    assert m * ratio1 == ratio1 * m && m * ratio2 == ratio2 * m;
  }

  /** The largest ratio for which the offset points are proved to stay in order. */
  const FitRatio: real := 0.35

  /** For ratios up to 0.35 (the fixed 0.15 among them) twice the corner radius
      is shorter than every diamond edge, so along every edge the next vertex'
      inbound point lies strictly past this vertex' outbound point: the
      rounded corners never overlap. */
  lemma OffsetsStayOrdered(w: real, h: real, ratio: real, sqrt: real -> real)
    requires IsSqrt(sqrt)
    requires w > 0.0 && h > 0.0 && 0.0 <= ratio <= FitRatio
    ensures var vs := Diamond(w, h);
      var r := CornerRadius(w, h, ratio);
      forall i :: 0 <= i < 4 ==>
        var len := Length(Sub(vs[Next(i, 4)], vs[i]), sqrt);
        && 2.0 * r < len
        && Sub(PIn(vs, Next(i, 4), r, sqrt), POut(vs, i, r, sqrt)) == Scale(DirOut(vs, i, sqrt), len - 2.0 * r)
  {
    var vs := Diamond(w, h);
    var r := CornerRadius(w, h, ratio);
    DiamondEdgesNonzero(w, h);
    TwiceRadiusSquaredBelowEdge(w, h, ratio);
    forall i | 0 <= i < 4
      ensures 2.0 * r < Length(Sub(vs[Next(i, 4)], vs[i]), sqrt)
      ensures Sub(PIn(vs, Next(i, 4), r, sqrt), POut(vs, i, r, sqrt))
           == Scale(DirOut(vs, i, sqrt), Length(Sub(vs[Next(i, 4)], vs[i]), sqrt) - 2.0 * r)
    {
      DiamondEdgeNorm2(w, h, i);
      EdgeKeepsOffsetsOrdered(vs, i, r, sqrt);
    }
  }

  /** The squared-length form of the bound: `(2r)^2 <= 0.49 m^2 < m^2 / 2`,
      with `m` the smaller side, and every diamond edge's squared length is at
      least `m^2 / 2`. */
  lemma TwiceRadiusSquaredBelowEdge(w: real, h: real, ratio: real)
    requires w > 0.0 && h > 0.0 && 0.0 <= ratio <= FitRatio
    ensures var r := CornerRadius(w, h, ratio);
      && r >= 0.0
      && (2.0 * r) * (2.0 * r) < (w * w) / 4.0 + (h * h) / 4.0
  {
    var r := CornerRadius(w, h, ratio);
    var m := if w <= h then w else h;
    assert r == m * ratio;
    ProductNonNegative(m, ratio);
    var mm := m * m;
    SquareZeroIff(m);
    var rr := ratio * ratio;
    SquareMonotone(ratio, FitRatio);
    assert (2.0 * r) * (2.0 * r) == 4.0 * (mm * rr);
    MultiplyMonotone(rr, FitRatio * FitRatio, mm);
    assert mm * rr == rr * mm;
    SquareMonotone(m, w);
    SquareMonotone(m, h);
  }

  /** A ratio below 1/2 does not by itself keep the offsets in order: on any
      square canvas with ratio 0.45 twice the corner radius exceeds the edge
      length, so along every edge the outbound point and the next inbound
      point cross. */
  lemma RatioBelowHalfCanCross(s: real, sqrt: real -> real)
    requires IsSqrt(sqrt)
    requires s > 0.0
    ensures var vs := Diamond(s, s);
      var r := CornerRadius(s, s, 0.45);
      forall i :: 0 <= i < 4 ==> Length(Sub(vs[Next(i, 4)], vs[i]), sqrt) < 2.0 * r
  {
    var vs := Diamond(s, s);
    var r := CornerRadius(s, s, 0.45);
    assert r == s * 0.45;
    var ss := s * s;
    SquareZeroIff(s);
    assert (2.0 * r) * (2.0 * r) == 0.81 * ss;
    forall i | 0 <= i < 4
      ensures Length(Sub(vs[Next(i, 4)], vs[i]), sqrt) < 2.0 * r
    {
      var e := Sub(vs[Next(i, 4)], vs[i]);
      DiamondEdgeNorm2(s, s, i);
      assert Norm2(e) == ss / 2.0;
      Norm2ZeroIff(e);
      SqrtBelowIff(Norm2(e), 2.0 * r, sqrt);
    }
  }

  /** A quarter turn of a drawing command about `c`. */
  function RotateCmd(c: Point, cmd: Cmd): Cmd {
    match cmd
    case MoveTo(p) => MoveTo(RotateAbout(c, p))
    case Quad(ctrl, end) => Quad(RotateAbout(c, ctrl), RotateAbout(c, end))
    case Close => Close
  }

  lemma QuarterTurnLinear(a: Point, b: Point, k: real)
    ensures QuarterTurn(Sub(a, b)) == Sub(QuarterTurn(a), QuarterTurn(b))
    ensures QuarterTurn(Add(a, b)) == Add(QuarterTurn(a), QuarterTurn(b))
    ensures QuarterTurn(Scale(a, k)) == Scale(QuarterTurn(a), k)
  {
    assert (-a.y) * k == -(a.y * k);
  }

  /** Rotating both ends of a chord rotates its pulled-in control point, when
      the rotation is about the point it is pulled towards. */
  lemma EdgeControlRotates(a: Point, b: Point, c: Point, concavity: real)
    ensures EdgeControl(RotateAbout(c, a), RotateAbout(c, b), c, concavity)
         == RotateAbout(c, EdgeControl(a, b, c, concavity))
  {
    var mid := Midpoint(a, b);
    var mid' := Midpoint(RotateAbout(c, a), RotateAbout(c, b));
    var pull := Scale(Sub(c, mid), concavity);
    assert mid' == RotateAbout(c, mid);
    assert Sub(c, mid') == QuarterTurn(Sub(c, mid));
    QuarterTurnLinear(Sub(c, mid), Origin, concavity);
    TurnOfSum(c, mid, pull);
  }

  lemma TurnOfSum(c: Point, m: Point, q: Point)
    ensures RotateAbout(c, Add(m, q)) == Add(RotateAbout(c, m), QuarterTurn(q))
  {
  }

  /** On a square canvas a quarter turn about the centre takes every vertex
      of the diamond to the next one. */
  lemma SquareDiamondTurns(s: real)
    ensures forall i :: 0 <= i < 4 ==>
      Diamond(s, s)[Next(i, 4)] == RotateAbout(Center(s, s), Diamond(s, s)[i])
  {
  }

  /** On a square canvas every edge direction, arriving or leaving, turns into
      the next vertex' one, whatever the square root. */
  lemma SquareDirectionsTurn(s: real, sqrt: real -> real)
    ensures forall i :: 0 <= i < 4 ==>
      && DirIn(Diamond(s, s), Next(i, 4), sqrt) == QuarterTurn(DirIn(Diamond(s, s), i, sqrt))
      && DirOut(Diamond(s, s), Next(i, 4), sqrt) == QuarterTurn(DirOut(Diamond(s, s), i, sqrt))
  {
    var vs := Diamond(s, s);
    forall i | 0 <= i < 4
      ensures DirIn(vs, Next(i, 4), sqrt) == QuarterTurn(DirIn(vs, i, sqrt))
      ensures DirOut(vs, Next(i, 4), sqrt) == QuarterTurn(DirOut(vs, i, sqrt))
    {
      var j := Next(i, 4);
      var eIn := Sub(vs[i], vs[Prev(i, 4)]);
      var eOut := Sub(vs[j], vs[i]);
      assert Sub(vs[j], vs[Prev(j, 4)]) == QuarterTurn(eIn);
      assert Sub(vs[Next(j, 4)], vs[j]) == QuarterTurn(eOut);
      NormalizeQuarterTurn(eIn, sqrt);
      NormalizeQuarterTurn(eOut, sqrt);
    }
  }

  /** Stepping `r` along a turned direction from a turned point lands on the
      turned end point. */
  lemma OffsetTurns(c: Point, v: Point, d: Point, r: real)
    ensures RotateAbout(c, Sub(v, Scale(d, r))) == Sub(RotateAbout(c, v), Scale(QuarterTurn(d), r))
    ensures RotateAbout(c, Add(v, Scale(d, r))) == Add(RotateAbout(c, v), Scale(QuarterTurn(d), r))
  {
    assert (-d.y) * r == -(d.y * r);
  }

  /** On a square canvas a quarter turn about the centre takes every inbound
      and outbound point to the next vertex' one. */
  lemma SquareOffsetsTurn(s: real, r: real, sqrt: real -> real)
    ensures forall i :: 0 <= i < 4 ==>
      && PIn(Diamond(s, s), Next(i, 4), r, sqrt) == RotateAbout(Center(s, s), PIn(Diamond(s, s), i, r, sqrt))
      && POut(Diamond(s, s), Next(i, 4), r, sqrt) == RotateAbout(Center(s, s), POut(Diamond(s, s), i, r, sqrt))
  {
    var vs := Diamond(s, s);
    var c := Center(s, s);
    SquareDiamondTurns(s);
    SquareDirectionsTurn(s, sqrt);
    forall i | 0 <= i < 4
      ensures PIn(vs, Next(i, 4), r, sqrt) == RotateAbout(c, PIn(vs, i, r, sqrt))
      ensures POut(vs, Next(i, 4), r, sqrt) == RotateAbout(c, POut(vs, i, r, sqrt))
    {
      OffsetTurns(c, vs[i], DirIn(vs, i, sqrt), r);
      OffsetTurns(c, vs[i], DirOut(vs, i, sqrt), r);
    }
  }

  /** On a square canvas the body's path is symmetric under a quarter turn
      about the centre: every edge segment and every corner segment turns into
      the next vertex' one. */
  lemma SquareQuarterTurnSymmetry(s: real, ratio: real, concavity: real, sqrt: real -> real)
    ensures var path := BuildPath(s, s, ratio, concavity, sqrt);
      forall i :: 0 <= i < 4 ==>
        && path[2 * Next(i, 4) + 1] == RotateCmd(Center(s, s), path[2 * i + 1])
        && path[2 * Next(i, 4) + 2] == RotateCmd(Center(s, s), path[2 * i + 2])
  {
    var vs := Diamond(s, s);
    var c := Center(s, s);
    var r := CornerRadius(s, s, ratio);
    var path := BuildPath(s, s, ratio, concavity, sqrt);
    BuildPathContinuous(s, s, ratio, concavity, sqrt);
    SquareDiamondTurns(s);
    SquareOffsetsTurn(s, r, sqrt);
    forall i | 0 <= i < 4
      ensures path[2 * Next(i, 4) + 1] == RotateCmd(c, path[2 * i + 1])
      ensures path[2 * Next(i, 4) + 2] == RotateCmd(c, path[2 * i + 2])
    {
      var j := Next(i, 4);
      EdgeControlRotates(POut(vs, i, r, sqrt), PIn(vs, j, r, sqrt), c, concavity);
    }
  }

  /** The 100 by 100 canvas with the fixed ratio: the vertices are (50, 0),
      (100, 50), (50, 100) and (0, 50), the corner radius is 15, and the top
      vertex' outbound point is (50 + t, t) with t = 15 / sqrt 2, that is
      t > 0 and t * t = 112.5. */
  lemma HundredSquareValues(sqrt: real -> real)
    requires IsSqrt(sqrt)
    ensures Diamond(100.0, 100.0)
         == [Point(50.0, 0.0), Point(100.0, 50.0), Point(50.0, 100.0), Point(0.0, 50.0)]
    ensures CornerRadius(100.0, 100.0, CornerRadiusRatio) == 15.0
    ensures var p := POut(Diamond(100.0, 100.0), 0, 15.0, sqrt);
      p.x == 50.0 + p.y && p.y > 0.0 && p.y * p.y == 112.5
  {
    var vs := Diamond(100.0, 100.0);
    var e := Sub(vs[1], vs[0]);
    assert e == Point(50.0, 50.0);
    assert Norm2(e) == 5000.0;
    var len := Length(e, sqrt);
    LengthZeroIff(e, sqrt);
    assert len * len == 5000.0 && len > 0.0;
    var t := (50.0 / len) * 15.0;
    assert DirOut(vs, 0, sqrt) == Point(50.0 / len, 50.0 / len);
    var p := POut(vs, 0, 15.0, sqrt);
    assert p == Point(50.0 + t, t);
    assert t == 750.0 / len;
    assert t * t == 562500.0 / (len * len);
  }
}
