/** Plane geometry over exact reals: the small part of a 2D offset type that the
    blob-path construction uses (difference, sum, scaling, midpoint, squared
    length and normalisation).

    The square root is a call into a maths library whose code is not part of
    this model, so every operation that needs it takes it as a parameter
    `sqrt`; properties that depend on what a square root is assume `IsSqrt`. */
module Geometry {

  /** A point (or displacement) in the plane. */
  datatype Point = Point(x: real, y: real)

  /** The zero vector. */
  const Origin: Point := Point(0.0, 0.0)

  function Add(a: Point, b: Point): Point {
    Point(a.x + b.x, a.y + b.y)
  }

  function Sub(a: Point, b: Point): Point {
    Point(a.x - b.x, a.y - b.y)
  }

  function Scale(p: Point, k: real): Point {
    Point(p.x * k, p.y * k)
  }

  /** The point halfway between `a` and `b`: it is as far from `a` as `b` is from it. */
  function Midpoint(a: Point, b: Point): (m: Point)
    ensures Sub(m, a) == Sub(b, m)
    ensures Add(m, m) == Add(a, b)
  {
    Point((a.x + b.x) / 2.0, (a.y + b.y) / 2.0)
  }

  /** The squared Euclidean length, the radicand of the length. */
  function Norm2(p: Point): real {
    p.x * p.x + p.y * p.y
  }

  /** The squared length is never negative and vanishes only at the origin. */
  lemma Norm2ZeroIff(p: Point)
    ensures Norm2(p) >= 0.0
    ensures Norm2(p) == 0.0 <==> p == Origin
  {
    SquareZeroIff(p.x);
    SquareZeroIff(p.y);
  }

  lemma SquareZeroIff(a: real)
    ensures a * a >= 0.0
    ensures a * a == 0.0 <==> a == 0.0
  {
    if a * a == 0.0 {
      ZeroProduct(a, a);
    }
  }

  lemma ZeroProduct(a: real, b: real)
    ensures a * b == 0.0 <==> a == 0.0 || b == 0.0
  {
  }

  lemma ProductNonNegative(a: real, b: real)
    requires a >= 0.0 && b >= 0.0
    ensures a * b >= 0.0
  {
  }

  lemma MultiplyMonotone(a: real, b: real, k: real)
    requires a <= b && k >= 0.0
    ensures a * k <= b * k
  {
    assert b * k - a * k == (b - a) * k;
    ProductNonNegative(b - a, k);
  }

  lemma MultiplyStrictlyMonotone(a: real, b: real, k: real)
    requires a < b && k > 0.0
    ensures a * k < b * k
  {
    assert b * k - a * k == (b - a) * k;
  }

  lemma SquareMonotone(a: real, b: real)
    requires 0.0 <= a <= b
    ensures a * a <= b * b
  {
    MultiplyMonotone(a, b, a);
    MultiplyMonotone(a, b, b);
  }

  lemma DivideThenMultiply(a: real, k: real)
    requires k != 0.0
    ensures (a / k) * k == a
  {
  }

  lemma NegateThenDivide(a: real, k: real)
    requires k != 0.0
    ensures (-a) / k == -(a / k)
  {
  }

  /** `sqrt` returns the non-negative square root of every non-negative real. */
  ghost predicate IsSqrt(sqrt: real -> real) {
    forall v: real :: v >= 0.0 ==> sqrt(v) >= 0.0 && sqrt(v) * sqrt(v) == v
  }

  /** Euclidean length, through the supplied square root. */
  function Length(p: Point, sqrt: real -> real): real {
    sqrt(Norm2(p))
  }

  /** The direction of `p`: `p` divided by its length, or the zero vector when
      that length is zero. Whatever `sqrt` is, the zero vector has no direction. */
  function Normalize(p: Point, sqrt: real -> real): (d: Point)
    ensures p == Origin ==> d == Origin
  {
    var len := Length(p, sqrt);
    if len != 0.0 then Point(p.x / len, p.y / len) else Origin
  }

  /** Whatever `sqrt` is, a nonzero direction scaled back by the length gives
      the input again. */
  lemma NormalizeScalesBack(p: Point, sqrt: real -> real)
    ensures Normalize(p, sqrt) != Origin ==> Scale(Normalize(p, sqrt), Length(p, sqrt)) == p
  {
    var len := Length(p, sqrt);
    if len != 0.0 {
      DivideThenMultiply(p.x, len);
      DivideThenMultiply(p.y, len);
    }
  }

  /** The square root of the square of a non-negative number is that number. */
  lemma SqrtOfSquare(a: real, sqrt: real -> real)
    requires IsSqrt(sqrt)
    requires a >= 0.0
    ensures sqrt(a * a) == a
  {
    var t := sqrt(a * a);
    assert t >= 0.0 && t * t == a * a;
    assert (t - a) * (t + a) == t * t - a * a;
    ZeroProduct(t - a, t + a);
  }

  /** The square root vanishes exactly at zero. */
  lemma SqrtZeroIff(v: real, sqrt: real -> real)
    requires IsSqrt(sqrt)
    requires v >= 0.0
    ensures sqrt(v) >= 0.0
    ensures sqrt(v) == 0.0 <==> v == 0.0
  {
    var t := sqrt(v);
    assert t * t == v;
    ZeroProduct(t, t);
  }

  /** Comparing a square root with a non-negative bound is comparing the
      radicand with the bound's square. */
  lemma SqrtBelowIff(v: real, b: real, sqrt: real -> real)
    requires IsSqrt(sqrt)
    requires v >= 0.0 && b >= 0.0
    ensures sqrt(v) < b <==> v < b * b
  {
    var t := sqrt(v);
    assert t >= 0.0 && t * t == v;
    if t < b {
      SquareMonotone(t, b);
      if t * t == b * b {
        SqrtOfSquare(b, sqrt);
        SqrtOfSquare(t, sqrt);
      }
    } else {
      SquareMonotone(b, t);
    }
  }

  /** Only the zero vector has length zero. */
  lemma LengthZeroIff(p: Point, sqrt: real -> real)
    requires IsSqrt(sqrt)
    ensures Length(p, sqrt) >= 0.0
    ensures Length(p, sqrt) == 0.0 <==> p == Origin
  {
    Norm2ZeroIff(p);
    SqrtZeroIff(Norm2(p), sqrt);
  }

  /** The degenerate case of normalisation: the result is the zero vector
      exactly when the input is the zero vector. */
  lemma NormalizeZeroIff(p: Point, sqrt: real -> real)
    requires IsSqrt(sqrt)
    ensures Normalize(p, sqrt) == Origin <==> p == Origin
  {
    LengthZeroIff(p, sqrt);
    var len := Length(p, sqrt);
    if p != Origin {
      assert len != 0.0;
    }
  }

  /** A nonzero vector normalises to a unit vector pointing the same way. */
  lemma NormalizeUnit(p: Point, sqrt: real -> real)
    requires IsSqrt(sqrt)
    requires p != Origin
    ensures Norm2(Normalize(p, sqrt)) == 1.0
    ensures Length(Normalize(p, sqrt), sqrt) == 1.0
    ensures Scale(Normalize(p, sqrt), Length(p, sqrt)) == p
  {
    LengthZeroIff(p, sqrt);
    var len := Length(p, sqrt);
    assert len * len == Norm2(p) && len > 0.0;
    UnitAfterDivision(p.x, p.y, len);
    assert Normalize(p, sqrt) == Point(p.x / len, p.y / len);
    DivideThenMultiply(p.x, len);
    DivideThenMultiply(p.y, len);
    SqrtOfSquare(1.0, sqrt);
  }

  /** Dividing both coordinates by the length, when the length's square is
      the squared length, leaves squared length one. */
  lemma UnitAfterDivision(x: real, y: real, len: real)
    requires len > 0.0 && len * len == x * x + y * y
    ensures (x / len) * (x / len) + (y / len) * (y / len) == 1.0
  {
    var q := len * len;
    SquareZeroIff(len);
    assert q > 0.0;
    SquareOfQuotient(x, len);
    SquareOfQuotient(y, len);
    assert (x * x) / q + (y * y) / q == (x * x + y * y) / q == q / q;
  }

  lemma SquareOfQuotient(a: real, k: real)
    requires k != 0.0
    ensures (a / k) * (a / k) == (a * a) / (k * k)
  {
    var t := a / k;
    DivideThenMultiply(a, k);
    assert (t * t) * (k * k) == (t * k) * (t * k) == a * a;
    SquareZeroIff(k);
    DivideThenMultiply(t * t, k * k);
    assert (a * a) / (k * k) == ((t * t) * (k * k)) / (k * k);
  }

  /** A unit direction scaled by a non-negative `r` has length `r`. */
  lemma LengthOfScaledUnit(d: Point, r: real, sqrt: real -> real)
    requires IsSqrt(sqrt)
    requires Norm2(d) == 1.0
    requires r >= 0.0
    ensures Norm2(Scale(d, r)) == r * r
    ensures Length(Scale(d, r), sqrt) == r
  {
    assert Norm2(Scale(d, r)) == (r * r) * Norm2(d);
    SqrtOfSquare(r, sqrt);
  }

  /** A quarter turn of a displacement, `(x, y) -> (-y, x)`. In screen
      coordinates (y pointing down) it turns clockwise. */
  function QuarterTurn(p: Point): Point {
    Point(-p.y, p.x)
  }

  /** A quarter turn keeps the squared length, and four of them are the identity. */
  lemma QuarterTurnIsRotation(p: Point)
    ensures Norm2(QuarterTurn(p)) == Norm2(p)
    ensures QuarterTurn(QuarterTurn(QuarterTurn(QuarterTurn(p)))) == p
  {
  }

  /** A quarter turn of the point `p` about the point `c`. */
  function RotateAbout(c: Point, p: Point): Point {
    Add(c, QuarterTurn(Sub(p, c)))
  }

  /** Normalisation commutes with a quarter turn, for any square root: a
      quarter turn keeps the length. */
  lemma NormalizeQuarterTurn(p: Point, sqrt: real -> real)
    ensures Normalize(QuarterTurn(p), sqrt) == QuarterTurn(Normalize(p, sqrt))
  {
    var q := QuarterTurn(p);
    var len := Length(p, sqrt);
    QuarterTurnIsRotation(p);
    assert Length(q, sqrt) == len;
    if len != 0.0 {
      NegateThenDivide(p.y, len);
      assert Normalize(q, sqrt) == Point((-p.y) / len, p.x / len);
      assert Normalize(p, sqrt) == Point(p.x / len, p.y / len);
    } else {
      assert Normalize(q, sqrt) == Origin;
      assert Normalize(p, sqrt) == Origin;
    }
  }
}
