/** The overlap predicates of the Collision helper object. */
module Collision {
  import opened Geometry

  /** Two circles overlap when the distance of their centres is below the sum of the radii. */
  function CircleCollision(sqrt: real -> real, x1: real, y1: real, r1: real, x2: real, y2: real, r2: real): (r: bool)
    requires IsSqrt(sqrt)
    ensures r <==> r1 + r2 > 0.0 && Square(x2 - x1) + Square(y2 - y1) < Square(r1 + r2)
  {
    SumOfSquaresNonNegative(x2 - x1, y2 - y1);
    SqrtLess(sqrt, Square(x2 - x1) + Square(y2 - y1), r1 + r2);
    sqrt(Square(x2 - x1) + Square(y2 - y1)) < r1 + r2
  }

  lemma SquareOfNegation(v: real, w: real)
    requires w == -v
    ensures Square(w) == Square(v)
  {
  }

  /** Swapping the two circles does not change the answer. */
  lemma CircleCollisionSymmetric(sqrt: real -> real, x1: real, y1: real, r1: real, x2: real, y2: real, r2: real)
    requires IsSqrt(sqrt)
    ensures CircleCollision(sqrt, x1, y1, r1, x2, y2, r2) == CircleCollision(sqrt, x2, y2, r2, x1, y1, r1)
  {
    SquareOfNegation(x2 - x1, x1 - x2);
    SquareOfNegation(y2 - y1, y1 - y2);
    assert r1 + r2 == r2 + r1;
  }

  function Max(a: real, b: real): real { if a >= b then a else b }
  function Min(a: real, b: real): real { if a <= b then a else b }

  /** The point of [lo, lo + size] nearest to v. */
  function Clamp(v: real, lo: real, size: real): real
  {
    Max(lo, Min(v, lo + size))
  }

  /** A circle and an axis-aligned rectangle overlap when the rectangle point nearest to the centre is inside the circle. */
  function CircleRectCollision(cx: real, cy: real, radius: real, rx: real, ry: real, w: real, h: real): (r: bool)
  {
    var dx := cx - Clamp(cx, rx, w);
    var dy := cy - Clamp(cy, ry, h);
    dx * dx + dy * dy < radius * radius
  }

  function AbsReal(v: real): real { if v < 0.0 then -v else v }

  lemma SquareAbsMono(a: real, b: real)
    requires AbsReal(a) <= AbsReal(b)
    ensures Square(a) <= Square(b)
  {
    var p, q := AbsReal(a), AbsReal(b);
    assert Square(a) == p * p && Square(b) == q * q;
    MulMono(p, q, p, p * p, q * p);
    MulMono(p, q, q, p * q, q * q);
  }

  /** No point of the interval is closer to v than the clamped point. */
  lemma ClampNearest(v: real, lo: real, size: real, p: real)
    requires size >= 0.0 && lo <= p <= lo + size
    ensures lo <= Clamp(v, lo, size) <= lo + size
    ensures AbsReal(v - Clamp(v, lo, size)) <= AbsReal(v - p)
  {
  }

  /**
   * The clamped point is the nearest point of the rectangle, so the predicate
   * holds exactly when some point of the rectangle lies inside the circle.
   */
  lemma CircleRectCollisionExact(cx: real, cy: real, radius: real, rx: real, ry: real, w: real, h: real, px: real, py: real)
    requires w >= 0.0 && h >= 0.0
    requires rx <= px <= rx + w && ry <= py <= ry + h
    ensures rx <= Clamp(cx, rx, w) <= rx + w && ry <= Clamp(cy, ry, h) <= ry + h
    ensures CircleRectCollision(cx, cy, radius, rx, ry, w, h) <==>
              Square(cx - Clamp(cx, rx, w)) + Square(cy - Clamp(cy, ry, h)) < Square(radius)
    ensures Square(cx - px) + Square(cy - py) < Square(radius) ==> CircleRectCollision(cx, cy, radius, rx, ry, w, h)
  {
    ClampNearest(cx, rx, w, px);
    ClampNearest(cy, ry, h, py);
    SquareAbsMono(cx - Clamp(cx, rx, w), cx - px);
    SquareAbsMono(cy - Clamp(cy, ry, h), cy - py);
  }
}
