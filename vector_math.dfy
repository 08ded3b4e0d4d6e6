/**
 * The point arithmetic of `math_extended.py` / `mathExtended.py` (all three
 * copies): `average`, `midpoint` (`averageVector` in fcore), `distance` and
 * `spherify`. Floats are modelled as `real`; `math.sqrt` is a parameter that
 * any caller must supply as a true square root on the non-negative reals.
 */
module VectorMath {

  datatype Vec3 = Vec3(x: real, y: real, z: real)

  const Origin: Vec3 := Vec3(0.0, 0.0, 0.0)

  /** `sum(numbers)`, adding from the left. */
  function Sum(xs: seq<real>): real {
    if xs == [] then 0.0 else Sum(xs[..|xs| - 1]) + xs[|xs| - 1]
  }

  /** `float(sum(numbers)) / max(len(numbers), 1)`. */
  function Average(xs: seq<real>): (a: real)
    ensures xs == [] ==> a == 0.0
    ensures a * (|xs| as real) == Sum(xs)
  {
    Sum(xs) / (if |xs| > 1 then |xs| else 1) as real
  }

  /** The sum of `n` copies of `c`. */
  lemma {:induction false} SumOfCopies(xs: seq<real>, c: real)
    requires forall k :: 0 <= k < |xs| ==> xs[k] == c
    ensures Sum(xs) == (|xs| as real) * c
  {
    if xs != [] {
      SumOfCopies(xs[..|xs| - 1], c);
    }
  }

  /** The three columns of `zip(*vectors)`. */
  function Xs(ps: seq<Vec3>): (r: seq<real>)
    ensures |r| == |ps| && forall k :: 0 <= k < |ps| ==> r[k] == ps[k].x
  {
    seq(|ps|, k requires 0 <= k < |ps| => ps[k].x)
  }

  function Ys(ps: seq<Vec3>): (r: seq<real>)
    ensures |r| == |ps| && forall k :: 0 <= k < |ps| ==> r[k] == ps[k].y
  {
    seq(|ps|, k requires 0 <= k < |ps| => ps[k].y)
  }

  function Zs(ps: seq<Vec3>): (r: seq<real>)
    ensures |r| == |ps| && forall k :: 0 <= k < |ps| ==> r[k] == ps[k].z
  {
    seq(|ps|, k requires 0 <= k < |ps| => ps[k].z)
  }

  /**
   * `midpoint(vectors)` (fcore: `averageVector`): the origin for no vectors,
   * otherwise the per-coordinate average.
   */
  function Midpoint(ps: seq<Vec3>): (m: Vec3)
    ensures ps == [] ==> m == Origin
    ensures m.x * (|ps| as real) == Sum(Xs(ps))
    ensures m.y * (|ps| as real) == Sum(Ys(ps))
    ensures m.z * (|ps| as real) == Sum(Zs(ps))
  {
    if ps == [] then Origin else Vec3(Average(Xs(ps)), Average(Ys(ps)), Average(Zs(ps)))
  }

  /** The average of copies of one number is that number. */
  lemma AverageOfCopies(xs: seq<real>, c: real)
    requires xs != [] && forall k :: 0 <= k < |xs| ==> xs[k] == c
    ensures Average(xs) == c
  {
    SumOfCopies(xs, c);
    Cancel(Average(xs), c, |xs| as real);
  }

  /** The midpoint of copies of one point is that point. */
  lemma MidpointOfCopies(ps: seq<Vec3>, p: Vec3)
    requires ps != [] && forall k :: 0 <= k < |ps| ==> ps[k] == p
    ensures Midpoint(ps) == p
  {
    AverageOfCopies(Xs(ps), p.x);
    AverageOfCopies(Ys(ps), p.y);
    AverageOfCopies(Zs(ps), p.z);
  }

  lemma Cancel(a: real, b: real, n: real)
    requires n > 0.0 && a * n == n * b
    ensures a == b
  {
  }

  function SqDist(a: Vec3, b: Vec3): real {
    (a.x - b.x) * (a.x - b.x) + (a.y - b.y) * (a.y - b.y) + (a.z - b.z) * (a.z - b.z)
  }

  lemma SqDistNonNegative(a: Vec3, b: Vec3)
    ensures SqDist(a, b) >= 0.0
  {
    assert (a.x - b.x) * (a.x - b.x) >= 0.0;
    assert (a.y - b.y) * (a.y - b.y) >= 0.0;
    assert (a.z - b.z) * (a.z - b.z) >= 0.0;
  }

  /** What `math.sqrt` is on the non-negative reals. */
  ghost predicate IsSqrt(sqrt: real -> real) {
    forall x: real :: 0.0 <= x ==> 0.0 <= sqrt(x) && sqrt(x) * sqrt(x) == x
  }

  function Abs(r: real): real { if r < 0.0 then -r else r }

  lemma ProductPositive(x: real, y: real)
    requires x > 0.0 && y > 0.0
    ensures x * y > 0.0
  {
  }

  /** Two non-negative numbers with equal squares are equal. */
  lemma NonNegativeRootUnique(s: real, a: real)
    requires s >= 0.0 && a >= 0.0 && s * s == a * a
    ensures s == a
  {
    assert a * a - s * s == (a - s) * (a + s);
    if s < a {
      ProductPositive(a - s, a + s);
    } else if a < s {
      ProductPositive(s - a, s + a);
    }
  }

  /** A non-negative number whose square is r*r is |r|. */
  lemma SquareRootUnique(s: real, r: real)
    requires s >= 0.0 && s * s == r * r
    ensures s == Abs(r)
  {
    if r < 0.0 {
      assert Abs(r) * Abs(r) == r * r;
    }
    NonNegativeRootUnique(s, Abs(r));
  }

  /** `distance(a, b)`: the Euclidean distance. */
  function Distance(sqrt: real -> real, a: Vec3, b: Vec3): (d: real)
    requires IsSqrt(sqrt)
    ensures d >= 0.0 && d * d == SqDist(a, b)
  {
    SqDistNonNegative(a, b);
    sqrt(SqDist(a, b))
  }

  lemma DistanceSymmetric(sqrt: real -> real, a: Vec3, b: Vec3)
    requires IsSqrt(sqrt)
    ensures Distance(sqrt, a, b) == Distance(sqrt, b, a)
  {
    assert SqDist(a, b) == SqDist(b, a);
  }

  /** The distance from a point to itself is zero. */
  lemma DistanceToSelf(sqrt: real -> real, a: Vec3)
    requires IsSqrt(sqrt)
    ensures Distance(sqrt, a, a) == 0.0
  {
    var d := Distance(sqrt, a, a);
    assert SqDist(a, a) == 0.0 * 0.0;
    NonNegativeRootUnique(d, 0.0);
  }

  /** `(pos - mid) * factor + mid`, coordinate by coordinate. */
  function Moved(p: Vec3, mid: Vec3, factor: real): Vec3 {
    Vec3((p.x - mid.x) * factor + mid.x, (p.y - mid.y) * factor + mid.y, (p.z - mid.z) * factor + mid.z)
  }

  lemma SqDistMoved(p: Vec3, mid: Vec3, f: real)
    ensures SqDist(mid, Moved(p, mid, f)) == f * f * SqDist(mid, p)
  {
    var q := Moved(p, mid, f);
    var dx, dy, dz := p.x - mid.x, p.y - mid.y, p.z - mid.z;
    assert mid.x - q.x == -(dx * f);
    assert mid.y - q.y == -(dy * f);
    assert mid.z - q.z == -(dz * f);
    assert (dx * f) * (dx * f) == f * f * (dx * dx);
    assert (dy * f) * (dy * f) == f * f * (dy * dy);
    assert (dz * f) * (dz * f) == f * f * (dz * dz);
  }

  /**
   * Where `spherify` puts one point `p` around the centre `mid`: left alone
   * when it lies on the centre, otherwise pushed along the ray from the centre
   * through `p` to distance |radius| (a negative radius passes through the
   * centre to the other side).
   */
  function SpherifiedPoint(sqrt: real -> real, mid: Vec3, p: Vec3, radius: real): Vec3
    requires IsSqrt(sqrt)
  {
    var d := Distance(sqrt, mid, p);
    Moved(p, mid, if d == 0.0 then 1.0 else radius / d)
  }

  /**
   * A point on the centre stays put; any other point ends at distance
   * |radius| from the centre, on the ray through its old position when the
   * radius is not negative; a point already at distance `radius` stays put.
   */
  lemma SpherifiedPointSpec(sqrt: real -> real, mid: Vec3, p: Vec3, radius: real)
    requires IsSqrt(sqrt)
    ensures Distance(sqrt, mid, p) == 0.0 ==> SpherifiedPoint(sqrt, mid, p, radius) == p
    ensures Distance(sqrt, mid, p) != 0.0 ==> Distance(sqrt, mid, SpherifiedPoint(sqrt, mid, p, radius)) == Abs(radius)
    ensures Distance(sqrt, mid, p) == radius ==> SpherifiedPoint(sqrt, mid, p, radius) == p
    ensures 0.0 <= radius ==> exists f: real :: 0.0 <= f && SpherifiedPoint(sqrt, mid, p, radius) == Moved(p, mid, f)
  {
    var d := Distance(sqrt, mid, p);
    var factor := if d == 0.0 then 1.0 else radius / d;
    var q := SpherifiedPoint(sqrt, mid, p, radius);
    assert q == Moved(p, mid, factor);
    if d != 0.0 {
      SpherifiedPointAway(sqrt, mid, p, radius);
      if 0.0 <= radius {
        QuotientNonNegative(radius, d);
      }
    }
    if d != 0.0 && d == radius {
      SelfQuotient(d);
    }
    assert 0.0 <= radius ==> 0.0 <= factor;
  }

  /** A point off the centre ends at distance |radius|. */
  lemma SpherifiedPointAway(sqrt: real -> real, mid: Vec3, p: Vec3, radius: real)
    requires IsSqrt(sqrt) && Distance(sqrt, mid, p) != 0.0
    ensures Distance(sqrt, mid, SpherifiedPoint(sqrt, mid, p, radius)) == Abs(radius)
  {
    var d := Distance(sqrt, mid, p);
    var factor := radius / d;
    var q := SpherifiedPoint(sqrt, mid, p, radius);
    SqDistMoved(p, mid, factor);
    ScaledSquare(radius, d);
    SquareRootUnique(Distance(sqrt, mid, q), radius);
  }

  lemma ScaledSquare(r: real, d: real)
    requires d != 0.0
    ensures (r / d) * (r / d) * (d * d) == r * r
  {
    assert (r / d) * d == r;
  }

  lemma SelfQuotient(d: real)
    requires d != 0.0
    ensures d / d == 1.0
  {
  }

  lemma QuotientNonNegative(r: real, d: real)
    requires 0.0 <= r && 0.0 < d
    ensures 0.0 <= r / d
  {
  }

  /**
   * `spherify(points, radius)`: one output point per input point, in input
   * order, each placed by `SpherifiedPoint` around the midpoint of the input.
   */
  method Spherify(sqrt: real -> real, points: seq<Vec3>, radius: real) returns (result: seq<Vec3>)
    requires IsSqrt(sqrt)
    ensures |result| == |points|
    ensures forall k :: 0 <= k < |points| ==> result[k] == SpherifiedPoint(sqrt, Midpoint(points), points[k], radius)
  {
    var mid := Midpoint(points);
    var distances := seq(|points|, k requires 0 <= k < |points| => Distance(sqrt, mid, points[k]));
    result := [];
    var i := 0;
    while i < |points|
      invariant 0 <= i <= |points| && |result| == i
      invariant forall k :: 0 <= k < i ==> result[k] == SpherifiedPoint(sqrt, mid, points[k], radius)
    {
      var factor := if distances[i] == 0.0 then 1.0 else radius / distances[i];
      result := result + [Moved(points[i], mid, factor)];
      i := i + 1;
    }
  }
}
