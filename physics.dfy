/**
  src/physics.js: the distance between two bodies (a missing z counts as 0),
  the collision test against the sum of the radii (a missing radius counts
  as 0) and the clamp of a value into [min, max].  Math.sqrt is a parameter.
*/
module Physics {
  /** A property of a JavaScript object that may be absent. */
  datatype Prop = Missing | Present(value: real)

  /** p || 0: an absent property reads as 0 (a present 0 is 0 either way). */
  function OrZero(p: Prop): (v: real)
    ensures p.Missing? ==> v == 0.0
    ensures p.Present? ==> v == p.value
  {
    match p
    case Missing => 0.0
    case Present(v) => v
  }

  /** The fields distance and collides read. */
  datatype Body = Body(x: real, y: real, z: Prop, radius: Prop)

  /** dx * dx + dy * dy + dz * dz */
  function SumOfSquares(dx: real, dy: real, dz: real): (d: real)
    ensures d >= 0.0
  {
    SquareNonNeg(dx);
    SquareNonNeg(dy);
    SquareNonNeg(dz);
    dx * dx + dy * dy + dz * dz
  }

  /** The radicand of distance, with a missing z read as 0. */
  function SquaredDistance(a: Body, b: Body): (d: real)
    ensures d >= 0.0
  {
    SumOfSquares(a.x - b.x, a.y - b.y, OrZero(a.z) - OrZero(b.z))
  }

  lemma SquareNonNeg(t: real)
    ensures t * t >= 0.0
  {
    if t < 0.0 {
      assert t * t == (-t) * (-t);
    }
  }

  /** distance(a, b) with Math.sqrt as sqrt. */
  function Distance(a: Body, b: Body, sqrt: real -> real): real {
    sqrt(SquaredDistance(a, b))
  }

  /** collides(a, b) */
  predicate Collides(a: Body, b: Body, sqrt: real -> real) {
    Distance(a, b, sqrt) < OrZero(a.radius) + OrZero(b.radius)
  }

  /** clamp(v, min, max) = Math.max(min, Math.min(max, v)) */
  function Clamp(v: real, lo: real, hi: real): (r: real)
    ensures lo <= hi ==> lo <= r <= hi
    ensures lo <= v <= hi ==> r == v
    ensures lo <= hi && v < lo ==> r == lo
    ensures lo <= hi && hi < v ==> r == hi
    ensures hi < lo ==> r == lo
  {
    var m := if hi <= v then hi else v;
    if lo <= m then m else lo
  }

  /** Clamping twice is clamping once. */
  lemma ClampIdempotent(v: real, lo: real, hi: real)
    requires lo <= hi
    ensures Clamp(Clamp(v, lo, hi), lo, hi) == Clamp(v, lo, hi)
  {
  }

  /** The three assertions of the clamp unit test. */
  lemma ClampTests()
    ensures Clamp(10.0, -5.0, 5.0) == 5.0
    ensures Clamp(-10.0, -5.0, 5.0) == -5.0
    ensures Clamp(2.0, -5.0, 5.0) == 2.0
  {
  }

  /** What Math.sqrt delivers on the squared distances: the non-negative square root. */
  ghost predicate IsSqrt(sqrt: real -> real) {
    forall t :: t >= 0.0 ==> sqrt(t) >= 0.0 && sqrt(t) * sqrt(t) == t
  }

  /** The non-negative square root is unique. */
  lemma RootUnique(s: real, r: real)
    requires s >= 0.0 && r >= 0.0 && s * s == r * r
    ensures s == r
  {
    assert (s - r) * (s + r) == s * s - r * r;
    if s != r {
      ProductPositive(s, r);
    }
  }

  lemma ProductPositive(s: real, r: real)
    requires s >= 0.0 && r >= 0.0 && s != r
    ensures (s - r) * (s + r) != 0.0
  {
    if s > r {
      assert (s - r) * (s + r) > 0.0 by {
        assert s + r > 0.0;
      }
    } else {
      assert (r - s) * (s + r) > 0.0 by {
        assert s + r > 0.0;
      }
      assert (s - r) * (s + r) == -((r - s) * (s + r));
    }
  }

  /** For non-negative d and R, d < R exactly when d * d < R * R. */
  lemma SquareMonotone(d: real, R: real)
    requires d >= 0.0 && R >= 0.0
    ensures d < R <==> d * d < R * R
  {
    assert R * R - d * d == (R - d) * (R + d);
    if d < R {
      assert (R - d) * (R + d) > 0.0 by {
        assert R + d > 0.0;
      }
    } else {
      assert (d - R) * (R + d) >= 0.0 by {
        assert d - R >= 0.0;
        assert R + d >= 0.0;
      }
      assert (R - d) * (R + d) == -((d - R) * (R + d));
    }
  }

  /** With a true square root, two bodies with non-negative radii collide
      exactly when their squared distance is below the squared radius sum. */
  lemma CollidesBySquares(a: Body, b: Body, sqrt: real -> real)
    requires IsSqrt(sqrt)
    requires OrZero(a.radius) + OrZero(b.radius) >= 0.0
    ensures Collides(a, b, sqrt) <==>
      SquaredDistance(a, b) < (OrZero(a.radius) + OrZero(b.radius)) * (OrZero(a.radius) + OrZero(b.radius))
  {
    var d := Distance(a, b, sqrt);
    assert d >= 0.0 && d * d == SquaredDistance(a, b);
    SquareMonotone(d, OrZero(a.radius) + OrZero(b.radius));
  }

  /** Distance does not depend on the order of the bodies, nor does collision. */
  lemma Symmetric(a: Body, b: Body, sqrt: real -> real)
    ensures Distance(a, b, sqrt) == Distance(b, a, sqrt)
    ensures Collides(a, b, sqrt) == Collides(b, a, sqrt)
  {
    NegSquare(a.x - b.x);
    NegSquare(a.y - b.y);
    NegSquare(OrZero(a.z) - OrZero(b.z));
  }

  lemma NegSquare(t: real)
    ensures (-t) * (-t) == t * t
  {
  }

  /** distance(a, a) is Math.sqrt(0), which is 0. */
  lemma DistanceToSelf(a: Body, sqrt: real -> real)
    ensures Distance(a, a, sqrt) == sqrt(0.0)
    ensures IsSqrt(sqrt) ==> Distance(a, a, sqrt) == 0.0
  {
    assert SquaredDistance(a, a) == 0.0;
    if IsSqrt(sqrt) {
      RootUnique(sqrt(0.0), 0.0);
    }
  }

  /** A missing z reads as 0 in distance and a missing radius as 0 in collides. */
  lemma MissingFieldsReadAsZero(a: Body, b: Body, sqrt: real -> real)
    ensures Distance(a.(z := Missing), b, sqrt) == Distance(a.(z := Present(0.0)), b, sqrt)
    ensures Collides(a.(radius := Missing), b, sqrt) == Collides(a.(radius := Present(0.0)), b, sqrt)
  {
  }

  /** The distance unit test: (0, 0, 0) to (3, 4, 0) is 5. */
  lemma DistanceTest(sqrt: real -> real)
    requires IsSqrt(sqrt)
    ensures Distance(Body(0.0, 0.0, Present(0.0), Missing), Body(3.0, 4.0, Present(0.0), Missing), sqrt) == 5.0
  {
    var a, b := Body(0.0, 0.0, Present(0.0), Missing), Body(3.0, 4.0, Present(0.0), Missing);
    assert SquaredDistance(a, b) == 25.0;
    RootUnique(sqrt(25.0), 5.0);
  }

  /** The two collides unit tests: radii 1 and 1 at separation 1.5 collide, at separation 3 they do not. */
  lemma CollidesTests(sqrt: real -> real)
    requires IsSqrt(sqrt)
    ensures Collides(Body(0.0, 0.0, Present(0.0), Present(1.0)), Body(1.5, 0.0, Present(0.0), Present(1.0)), sqrt)
    ensures !Collides(Body(0.0, 0.0, Present(0.0), Present(1.0)), Body(3.0, 0.0, Present(0.0), Present(1.0)), sqrt)
  {
    var a := Body(0.0, 0.0, Present(0.0), Present(1.0));
    var b, b' := Body(1.5, 0.0, Present(0.0), Present(1.0)), Body(3.0, 0.0, Present(0.0), Present(1.0));
    assert OrZero(a.radius) + OrZero(b.radius) == 2.0 && OrZero(a.radius) + OrZero(b'.radius) == 2.0;
    CollidesBySquares(a, b, sqrt);
    CollidesBySquares(a, b', sqrt);
    assert 2.0 * 2.0 == 4.0;
    assert SquaredDistance(a, b) == 2.25;
    assert SquaredDistance(a, b') == 9.0;
  }
}
