/** Plane geometry over exact reals.

    The Rust code works with `glam::Vec2` over `f32`. Here coordinates are
    `real`, so rounding, NaN and signed zero do not exist. Operations that are
    exact over the reals (sum, scaling, dot product, `perp`) are defined; the
    transcendental ones (`Vec2::from_angle`, `to_angle`, `normalize`, `length`)
    are gathered in `Trig`, a record of arbitrary functions that every caller
    passes in, so no proof can depend on what they compute. */
module Geometry {

  datatype Vec2 = Vec2(x: real, y: real) {

    function Add(o: Vec2): Vec2 {
      Vec2(x + o.x, y + o.y)
    }

    function Sub(o: Vec2): Vec2 {
      Vec2(x - o.x, y - o.y)
    }

    function Scale(k: real): Vec2 {
      Vec2(x * k, y * k)
    }

    function Neg(): Vec2 {
      Vec2(-x, -y)
    }

    function Dot(o: Vec2): real {
      x * o.x + y * o.y
    }

    /** glam's `perp`: the vector turned a quarter turn counter-clockwise. */
    function Perp(): Vec2 {
      Vec2(-y, x)
    }
  }

  /** The uninterpreted part of the vector library. */
  datatype Trig = Trig(
    fromAngle: real -> Vec2,
    toAngle: Vec2 -> real,
    normalize: Vec2 -> Vec2,
    length: Vec2 -> real)

  /** `std::f32::consts` values, written as the exact rationals that the
      nearest `f32` represents. */
  const FRAC_PI_2: real := 1.57079637050628662109375
  const TAU: real := 6.283185482025146484375

  function Abs(x: real): (r: real)
    ensures r >= 0.0
    ensures r == x || r == -x
  {
    if x < 0.0 then -x else x
  }

  /** `f32::signum` on non-NaN values: `+0.0` counts as positive. */
  function Signum(x: real): (r: real)
    ensures r == 1.0 || r == -1.0
    ensures r < 0.0 <==> x < 0.0
    ensures x * r == Abs(x)
  {
    if x < 0.0 then -1.0 else 1.0
  }

  /** Rounds toward zero, as the `%` operator on floats does. */
  function Trunc(x: real): (r: int)
    ensures Abs(x - r as real) < 1.0
    ensures Abs(r as real) <= Abs(x)
  {
    if x >= 0.0 then x.Floor else -((-x).Floor)
  }

  /** `f32::rem_euclid` for a positive modulus. */
  function RemEuclid(a: real, m: real): (r: real)
    requires m > 0.0
    ensures 0.0 <= r < m
    ensures IsWholeMultiple(a - r, m)
  {
    var q := (a / m).Floor;
    FloorBounds(a, m, q);
    a - m * q as real
  }

  /** The `%` operator on floats: the remainder of a division truncated
      toward zero, so for a positive modulus it has the sign of `a`. */
  function Fmod(a: real, m: real): (r: real)
    requires m != 0.0
    ensures a >= 0.0 && m > 0.0 ==> 0.0 <= r < m
    ensures a < 0.0 && m > 0.0 ==> -m < r <= 0.0
    ensures IsWholeMultiple(a - r, m)
  {
    var q := Trunc(a / m);
    MultipleIsWhole(m, q);
    if a >= 0.0 && m > 0.0 then
      FloorBounds(a, m, q);
      a - m * q as real
    else if a < 0.0 && m > 0.0 then
      NegativeRemainder(a, m, q);
      a - m * q as real
    else
      a - m * q as real
  }

  /** Truncation toward zero leaves a negative `a` a remainder in `(-m, 0]`. */
  lemma NegativeRemainder(a: real, m: real, q: int)
    requires m > 0.0 && a < 0.0 && q == Trunc(a / m)
    ensures -m < a - m * q as real <= 0.0
  {
    var f := (-a / m).Floor;
    assert -a / m == -(a / m);
    assert q == -f;
    FloorBounds(-a, m, f);
    assert m * q as real == -(m * f as real);
  }

  /** `d` is an integral number of periods `m`. */
  predicate IsWholeMultiple(d: real, m: real)
    requires m != 0.0
  {
    (d / m).Floor as real == d / m
  }

  lemma FloorBounds(a: real, m: real, q: int)
    requires m > 0.0
    requires q == (a / m).Floor
    ensures m * q as real <= a < m * q as real + m
    ensures IsWholeMultiple(m * q as real, m)
  {
    var t := a / m;
    assert q as real <= t < q as real + 1.0;
    assert a == t * m == m * t;
    var lo := t - q as real;
    var hi := q as real + 1.0 - t;
    assert lo >= 0.0 && hi > 0.0;
    assert m * lo >= 0.0 && m * hi > 0.0;
    assert m * lo == a - m * q as real;
    assert m * hi == m * q as real + m - a;
    MultipleIsWhole(m, q);
  }

  lemma MultipleIsWhole(m: real, q: int)
    requires m != 0.0
    ensures IsWholeMultiple(m * q as real, m)
  {
    assert (m * q as real) / m == q as real;
  }
}
