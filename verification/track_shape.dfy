/** `TrackShape`: a straight line or a circular arc, parametrised by the
    distance travelled along it. */
module TrackShapes {
  import opened Geometry

  datatype TrackShape =
    | Line(source: Vec2, direction: Vec2, length: real)
      /** `angleDiff` is signed: positive sweeps counter-clockwise. */
    | Arc(startAngle: real, angleDiff: real, radius: real, center: Vec2)

  /** A point on a track and the heading there, in radians. */
  datatype Transform = Transform(position: Vec2, heading: real)

  /** The arc formulas divide by the radius. Over `f32` a zero radius yields
      infinities; here it is excluded. */
  predicate Divisible(s: TrackShape) {
    s.Line? || s.radius != 0.0
  }

  /** An arc with a positive radius, or a line: what the construction code
      produces, since `from_source_direction_dest` stores `|signed_radius|`. */
  predicate Proper(s: TrackShape) {
    s.Line? || s.radius > 0.0
  }

  /** `get_length`. */
  function GetLength(s: TrackShape): (r: real)
    ensures s.Line? ==> r == s.length
    ensures s.Arc? ==> r >= 0.0
    ensures s.Arc? && s.radius >= 0.0 ==> r == Abs(s.angleDiff) * s.radius
  {
    match s
    case Line(_, _, length) => length
    case Arc(_, angleDiff, radius, _) => Abs(angleDiff * radius)
  }

  /** `reverse`: the same curve, traversed from the other end. */
  function Reverse(s: TrackShape): (r: TrackShape)
    ensures r.Line? <==> s.Line?
    ensures s.Line? ==> r.length == s.length && r.direction == s.direction.Neg()
    ensures s.Line? ==> r.source == s.source.Add(s.direction.Scale(s.length))
    ensures s.Arc? ==> r.center == s.center && r.radius == s.radius
    ensures s.Arc? ==> r.startAngle == s.startAngle + s.angleDiff && r.angleDiff == -s.angleDiff
  {
    match s
    case Line(source, direction, length) =>
      Line(source.Add(direction.Scale(length)), direction.Neg(), length)
    case Arc(startAngle, angleDiff, radius, center) =>
      Arc(startAngle + angleDiff, -angleDiff, radius, center)
  }

  /** The angle, seen from an arc's center, of the point `d` along it. */
  function ArcAngle(s: TrackShape, d: real): real
    requires s.Arc? && s.radius != 0.0
  {
    d * Signum(s.angleDiff) / s.radius + s.startAngle
  }

  /** `get_transform_at_distance`. The same formula applies outside
      `[0, length]`; nothing is clamped. */
  function GetTransform(s: TrackShape, d: real, trig: Trig): (r: Transform)
    requires Divisible(s)
    ensures s.Line? ==> r.position == s.source.Add(s.direction.Scale(d))
    ensures s.Line? ==> r.heading == trig.toAngle(s.direction)
    ensures s.Arc? ==> r.position == s.center.Add(trig.fromAngle(ArcAngle(s, d)).Scale(s.radius))
    ensures s.Arc? && s.angleDiff >= 0.0 ==> r.heading == ArcAngle(s, d) + FRAC_PI_2
    ensures s.Arc? && s.angleDiff < 0.0 ==> r.heading == ArcAngle(s, d) - FRAC_PI_2
  {
    match s
    case Line(source, direction, _) =>
      Transform(source.Add(direction.Scale(d)), trig.toAngle(direction))
    case Arc(startAngle, angleDiff, radius, center) =>
      var angle := ArcAngle(s, d);
      Transform(center.Add(trig.fromAngle(angle).Scale(radius)), angle + FRAC_PI_2 * Signum(angleDiff))
  }

  /** `subshape`: the piece between distances `from` and `to`, re-based so
      that it starts at distance 0. */
  function Subshape(s: TrackShape, from: real, to: real): (r: TrackShape)
    requires Divisible(s)
    ensures r.Line? <==> s.Line?
    ensures Divisible(r) && (Proper(s) ==> Proper(r))
    ensures s.Line? ==> r.direction == s.direction && GetLength(r) == to - from
    ensures s.Arc? ==> r.center == s.center && r.radius == s.radius
    ensures s.Arc? ==> GetLength(r) == Abs(to - from)
  {
    match s
    case Line(source, direction, _) =>
      Line(source.Add(direction.Scale(from)), direction, to - from)
    case Arc(startAngle, angleDiff, radius, center) =>
      var r := Arc(startAngle + from / radius * Signum(angleDiff),
                   (to - from) / radius * Signum(angleDiff), radius, center);
      assert (to - from) / radius * Signum(angleDiff) * radius == (to - from) * Signum(angleDiff);
      assert Abs((to - from) * Signum(angleDiff)) == Abs(to - from);
      r
  }

  /** Reversing twice gives back the shape itself. */
  lemma ReverseInvolution(s: TrackShape)
    ensures Reverse(Reverse(s)) == s
  {
    match s
    case Line(source, direction, length) =>
      var e := source.Add(direction.Scale(length));
      assert e.Add(direction.Neg().Scale(length)) == source;
    case Arc(_, _, _, _) =>
  }

  /** Reversing keeps the length. */
  lemma ReversePreservesLength(s: TrackShape)
    ensures GetLength(Reverse(s)) == GetLength(s)
  {
    if s.Arc? {
      assert -s.angleDiff * s.radius == -(s.angleDiff * s.radius);
    }
  }

  /** The reversed shape visits the same points backwards: `d` along the
      reverse is `length - d` along the original. For an arc this needs a
      positive radius and a non-zero sweep (with a zero sweep `signum`
      would see `+0.0` both ways). */
  lemma ReverseTraversesBackwards(s: TrackShape, d: real, trig: Trig)
    requires Proper(s)
    requires s.Arc? ==> s.angleDiff != 0.0
    ensures GetTransform(Reverse(s), d, trig).position == GetTransform(s, GetLength(s) - d, trig).position
  {
    match s
    case Line(source, direction, length) =>
      BackwardsPoint(source, direction, length, d);
    case Arc(start, diff, radius, center) =>
      var len := GetLength(s);
      BackwardsAngle(start, diff, radius, d, len);
      assert ArcAngle(Reverse(s), d) == ArcAngle(s, len - d);
  }

  lemma BackwardsPoint(source: Vec2, direction: Vec2, length: real, d: real)
    ensures source.Add(direction.Scale(length)).Add(direction.Neg().Scale(d))
         == source.Add(direction.Scale(length - d))
  {
    assert direction.x * length + -direction.x * d == direction.x * (length - d);
    assert direction.y * length + -direction.y * d == direction.y * (length - d);
  }

  lemma BackwardsAngle(start: real, diff: real, radius: real, d: real, len: real)
    requires radius > 0.0 && diff != 0.0 && len == Abs(diff) * radius
    ensures d * Signum(-diff) / radius + (start + diff) == (len - d) * Signum(diff) / radius + start
  {
    var sg := Signum(diff);
    assert Signum(-diff) == -sg;
    assert (len - d) * sg / radius == len * sg / radius - d * sg / radius;
    assert len * sg == diff * radius by {
      assert Abs(diff) * sg == diff;
    }
    assert len * sg / radius == diff;
  }

  /** The subshape from `from` to `to`, at distance `d`, is the original at
      distance `from + d`: same point and same heading. */
  lemma SubshapeTransform(s: TrackShape, from: real, to: real, d: real, trig: Trig)
    requires Proper(s) && from < to
    ensures GetTransform(Subshape(s, from, to), d, trig) == GetTransform(s, from + d, trig)
  {
    match s
    case Line(source, direction, _) =>
      assert source.Add(direction.Scale(from)).Add(direction.Scale(d)) == source.Add(direction.Scale(from + d));
    case Arc(start, diff, radius, center) =>
      var sub := Subshape(s, from, to);
      var sg := Signum(diff);
      assert (to - from) / radius > 0.0;
      assert Signum(sub.angleDiff) == sg;
      assert ArcAngle(sub, d) == d * sg / radius + (start + from / radius * sg);
      assert d * sg / radius + from / radius * sg == (from + d) * sg / radius;
      assert ArcAngle(sub, d) == ArcAngle(s, from + d);
  }

  /** The subshape over the whole length is the shape itself. */
  lemma SubshapeWhole(s: TrackShape)
    requires Proper(s)
    ensures Subshape(s, 0.0, GetLength(s)) == s
  {
    match s
    case Line(source, direction, length) =>
      assert source.Add(direction.Scale(0.0)) == source;
    case Arc(start, diff, radius, center) =>
      var len := GetLength(s);
      assert len / radius == Abs(diff);
      assert Abs(diff) * Signum(diff) == diff;
  }

  /** Below this lateral offset `from_source_direction_dest` treats the
      destination as straight ahead. */
  const COLLINEAR_CUTOFF: real := 0.001

  /** How far `dest` lies to the left of the ray from `source` along `dir`
      (the `y` of the construction). */
  function Lateral(source: Vec2, dir: Vec2, dest: Vec2): real {
    dest.Sub(source).Dot(dir.Perp())
  }

  /** How far `dest` lies ahead along `dir` (the `x` of the construction). */
  function Ahead(source: Vec2, dir: Vec2, dest: Vec2): real {
    dest.Sub(source).Dot(dir)
  }

  /** The radius of the circle tangent to `dir` at `source` through `dest`,
      positive when the circle lies to the left. */
  function SignedRadius(source: Vec2, dir: Vec2, dest: Vec2): (k: real)
    requires Abs(Lateral(source, dir, dest)) >= COLLINEAR_CUTOFF
    ensures var x, y := Ahead(source, dir, dest), Lateral(source, dir, dest);
      2.0 * y * k == x * x + y * y
  {
    var x := Ahead(source, dir, dest);
    var y := Lateral(source, dir, dest);
    RadiusEquation(x, y, (x * x + y * y) / (2.0 * y));
    (x * x + y * y) / (2.0 * y)
  }

  /** `from_source_direction_dest`: the arc leaving `source` along `dir` that
      reaches `dest`, or a line when `dest` is (almost) straight ahead. */
  function FromSourceDirectionDest(source: Vec2, dir: Vec2, dest: Vec2, trig: Trig): (r: TrackShape)
    ensures r.Line? <==> Abs(Lateral(source, dir, dest)) < COLLINEAR_CUTOFF
    ensures r.Line? ==> r.source == source && r.direction == dir
    ensures r.Line? ==> r.length == trig.length(dest.Sub(source))
    ensures Proper(r)
  {
    if Abs(Lateral(source, dir, dest)) < COLLINEAR_CUTOFF then
      Line(source, dir, trig.length(dest.Sub(source)))
    else
      ArcFrom(source, dir, dest, trig)
  }

  /** The arc branch of `from_source_direction_dest`: center on the normal
      at `source`, start and end angles seen from the center, and a sweep
      wrapped into one turn in the sense the circle lies on. */
  function ArcFrom(source: Vec2, dir: Vec2, dest: Vec2, trig: Trig): (r: TrackShape)
    requires Abs(Lateral(source, dir, dest)) >= COLLINEAR_CUTOFF
    ensures r.Arc? && r.radius > 0.0
    ensures r.radius == Abs(SignedRadius(source, dir, dest))
    ensures r.center == source.Add(dir.Perp().Scale(SignedRadius(source, dir, dest)))
    ensures r.startAngle == trig.toAngle(source.Sub(r.center))
    ensures IsWholeMultiple(r.angleDiff - (trig.toAngle(dest.Sub(r.center)) - r.startAngle), TAU)
    ensures Lateral(source, dir, dest) > 0.0 ==> 0.0 <= r.angleDiff < TAU
    ensures Lateral(source, dir, dest) < 0.0 ==> -TAU <= r.angleDiff < 0.0
  {
    var signedRadius := SignedRadius(source, dir, dest);
    SignedRadiusSign(source, dir, dest);
    var center := source.Add(dir.Perp().Scale(signedRadius));
    var initial := trig.toAngle(source.Sub(center));
    var final := trig.toAngle(dest.Sub(center));
    Arc(initial, Sweep(final - initial, signedRadius < 0.0), Abs(signedRadius), center)
  }

  /** The angle from the start to the end of an arc, wrapped into one turn:
      `[0, TAU)` counter-clockwise, `[-TAU, 0)` clockwise. */
  function Sweep(delta: real, clockwise: bool): (r: real)
    ensures IsWholeMultiple(r - delta, TAU)
    ensures !clockwise ==> 0.0 <= r < TAU
    ensures clockwise ==> -TAU <= r < 0.0
  {
    var wrapped := RemEuclid(delta, TAU);
    if clockwise then
      ShiftByPeriod(delta, wrapped);
      wrapped - TAU
    else
      NegateWhole(delta - wrapped);
      wrapped
  }

  lemma NegateWhole(d: real)
    requires IsWholeMultiple(d, TAU)
    ensures IsWholeMultiple(-d, TAU)
  {
    var q := (d / TAU).Floor;
    assert (-d) / TAU == (-q) as real;
    IntFloor(-q);
  }

  lemma SignedRadiusSign(source: Vec2, dir: Vec2, dest: Vec2)
    requires Abs(Lateral(source, dir, dest)) >= COLLINEAR_CUTOFF
    ensures SignedRadius(source, dir, dest) > 0.0 <==> Lateral(source, dir, dest) > 0.0
    ensures SignedRadius(source, dir, dest) != 0.0
  {
    var x := Ahead(source, dir, dest);
    var y := Lateral(source, dir, dest);
    SumOfSquaresBound(x, y);
    QuotientSign(x * x + y * y, 2.0 * y);
  }

  /** Dividing a positive number keeps the divisor's sign. */
  lemma QuotientSign(n: real, den: real)
    requires n >= 0.000001 && den != 0.0
    ensures n / den > 0.0 <==> den > 0.0
    ensures n / den != 0.0
  {
    assert (n / den) * den == n;
  }

  /** Away from the collinear case the squared distance is bounded below.
      (Stated with an explicit bound: the solver rewrites `y * y > 0` into
      `y != 0` and then cannot use it.) */
  lemma SumOfSquaresBound(x: real, y: real)
    requires Abs(y) >= COLLINEAR_CUTOFF
    ensures x * x + y * y >= 0.000001
  {
    assert y * y >= 0.000001;
  }

  lemma ShiftByPeriod(a: real, rem: real)
    requires IsWholeMultiple(a - rem, TAU)
    ensures IsWholeMultiple((rem - TAU) - a, TAU)
  {
    var q := ((a - rem) / TAU).Floor;
    assert q as real == (a - rem) / TAU;
    var z := -q - 1;
    assert ((rem - TAU) - a) / TAU == z as real;
    IntFloor(z);
  }

  lemma IntFloor(z: int)
    ensures (z as real).Floor == z
  {
  }
  /** The center lies on the normal at `source`, so the arc leaves `source`
      tangent to `dir`. */
  lemma ArcCenterOnNormal(source: Vec2, dir: Vec2, dest: Vec2, trig: Trig)
    requires FromSourceDirectionDest(source, dir, dest, trig).Arc?
    ensures FromSourceDirectionDest(source, dir, dest, trig).center.Sub(source).Dot(dir) == 0.0
  {
    var k := SignedRadius(source, dir, dest);
    var c := source.Add(dir.Perp().Scale(k));
    assert c.Sub(source) == dir.Perp().Scale(k);
    assert dir.Perp().Scale(k).Dot(dir) == k * (-dir.y * dir.x + dir.x * dir.y);
  }

  /** For a unit `dir`, both `source` and `dest` lie on the arc's circle:
      their squared distance from the center is the squared radius. */
  lemma ArcThroughEndpoints(source: Vec2, dir: Vec2, dest: Vec2, trig: Trig)
    requires dir.Dot(dir) == 1.0
    requires FromSourceDirectionDest(source, dir, dest, trig).Arc?
    ensures var r := FromSourceDirectionDest(source, dir, dest, trig);
            source.Sub(r.center).Dot(source.Sub(r.center)) == r.radius * r.radius
    ensures var r := FromSourceDirectionDest(source, dir, dest, trig);
            dest.Sub(r.center).Dot(dest.Sub(r.center)) == r.radius * r.radius
  {
    var r := FromSourceDirectionDest(source, dir, dest, trig);
    var k := SignedRadius(source, dir, dest);
    assert r.center == source.Add(dir.Perp().Scale(k)) && r.radius == Abs(k);
    EndpointsOnCircle(source, dir, dest, k, r.center, r.radius);
  }

  /** The circle of signed radius `k` on the normal at `source`, with `k`
      solving the circle condition for `dest`, passes through both points. */
  lemma EndpointsOnCircle(source: Vec2, dir: Vec2, dest: Vec2, k: real, c: Vec2, rad: real)
    requires dir.Dot(dir) == 1.0
    requires 2.0 * Lateral(source, dir, dest) * k == Ahead(source, dir, dest) * Ahead(source, dir, dest)
      + Lateral(source, dir, dest) * Lateral(source, dir, dest)
    requires c == source.Add(dir.Perp().Scale(k)) && rad == Abs(k)
    ensures source.Sub(c).Dot(source.Sub(c)) == rad * rad
    ensures dest.Sub(c).Dot(dest.Sub(c)) == rad * rad
  {
    assert rad * rad == k * k by {
      AbsSquare(k);
    }
    assert source.Sub(c).Dot(source.Sub(c)) == k * k by {
      OnCircle(source, dir, k);
    }
    assert dest.Sub(c).Dot(dest.Sub(c)) == k * k by {
      var x := Ahead(source, dir, dest);
      var y := Lateral(source, dir, dest);
      CircleCondition(x, y, k);
      UnitBasis(dest.Sub(source), dir);
      EndOnCircle(source, dir, dest, k, x, y);
    }
  }

  lemma AbsSquare(k: real)
    ensures Abs(k) * Abs(k) == k * k
  {
  }

  /** The point where the circle of signed radius `k` touches the ray. */
  lemma OnCircle(source: Vec2, dir: Vec2, k: real)
    requires dir.Dot(dir) == 1.0
    ensures var c := source.Add(dir.Perp().Scale(k));
            source.Sub(c).Dot(source.Sub(c)) == k * k
  {
    var a, b := dir.x, dir.y;
    var c := source.Add(dir.Perp().Scale(k));
    assert source.Sub(c) == Vec2(b * k, -a * k);
    assert (b * k) * (b * k) + (-a * k) * (-a * k) == (a * a + b * b) * (k * k);
  }

  /** The signed radius solves `2 y k = x^2 + y^2`. */
  lemma RadiusEquation(x: real, y: real, k: real)
    requires y != 0.0 && k == (x * x + y * y) / (2.0 * y)
    ensures 2.0 * y * k == x * x + y * y
  {
    assert k * (2.0 * y) == x * x + y * y;
  }

  /** `2 y k = x^2 + y^2` says that `(x, y)` lies on the circle of radius
      `|k|` centred at `(0, k)`. */
  lemma CircleCondition(x: real, y: real, k: real)
    requires 2.0 * y * k == x * x + y * y
    ensures x * x + (y - k) * (y - k) == k * k
  {
    assert (y - k) * (y - k) == y * y - 2.0 * y * k + k * k;
  }

  lemma EndOnCircle(source: Vec2, dir: Vec2, dest: Vec2, k: real, x: real, y: real)
    requires dir.Dot(dir) == 1.0
    requires dest.Sub(source) == dir.Scale(x).Add(dir.Perp().Scale(y))
    requires x * x + (y - k) * (y - k) == k * k
    ensures var c := source.Add(dir.Perp().Scale(k));
            dest.Sub(c).Dot(dest.Sub(c)) == k * k
  {
    var c := source.Add(dir.Perp().Scale(k));
    ShiftAlongNormal(dest.Sub(source), dir, x, y, k);
    assert dest.Sub(c) == dest.Sub(source).Sub(dir.Perp().Scale(k));
    OrthoNormSquare(dir, x, y - k);
  }

  lemma ShiftAlongNormal(t: Vec2, dir: Vec2, x: real, y: real, k: real)
    requires t == dir.Scale(x).Add(dir.Perp().Scale(y))
    ensures t.Sub(dir.Perp().Scale(k)) == dir.Scale(x).Add(dir.Perp().Scale(y - k))
  {
    assert -dir.y * y - -dir.y * k == -dir.y * (y - k);
    assert dir.x * y - dir.x * k == dir.x * (y - k);
  }

  /** In the orthonormal basis `dir`, `perp(dir)` every vector splits into
      its components along the two. */
  lemma UnitBasis(t: Vec2, dir: Vec2)
    requires dir.Dot(dir) == 1.0
    ensures t == dir.Scale(t.Dot(dir)).Add(dir.Perp().Scale(t.Dot(dir.Perp())))
  {
    var a, b := dir.x, dir.y;
    assert (t.x * a + t.y * b) * a + (t.x * b - t.y * a) * b == t.x * (a * a + b * b);
    assert (t.x * a + t.y * b) * b - (t.x * b - t.y * a) * a == t.y * (a * a + b * b);
  }

  lemma OrthoNormSquare(dir: Vec2, u: real, v: real)
    requires dir.Dot(dir) == 1.0
    ensures var w := dir.Scale(u).Add(dir.Perp().Scale(v)); w.Dot(w) == u * u + v * v
  {
    var a, b := dir.x, dir.y;
    var w := dir.Scale(u).Add(dir.Perp().Scale(v));
    assert w.x == a * u - b * v && w.y == b * u + a * v;
    assert w.Dot(w) == (a * a + b * b) * (u * u + v * v);
  }
}
