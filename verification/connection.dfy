/** `create_line` and `connect_track`: joining two existing junctions with a
    straight line, a single arc, or an S-curve of two arcs and a line,
    depending on which of the two ends already has a direction. */
module Connection {
  import opened Results
  import opened Geometry
  import opened TrackShapes
  import opened Minivecs
  import opened Networks
  import opened Construction

  // ---------------------------------------------------------------------
  // Facts every successful connection establishes

  /** The common outcome of `create_line` and `connect_track` from `s` to
      `d`: the network grew, no direction that was set changed, only `s`
      and `d` among the old junctions may have gained one and both now have
      one, exactly one exit of `s` and one entrance of `d` were used, and the
      returned id is that of a new track. */
  predicate Connected(net: Network, r: Built, s: JunctionId, d: JunctionId)
    requires s < |net.junctions| && d < |net.junctions|
  {
    && Grows(net, r.net)
    && KeepsDirections(net, r.net) && DirectionsUnchangedExcept(net, r.net, {s, d})
    && r.net.junctions[s].direction.Some? && r.net.junctions[d].direction.Some?
    && ExitsUnchangedExcept(net, r.net, {s}) && EntrancesUnchangedExcept(net, r.net, {d})
    && Len(r.net.junctions[s].exits) == Len(net.junctions[s].exits) + 1
    && Len(r.net.junctions[d].entrances) == Len(net.junctions[d].entrances) + 1
    && |net.tracks| <= r.id < |r.net.tracks|
  }

  /** `cur` holds the chain `add_track` lays for `shape` from `s` to `d`,
      starting at the first new track and the first new junction of `net`. */
  predicate Laid(net: Network, cur: Network, s: JunctionId, d: JunctionId, shape: TrackShape, trig: Trig)
    requires Divisible(shape)
  {
    var n := SegmentCount(GetLength(shape));
    && |cur.tracks| == |net.tracks| + n
    && |net.junctions| + (n - 1) <= |cur.junctions|
    && TracksLaid(net, cur, s, d, shape, n, n)
    && JointsPlaced(net, cur, shape, trig, n - 1)
  }

  // ---------------------------------------------------------------------
  // create_line

  /** The straight shape `create_line` lays from `s` to `d`. */
  function LineBetween(net: Network, s: JunctionId, d: JunctionId, trig: Trig): (r: TrackShape)
    requires s < |net.junctions| && d < |net.junctions|
    ensures r.Line? && r.source == net.junctions[s].position
  {
    var delta := net.junctions[d].position.Sub(net.junctions[s].position);
    Line(net.junctions[s].position, trig.normalize(delta), trig.length(delta))
  }

  /** `create_line`: lays a straight track from `s` to `d` with `add_track`,
      then gives each end the line's direction unless it already had one. */
  method CreateLine(net: Network, s: JunctionId, d: JunctionId, trig: Trig) returns (r: Result<Built, Fault>)
    requires s < |net.junctions| && d < |net.junctions|
    ensures r.Err? <==> ExitsFull(net, s) || EntrancesFull(net, d)
    ensures r.Err? ==> r.error == if ExitsFull(net, s) then Fault.ExitListFull(s) else Fault.EntranceListFull(d)
    ensures r.Ok? ==> r.value.id == |net.tracks| && Connected(net, r.value, s, d)
    ensures r.Ok? ==> Laid(net, r.value.net, s, d, LineBetween(net, s, d, trig), trig)
    ensures r.Ok? ==> var angle := LineBetween(net, s, d, trig).direction;
      && r.value.net.junctions[s].direction == (if net.junctions[s].direction.Some? then net.junctions[s].direction else Some(angle))
      && r.value.net.junctions[d].direction == (if net.junctions[d].direction.Some? then net.junctions[d].direction else Some(angle))
    ensures r.Ok? && Valid(net) ==> Valid(r.value.net)
  {
    var shape := LineBetween(net, s, d, trig);
    var b :- AddTrack(net, s, d, shape, trig);
    var withSource := SetDirectionIfAbsent(b.net, s, shape.direction);
    var withBoth := SetDirectionIfAbsent(withSource, d, shape.direction);
    if Valid(net) {
      SetDirectionKeepsValid(b.net, s, shape.direction);
      SetDirectionKeepsValid(withSource, d, shape.direction);
    }
    LaidKept(net, b.net, withSource, s, d, shape, trig, {s});
    LaidKept(net, withSource, withBoth, s, d, shape, trig, {d});
    return Ok(Built(withBoth, b.id));
  }

  /** A change of directions among old junctions leaves a laid chain laid. */
  lemma LaidKept(net: Network, a: Network, b: Network, s: JunctionId, d: JunctionId,
                 shape: TrackShape, trig: Trig, touched: set<JunctionId>)
    requires Divisible(shape)
    requires Laid(net, a, s, d, shape, trig)
    requires Grows(a, b) && b.tracks == a.tracks && |b.junctions| == |a.junctions|
    requires DirectionsUnchangedExcept(a, b, touched)
    requires forall j :: j in touched ==> j < |net.junctions|
    ensures Laid(net, b, s, d, shape, trig)
  {
  }

  // ---------------------------------------------------------------------
  // The S-curve bend

  /** The two points where an S-curve leaves its first arc and joins its
      second. */
  datatype Bend = Bend(m1: Vec2, m2: Vec2)

  /** The side choices tried for the two turning circles, in the order the
      iterator chain yields them: `(sign_1, sign_2)` for `sign_1` and then
      `sign_2` each ranging over `-1`, `1`. */
  const BEND_SIGNS: seq<(real, real)> := [(-1.0, -1.0), (-1.0, 1.0), (1.0, -1.0), (1.0, 1.0)]

  /** Candidate `k`: circles of radius `MAX_RADIUS` tangent to `a1` at the
      source and to `a2` at the destination, on the sides `BEND_SIGNS[k]`
      picks, and the points where the line between their centers, shifted
      sideways by the radius, touches them. */
  function Candidate(sp: Vec2, a1: Vec2, dp: Vec2, a2: Vec2, trig: Trig, k: nat): Bend
    requires k < |BEND_SIGNS|
  {
    var (sign1, sign2) := BEND_SIGNS[k];
    var c1 := sp.Add(a1.Perp().Scale(sign1).Scale(MAX_RADIUS));
    var c2 := dp.Add(a2.Perp().Scale(sign2).Scale(MAX_RADIUS));
    var direction := trig.normalize(c2.Sub(c1));
    Bend(c1.Sub(direction.Perp().Scale(MAX_RADIUS).Scale(sign1)),
         c2.Sub(direction.Perp().Scale(MAX_RADIUS).Scale(sign2)))
  }

  /** The filter of the bend search: each of the three legs source → m1,
      m1 → m2 and m2 → destination has a positive component along the
      vector from source to destination. */
  predicate Advances(sp: Vec2, dp: Vec2, b: Bend) {
    var target := dp.Sub(sp);
    && b.m1.Sub(sp).Dot(target) > 0.0
    && b.m2.Sub(b.m1).Dot(target) > 0.0
    && dp.Sub(b.m2).Dot(target) > 0.0
  }

  /** The first candidate from `from` on that passes the filter. */
  function FirstAdvancing(sp: Vec2, a1: Vec2, dp: Vec2, a2: Vec2, trig: Trig, from: nat): (r: Option<nat>)
    requires from <= |BEND_SIGNS|
    decreases |BEND_SIGNS| - from
    ensures r.Some? ==> from <= r.value < |BEND_SIGNS| && Advances(sp, dp, Candidate(sp, a1, dp, a2, trig, r.value))
    ensures r.Some? ==> forall k :: from <= k < r.value ==> !Advances(sp, dp, Candidate(sp, a1, dp, a2, trig, k))
    ensures r.None? ==> forall k :: from <= k < |BEND_SIGNS| ==> !Advances(sp, dp, Candidate(sp, a1, dp, a2, trig, k))
  {
    if from == |BEND_SIGNS| then None
    else if Advances(sp, dp, Candidate(sp, a1, dp, a2, trig, from)) then Some(from)
    else FirstAdvancing(sp, a1, dp, a2, trig, from + 1)
  }

  /** `filter_map(...).next()`: the first candidate, in `BEND_SIGNS` order,
      that passes the filter; `None` is where the source's `unwrap` panics. */
  function FindBend(sp: Vec2, a1: Vec2, dp: Vec2, a2: Vec2, trig: Trig): (r: Option<Bend>)
    ensures r.None? <==> forall k :: 0 <= k < |BEND_SIGNS| ==> !Advances(sp, dp, Candidate(sp, a1, dp, a2, trig, k))
    ensures r.Some? ==> Advances(sp, dp, r.value)
    ensures r.Some? ==> exists k :: (0 <= k < |BEND_SIGNS| && r.value == Candidate(sp, a1, dp, a2, trig, k)
      && forall i :: 0 <= i < k ==> !Advances(sp, dp, Candidate(sp, a1, dp, a2, trig, i)))
  {
    match FirstAdvancing(sp, a1, dp, a2, trig, 0)
    case None => None
    case Some(k) => Some(Candidate(sp, a1, dp, a2, trig, k))
  }

  lemma DotOfDifference(a: Vec2, b: Vec2, t: Vec2)
    ensures a.Sub(b).Dot(t) == a.Dot(t) - b.Dot(t)
  {
  }

  /** A bend that passes the filter, as the one `FindBend` returns does,
      is ordered along the way: projected on the source-to-destination
      vector, the source comes before `m1`, `m1` before `m2` and `m2`
      before the destination. */
  lemma BendProgresses(sp: Vec2, dp: Vec2, b: Bend)
    requires Advances(sp, dp, b)
    ensures var t := dp.Sub(sp); sp.Dot(t) < b.m1.Dot(t) < b.m2.Dot(t) < dp.Dot(t)
  {
    var t := dp.Sub(sp);
    DotOfDifference(b.m1, sp, t);
    DotOfDifference(b.m2, b.m1, t);
    DotOfDifference(dp, b.m2, t);
  }

  /** Two junctions at the same place admit no bend: every leg is
      orthogonal to the zero vector, so connecting two directed junctions at
      one position always hits the `unwrap` panic. */
  lemma NoBendInPlace(p: Vec2, a1: Vec2, a2: Vec2, trig: Trig)
    ensures FindBend(p, a1, p, a2, trig).None?
  {
    var t := p.Sub(p);
    assert t == Vec2(0.0, 0.0);
    forall k | 0 <= k < |BEND_SIGNS|
      ensures !Advances(p, p, Candidate(p, a1, p, a2, trig, k))
    {
      var b := Candidate(p, a1, p, a2, trig, k);
      assert b.m1.Sub(p).Dot(t) == 0.0;
    }
  }

  // ---------------------------------------------------------------------
  // connect_track

  /** The arc `connect_track` lays when only the source has a direction. */
  function ArcFromSource(net: Network, s: JunctionId, d: JunctionId, trig: Trig): (r: TrackShape)
    requires s < |net.junctions| && d < |net.junctions| && net.junctions[s].direction.Some?
    ensures Proper(r)
  {
    FromSourceDirectionDest(net.junctions[s].position, net.junctions[s].direction.value, net.junctions[d].position, trig)
  }

  /** The arc `connect_track` lays when only the destination has a
      direction: built backwards from the destination against its
      direction, then reversed. */
  function ArcIntoDestination(net: Network, s: JunctionId, d: JunctionId, trig: Trig): (r: TrackShape)
    requires s < |net.junctions| && d < |net.junctions| && net.junctions[d].direction.Some?
    ensures Proper(r)
  {
    Reverse(FromSourceDirectionDest(net.junctions[d].position, net.junctions[d].direction.value.Neg(),
                                    net.junctions[s].position, trig))
  }

  /** Which of the four branches of `connect_track` applies. */
  datatype Plan = Straight | FromSource(arc: TrackShape) | IntoDestination(arc: TrackShape) | SCurve(bend: Bend) | NoBendFound

  function PlanFor(net: Network, s: JunctionId, d: JunctionId, trig: Trig): Plan
    requires s < |net.junctions| && d < |net.junctions|
  {
    var (sd, dd) := (net.junctions[s].direction, net.junctions[d].direction);
    if sd.None? && dd.None? then Straight
    else if dd.None? then FromSource(ArcFromSource(net, s, d, trig))
    else if sd.None? then IntoDestination(ArcIntoDestination(net, s, d, trig))
    else match FindBend(net.junctions[s].position, sd.value, net.junctions[d].position, dd.value, trig)
      case None => NoBendFound
      case Some(bend) => SCurve(bend)
  }

  /** Why `connect_track` aborts, if it does: the bend search comes first,
      then the source's exits, then the destination's entrances. */
  function ConnectFault(net: Network, s: JunctionId, d: JunctionId, trig: Trig): Option<Fault>
    requires s < |net.junctions| && d < |net.junctions|
  {
    if PlanFor(net, s, d, trig).NoBendFound? then Some(Fault.NoBend)
    else if ExitsFull(net, s) then Some(Fault.ExitListFull(s))
    else if EntrancesFull(net, d) then Some(Fault.EntranceListFull(d))
    else None
  }

  /** `connect_track`, dispatching on which ends already have a direction. */
  method ConnectTrack(net: Network, s: JunctionId, d: JunctionId, trig: Trig) returns (r: Result<Built, Fault>)
    requires s < |net.junctions| && d < |net.junctions|
    ensures r.Err? <==> ConnectFault(net, s, d, trig).Some?
    ensures r.Err? ==> r.error == ConnectFault(net, s, d, trig).value
    ensures r.Ok? ==> Connected(net, r.value, s, d)
    ensures r.Ok? && Valid(net) ==> Valid(r.value.net)
    ensures r.Ok? && PlanFor(net, s, d, trig).Straight? ==> var angle := LineBetween(net, s, d, trig).direction;
      && r.value.id == |net.tracks| && Laid(net, r.value.net, s, d, LineBetween(net, s, d, trig), trig)
      && r.value.net.junctions[s].direction == Some(angle) && r.value.net.junctions[d].direction == Some(angle)
    ensures r.Ok? && PlanFor(net, s, d, trig).FromSource? ==> var arc := PlanFor(net, s, d, trig).arc;
      && r.value.id == |net.tracks| && Laid(net, r.value.net, s, d, arc, trig)
      && r.value.net.junctions[d].direction == Some(trig.fromAngle(GetTransform(arc, GetLength(arc), trig).heading))
    ensures r.Ok? && PlanFor(net, s, d, trig).IntoDestination? ==> var arc := PlanFor(net, s, d, trig).arc;
      && r.value.id == |net.tracks| && Laid(net, r.value.net, s, d, arc, trig)
      && r.value.net.junctions[s].direction == Some(trig.fromAngle(GetTransform(arc, 0.0, trig).heading))
    ensures r.Ok? && PlanFor(net, s, d, trig).SCurve? ==> SCurveLaid(net, r.value, s, PlanFor(net, s, d, trig).bend)
  {
    var plan := PlanFor(net, s, d, trig);
    match plan
    case Straight =>
      r := CreateLine(net, s, d, trig);
    case FromSource(_) =>
      r := ConnectFromSource(net, s, d, trig);
    case IntoDestination(_) =>
      r := ConnectIntoDestination(net, s, d, trig);
    case SCurve(bend) =>
      r := ConnectSCurve(net, s, d, bend, trig);
    case NoBendFound =>
      r := Err(Fault.NoBend);
  }

  /** The branch with only the source directed: the destination takes the
      arc's final heading, then `add_track` lays the arc. */
  method ConnectFromSource(net: Network, s: JunctionId, d: JunctionId, trig: Trig) returns (r: Result<Built, Fault>)
    requires s < |net.junctions| && d < |net.junctions|
    requires net.junctions[s].direction.Some? && net.junctions[d].direction.None?
    ensures r.Err? <==> ExitsFull(net, s) || EntrancesFull(net, d)
    ensures r.Err? ==> r.error == if ExitsFull(net, s) then Fault.ExitListFull(s) else Fault.EntranceListFull(d)
    ensures r.Ok? ==> var arc := ArcFromSource(net, s, d, trig);
      && r.value.id == |net.tracks| && Connected(net, r.value, s, d) && Laid(net, r.value.net, s, d, arc, trig)
      && r.value.net.junctions[d].direction == Some(trig.fromAngle(GetTransform(arc, GetLength(arc), trig).heading))
    ensures r.Ok? && Valid(net) ==> Valid(r.value.net)
  {
    var arc := ArcFromSource(net, s, d, trig);
    var directed := SetDirection(net, d, trig.fromAngle(GetTransform(arc, GetLength(arc), trig).heading));
    var b :- AddTrack(directed, s, d, arc, trig);
    if Valid(net) {
      SetDirectionKeepsValid(net, d, trig.fromAngle(GetTransform(arc, GetLength(arc), trig).heading));
    }
    ArcConnected(net, directed, b, s, d, d, arc, trig);
    return Ok(b);
  }

  /** The branch with only the destination directed: the source takes the
      reversed arc's initial heading, then `add_track` lays the arc. */
  method ConnectIntoDestination(net: Network, s: JunctionId, d: JunctionId, trig: Trig) returns (r: Result<Built, Fault>)
    requires s < |net.junctions| && d < |net.junctions|
    requires net.junctions[s].direction.None? && net.junctions[d].direction.Some?
    ensures r.Err? <==> ExitsFull(net, s) || EntrancesFull(net, d)
    ensures r.Err? ==> r.error == if ExitsFull(net, s) then Fault.ExitListFull(s) else Fault.EntranceListFull(d)
    ensures r.Ok? ==> var arc := ArcIntoDestination(net, s, d, trig);
      && r.value.id == |net.tracks| && Connected(net, r.value, s, d) && Laid(net, r.value.net, s, d, arc, trig)
      && r.value.net.junctions[s].direction == Some(trig.fromAngle(GetTransform(arc, 0.0, trig).heading))
    ensures r.Ok? && Valid(net) ==> Valid(r.value.net)
  {
    var arc := ArcIntoDestination(net, s, d, trig);
    var directed := SetDirection(net, s, trig.fromAngle(GetTransform(arc, 0.0, trig).heading));
    var b :- AddTrack(directed, s, d, arc, trig);
    if Valid(net) {
      SetDirectionKeepsValid(net, s, trig.fromAngle(GetTransform(arc, 0.0, trig).heading));
    }
    ArcConnected(net, directed, b, s, d, s, arc, trig);
    return Ok(b);
  }

  /** Directing the undirected end `j` and then laying a chain from `s` to
      `d` connects them. */
  lemma ArcConnected(net: Network, directed: Network, b: Built, s: JunctionId, d: JunctionId, j: JunctionId,
                     shape: TrackShape, trig: Trig)
    requires s < |net.junctions| && d < |net.junctions| && Divisible(shape)
    requires (j == s && net.junctions[d].direction.Some?) || (j == d && net.junctions[s].direction.Some?)
    requires net.junctions[j].direction.None?
    requires |directed.junctions| == |net.junctions| && directed.tracks == net.tracks && Grows(net, directed)
    requires DirectionsUnchangedExcept(net, directed, {j}) && directed.junctions[j].direction.Some?
    requires ExitsUnchangedExcept(net, directed, {}) && EntrancesUnchangedExcept(net, directed, {})
    requires b.id == |directed.tracks| && Grows(directed, b.net) && DirectionsUnchangedExcept(directed, b.net, {})
    requires ExitsUnchangedExcept(directed, b.net, {s}) && EntrancesUnchangedExcept(directed, b.net, {d})
    requires Len(b.net.junctions[s].exits) == Len(directed.junctions[s].exits) + 1
    requires Len(b.net.junctions[d].entrances) == Len(directed.junctions[d].entrances) + 1
    requires var n := SegmentCount(GetLength(shape));
      && |b.net.tracks| == |directed.tracks| + n && |b.net.junctions| == |directed.junctions| + (n - 1)
      && TracksLaid(directed, b.net, s, d, shape, n, n) && JointsPlaced(directed, b.net, shape, trig, n - 1)
    ensures Connected(net, b, s, d) && Laid(net, b.net, s, d, shape, trig)
  {
  }

  /** The S-curve's layout: the two new junctions come first and sit on the
      bend points, the first new track leaves the source, and the returned
      track is the line leaving the first bend point. */
  predicate SCurveLaid(net: Network, r: Built, s: JunctionId, bend: Bend) {
    && |net.junctions| + 2 <= |r.net.junctions| && |net.tracks| < |r.net.tracks| && r.id < |r.net.tracks|
    && r.net.junctions[|net.junctions|].position == bend.m1
    && r.net.junctions[|net.junctions| + 1].position == bend.m2
    && r.net.tracks[|net.tracks|].source == s
    && r.net.tracks[r.id].source == |net.junctions|
  }

  /** The branch with both ends directed: two junctions at the bend points,
      an arc from the source to the first (only the source directed), an
      arc from the second to the destination (only the destination
      directed), and a line between them. The two inner connections are the
      recursive calls of the source; the preconditions of the arc methods
      are exactly what sends those calls to the single-arc branches. */
  method ConnectSCurve(net: Network, s: JunctionId, d: JunctionId, bend: Bend, trig: Trig) returns (r: Result<Built, Fault>)
    requires s < |net.junctions| && d < |net.junctions|
    requires net.junctions[s].direction.Some? && net.junctions[d].direction.Some?
    ensures r.Err? <==> ExitsFull(net, s) || EntrancesFull(net, d)
    ensures r.Err? ==> r.error == if ExitsFull(net, s) then Fault.ExitListFull(s) else Fault.EntranceListFull(d)
    ensures r.Ok? ==> Connected(net, r.value, s, d) && SCurveLaid(net, r.value, s, bend)
    ensures r.Ok? && Valid(net) ==> Valid(r.value.net)
  {
    var j1 := AddJunction(net, bend.m1);
    var j2 := AddJunction(j1.net, bend.m2);
    var base := j2.net;
    if Valid(net) {
      JunctionKeepsValid(net, bend.m1);
      JunctionKeepsValid(j1.net, bend.m2);
    }
    var a, b := |net.junctions|, |net.junctions| + 1;
    BendJunctions(net, base, s, d, bend, a, b);
    var toBend := ArcToBend(base, s, a, trig);
    if toBend.Err? {
      return Err(toBend.error);
    }
    var first := toBend.value;
    MiddleReady(net, base, first, s, d, a, b);
    var fromBend := ArcFromBend(first.net, b, d, trig);
    if fromBend.Err? {
      return Err(fromBend.error);
    }
    var second := fromBend.value;
    LineReady(net, base, first, second, s, d, a, b);
    var line := CreateLine(second.net, a, b, trig);
    assert line.Ok?;
    SCurveComposes(net, base, first, second, line.value, s, d, bend, a, b);
    return Ok(line.value);
  }

  /** `connect_track(source_id, junction_1)` inside the S-curve branch:
      the source is directed and the bend junction is not, so this is the
      single-arc branch. Only the facts the S-curve needs are kept. */
  method ArcToBend(net: Network, s: JunctionId, a: JunctionId, trig: Trig) returns (r: Result<Built, Fault>)
    requires s < |net.junctions| && a < |net.junctions|
    requires net.junctions[s].direction.Some? && net.junctions[a].direction.None?
    ensures r.Err? <==> ExitsFull(net, s) || EntrancesFull(net, a)
    ensures r.Err? ==> r.error == if ExitsFull(net, s) then Fault.ExitListFull(s) else Fault.EntranceListFull(a)
    ensures r.Ok? ==> Connected(net, r.value, s, a) && r.value.id == |net.tracks|
    ensures r.Ok? ==> |net.tracks| < |r.value.net.tracks| && r.value.net.tracks[|net.tracks|].source == s
    ensures r.Ok? && Valid(net) ==> Valid(r.value.net)
  {
    r := ConnectFromSource(net, s, a, trig);
    if r.Ok? {
      FirstTrackLeaves(net, r.value.net, s, a, ArcFromSource(net, s, a, trig), trig);
    }
  }

  /** `connect_track(junction_2, destination_id)` inside the S-curve
      branch: only the destination is directed. */
  method ArcFromBend(net: Network, b: JunctionId, d: JunctionId, trig: Trig) returns (r: Result<Built, Fault>)
    requires b < |net.junctions| && d < |net.junctions|
    requires net.junctions[b].direction.None? && net.junctions[d].direction.Some?
    ensures r.Err? <==> ExitsFull(net, b) || EntrancesFull(net, d)
    ensures r.Err? ==> r.error == if ExitsFull(net, b) then Fault.ExitListFull(b) else Fault.EntranceListFull(d)
    ensures r.Ok? ==> Connected(net, r.value, b, d)
    ensures r.Ok? && Valid(net) ==> Valid(r.value.net)
  {
    r := ConnectIntoDestination(net, b, d, trig);
  }

  /** The first track of a laid chain leaves its source. */
  lemma FirstTrackLeaves(net: Network, cur: Network, s: JunctionId, d: JunctionId, shape: TrackShape, trig: Trig)
    requires Divisible(shape) && Laid(net, cur, s, d, shape, trig)
    ensures |net.tracks| < |cur.tracks| && cur.tracks[|net.tracks|].source == s
  {
    var n := SegmentCount(GetLength(shape));
    assert TracksLaid(net, cur, s, d, shape, n, n);
    assert cur.tracks[|net.tracks|].source == ChainNode(s, |net.junctions|, d, n, 0);
  }

  /** The two bend junctions appended to `net`. */
  lemma BendJunctions(net: Network, base: Network, s: JunctionId, d: JunctionId, bend: Bend, a: JunctionId, b: JunctionId)
    requires a == |net.junctions| && b == a + 1
    requires s < a && d < a
    requires base == AddJunction(AddJunction(net, bend.m1).net, bend.m2).net
    ensures |base.junctions| == a + 2 && base.tracks == net.tracks && Grows(net, base)
    ensures base.junctions[a] == NewJunction(a, bend.m1)
    ensures base.junctions[b] == NewJunction(b, bend.m2)
    ensures forall j :: 0 <= j < a ==> base.junctions[j] == net.junctions[j]
  {
  }

  /** After the first arc, the second bend junction is still bare and the
      destination's lists are those of `net`. */
  lemma MiddleReady(net: Network, base: Network, first: Built, s: JunctionId, d: JunctionId, a: JunctionId, b: JunctionId)
    requires a == |net.junctions| && b == a + 1
    requires s < a && d < a
    requires |base.junctions| == a + 2 && Grows(net, base)
    requires base.junctions[b] == NewJunction(b, base.junctions[b].position)
    requires forall j :: 0 <= j < a ==> base.junctions[j] == net.junctions[j]
    requires base.junctions[a].exits == New(ADJACENCY_CAPACITY, 0)
    requires base.junctions[d].direction.Some?
    requires Connected(base, first, s, a)
    ensures b < |first.net.junctions|
    ensures first.net.junctions[b].direction.None? && first.net.junctions[d].direction.Some?
    ensures first.net.junctions[b].exits == New(ADJACENCY_CAPACITY, 0)
    ensures first.net.junctions[b].entrances == New(ADJACENCY_CAPACITY, 0)
    ensures first.net.junctions[d].entrances == net.junctions[d].entrances
    ensures first.net.junctions[a].exits == New(ADJACENCY_CAPACITY, 0)
  {
  }

  /** After the second arc, the line between the bend junctions has a free
      exit and a free entrance. */
  lemma LineReady(net: Network, base: Network, first: Built, second: Built, s: JunctionId, d: JunctionId,
                  a: JunctionId, b: JunctionId)
    requires a == |net.junctions| && b == a + 1
    requires s < a && d < a
    requires |base.junctions| == a + 2 && Grows(net, base) && Grows(base, first.net)
    requires first.net.junctions[b].entrances == New(ADJACENCY_CAPACITY, 0)
    requires first.net.junctions[a].exits == New(ADJACENCY_CAPACITY, 0)
    requires Connected(first.net, second, b, d)
    ensures b < |second.net.junctions|
    ensures !ExitsFull(second.net, a) && !EntrancesFull(second.net, b)
  {
  }

  /** The three connections of an S-curve compose into one connection. */
  lemma SCurveComposes(net: Network, base: Network, first: Built, second: Built, line: Built,
                       s: JunctionId, d: JunctionId, bend: Bend, a: JunctionId, b: JunctionId)
    requires a == |net.junctions| && b == a + 1
    requires s < a && d < a
    requires net.junctions[s].direction.Some? && net.junctions[d].direction.Some?
    requires |base.junctions| == a + 2 && base.tracks == net.tracks && Grows(net, base)
    requires base.junctions[a].position == bend.m1 && base.junctions[b].position == bend.m2
    requires forall j :: 0 <= j < a ==> base.junctions[j] == net.junctions[j]
    requires Connected(base, first, s, a) && first.id == |base.tracks|
    requires b < |first.net.junctions|
    requires Connected(first.net, second, b, d)
    requires b < |second.net.junctions|
    requires Connected(second.net, line, a, b) && line.id == |second.net.tracks|
    requires |net.tracks| < |first.net.tracks| && first.net.tracks[|net.tracks|].source == s
    requires line.net.tracks[line.id].source == a
    ensures Connected(net, line, s, d) && SCurveLaid(net, line, s, bend)
  {
  }
}
