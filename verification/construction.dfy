/** Building the network: `add_track` cuts a shape into roughly equal
    segments joined by fresh junctions, `create_line` lays a straight track,
    and `connect_track` chooses between a line, a single arc and an S-curve
    of two arcs and a line, depending on which ends already have a
    direction. */
module Construction {
  import opened Results
  import opened Geometry
  import opened TrackShapes
  import opened Minivecs
  import opened Networks

  /** The length `add_track` aims for when cutting a shape into segments. */
  const IDEAL_SEGMENT_LENGTH: real := 3.0
  /** The turning radius of the two arcs of an S-curve. */
  const MAX_RADIUS: real := 4.0

  // ---------------------------------------------------------------------
  // add_track

  /** `(length / IDEAL_SEGMENT_LENGTH).floor() as usize`, raised to at
      least one. The cast saturates, so a negative quotient gives zero. */
  function SegmentCount(length: real): (n: nat)
    ensures n >= 1
    ensures length < 2.0 * IDEAL_SEGMENT_LENGTH ==> n == 1
    ensures length >= IDEAL_SEGMENT_LENGTH ==>
      n as real * IDEAL_SEGMENT_LENGTH <= length < (n as real + 1.0) * IDEAL_SEGMENT_LENGTH
  {
    var q := (length / IDEAL_SEGMENT_LENGTH).Floor;
    if q < 1 then 1 else q
  }

  /** Every segment of a track at least one ideal length long is between
      one and two ideal lengths; shorter tracks are a single segment. */
  lemma SegmentLengthBounds(length: real)
    requires length >= IDEAL_SEGMENT_LENGTH
    ensures var n := SegmentCount(length) as real;
      IDEAL_SEGMENT_LENGTH <= length / n < 2.0 * IDEAL_SEGMENT_LENGTH
  {
    var n := SegmentCount(length) as real;
    QuotientBounds(length, n, IDEAL_SEGMENT_LENGTH);
  }

  /** `n` whole pieces of size `u` fit in `length` but `n + 1` do not, so a
      share of `length / n` is between `u` and `2 u`. */
  lemma QuotientBounds(length: real, n: real, u: real)
    requires n >= 1.0 && u > 0.0
    requires n * u <= length < (n + 1.0) * u
    ensures u <= length / n < 2.0 * u
  {
    var q := length / n;
    assert q * n == length;
    assert (q - u) * n >= 0.0;
    assert (n + 1.0) * u <= 2.0 * n * u;
    assert (2.0 * u - q) * n > 0.0;
  }

  /** The distance along the shape where segment `i` begins. */
  function Cut(segmentLength: real, i: nat): real {
    i as real * segmentLength
  }

  /** Segment `i` of a shape cut into pieces of `segmentLength`. */
  function Piece(shape: TrackShape, segmentLength: real, i: nat): (r: TrackShape)
    requires Divisible(shape)
    ensures Divisible(r) && (Proper(shape) ==> Proper(r))
  {
    Subshape(shape, Cut(segmentLength, i), Cut(segmentLength, i + 1))
  }

  /** Node `i` of a chain of `m` segments from `first` to `last` through
      the new junctions `start`, `start + 1`, … */
  function ChainNode(first: JunctionId, start: JunctionId, last: JunctionId, m: nat, i: nat): JunctionId {
    if i == 0 then first else if i == m then last else start + i - 1
  }

  /** The length of each of the equal segments `add_track` cuts. */
  function SegmentLength(shape: TrackShape): real {
    GetLength(shape) / SegmentCount(GetLength(shape)) as real
  }

  /** The segment length is positive whenever the shape has length. */
  lemma SegmentLengthPositive(shape: TrackShape)
    requires GetLength(shape) > 0.0
    ensures SegmentLength(shape) > 0.0
    ensures Cut(SegmentLength(shape), SegmentCount(GetLength(shape))) == GetLength(shape)
  {
    var n := SegmentCount(GetLength(shape)) as real;
    assert n >= 1.0;
    assert n * (GetLength(shape) / n) == GetLength(shape);
  }

  /** Consecutive pieces meet: piece `i` ends, and piece `i + 1` starts,
      at the cut `i + 1` of the whole shape, with the same heading. This is
      what places every joint of `add_track` on the curve. */
  lemma SegmentsMeet(shape: TrackShape, trig: Trig, i: nat)
    requires Proper(shape) && GetLength(shape) > 0.0
    ensures var seg := SegmentLength(shape); var p := Piece(shape, seg, i);
      GetTransform(p, GetLength(p), trig) == GetTransform(shape, Cut(seg, i + 1), trig)
    ensures var seg := SegmentLength(shape);
      GetTransform(Piece(shape, seg, i + 1), 0.0, trig) == GetTransform(shape, Cut(seg, i + 1), trig)
  {
    var seg := SegmentLength(shape);
    assert seg > 0.0 by {
      SegmentLengthPositive(shape);
    }
    CutStep(seg, i);
    CutStep(seg, i + 1);
    var p := Piece(shape, seg, i);
    assert GetLength(p) == seg;
    assert GetTransform(p, GetLength(p), trig) == GetTransform(shape, Cut(seg, i + 1), trig) by {
      SubshapeTransform(shape, Cut(seg, i), Cut(seg, i + 1), seg, trig);
    }
    assert GetTransform(Piece(shape, seg, i + 1), 0.0, trig) == GetTransform(shape, Cut(seg, i + 1), trig) by {
      SubshapeTransform(shape, Cut(seg, i + 1), Cut(seg, i + 2), 0.0, trig);
    }
  }

  /** Consecutive cuts are one segment length apart. */
  lemma CutStep(seg: real, i: nat)
    ensures Cut(seg, i + 1) == Cut(seg, i) + seg
  {
    assert (i + 1) as real * seg == i as real * seg + seg;
  }

  /** The chain of pieces spans the shape: the first piece starts where the
      shape starts and the last one ends where the shape ends. */
  lemma PiecesSpanShape(shape: TrackShape, trig: Trig)
    requires Proper(shape) && GetLength(shape) > 0.0
    ensures var seg := SegmentLength(shape);
      GetTransform(Piece(shape, seg, 0), 0.0, trig) == GetTransform(shape, 0.0, trig)
    ensures var seg := SegmentLength(shape); var n := SegmentCount(GetLength(shape));
      var p := Piece(shape, seg, n - 1);
      GetTransform(p, GetLength(p), trig) == GetTransform(shape, GetLength(shape), trig)
  {
    var seg := SegmentLength(shape);
    var n := SegmentCount(GetLength(shape));
    SegmentLengthPositive(shape);
    assert Cut(seg, 0) == 0.0;
    assert Cut(seg, 1) == seg;
    SubshapeTransform(shape, Cut(seg, 0), Cut(seg, 1), 0.0, trig);
    SegmentsMeet(shape, trig, n - 1);
  }

  /** Tracks `|net.tracks|` … `|net.tracks| + done - 1` of `cur` are the
      first `done` segments of a chain of `n` from `source` to
      `destination`, each listing no trains yet. */
  predicate TracksLaid(net: Network, cur: Network, source: JunctionId, destination: JunctionId,
                       shape: TrackShape, n: nat, done: nat)
    requires Divisible(shape)
  {
    && |net.tracks| + done <= |cur.tracks|
    && forall t :: |net.tracks| <= t < |net.tracks| + done ==>
         var i := t - |net.tracks|;
         cur.tracks[t] == Track(t, ChainNode(source, |net.junctions|, destination, n, i),
                                ChainNode(source, |net.junctions|, destination, n, i + 1), [],
                                GetLength(Piece(shape, SegmentLength(shape), i)), Piece(shape, SegmentLength(shape), i))
  }

  /** Junctions `|net.junctions|` … `|net.junctions| + count - 1` of `cur`
      sit at the inner cuts of the shape, facing along it. */
  predicate JointsPlaced(net: Network, cur: Network, shape: TrackShape, trig: Trig, count: nat)
    requires Divisible(shape)
  {
    && |net.junctions| + count <= |cur.junctions|
    && forall j :: |net.junctions| <= j < |net.junctions| + count ==>
         var at := GetTransform(shape, Cut(SegmentLength(shape), j - |net.junctions| + 1), trig);
         cur.junctions[j].position == at.position && cur.junctions[j].direction == Some(trig.fromAngle(at.heading))
  }

  /** `add_track`: cuts `shape` into `SegmentCount` equal pieces; every
      piece but the last ends at a new junction placed at the cut with the
      direction of the shape there, and the last ends at `destination`.
      Returns the id of the first segment. It fails exactly when the
      source has no free exit or the destination no free entrance. */
  method AddTrack(net: Network, source: JunctionId, destination: JunctionId, shape: TrackShape, trig: Trig)
    returns (r: Result<Built, Fault>)
    requires source < |net.junctions| && destination < |net.junctions|
    requires Divisible(shape)
    ensures r.Err? <==> ExitsFull(net, source) || EntrancesFull(net, destination)
    ensures r.Err? ==> r.error == if ExitsFull(net, source) then Fault.ExitListFull(source) else Fault.EntranceListFull(destination)
    ensures r.Ok? ==> r.value.id == |net.tracks|
    ensures r.Ok? ==> var n := SegmentCount(GetLength(shape));
      && |r.value.net.tracks| == |net.tracks| + n
      && |r.value.net.junctions| == |net.junctions| + (n - 1)
      && TracksLaid(net, r.value.net, source, destination, shape, n, n)
      && JointsPlaced(net, r.value.net, shape, trig, n - 1)
    ensures r.Ok? ==> Grows(net, r.value.net) && DirectionsUnchangedExcept(net, r.value.net, {})
    ensures r.Ok? ==> ExitsUnchangedExcept(net, r.value.net, {source})
    ensures r.Ok? ==> EntrancesUnchangedExcept(net, r.value.net, {destination})
    ensures r.Ok? ==> Len(r.value.net.junctions[source].exits) == Len(net.junctions[source].exits) + 1
    ensures r.Ok? ==> Len(r.value.net.junctions[destination].entrances) == Len(net.junctions[destination].entrances) + 1
    ensures r.Ok? && Valid(net) ==> Valid(r.value.net)
  {
    var n := SegmentCount(GetLength(shape));
    var laid :- AddJoints(net, source, destination, shape, trig);
    var (cur, last) := laid;
    var piece := Piece(shape, SegmentLength(shape), n - 1);
    var b :- AddTrackSegment(cur, last, destination, piece);
    if Valid(net) {
      SegmentKeepsValid(cur, last, destination, piece);
    }
    ChainCompletes(net, cur, b.net, shape, trig, source, destination, n, last);
    return Ok(Built(b.net, |net.tracks|));
  }

  /** Appending one more joint and the segment leading to it extends the
      chain by one. */
  lemma ChainGrows(net: Network, cur: Network, next: Network, shape: TrackShape, trig: Trig,
                   source: JunctionId, destination: JunctionId, n: nat, seg: nat, last: JunctionId, id: JunctionId)
    requires Divisible(shape) && seg < n - 1
    requires |cur.tracks| == |net.tracks| + seg && |cur.junctions| == |net.junctions| + seg
    requires last == ChainNode(source, |net.junctions|, destination, n, seg)
    requires TracksLaid(net, cur, source, destination, shape, n, seg) && JointsPlaced(net, cur, shape, trig, seg)
    requires id == |cur.junctions| && |next.junctions| == |cur.junctions| + 1 && Grows(cur, next)
    requires DirectionsUnchangedExcept(cur, next, {})
    requires var piece := Piece(shape, SegmentLength(shape), seg);
      next.tracks == cur.tracks + [Track(|cur.tracks|, last, id, [], GetLength(piece), piece)]
    requires var at := GetTransform(shape, Cut(SegmentLength(shape), seg + 1), trig);
      next.junctions[id].position == at.position && next.junctions[id].direction == Some(trig.fromAngle(at.heading))
    ensures TracksLaid(net, next, source, destination, shape, n, seg + 1)
    ensures JointsPlaced(net, next, shape, trig, seg + 1)
  {
    assert ChainNode(source, |net.junctions|, destination, n, seg + 1) == id;
    forall t | |net.tracks| <= t < |net.tracks| + seg + 1
      ensures var i := t - |net.tracks|;
        next.tracks[t] == Track(t, ChainNode(source, |net.junctions|, destination, n, i),
                                ChainNode(source, |net.junctions|, destination, n, i + 1), [],
                                GetLength(Piece(shape, SegmentLength(shape), i)), Piece(shape, SegmentLength(shape), i))
    {
      if t < |net.tracks| + seg {
        assert next.tracks[t] == cur.tracks[t];
      }
    }
  }

  /** The segment into `destination` completes the chain. */
  lemma ChainCompletes(net: Network, cur: Network, next: Network, shape: TrackShape, trig: Trig,
                       source: JunctionId, destination: JunctionId, n: nat, last: JunctionId)
    requires Divisible(shape) && n >= 1
    requires |cur.tracks| == |net.tracks| + (n - 1) && |cur.junctions| == |net.junctions| + (n - 1)
    requires last == ChainNode(source, |net.junctions|, destination, n, n - 1)
    requires TracksLaid(net, cur, source, destination, shape, n, n - 1) && JointsPlaced(net, cur, shape, trig, n - 1)
    requires Grows(cur, next) && DirectionsUnchangedExcept(cur, next, {}) && |next.junctions| == |cur.junctions|
    requires var piece := Piece(shape, SegmentLength(shape), n - 1);
      next.tracks == cur.tracks + [Track(|cur.tracks|, last, destination, [], GetLength(piece), piece)]
    ensures TracksLaid(net, next, source, destination, shape, n, n)
    ensures JointsPlaced(net, next, shape, trig, n - 1)
  {
    forall t | |net.tracks| <= t < |net.tracks| + n
      ensures var i := t - |net.tracks|;
        next.tracks[t] == Track(t, ChainNode(source, |net.junctions|, destination, n, i),
                                ChainNode(source, |net.junctions|, destination, n, i + 1), [],
                                GetLength(Piece(shape, SegmentLength(shape), i)), Piece(shape, SegmentLength(shape), i))
    {
      if t < |net.tracks| + (n - 1) {
        assert next.tracks[t] == cur.tracks[t];
      }
    }
  }

  /** What one joint step leaves alone, composed with the loop so far. */
  lemma FramesStep(net: Network, cur: Network, next: Network, source: JunctionId, last: JunctionId)
    requires Grows(net, cur) && Grows(cur, next)
    requires DirectionsUnchangedExcept(net, cur, {}) && DirectionsUnchangedExcept(cur, next, {})
    requires ExitsUnchangedExcept(net, cur, {source}) && ExitsUnchangedExcept(cur, next, {last})
    requires last == source || last >= |net.junctions|
    requires EntrancesUnchangedExcept(net, cur, {}) && EntrancesUnchangedExcept(cur, next, {})
    ensures Grows(net, next) && DirectionsUnchangedExcept(net, next, {})
    ensures ExitsUnchangedExcept(net, next, {source}) && EntrancesUnchangedExcept(net, next, {})
  {
  }

  /** The loop of `add_track` up to, but not including, the segment that
      reaches the destination: returns the network and the junction the
      final segment must start from. */
  method AddJoints(net: Network, source: JunctionId, destination: JunctionId, shape: TrackShape, trig: Trig)
    returns (r: Result<(Network, JunctionId), Fault>)
    requires source < |net.junctions| && destination < |net.junctions|
    requires Divisible(shape)
    ensures r.Err? <==> SegmentCount(GetLength(shape)) > 1 && ExitsFull(net, source)
    ensures r.Err? ==> r.error == Fault.ExitListFull(source)
    ensures r.Ok? ==> var (cur, last) := r.value; var n := SegmentCount(GetLength(shape));
      && |cur.tracks| == |net.tracks| + (n - 1) && |cur.junctions| == |net.junctions| + (n - 1)
      && last == ChainNode(source, |net.junctions|, destination, n, n - 1) && last < |cur.junctions|
      && (n == 1 ==> cur == net)
      && (n > 1 ==> !ExitsFull(net, source) && Len(cur.junctions[source].exits) == Len(net.junctions[source].exits) + 1)
      && (n > 1 ==> last >= |net.junctions| && cur.junctions[last].exits == New(ADJACENCY_CAPACITY, 0))
      && TracksLaid(net, cur, source, destination, shape, n, n - 1)
      && JointsPlaced(net, cur, shape, trig, n - 1)
    ensures r.Ok? ==> var cur := r.value.0;
      && Grows(net, cur) && DirectionsUnchangedExcept(net, cur, {})
      && ExitsUnchangedExcept(net, cur, {source}) && EntrancesUnchangedExcept(net, cur, {})
      && (Valid(net) ==> Valid(cur))
  {
    var n := SegmentCount(GetLength(shape));
    var segmentLength := SegmentLength(shape);
    var cur := net;
    var last := source;
    var seg: nat := 0;
    while seg < n - 1
      invariant seg <= n - 1
      invariant |cur.tracks| == |net.tracks| + seg && |cur.junctions| == |net.junctions| + seg
      invariant last == ChainNode(source, |net.junctions|, destination, n, seg) && last < |cur.junctions|
      invariant seg == 0 ==> cur == net
      invariant Grows(net, cur) && DirectionsUnchangedExcept(net, cur, {})
      invariant ExitsUnchangedExcept(net, cur, {source}) && EntrancesUnchangedExcept(net, cur, {})
      invariant seg > 0 ==> !ExitsFull(net, source) && Len(cur.junctions[source].exits) == Len(net.junctions[source].exits) + 1
      invariant seg > 0 ==> last >= |net.junctions| && cur.junctions[last].exits == New(ADJACENCY_CAPACITY, 0)
      invariant TracksLaid(net, cur, source, destination, shape, n, seg)
      invariant JointsPlaced(net, cur, shape, trig, seg)
      invariant Valid(net) ==> Valid(cur)
    {
      var at := GetTransform(shape, Cut(segmentLength, seg + 1), trig);
      var step := AddJoint(cur, last, at, Piece(shape, segmentLength, seg), trig);
      if step.Err? {
        return Err(step.error);
      }
      var next := step.value.net;
      ChainGrows(net, cur, next, shape, trig, source, destination, n, seg, last, step.value.id);
      FramesStep(net, cur, next, source, last);
      cur, last, seg := next, step.value.id, seg + 1;
    }
    return Ok((cur, last));
  }

  /** One step of the loop that does not reach the destination: a new
      junction at `at` with the direction of `at`'s heading, and a segment
      from `last` to it. */
  method AddJoint(net: Network, last: JunctionId, at: Transform, piece: TrackShape, trig: Trig)
    returns (r: Result<Built, Fault>)
    requires last < |net.junctions|
    ensures r.Err? <==> ExitsFull(net, last)
    ensures r.Err? ==> r.error == Fault.ExitListFull(last)
    ensures r.Ok? ==> r.value.id == |net.junctions| && |r.value.net.junctions| == |net.junctions| + 1
    ensures r.Ok? ==> r.value.net.tracks == net.tracks + [Track(|net.tracks|, last, r.value.id, [], GetLength(piece), piece)]
    ensures r.Ok? ==> r.value.net.junctions[r.value.id].position == at.position
    ensures r.Ok? ==> r.value.net.junctions[r.value.id].direction == Some(trig.fromAngle(at.heading))
    ensures r.Ok? ==> r.value.net.junctions[r.value.id].exits == New(ADJACENCY_CAPACITY, 0)
    ensures r.Ok? ==> Grows(net, r.value.net) && DirectionsUnchangedExcept(net, r.value.net, {})
    ensures r.Ok? ==> ExitsUnchangedExcept(net, r.value.net, {last}) && EntrancesUnchangedExcept(net, r.value.net, {})
    ensures r.Ok? ==> Len(r.value.net.junctions[last].exits) == Len(net.junctions[last].exits) + 1
    ensures r.Ok? && Valid(net) ==> Valid(r.value.net)
  {
    var added := AddJunction(net, at.position);
    var directed := SetDirection(added.net, added.id, trig.fromAngle(at.heading));
    var b :- AddTrackSegment(directed, last, added.id, piece);
    if Valid(net) {
      JunctionKeepsValid(net, at.position);
      SetDirectionKeepsValid(added.net, added.id, trig.fromAngle(at.heading));
      SegmentKeepsValid(directed, last, added.id, piece);
    }
    return Ok(Built(b.net, added.id));
  }
}
