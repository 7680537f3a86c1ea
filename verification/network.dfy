/** The network arena: junctions, tracks and trains in dense sequences that
    refer to each other only by index. This module holds the data model, the
    arena invariant and the leaf operations `add_junction`,
    `add_track_segment` and `add_train`. */
module Networks {
  import opened Results
  import opened Geometry
  import opened TrackShapes
  import opened Minivecs

  type JunctionId = nat
  type TrackId = nat
  type TrainId = nat

  /** Each junction has room for two entering and two leaving tracks. */
  const ADJACENCY_CAPACITY: nat := 2

  datatype Junction = Junction(
    id: JunctionId,
    position: Vec2,
    entrances: Minivec<TrackId>,
    exits: Minivec<TrackId>,
    /** Unset until some track fixes the tangent here. */
    direction: Option<Vec2>)

  datatype Track = Track(
    id: TrackId,
    source: JunctionId,
    destination: JunctionId,
    /** The trains that have entered this track, oldest first. */
    trains: seq<TrainId>,
    length: real,
    shape: TrackShape)

  datatype Train = Train(id: TrainId, track: TrackId, distance: real)

  datatype Network = Network(tracks: seq<Track>, junctions: seq<Junction>, trains: seq<Train>)

  /** Why construction aborts: a full adjacency list (an `unwrap` of a
      refused push), or no S-curve bend passing the forward-progress test. */
  datatype Fault = ExitListFull(junction: JunctionId) | EntranceListFull(junction: JunctionId) | NoBend

  /** A changed network together with the id an operation returns. */
  datatype Built = Built(net: Network, id: nat)

  // ---------------------------------------------------------------------
  // The arena invariant

  predicate JunctionOk(net: Network, j: nat)
    requires j < |net.junctions|
  {
    var jn := net.junctions[j];
    && jn.id == j
    && Size(jn.entrances) == ADJACENCY_CAPACITY && Size(jn.exits) == ADJACENCY_CAPACITY
    && (forall t :: t in Items(jn.exits) ==> t < |net.tracks| && net.tracks[t].source == j)
    && (forall t :: t in Items(jn.entrances) ==> t < |net.tracks| && net.tracks[t].destination == j)
  }

  predicate TrackOk(net: Network, t: nat)
    requires t < |net.tracks|
    requires forall j :: 0 <= j < |net.junctions| ==> JunctionOk(net, j)
  {
    var tr := net.tracks[t];
    && tr.id == t
    && tr.source < |net.junctions| && tr.destination < |net.junctions|
    && t in Items(net.junctions[tr.source].exits)
    && t in Items(net.junctions[tr.destination].entrances)
    && (forall x :: x in tr.trains ==> x < |net.trains|)
  }

  predicate TrainOk(net: Network, i: nat)
    requires i < |net.trains|
  {
    var tr := net.trains[i];
    tr.id == i && tr.track < |net.tracks| && i in net.tracks[tr.track].trains
  }

  /** Ids equal indices; adjacency lists stay within capacity and agree
      with the tracks' endpoints in both directions; every train sits on an
      existing track and is listed in that track's queue. */
  predicate Valid(net: Network) {
    && (forall j :: 0 <= j < |net.junctions| ==> JunctionOk(net, j))
    && (forall t :: 0 <= t < |net.tracks| ==> TrackOk(net, t))
    && (forall i :: 0 <= i < |net.trains| ==> TrainOk(net, i))
  }

  predicate ExitsFull(net: Network, j: JunctionId)
    requires j < |net.junctions|
  {
    IsFull(net.junctions[j].exits)
  }

  predicate EntrancesFull(net: Network, j: JunctionId)
    requires j < |net.junctions|
  {
    IsFull(net.junctions[j].entrances)
  }

  /** The network `generate_network` starts from. */
  function Empty(): (r: Network)
    ensures Valid(r)
    ensures r.tracks == [] && r.junctions == [] && r.trains == []
  {
    Network([], [], [])
  }

  // ---------------------------------------------------------------------
  // What construction steps leave alone

  /** `b` extends `a`: nothing is removed, the existing tracks and trains
      are untouched and the existing junctions keep their id and position.
      (Adjacency lists and directions are allowed to change.) */
  predicate Grows(a: Network, b: Network) {
    && |a.tracks| <= |b.tracks| && |a.junctions| <= |b.junctions|
    && b.trains == a.trains
    && (forall t :: 0 <= t < |a.tracks| ==> b.tracks[t] == a.tracks[t])
    && (forall j :: 0 <= j < |a.junctions| ==>
          b.junctions[j].id == a.junctions[j].id && b.junctions[j].position == a.junctions[j].position)
  }

  /** First-write-wins: every direction already set in `a` is the same in `b`. */
  predicate KeepsDirections(a: Network, b: Network)
    requires |a.junctions| <= |b.junctions|
  {
    forall j :: 0 <= j < |a.junctions| && a.junctions[j].direction.Some? ==>
      b.junctions[j].direction == a.junctions[j].direction
  }

  /** Every junction of `a` outside `touched` has the same direction in `b`. */
  predicate DirectionsUnchangedExcept(a: Network, b: Network, touched: set<JunctionId>)
    requires |a.junctions| <= |b.junctions|
  {
    forall j :: 0 <= j < |a.junctions| && j !in touched ==>
      b.junctions[j].direction == a.junctions[j].direction
  }

  /** Only the exit lists of `touched` junctions may differ. */
  predicate ExitsUnchangedExcept(a: Network, b: Network, touched: set<JunctionId>)
    requires |a.junctions| <= |b.junctions|
  {
    forall j :: 0 <= j < |a.junctions| && j !in touched ==> b.junctions[j].exits == a.junctions[j].exits
  }

  /** Only the entrance lists of `touched` junctions may differ. */
  predicate EntrancesUnchangedExcept(a: Network, b: Network, touched: set<JunctionId>)
    requires |a.junctions| <= |b.junctions|
  {
    forall j :: 0 <= j < |a.junctions| && j !in touched ==> b.junctions[j].entrances == a.junctions[j].entrances
  }

  // ---------------------------------------------------------------------
  // Leaf operations

  /** A junction with no tracks and no direction yet. */
  function NewJunction(id: JunctionId, position: Vec2): Junction {
    Junction(id, position, New(ADJACENCY_CAPACITY, 0), New(ADJACENCY_CAPACITY, 0), None)
  }

  /** `add_junction`: appends a fresh junction whose id is its index. */
  function AddJunction(net: Network, position: Vec2): (r: Built)
    ensures r.id == |net.junctions|
    ensures r.net.junctions == net.junctions + [NewJunction(r.id, position)]
    ensures r.net.tracks == net.tracks && r.net.trains == net.trains
    ensures Grows(net, r.net)
  {
    var id := |net.junctions|;
    Built(Network(net.tracks, net.junctions + [NewJunction(id, position)], net.trains), id)
  }

  /** A junction without tracks cannot break the invariant. */
  lemma JunctionKeepsValid(net: Network, position: Vec2)
    requires Valid(net)
    ensures Valid(AddJunction(net, position).net)
  {
    var next := AddJunction(net, position).net;
    forall j | 0 <= j < |next.junctions|
      ensures JunctionOk(next, j)
    {
      if j < |net.junctions| {
        assert JunctionOk(net, j);
      }
    }
    forall t | 0 <= t < |next.tracks|
      ensures TrackOk(next, t)
    {
      assert TrackOk(net, t);
    }
    forall i | 0 <= i < |next.trains|
      ensures TrainOk(next, i)
    {
      assert TrainOk(net, i);
    }
  }

  /** `add_track_segment`: allocates the next track id, lists it among the
      source's exits and then among the destination's entrances, and stores
      the track with an empty queue. A full list aborts. */
  function AddTrackSegment(net: Network, source: JunctionId, destination: JunctionId, shape: TrackShape)
    : (r: Result<Built, Fault>)
    requires source < |net.junctions| && destination < |net.junctions|
    ensures r.Err? <==> ExitsFull(net, source) || EntrancesFull(net, destination)
    ensures r.Err? ==> r.error == if ExitsFull(net, source) then Fault.ExitListFull(source) else Fault.EntranceListFull(destination)
    ensures r.Ok? ==> r.value.id == |net.tracks|
    ensures r.Ok? ==> r.value.net.tracks == net.tracks + [Track(r.value.id, source, destination, [], GetLength(shape), shape)]
    ensures r.Ok? ==> Grows(net, r.value.net)
    ensures r.Ok? ==> |r.value.net.junctions| == |net.junctions|
    ensures r.Ok? ==> DirectionsUnchangedExcept(net, r.value.net, {})
    ensures r.Ok? ==> ExitsUnchangedExcept(net, r.value.net, {source})
    ensures r.Ok? ==> EntrancesUnchangedExcept(net, r.value.net, {destination})
    ensures r.Ok? ==> Items(r.value.net.junctions[source].exits) == Items(net.junctions[source].exits) + [r.value.id]
    ensures r.Ok? ==> Items(r.value.net.junctions[destination].entrances) == Items(net.junctions[destination].entrances) + [r.value.id]
    ensures r.Ok? ==> Len(r.value.net.junctions[source].exits) == Len(net.junctions[source].exits) + 1
    ensures r.Ok? ==> Len(r.value.net.junctions[destination].entrances) == Len(net.junctions[destination].entrances) + 1
  {
    var id := |net.tracks|;
    match PushExit(net.junctions, source, id)
    case None => Err(Fault.ExitListFull(source))
    case Some(junctions1) =>
      match PushEntrance(junctions1, destination, id)
      case None => Err(Fault.EntranceListFull(destination))
      case Some(junctions2) =>
        var track := Track(id, source, destination, [], GetLength(shape), shape);
        Ok(Built(Network(net.tracks + [track], junctions2, net.trains), id))
  }

  /** Lists track `id` among junction `j`'s exits, unless that list is full. */
  function PushExit(junctions: seq<Junction>, j: JunctionId, id: TrackId): (r: Option<seq<Junction>>)
    requires j < |junctions|
    ensures r.None? <==> IsFull(junctions[j].exits)
    ensures r.Some? ==> |r.value| == |junctions|
    ensures r.Some? ==> forall k :: 0 <= k < |junctions| && k != j ==> r.value[k] == junctions[k]
    ensures r.Some? ==> (r.value[j].id == junctions[j].id && r.value[j].position == junctions[j].position
      && r.value[j].direction == junctions[j].direction && r.value[j].entrances == junctions[j].entrances)
    ensures r.Some? ==> (Items(r.value[j].exits) == Items(junctions[j].exits) + [id]
      && Size(r.value[j].exits) == Size(junctions[j].exits))
  {
    var (exits, pushed) := Push(junctions[j].exits, id);
    if pushed.Err? then None else Some(junctions[j := junctions[j].(exits := exits)])
  }

  /** Lists track `id` among junction `j`'s entrances, unless that list is full. */
  function PushEntrance(junctions: seq<Junction>, j: JunctionId, id: TrackId): (r: Option<seq<Junction>>)
    requires j < |junctions|
    ensures r.None? <==> IsFull(junctions[j].entrances)
    ensures r.Some? ==> |r.value| == |junctions|
    ensures r.Some? ==> forall k :: 0 <= k < |junctions| && k != j ==> r.value[k] == junctions[k]
    ensures r.Some? ==> (r.value[j].id == junctions[j].id && r.value[j].position == junctions[j].position
      && r.value[j].direction == junctions[j].direction && r.value[j].exits == junctions[j].exits)
    ensures r.Some? ==> (Items(r.value[j].entrances) == Items(junctions[j].entrances) + [id]
      && Size(r.value[j].entrances) == Size(junctions[j].entrances))
  {
    var (entrances, pushed) := Push(junctions[j].entrances, id);
    if pushed.Err? then None else Some(junctions[j := junctions[j].(entrances := entrances)])
  }

  /** The arena invariant survives `add_track_segment`. */
  lemma SegmentKeepsValid(net: Network, source: JunctionId, destination: JunctionId, shape: TrackShape)
    requires Valid(net)
    requires source < |net.junctions| && destination < |net.junctions|
    requires AddTrackSegment(net, source, destination, shape).Ok?
    ensures Valid(AddTrackSegment(net, source, destination, shape).value.net)
  {
    var id := |net.tracks|;
    var junctions1 := PushExit(net.junctions, source, id).value;
    var junctions2 := PushEntrance(junctions1, destination, id).value;
    var track := Track(id, source, destination, [], GetLength(shape), shape);
    PushesKeepValid(net, source, destination, track, Network(net.tracks + [track], junctions2, net.trains));
  }

  /** The arena invariant survives the two pushes of a new track's id. */
  lemma PushesKeepValid(net: Network, source: JunctionId, destination: JunctionId, track: Track, next: Network)
    requires Valid(net)
    requires source < |net.junctions| && destination < |net.junctions|
    requires track.id == |net.tracks| && track.source == source && track.destination == destination && track.trains == []
    requires next.tracks == net.tracks + [track] && next.trains == net.trains
    requires |next.junctions| == |net.junctions|
    requires forall j :: 0 <= j < |net.junctions| ==>
      && next.junctions[j].id == net.junctions[j].id
      && Size(next.junctions[j].exits) == Size(net.junctions[j].exits)
      && Size(next.junctions[j].entrances) == Size(net.junctions[j].entrances)
      && Items(next.junctions[j].exits) == Items(net.junctions[j].exits) + (if j == source then [track.id] else [])
      && Items(next.junctions[j].entrances) == Items(net.junctions[j].entrances) + (if j == destination then [track.id] else [])
    ensures Valid(next)
  {
    forall j | 0 <= j < |next.junctions|
      ensures JunctionOk(next, j)
    {
      assert JunctionOk(net, j);
      forall t | t in Items(next.junctions[j].exits)
        ensures t < |next.tracks| && next.tracks[t].source == j
      {
        if t !in Items(net.junctions[j].exits) {
          assert t == track.id && j == source;
        }
      }
      forall t | t in Items(next.junctions[j].entrances)
        ensures t < |next.tracks| && next.tracks[t].destination == j
      {
        if t !in Items(net.junctions[j].entrances) {
          assert t == track.id && j == destination;
        }
      }
    }
    forall t | 0 <= t < |next.tracks|
      ensures TrackOk(next, t)
    {
      if t < |net.tracks| {
        assert TrackOk(net, t);
        assert next.tracks[t] == net.tracks[t];
      }
    }
    forall i | 0 <= i < |next.trains|
      ensures TrainOk(next, i)
    {
      assert TrainOk(net, i);
    }
  }

  /** Assigns a junction's direction outright, as `connect_track` and
      `add_track` do for a junction that has none yet. */
  function SetDirection(net: Network, j: JunctionId, dir: Vec2): (r: Network)
    requires j < |net.junctions|
    ensures |r.junctions| == |net.junctions| && r.junctions[j].direction == Some(dir)
    ensures Grows(net, r) && r.tracks == net.tracks
    ensures DirectionsUnchangedExcept(net, r, {j})
    ensures ExitsUnchangedExcept(net, r, {}) && EntrancesUnchangedExcept(net, r, {})
  {
    net.(junctions := net.junctions[j := net.junctions[j].(direction := Some(dir))])
  }

  lemma SetDirectionKeepsValid(net: Network, j: JunctionId, dir: Vec2)
    requires Valid(net) && j < |net.junctions|
    ensures Valid(SetDirection(net, j, dir))
    ensures Valid(SetDirectionIfAbsent(net, j, dir))
  {
    SameArenaKeepsValid(net, SetDirection(net, j, dir));
  }

  /** `Option::get_or_insert`: sets the direction only when there is none. */
  function SetDirectionIfAbsent(net: Network, j: JunctionId, dir: Vec2): (r: Network)
    requires j < |net.junctions|
    ensures |r.junctions| == |net.junctions|
    ensures net.junctions[j].direction.Some? ==> r.junctions[j].direction == net.junctions[j].direction
    ensures net.junctions[j].direction.None? ==> r.junctions[j].direction == Some(dir)
    ensures Grows(net, r) && r.tracks == net.tracks
    ensures DirectionsUnchangedExcept(net, r, {j}) && KeepsDirections(net, r)
    ensures ExitsUnchangedExcept(net, r, {}) && EntrancesUnchangedExcept(net, r, {})
  {
    if net.junctions[j].direction.Some? then net else SetDirection(net, j, dir)
  }

  /** The invariant does not look at positions or directions. */
  lemma SameArenaKeepsValid(a: Network, b: Network)
    requires Valid(a)
    requires b.tracks == a.tracks && b.trains == a.trains && |b.junctions| == |a.junctions|
    requires forall j :: 0 <= j < |a.junctions| ==>
      b.junctions[j].id == a.junctions[j].id && b.junctions[j].exits == a.junctions[j].exits
      && b.junctions[j].entrances == a.junctions[j].entrances
    ensures Valid(b)
  {
    forall j | 0 <= j < |b.junctions|
      ensures JunctionOk(b, j)
    {
      assert JunctionOk(a, j);
    }
    forall t | 0 <= t < |b.tracks|
      ensures TrackOk(b, t)
    {
      assert TrackOk(a, t);
    }
    forall i | 0 <= i < |b.trains|
      ensures TrainOk(b, i)
    {
      assert TrainOk(a, i);
    }
  }

  /** `add_train`: a new train at distance 0 on `track`, appended to the
      back of that track's queue. Indexing a missing track panics, hence
      the precondition. */
  function AddTrain(net: Network, track: TrackId): (r: Built)
    requires Valid(net) && track < |net.tracks|
    ensures r.id == |net.trains|
    ensures r.net.trains == net.trains + [Train(r.id, track, 0.0)]
    ensures |r.net.tracks| == |net.tracks|
    ensures r.net.tracks[track].trains == net.tracks[track].trains + [r.id]
    ensures forall t :: 0 <= t < |net.tracks| && t != track ==> r.net.tracks[t] == net.tracks[t]
    ensures r.net.tracks[track] == net.tracks[track].(trains := r.net.tracks[track].trains)
    ensures r.net.junctions == net.junctions
    ensures Valid(r.net)
  {
    var id := |net.trains|;
    var tracks := net.tracks[track := net.tracks[track].(trains := net.tracks[track].trains + [id])];
    var next := Network(tracks, net.junctions, net.trains + [Train(id, track, 0.0)]);
    TrainKeepsValid(net, track, next);
    Built(next, id)
  }

  lemma TrainKeepsValid(net: Network, track: TrackId, next: Network)
    requires Valid(net) && track < |net.tracks|
    requires next.junctions == net.junctions
    requires next.trains == net.trains + [Train(|net.trains|, track, 0.0)]
    requires next.tracks == net.tracks[track := net.tracks[track].(trains := net.tracks[track].trains + [|net.trains|])]
    ensures Valid(next)
  {
    forall j | 0 <= j < |next.junctions|
      ensures JunctionOk(next, j)
    {
      assert JunctionOk(net, j);
    }
    forall t | 0 <= t < |next.tracks|
      ensures TrackOk(next, t)
    {
      assert TrackOk(net, t);
    }
    forall i | 0 <= i < |next.trains|
      ensures TrainOk(next, i)
    {
      if i < |net.trains| {
        assert TrainOk(net, i);
      }
    }
  }
}
