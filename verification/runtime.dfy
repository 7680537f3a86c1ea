/** The simulation side of the network: `update` moves every train along its
    track and, past the end, on to one of the exits of the junction there;
    `train_positions` and `curves` are what the renderer reads. */
module Runtime {
  import opened Results
  import opened Geometry
  import opened TrackShapes
  import opened Minivecs
  import opened Networks

  /** Distance travelled per unit of `delta_time`. */
  const SPEED: real := 8.0

  /** Why an update cannot complete: the junction at the end of the track
      has no exit to choose from (`gen_range` on an empty range panics), or
      the track has length zero (the `f32` remainder is NaN, which the model
      does not represent). */
  datatype Halt = DeadEnd(junction: JunctionId) | NotANumber(train: TrainId)

  // ---------------------------------------------------------------------
  // One train, judged on the network as it was before the update

  /** The train's distance after `dt`, before any wrap. */
  function Advanced(net: Network, k: TrainId, dt: real): real
    requires k < |net.trains|
  {
    net.trains[k].distance + dt * SPEED
  }

  /** The track train `k` is on. */
  function Current(net: Network, k: TrainId): (t: TrackId)
    requires Valid(net) && k < |net.trains|
    ensures t < |net.tracks| && t == net.trains[k].track
  {
    assert TrainOk(net, k);
    net.trains[k].track
  }

  /** The train runs past the end of its track: strictly beyond `|length|`. */
  predicate Wraps(net: Network, k: TrainId, dt: real)
    requires Valid(net) && k < |net.trains|
  {
    Advanced(net, k, dt) > Abs(net.tracks[Current(net, k)].length)
  }

  /** The junction a train's track ends at. */
  function EndOf(net: Network, k: TrainId): (j: JunctionId)
    requires Valid(net) && k < |net.trains|
    ensures j < |net.junctions| && j == net.tracks[Current(net, k)].destination
  {
    assert TrackOk(net, Current(net, k));
    net.tracks[Current(net, k)].destination
  }

  /** Whether, and why, moving train `k` stops the update. */
  function HaltOf(net: Network, k: TrainId, dt: real): Option<Halt>
    requires Valid(net) && k < |net.trains|
  {
    if !Wraps(net, k, dt) then None
    else if Len(net.junctions[EndOf(net, k)].exits) == 0 then Some(DeadEnd(EndOf(net, k)))
    else if net.tracks[Current(net, k)].length == 0.0 then Some(NotANumber(k))
    else None
  }

  /** The exit a wrapping train takes: `choice` stands for the random draw,
      reduced to the number of exits, so every exit is reachable and a draw
      already in range is taken as is. */
  function NextTrack(net: Network, k: TrainId, choice: nat): (t: TrackId)
    requires Valid(net) && k < |net.trains|
    requires Len(net.junctions[EndOf(net, k)].exits) > 0
    ensures t < |net.tracks| && net.tracks[t].source == EndOf(net, k)
  {
    var exits := net.junctions[EndOf(net, k)].exits;
    assert JunctionOk(net, EndOf(net, k));
    Index(exits, choice % Len(exits))
  }

  /** Train `k` after its move, when the move does not halt. */
  function MovedTrain(net: Network, k: TrainId, dt: real, choice: nat): Train
    requires Valid(net) && k < |net.trains| && HaltOf(net, k, dt).None?
  {
    var tr := net.trains[k];
    if Wraps(net, k, dt) then
      Train(tr.id, NextTrack(net, k, choice), Fmod(Advanced(net, k, dt), Abs(net.tracks[Current(net, k)].length)))
    else
      tr.(distance := Advanced(net, k, dt))
  }

  // ---------------------------------------------------------------------
  // One iteration of the loop of `update`

  /** The body of `update`'s loop for train `i`: advance it; past the end of
      its track, keep the remainder, pick an exit of the end junction, queue
      the train there and move it onto that track. The train stays listed in
      the queue of the track it left. */
  function Step(net: Network, i: TrainId, dt: real, choice: nat): (r: Result<Network, Halt>)
    requires Valid(net) && i < |net.trains|
    ensures r.Err? <==> HaltOf(net, i, dt).Some?
    ensures r.Err? ==> r.error == HaltOf(net, i, dt).value
    ensures r.Ok? ==> r.value.junctions == net.junctions && |r.value.tracks| == |net.tracks|
    ensures r.Ok? ==> r.value.trains == net.trains[i := MovedTrain(net, i, dt, choice)]
  {
    var train := net.trains[i];
    var length := net.tracks[Current(net, i)].length;
    if !(Advanced(net, i, dt) > Abs(length)) then
      Ok(net.(trains := net.trains[i := train.(distance := Advanced(net, i, dt))]))
    else if Len(net.junctions[EndOf(net, i)].exits) == 0 then
      Err(DeadEnd(EndOf(net, i)))
    else if Abs(length) == 0.0 then
      Err(NotANumber(i))
    else
      var next := NextTrack(net, i, choice);
      var moved := Train(train.id, next, Fmod(Advanced(net, i, dt), Abs(length)));
      Ok(Network(Enqueue(net.tracks, next, train.id), net.junctions, net.trains[i := moved]))
  }

  /** `push_back` of train `k` onto track `t`'s queue. */
  function Enqueue(tracks: seq<Track>, t: TrackId, k: TrainId): (r: seq<Track>)
    requires t < |tracks|
    ensures |r| == |tracks|
    ensures forall u :: 0 <= u < |tracks| ==>
      r[u] == tracks[u].(trains := tracks[u].trains + if u == t then [k] else [])
  {
    tracks[t := tracks[t].(trains := tracks[t].trains + [k])]
  }

  /** The trains `Step` appends to track `t`'s queue: train `i` if it
      wraps onto `t`, nobody otherwise. */
  function EnteredBy(net: Network, i: TrainId, dt: real, choice: nat, t: TrackId): seq<TrainId>
    requires Valid(net) && i < |net.trains|
  {
    if Wraps(net, i, dt) && Len(net.junctions[EndOf(net, i)].exits) > 0 && NextTrack(net, i, choice) == t
    then [i] else []
  }

  /** Step `i` only appends to queues, and only train `i`, and only to the
      queue of the track it wraps onto. */
  lemma StepQueues(net: Network, i: TrainId, dt: real, choice: nat)
    requires Valid(net) && i < |net.trains| && Step(net, i, dt, choice).Ok?
    ensures var next := Step(net, i, dt, choice).value;
      forall t :: 0 <= t < |net.tracks| ==>
        next.tracks[t] == net.tracks[t].(trains := net.tracks[t].trains + EnteredBy(net, i, dt, choice, t))
  {
    assert TrainOk(net, i);
  }

  /** What a step of train `i` that does not halt leaves behind: the
      route and the later trains as they were, train `i` moved, and the
      queues grown by what it entered. */
  predicate Stepped(net: Network, next: Network, i: TrainId, dt: real, choice: nat)
    requires Valid(net) && i < |net.trains|
  {
    && HaltOf(net, i, dt).None?
    && SameRoute(net, next, i + 1)
    && next.trains == net.trains[i := MovedTrain(net, i, dt, choice)]
    && forall t :: 0 <= t < |net.tracks| ==>
         next.tracks[t] == net.tracks[t].(trains := net.tracks[t].trains + EnteredBy(net, i, dt, choice, t))
  }

  /** A step that succeeds is described by `Stepped`. */
  lemma StepIsStepped(net: Network, i: TrainId, dt: real, choice: nat)
    requires Valid(net) && i < |net.trains| && Step(net, i, dt, choice).Ok?
    ensures Stepped(net, Step(net, i, dt, choice).value, i, dt, choice)
  {
    StepQueues(net, i, dt, choice);
  }

  /** A train that wraps continues from the junction its track ended at,
      with a remainder in `[0, |length|)` of the track it left. */
  lemma WrapContinues(net: Network, i: TrainId, dt: real, choice: nat)
    requires Valid(net) && i < |net.trains|
    requires HaltOf(net, i, dt).None? && Wraps(net, i, dt)
    ensures var old_ := net.tracks[Current(net, i)]; var moved := MovedTrain(net, i, dt, choice);
      && moved.track < |net.tracks| && net.tracks[moved.track].source == old_.destination
      && 0.0 <= moved.distance < Abs(old_.length)
  {
    var len := Abs(net.tracks[Current(net, i)].length);
    assert Advanced(net, i, dt) > len > 0.0;
  }

  /** A train that does not wrap stays on its track and moves by exactly
      `dt * SPEED`. */
  lemma NoWrapStays(net: Network, i: TrainId, dt: real, choice: nat)
    requires Valid(net) && i < |net.trains| && !Wraps(net, i, dt)
    ensures HaltOf(net, i, dt).None?
    ensures var moved := MovedTrain(net, i, dt, choice);
      moved.track == net.trains[i].track && moved.distance == net.trains[i].distance + dt * SPEED
      && moved.id == net.trains[i].id
  {
  }

  /** A train that lands exactly on the end of its track does not wrap: it
      stays on that track at distance `|length|`. */
  lemma ReachingEndStays(net: Network, i: TrainId, dt: real, choice: nat)
    requires Valid(net) && i < |net.trains|
    requires net.trains[i].distance + dt * SPEED == Abs(net.tracks[Current(net, i)].length)
    ensures HaltOf(net, i, dt).None?
    ensures var moved := MovedTrain(net, i, dt, choice);
      moved.track == net.trains[i].track && moved.distance == Abs(net.tracks[moved.track].length)
  {
    NoWrapStays(net, i, dt, choice);
  }

  /** The arena invariant survives one step. */
  lemma StepKeepsValid(net: Network, i: TrainId, dt: real, choice: nat)
    requires Valid(net) && i < |net.trains| && Step(net, i, dt, choice).Ok?
    ensures Valid(Step(net, i, dt, choice).value)
  {
    var next := Step(net, i, dt, choice).value;
    StepQueues(net, i, dt, choice);
    assert TrainOk(net, i);
    var moved := MovedTrain(net, i, dt, choice);
    if Wraps(net, i, dt) {
      assert EnteredBy(net, i, dt, choice, moved.track) == [i];
    }
    assert i in next.tracks[moved.track].trains;
    RequeueKeepsValid(net, next, i);
  }

  /** Queues that only grow by train ids, and a train `i` moved to a track
      whose queue lists it, keep the arena invariant. */
  lemma RequeueKeepsValid(net: Network, next: Network, i: TrainId)
    requires Valid(net) && i < |net.trains|
    requires next.junctions == net.junctions && |next.tracks| == |net.tracks| && |next.trains| == |net.trains|
    requires forall t :: 0 <= t < |net.tracks| ==>
      && next.tracks[t] == net.tracks[t].(trains := next.tracks[t].trains)
      && |net.tracks[t].trains| <= |next.tracks[t].trains|
      && next.tracks[t].trains[..|net.tracks[t].trains|] == net.tracks[t].trains
      && forall x :: x in next.tracks[t].trains ==> x in net.tracks[t].trains || x == i
    requires forall k :: 0 <= k < |net.trains| && k != i ==> next.trains[k] == net.trains[k]
    requires next.trains[i].id == i && next.trains[i].track < |next.tracks|
    requires i in next.tracks[next.trains[i].track].trains
    ensures Valid(next)
  {
    forall j | 0 <= j < |next.junctions|
      ensures JunctionOk(next, j)
    {
      assert JunctionOk(net, j);
    }
    forall t | 0 <= t < |next.tracks|
      ensures TrackOk(next, t)
    {
      assert TrackOk(net, t);
    }
    forall k | 0 <= k < |next.trains|
      ensures TrainOk(next, k)
    {
      assert TrainOk(net, k);
      if k != i {
        var t := net.trains[k].track;
        assert k in next.tracks[t].trains[..|net.tracks[t].trains|];
      }
    }
  }

  // ---------------------------------------------------------------------
  // update

  /** Two networks that agree on everything a move looks at: the junctions,
      the tracks apart from their queues, and trains `from` onwards. */
  predicate SameRoute(a: Network, b: Network, from: nat) {
    && a.junctions == b.junctions
    && |a.tracks| == |b.tracks| && |a.trains| == |b.trains|
    && (forall t :: 0 <= t < |a.tracks| ==> b.tracks[t] == a.tracks[t].(trains := b.tracks[t].trains))
    && (forall k :: from <= k < |a.trains| ==> b.trains[k] == a.trains[k])
  }

  /** The trains from `from` on that enter track `t`, in train order. */
  function Entering(net: Network, dt: real, choose: TrainId -> nat, t: TrackId, from: nat): seq<TrainId>
    requires Valid(net) && from <= |net.trains|
    decreases |net.trains| - from
  {
    if from == |net.trains| then []
    else EnteredBy(net, from, dt, choose(from), t) + Entering(net, dt, choose, t, from + 1)
  }

  /** Moves of train `k` only depend on what `SameRoute` keeps. */
  lemma MoveAgrees(a: Network, b: Network, k: TrainId, dt: real, choice: nat, t: TrackId)
    requires Valid(a) && Valid(b) && SameRoute(a, b, k) && k < |a.trains|
    ensures Wraps(a, k, dt) == Wraps(b, k, dt) && HaltOf(a, k, dt) == HaltOf(b, k, dt)
    ensures EnteredBy(a, k, dt, choice, t) == EnteredBy(b, k, dt, choice, t)
    ensures HaltOf(a, k, dt).None? ==> MovedTrain(a, k, dt, choice) == MovedTrain(b, k, dt, choice)
  {
    assert TrainOk(a, k);
    assert b.tracks[a.trains[k].track].length == a.tracks[a.trains[k].track].length;
    assert b.tracks[a.trains[k].track].destination == a.tracks[a.trains[k].track].destination;
  }

  lemma {:induction false} EnteringAgrees(a: Network, b: Network, dt: real, choose: TrainId -> nat, t: TrackId, from: nat)
    requires Valid(a) && Valid(b) && SameRoute(a, b, from) && from <= |a.trains|
    ensures Entering(a, dt, choose, t, from) == Entering(b, dt, choose, t, from)
    decreases |a.trains| - from
  {
    if from < |a.trains| {
      MoveAgrees(a, b, from, dt, choose(from), t);
      EnteringAgrees(a, b, dt, choose, t, from + 1);
    }
  }

  /** No train from `from` on halts. */
  predicate NoHaltFrom(net: Network, dt: real, from: nat)
    requires Valid(net)
  {
    forall k :: from <= k < |net.trains| ==> HaltOf(net, k, dt).None?
  }

  /** The halt of the first train from `from` on whose move halts. */
  function FirstHalt(net: Network, dt: real, from: nat): (r: Option<Halt>)
    requires Valid(net) && from <= |net.trains|
    decreases |net.trains| - from
    ensures r.None? <==> NoHaltFrom(net, dt, from)
  {
    if from == |net.trains| then None
    else if HaltOf(net, from, dt).Some? then HaltOf(net, from, dt)
    else FirstHalt(net, dt, from + 1)
  }

  /** `FirstHalt` reports the halt of the lowest-numbered halting train. */
  lemma {:induction false} FirstHaltIsFirst(net: Network, dt: real, from: nat)
    requires Valid(net) && from <= |net.trains| && FirstHalt(net, dt, from).Some?
    decreases |net.trains| - from
    ensures exists k :: (from <= k < |net.trains| && HaltOf(net, k, dt) == FirstHalt(net, dt, from)
      && forall k' :: from <= k' < k ==> HaltOf(net, k', dt).None?)
  {
    if HaltOf(net, from, dt).None? {
      FirstHaltIsFirst(net, dt, from + 1);
      var k :| from + 1 <= k < |net.trains| && HaltOf(net, k, dt) == FirstHalt(net, dt, from + 1)
        && forall k' :: from + 1 <= k' < k ==> HaltOf(net, k', dt).None?;
      assert forall k' :: from <= k' < k ==> HaltOf(net, k', dt).None?;
    } else {
      assert HaltOf(net, from, dt) == FirstHalt(net, dt, from);
    }
  }

  /** After moving trains `from` onwards: the junctions and the earlier
      trains are untouched, every later train moved as it would have on
      `net`, and each track's queue gained exactly the trains that entered
      it, in train order. */
  predicate MovedFrom(net: Network, r: Network, dt: real, choose: TrainId -> nat, from: nat)
    requires Valid(net) && from <= |net.trains| && NoHaltFrom(net, dt, from)
  {
    && r.junctions == net.junctions && |r.tracks| == |net.tracks| && |r.trains| == |net.trains|
    && (forall k :: 0 <= k < from ==> r.trains[k] == net.trains[k])
    && (forall k :: from <= k < |net.trains| ==> r.trains[k] == MovedTrain(net, k, dt, choose(k)))
    && (forall t :: 0 <= t < |net.tracks| ==>
          r.tracks[t] == net.tracks[t].(trains := net.tracks[t].trains + Entering(net, dt, choose, t, from)))
  }

  /** `update` from train `i` on: each train in turn, stopping at the first
      halt. Every train moves as it would on the network before the update,
      so the order of the trains only shows in the order of the queues. */
  function UpdateFrom(net: Network, dt: real, choose: TrainId -> nat, i: nat): (r: Result<Network, Halt>)
    requires Valid(net) && i <= |net.trains|
    decreases |net.trains| - i
    ensures r.Err? <==> FirstHalt(net, dt, i).Some?
    ensures r.Err? ==> r.error == FirstHalt(net, dt, i).value
    ensures r.Ok? ==> Valid(r.value) && NoHaltFrom(net, dt, i) && MovedFrom(net, r.value, dt, choose, i)
  {
    if i == |net.trains| then
      assert MovedFrom(net, net, dt, choose, i);
      Ok(net)
    else
      match Step(net, i, dt, choose(i))
      case Err(h) => Err(h)
      case Ok(next) =>
        StepKeepsValid(net, i, dt, choose(i));
        StepIsStepped(net, i, dt, choose(i));
        var r := UpdateFrom(next, dt, choose, i + 1);
        FirstHaltStep(net, next, dt, choose(i), i);
        if r.Ok? then
          MovedFromStep(net, next, r.value, dt, choose, i);
          r
        else
          r
  }

  /** Trains from `i + 1` on halt after step `i` as they would have before. */
  lemma FirstHaltStep(net: Network, next: Network, dt: real, choice: nat, i: nat)
    requires Valid(net) && Valid(next) && i < |net.trains|
    requires HaltOf(net, i, dt).None? && SameRoute(net, next, i + 1)
    ensures FirstHalt(net, dt, i) == FirstHalt(next, dt, i + 1)
  {
    FirstHaltAgrees(net, next, dt, i + 1);
  }

  lemma {:induction false} FirstHaltAgrees(a: Network, b: Network, dt: real, from: nat)
    requires Valid(a) && Valid(b) && SameRoute(a, b, from) && from <= |a.trains|
    ensures FirstHalt(a, dt, from) == FirstHalt(b, dt, from)
    decreases |a.trains| - from
  {
    if from < |a.trains| {
      MoveAgrees(a, b, from, dt, 0, 0);
      FirstHaltAgrees(a, b, dt, from + 1);
      var h := HaltOf(a, from, dt);
      assert FirstHalt(a, dt, from) == if h.Some? then h else FirstHalt(a, dt, from + 1);
      assert FirstHalt(b, dt, from) == if h.Some? then h else FirstHalt(b, dt, from + 1);
    }
  }

  /** Step `i` followed by the moves from `i + 1` on are the moves from `i`. */
  lemma MovedFromStep(net: Network, next: Network, r: Network, dt: real, choose: TrainId -> nat, i: nat)
    requires Valid(net) && Valid(next) && i < |net.trains| && Stepped(net, next, i, dt, choose(i))
    requires NoHaltFrom(next, dt, i + 1) && MovedFrom(next, r, dt, choose, i + 1)
    ensures NoHaltFrom(net, dt, i) && MovedFrom(net, r, dt, choose, i)
  {
    forall k | i + 1 <= k < |net.trains|
      ensures HaltOf(net, k, dt).None? && r.trains[k] == MovedTrain(net, k, dt, choose(k))
    {
      MoveAgrees(net, next, k, dt, choose(k), 0);
    }
    assert forall k :: 0 <= k < i ==> r.trains[k] == net.trains[k] by {
      assert forall k :: 0 <= k < i ==> r.trains[k] == next.trains[k];
    }
    assert r.trains[i] == MovedTrain(net, i, dt, choose(i)) by {
      assert r.trains[i] == next.trains[i];
    }
    forall t | 0 <= t < |net.tracks|
      ensures r.tracks[t] == net.tracks[t].(trains := net.tracks[t].trains + Entering(net, dt, choose, t, i))
    {
      QueueStep(net, next, dt, choose, i, next.tracks[t], r.tracks[t], t);
    }
  }

  /** One track's queue: what step `i` appended, then what the later
      trains append, is what the trains from `i` on append. Here `now` is
      the track after step `i` and `last` the track after the later ones. */
  lemma QueueStep(net: Network, next: Network, dt: real, choose: TrainId -> nat, i: nat, now: Track, last: Track, t: TrackId)
    requires Valid(net) && Valid(next) && i < |net.trains| && SameRoute(net, next, i + 1) && t < |net.tracks|
    requires now == net.tracks[t].(trains := net.tracks[t].trains + EnteredBy(net, i, dt, choose(i), t))
    requires last == now.(trains := now.trains + Entering(next, dt, choose, t, i + 1))
    ensures last == net.tracks[t].(trains := net.tracks[t].trains + Entering(net, dt, choose, t, i))
  {
    var after := i + 1;
    EnteringAgrees(net, next, dt, choose, t, after);
    var entered := EnteredBy(net, i, dt, choose(i), t);
    var rest := Entering(net, dt, choose, t, after);
    assert Entering(net, dt, choose, t, i) == entered + rest;
    Associative(net.tracks[t].trains, entered, rest);
  }

  lemma Associative<T>(a: seq<T>, b: seq<T>, c: seq<T>)
    ensures a + b + c == a + (b + c)
  {
  }

  /** `update`: every train, in id order. `choose` supplies the random draw
      for each train that wraps. It halts exactly when some train's move
      halts, and otherwise keeps the arena invariant and moves every train
      as `MovedTrain` says. */
  function Update(net: Network, dt: real, choose: TrainId -> nat): (r: Result<Network, Halt>)
    requires Valid(net)
    ensures r.Err? <==> exists k :: 0 <= k < |net.trains| && HaltOf(net, k, dt).Some?
    ensures r.Ok? ==> Valid(r.value) && r.value.junctions == net.junctions
    ensures r.Ok? ==> |r.value.trains| == |net.trains| && forall k :: 0 <= k < |net.trains| ==>
      HaltOf(net, k, dt).None? && r.value.trains[k] == MovedTrain(net, k, dt, choose(k))
    ensures r.Ok? ==> |r.value.tracks| == |net.tracks| && forall t :: 0 <= t < |net.tracks| ==>
      r.value.tracks[t] == net.tracks[t].(trains := net.tracks[t].trains + Entering(net, dt, choose, t, 0))
  {
    UpdateFrom(net, dt, choose, 0)
  }

  // ---------------------------------------------------------------------
  // What the renderer reads

  /** Every arc in the network has a non-zero radius, so positions on it
      are defined. */
  predicate Drawable(net: Network) {
    forall t :: 0 <= t < |net.tracks| ==> Divisible(net.tracks[t].shape)
  }

  /** `train_positions`: for each train, in id order, the point and heading
      at its distance along its track's shape. */
  function TrainPositions(net: Network, trig: Trig): (r: seq<Transform>)
    requires Valid(net) && Drawable(net)
    ensures |r| == |net.trains|
    ensures forall k :: 0 <= k < |net.trains| ==>
      r[k] == GetTransform(net.tracks[Current(net, k)].shape, net.trains[k].distance, trig)
  {
    seq(|net.trains|, k requires 0 <= k < |net.trains| =>
      GetTransform(net.tracks[Current(net, k)].shape, net.trains[k].distance, trig))
  }

  /** One entry of `curves`. */
  datatype TrackInfo = TrackInfo(source: Vec2, destination: Vec2, shape: TrackShape)

  /** The entry of `curves` for track `t`: its shape between the
      positions of the two junctions it joins. */
  function InfoOf(net: Network, t: TrackId): (info: TrackInfo)
    requires Valid(net) && t < |net.tracks|
    ensures net.tracks[t].source < |net.junctions| && net.tracks[t].destination < |net.junctions|
    ensures info.source == net.junctions[net.tracks[t].source].position
    ensures info.destination == net.junctions[net.tracks[t].destination].position
    ensures info.shape == net.tracks[t].shape
  {
    assert TrackOk(net, t);
    TrackInfo(net.junctions[net.tracks[t].source].position, net.junctions[net.tracks[t].destination].position,
              net.tracks[t].shape)
  }

  /** `curves`: for each track, in id order, the positions of the junctions
      it joins and its shape. */
  function Curves(net: Network): (r: seq<TrackInfo>)
    requires Valid(net)
    ensures |r| == |net.tracks|
    ensures forall t :: 0 <= t < |net.tracks| ==> r[t] == InfoOf(net, t)
  {
    seq(|net.tracks|, t requires 0 <= t < |net.tracks| => InfoOf(net, t))
  }
}
