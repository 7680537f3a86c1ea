# Rail network core, modelled in Dafny

This project models the track-network engine of a small train simulation.
- A `Network` is an arena of junctions, tracks and trains held in dense
  sequences that refer to each other by index.
- Each junction has two bounded lists (capacity 2) of entering and leaving
  tracks. It also has an optional tangent direction, which is fixed by the
  first track that sets it.
- A track has a shape. The shape is a straight line or a circular arc,
  parametrised by distance along it.

The model covers three parts of the engine.
- **Construction.**
  - `add_track` cuts a shape into roughly 3-unit segments, joined by new
    junctions placed on the curve.
  - `create_line` lays a straight track between two junctions.
  - `connect_track` picks one of three layouts:
    - a line, when neither end has a direction;
    - one tangent arc, when only one end does;
    - an S-curve, when both do. The S-curve is two arcs and a line through
      two bend points, found by a search over four turning-circle side
      choices.
- **Geometry.** A shape gives the point and heading at any distance. Shapes
  can be reversed and cut into sub-shapes, and an arc can be built from a
  point, a tangent and a destination.
- **Simulation.**
  - `update` advances every train at constant speed. A train that runs past
    the end of its track moves on to one of the exits of the junction there.
  - `train_positions` and `curves` are the read side the renderer uses.

Modules, one per file:

| file | module | what it holds |
|---|---|---|
| `results.dfy` | `Results` | `Option`, and `Result` with `:-` propagation |
| `geometry.dfy` | `Geometry` | `Vec2` over exact reals; the `f32` helpers `signum`, `rem_euclid`, `%`; the trigonometry interface `Trig` |
| `minivec.dfy` | `Minivecs` | the fixed-capacity list and its iterator |
| `track_shape.dfy` | `TrackShapes` | `TrackShape`, its evaluation, reversal, sub-shapes and `from_source_direction_dest` |
| `network.dfy` | `Networks` | junctions, tracks, trains, the arena invariant `Valid`, and the leaf operations |
| `construction.dfy` | `Construction` | `add_track` and its segmenting |
| `connection.dfy` | `Connection` | `create_line`, the bend search and `connect_track` |
| `runtime.dfy` | `Runtime` | `update`, `train_positions`, `curves` |

Modelling choices:
- **Failure.** A panic that the source reaches through `unwrap` is an `Err`
  value. This covers a full adjacency list, and an S-curve search that
  finds no bend (`Fault`). The operations state exactly when they fail and
  with which fault.
- **Input panics.** A panic that depends on the caller's input, such as an
  index past the end, becomes a precondition.
- **Transcendental functions.** `from_angle`, `to_angle`, `normalize` and
  `length` are the fields of a `Trig` value. Every operation that needs them
  takes a `Trig` as a parameter, so the proofs hold for any implementation
  of them.
- **Randomness.** The random exit choice in `update` is a caller-supplied
  draw (`choose`), reduced modulo the number of exits.

Three edge cases of the code, as the model states them:
- **Bend search test.** The progress filter at `src/track.rs:195-197` is
  strict (`> 0.0` on each leg's projection). The two further conditions
  commented out at `src/track.rs:198-199` would use `>= 0.0` and are not
  part of the filter (`Connection.Advances`).
- **Wrapping at the end.** The wrap test at `src/track.rs:365` is strict, so
  a train that lands exactly on the end of its track stays there at
  distance `|length|` (`Runtime.ReachingEndStays`).
- **No exits.** `gen_range(0..0)` at `src/track.rs:370` panics when the
  junction at the end of the track has no exits; the model reports this as
  `Halt.DeadEnd`.

## Model

| member | source | states |
|---|---|---|
| Minivecs.New | src/minivec.rs:10-15 | a new list has the requested capacity, no elements, and is full only when its capacity is zero |
| Minivecs.Push | src/minivec.rs:21-29 | push fails exactly when the list is full, and then it returns the item and leaves the list unchanged; otherwise the item is appended after the old elements and the capacity is kept |
| Minivecs.Index | src/minivec.rs:45-53 | indexing below the length returns the element stored at that position, which is one of the list's elements; indexing at or past the length panics, which is the precondition |
| Minivecs.IntoIter | src/minivec.rs:37-42 | a new iterator reads the given list from position 0 |
| Minivecs.Next | src/minivec.rs:64-72 | `next` yields nothing exactly when the position has reached the length; otherwise it yields the element at the position and advances by one |
| Minivecs.DrainYieldsRest | src/minivec.rs:61-72 | an iterator yields exactly the stored elements from its position to the length, in order |
| Minivecs.IterYieldsItems | src/minivec.rs:32-72 | iterating a list yields exactly the pushed elements and none of the unused slots |
| Minivecs.PushStoresAtEnd | src/minivec.rs:21-29 | after a successful push, index `len` reads the new item and every earlier index reads what it read before |
| Minivecs.PushUntilFull | src/minivec.rs:21-29 | a list one short of capacity accepts one push, becomes full, and refuses the next push by handing the item back |
| Geometry.Signum | src/track_shape.rs:176 | `signum` is ±1, is negative exactly for negative inputs, and times the input gives the absolute value |
| Geometry.RemEuclid | src/track_shape.rs:46-48 | `rem_euclid` by a positive period lands in `[0, period)` and differs from the input by whole periods |
| Geometry.Fmod | src/track.rs:366 | the float remainder differs from the input by whole multiples of the modulus; for a positive modulus it takes the sign of the input, in `[0, m)` for a non-negative input and in `(-m, 0]` for a negative one |
| TrackShapes.GetLength | src/track_shape.rs:186-193 | a line's length is its stored length; an arc's length is non-negative, and for a non-negative radius it is the absolute sweep times the radius |
| TrackShapes.Reverse | src/track_shape.rs:140-163 | reversal keeps the kind of shape; a reversed line starts at the old end and points the other way; a reversed arc starts at the old final angle and sweeps back about the same center and radius |
| TrackShapes.GetTransform | src/track_shape.rs:165-184 | a line's point is the source plus distance times direction, with the direction's angle as heading; an arc's point is on its circle at the angle reached after travelling the distance, and its heading is that angle turned a quarter turn in the sense of the sweep |
| TrackShapes.Subshape | src/track_shape.rs:195-216 | a sub-shape keeps the kind of shape, the direction (line) or the center and radius (arc), has length `to - from` (its absolute value for an arc), and keeps radii positive |
| TrackShapes.ReverseInvolution | src/track_shape.rs:140-163 | reversing twice gives back the original shape |
| TrackShapes.ReversePreservesLength | src/track_shape.rs:140-193 | reversal does not change the length |
| TrackShapes.ReverseTraversesBackwards | src/track_shape.rs:140-184 | the reversed shape at distance `d` is at the original's point at `length - d` |
| TrackShapes.SubshapeTransform | src/track_shape.rs:165-216 | the sub-shape from `from` to `to`, at distance `d`, has the original's point and heading at `from + d` |
| TrackShapes.SubshapeWhole | src/track_shape.rs:186-216 | the sub-shape from 0 to the full length is the shape itself |
| TrackShapes.FromSourceDirectionDest | src/track_shape.rs:21-56 | the result is a line exactly when the destination is within 0.001 of the ray sideways; such a line starts at the source along the given direction with the distance as its length; the result always has a positive radius if it is an arc |
| TrackShapes.ArcFrom | src/track_shape.rs:39-56 | the arc's radius is the absolute signed radius and is positive; the center is on the normal at the source; the sweep equals the angle from start to end up to whole turns; the sweep is in `[0, TAU)` when the destination is to the left and in `[-TAU, 0)` when it is to the right |
| TrackShapes.Sweep | src/track_shape.rs:45-49 | the wrapped sweep differs from the raw angle difference by whole turns and lies in `[0, TAU)`, or in `[-TAU, 0)` for a clockwise circle |
| TrackShapes.ArcCenterOnNormal | src/track_shape.rs:26-40 | the arc's center lies on the line through the source perpendicular to the source direction, so the arc leaves the source tangent to it |
| TrackShapes.ArcThroughEndpoints | src/track_shape.rs:26-43 | for a unit direction, the source and the destination are both at distance `radius` from the arc's center |
| Networks.Empty | src/track.rs:381-386 | the empty network `generate_network` starts from has no junctions, tracks or trains and satisfies the arena invariant |
| Networks.AddJunction | src/track.rs:78-90 | the new junction's id is its index; it is appended with no tracks and no direction; the tracks, the trains and the existing junctions are unchanged |
| Networks.JunctionKeepsValid | src/track.rs:78-90 | adding a junction keeps the arena invariant |
| Networks.AddTrackSegment | src/track.rs:299-325 | the segment fails exactly when the source's exits or the destination's entrances are full, reporting the exits first; otherwise the new track id is the old track count, and it is appended to the source's exits and to the destination's entrances; the track is stored with an empty queue and its shape's length; no other adjacency list and no direction changes |
| Networks.PushExit | src/track.rs:307 | the push is refused exactly when the exit list is full; otherwise only that junction's exits change, gaining the id at the end |
| Networks.PushEntrance | src/track.rs:308-311 | the push is refused exactly when the entrance list is full; otherwise only that junction's entrances change, gaining the id at the end |
| Networks.SegmentKeepsValid | src/track.rs:299-325 | a successful `add_track_segment` keeps the arena invariant |
| Networks.SetDirection | src/track.rs:163-165 | the junction gets the given direction; no other junction's direction and no adjacency list changes |
| Networks.SetDirectionIfAbsent | src/track.rs:133-136 | `get_or_insert`: a direction already set is kept, an unset one takes the given value, and no direction that was set changes anywhere |
| Networks.SetDirectionKeepsValid | src/track.rs:133-136 | setting a direction, outright or only if absent, keeps the arena invariant |
| Networks.AddTrain | src/track.rs:327-341 | the new train's id is the old train count; it starts at distance 0 on the given track and is appended to that track's queue; nothing else changes, and the arena invariant holds afterwards |
| Construction.SegmentCount | src/track.rs:264 | there is always at least one segment; lengths below two ideal lengths give one segment; otherwise the count is the whole number of ideal lengths that fit |
| Construction.SegmentLengthBounds | src/track.rs:264-265 | for a track at least one ideal length long, every segment is at least one and less than two ideal lengths |
| Construction.SegmentLengthPositive | src/track.rs:264-265 | for a shape with positive length the segments have positive length, and together they add up to the whole length |
| Construction.Piece | src/track.rs:287-290 | each segment's shape has a positive radius when the whole shape does |
| Construction.SegmentsMeet | src/track.rs:270-291 | segment `i` ends, and segment `i + 1` starts, at the point and heading of the whole shape at cut `i + 1`, which is where the joint is placed |
| Construction.PiecesSpanShape | src/track.rs:264-294 | the first segment starts where the shape starts and the last segment ends where the shape ends |
| Construction.AddTrack | src/track.rs:256-297 | `add_track` fails exactly when the source has no free exit or the destination no free entrance; otherwise it returns the id of the first segment and appends `SegmentCount` tracks chained from source to destination through `SegmentCount - 1` new junctions; each joint sits on the shape at its cut, with the shape's heading as its direction; one exit and one entrance are used, no old direction changes, and the arena invariant is kept |
| Construction.AddJoints | src/track.rs:270-294 | the loop of `add_track` lays all segments but the last, each ending at a new junction placed on the curve; it fails only when there is more than one segment and the source's exits are full |
| Construction.AddJoint | src/track.rs:274-291 | one step of the loop adds a junction at the cut with the heading's direction and a segment into it from the previous node, and fails exactly when that node's exits are full |
| Construction.ChainGrows | src/track.rs:270-293 | one more joint and the segment into it extend the chain laid so far by one segment |
| Construction.ChainCompletes | src/track.rs:271-294 | the final segment into the destination completes the chain |
| Connection.LineBetween | src/track.rs:119-131 | the line `create_line` lays starts at the source junction's position |
| Connection.CreateLine | src/track.rs:119-139 | `create_line` fails exactly when the source's exits or the destination's entrances are full; otherwise it returns the first new track and lays the segmented line from the source to the destination; each end keeps a direction it already had, and otherwise takes the line's direction; the arena invariant is kept |
| Connection.LaidKept | src/track.rs:133-136 | setting directions on old junctions leaves the laid chain of segments intact |
| Connection.FirstAdvancing | src/track.rs:181-207 | the search returns the first candidate from the given index that passes the progress filter, and returns none only if no candidate from there passes |
| Connection.FindBend | src/track.rs:181-207 | a bend is found exactly when some side choice passes the progress filter; the bend found passes it and is the first candidate in iteration order that does |
| Connection.BendProgresses | src/track.rs:193-197 | any bend that passes the progress filter, and so the bend the search returns, is ordered along the source-to-destination vector: source, first bend point, second bend point, destination |
| Connection.NoBendInPlace | src/track.rs:180-207 | two directed junctions at the same position never admit a bend, so connecting them always panics |
| Connection.ArcFromSource | src/track.rs:156-161 | the arc laid from a directed source has a positive radius when it is an arc |
| Connection.ArcIntoDestination | src/track.rs:168-174 | the reversed arc laid into a directed destination has a positive radius when it is an arc |
| Connection.ConnectTrack | src/track.rs:141-220 | `connect_track` fails exactly on a missing bend, a full source exit list or a full destination entrance list, checked in that order; otherwise it connects source to destination: only those two junctions may gain a direction, both end up with one, no direction already set changes, one exit and one entrance are used, and the arena invariant is kept; each branch lays its own shape and sets the direction it computes; an S-curve places its two bend junctions on the bend points |
| Connection.ConnectFromSource | src/track.rs:156-167 | with only the source directed, the destination takes the arc's final heading and the segmented arc is laid from source to destination |
| Connection.ConnectIntoDestination | src/track.rs:168-179 | with only the destination directed, the source takes the reversed arc's initial heading and the segmented arc is laid |
| Connection.ArcConnected | src/track.rs:156-179 | directing the undirected end and then laying a chain between the two ends connects them |
| Connection.ConnectSCurve | src/track.rs:209-218 | for the bend points the search chose, the S-curve fails exactly when the source's exits or the destination's entrances are full; otherwise it connects source to destination through two new junctions on the bend points, the first new track leaves the source, and the returned track is the line leaving the first bend point |
| Connection.ArcToBend | src/track.rs:212 | the inner call from the source to the first bend junction takes the single-arc branch and connects them |
| Connection.ArcFromBend | src/track.rs:214 | the inner call from the second bend junction to the destination takes the single-arc branch and connects them |
| Connection.FirstTrackLeaves | src/track.rs:284-292 | the first track of a laid chain starts at the chain's source |
| Connection.BendJunctions | src/track.rs:209-210 | the two bend junctions are appended bare, in order, without touching the existing ones |
| Connection.MiddleReady | src/track.rs:212-214 | after the first arc, the second bend junction is still bare and the destination's entrances are as before |
| Connection.LineReady | src/track.rs:214-217 | after the second arc, the line between the bend junctions has a free exit and a free entrance, so `create_line` cannot fail |
| Connection.SCurveComposes | src/track.rs:209-217 | the two arcs and the line compose into one connection from source to destination |
| Runtime.Current | src/track.rs:361 | a train's track exists |
| Runtime.EndOf | src/track.rs:368 | the junction at the end of a train's track exists |
| Runtime.NextTrack | src/track.rs:368-370 | the exit a wrapping train takes is a track that leaves the junction its old track ended at |
| Runtime.Step | src/track.rs:360-376 | one iteration halts exactly when the train wraps onto a junction with no exits, or wraps on a zero-length track, and reports which; otherwise only that train changes, to its moved state, and junctions and track count are unchanged |
| Runtime.Enqueue | src/track.rs:372 | `push_back` appends the train to one queue and leaves every other track unchanged |
| Runtime.StepQueues | src/track.rs:369-374 | one iteration only appends the moving train, and only to the queue of the track it wraps onto; no train is removed from any queue |
| Runtime.WrapContinues | src/track.rs:365-374 | a wrapping train continues on a track leaving the junction its old track ended at, at a remainder in `[0, |length|)` |
| Runtime.NoWrapStays | src/track.rs:363-365 | a train that does not pass the end stays on its track and advances by exactly `dt * 8` |
| Runtime.ReachingEndStays | src/track.rs:365 | a train landing exactly on the end does not wrap, since the test is strict |
| Runtime.StepIsStepped | src/track.rs:359-377 | a successful iteration keeps the junctions, the tracks apart from their queues and the other trains, moves train `i`, and grows the queues only by train `i` |
| Runtime.StepKeepsValid | src/track.rs:359-377 | one iteration keeps the arena invariant |
| Runtime.MoveAgrees | src/track.rs:360-375 | a train's move only depends on the junctions, the track geometry and the train itself, not on the queues or on the trains moved before it |
| Runtime.EnteringAgrees | src/track.rs:359-377 | the trains entering a track from some train on are the same on two networks that agree on all of these |
| Runtime.FirstHalt | src/track.rs:359-377 | there is no halting train from the given one on exactly when no such train's move halts |
| Runtime.FirstHaltIsFirst | src/track.rs:359-377 | a reported halt is the halt of some train, and every train before that one moves without halting |
| Runtime.UpdateFrom | src/track.rs:359-377 | running the loop from train `i` halts with the first halt from `i` on; otherwise it keeps the invariant, moves every later train as it would have moved on the network before the loop, and appends exactly the entering trains to each queue, in train order |
| Runtime.FirstHaltStep | src/track.rs:359-377 | after one iteration the later trains halt as they would have before it |
| Runtime.FirstHaltAgrees | src/track.rs:359-377 | the first halt is the same on networks that agree on what moves look at |
| Runtime.MovedFromStep | src/track.rs:359-377 | one iteration followed by the rest of the loop moves the trains from `i` on |
| Runtime.QueueStep | src/track.rs:371-372 | a track's queue after the loop is its old queue, then this train if it entered, then the later entering trains |
| Runtime.Update | src/track.rs:359-377 | `update` halts exactly when some train's move halts; otherwise it keeps the junctions and the invariant, moves every train as it would move alone, and appends to each queue exactly the trains that entered it, in train order |
| Runtime.TrainPositions | src/track.rs:343-349 | one position per train, in train order: the point and heading of its track's shape at its distance |
| Runtime.InfoOf | src/track.rs:352-356 | a track's endpoints are existing junctions, and the entry holds their positions and the track's shape |
| Runtime.Curves | src/track.rs:351-357 | one entry per track, in track order, with the positions of the junctions it joins and its shape |

## Left out

- Stations: `add_station`, `get_start_junction` and `get_end_junction` are left out. Nothing in construction or `update` reads stations.
- `generate_network` (the fixed waypoint list, filleting and wiring) is left out. It is a driver of the modelled operations over constant data.
- `assert_correctness` is left out. Its body is dead code after an early `return`.
- `assert_sanity` is left out. It is a debug-only check with float tolerances. Its exact-arithmetic content is stated by `TrackShapes.ArcCenterOnNormal` and `TrackShapes.ArcThroughEndpoints`.
- Rendering, the frame loop, and the arc drawing in `src/main.rs` and `src/proper_draw_arc.rs` are left out as I/O.
- `f32` rounding is left out. All arithmetic is exact over reals, so properties that the source only meets up to rounding are stated exactly.
- `Runtime.Step`: when a train wraps on a zero-length track, the `f32` remainder is NaN and the source carries on with a NaN distance. The model halts with `NotANumber`, because NaN is not representable.
- `Runtime.NextTrack`: the uniform random draw of `gen_range` is a caller-supplied number reduced modulo the exit count. Uniformity is not modelled.
- `TrackShapes.FromSourceDirectionDest`: `to_angle`, `from_angle`, `normalize` and `length` are uninterpreted. So the model does not prove that the arc's end point is the destination, or that the start heading equals the source direction. It proves the arc's circle instead: the center is on the normal, and both endpoints are at the radius.
- `TrackShapes.ReverseTraversesBackwards`: it states positions only, and it needs a non-zero sweep. With a zero sweep, `signum(+0.0)` and `signum(-0.0)` differ.
- `TrackShapes.GetTransform`: it requires a non-zero arc radius (`Divisible`). A zero radius produces infinities in `f32`.
- `Construction.AddTrack`: it requires `Divisible` of its shape for the same reason. Every shape the construction code builds is `Proper`.
- `Construction.SegmentCount`: the saturating `as usize` cast is modelled for negative quotients but not for quotients above `usize::MAX`.
- `Connection.ConnectTrack`: for the S-curve branch, the per-branch clause states the layout (bend junctions, first and returned tracks), not the full segment chain of each of the three parts.
- `Connection.ConnectSCurve`: the two inner recursive `connect_track` calls are modelled as calls to the single-arc branches they always reach, since a fresh bend junction has no direction.
- `Runtime.TrainPositions`: it requires every arc's radius to be non-zero (`Drawable`), for the same reason as `GetTransform`.
- `Minivecs.Index` and `Networks.AddTrain`: an out-of-range index panics in the source, so the model has a precondition.
- Trains are never removed from the queue of the track they leave. This is faithful to the source and is visible in `Runtime.StepQueues`.
