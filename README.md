# Lane changing and the ring track of a traffic microsimulation framework

This project models two small pieces of a research framework that drives an
external traffic simulator:

- **Lane-change policies** (`LaneChange`, `lane_change.dfy`). There are two policies.
  The never-change policy keeps a vehicle in its lane. The stochastic lane changer
  scores every lane:
  - a lane missing a leading or a trailing car scores the vehicle's top speed;
  - a lane whose cyclic headway or footway is below the required clearance scores 0;
  - any other lane scores the mean speed of the cars in the sensing window, or the top speed when the window is empty.

  It then takes the lowest-indexed best lane. It moves there only if that lane is
  another lane, beats the current lane by more than `speedThreshold`, and a random
  draw falls below `prob`. `StochasticController` runs this the way the source does:
  it fills an array `v` lane by lane in a loop with `continue` branches. It is proved
  equal to the pure specification `Policy`, and the lemmas about the result are
  stated on `Policy`.
- **Ring-track generator** (`LoopGen`, `loop_gen.dfy`). This is the static
  description of a circular track cut into four quarter-circle edges (bottom,
  right, top, left). It consists of four nodes at the cardinal points, four edges
  of length `length/4`, one lane type, a route per edge that goes once round the
  ring, and a rerouter per edge that points at the route starting on the opposite
  edge.

`Wrappers` (`wrappers.dfy`) holds the `Option` type.

The simulator queries the policy makes are passed in as data, in an `Env` value:
- the lane count and the track length;
- the querying vehicle's lane, position and top speed;
- for each lane, the optional positions of the leading and trailing cars and the speeds of the cars in the window.

The draw of the global random source is the parameter `draw`.

## Model

| member | source | states |
|---|---|---|
| `LaneChange.NeverChange` | cistar-dev/cistar/controllers/lane_change_controllers.py:5-10 | the never-change controller returns the vehicle's current lane |
| `LaneChange.NoChanceMeansNoChange` | cistar-dev/cistar/controllers/lane_change_controllers.py:66-70 | when the draw is not below `prob`, the stochastic changer returns exactly what the never-change controller returns |
| `LaneChange.Mod` | cistar-dev/cistar/controllers/lane_change_controllers.py:44-45 | the float `%` by the track length lands in [0, length) and differs from its argument by a whole number of laps |
| `LaneChange.ModUnique` | cistar-dev/cistar/controllers/lane_change_controllers.py:44-45 | those two properties determine the result of `Mod` uniquely, so `Mod` is the Python floor-modulo for a positive divisor |
| `LaneChange.Gap` | cistar-dev/cistar/controllers/lane_change_controllers.py:44-45 | headway (vehicle to leader) and footway (trailer to vehicle) lie in [0, length) and differ from the raw position difference by whole laps |
| `LaneChange.Unsafe` | cistar-dev/cistar/controllers/lane_change_controllers.py:47 | only a lane with both neighbours can be unsafe. Clearances of at most 0 make no lane unsafe, and a clearance of at least the track length makes every lane with both neighbours unsafe |
| `LaneChange.Mean` | cistar-dev/cistar/controllers/lane_change_controllers.py:59 | `np.mean` of a non-empty speed list lies between its slowest and its fastest speed |
| `LaneChange.MeanBounds` | cistar-dev/cistar/controllers/lane_change_controllers.py:58-59 | the mean of the window speeds lies between any lower and upper bound of those speeds |
| `LaneChange.LaneScore` | cistar-dev/cistar/controllers/lane_change_controllers.py:34-61 | a lane scores the top speed, 0, or the mean of a non-empty window. An unsafe lane scores 0, and a safe lane with both neighbours and a non-empty window scores between the slowest and the fastest window speed. The three lemmas below pin each branch |
| `LaneChange.EmptyNeighbourScore` | cistar-dev/cistar/controllers/lane_change_controllers.py:34-37 | a lane with no leader or no trailer scores the vehicle's top speed, and emptying its window changes nothing |
| `LaneChange.TightGapScore` | cistar-dev/cistar/controllers/lane_change_controllers.py:39-50 | a lane with both neighbours and headway below `gapForward` or footway below `gapBack` scores exactly 0, whatever its window holds |
| `LaneChange.OpenLaneScore` | cistar-dev/cistar/controllers/lane_change_controllers.py:56-61 | a lane with both neighbours at safe distances scores the window's mean speed, or the top speed when the window is empty |
| `LaneChange.ScoreBounds` | cistar-dev/cistar/controllers/lane_change_controllers.py:34-61 | if the top speed and all window speeds lie in [0, hi], every lane scores in [0, hi] |
| `LaneChange.Scores` | cistar-dev/cistar/controllers/lane_change_controllers.py:28-61 | the vector `v` has one entry per lane, and entry i is lane i's score |
| `LaneChange.Max` | cistar-dev/cistar/controllers/lane_change_controllers.py:62 | `max(v)` is an element of `v` and no element exceeds it |
| `LaneChange.IndexOf` | cistar-dev/cistar/controllers/lane_change_controllers.py:63 | `v.index(x)` is a position holding `x`, and no earlier position holds `x` |
| `LaneChange.BestLane` | cistar-dev/cistar/controllers/lane_change_controllers.py:62-63 | `maxl` is a lane of maximal score, and every earlier lane scores strictly less (ties go to the lowest index) |
| `LaneChange.SwitchRule` | cistar-dev/cistar/controllers/lane_change_controllers.py:62-70 | the result is in range. It is either the current lane or the first best lane, and in the second case the gain exceeds the threshold and the draw is below `prob`. When the draw is below `prob` and the best lane's gain exceeds the threshold, the result is the best lane |
| `LaneChange.Policy` | cistar-dev/cistar/controllers/lane_change_controllers.py:26-70 | the stochastic changer returns either the current lane or the first best lane of the score vector |
| `LaneChange.PolicyInRange` | cistar-dev/cistar/controllers/lane_change_controllers.py:27-70 | for a current lane in [0, num_lanes), the returned lane is in [0, num_lanes) |
| `LaneChange.PolicyChangesIff` | cistar-dev/cistar/controllers/lane_change_controllers.py:66-70 | the lane changes if and only if `maxl != lane`, `maxv - myv > speedThreshold` and `draw < prob` all hold; a changed lane is `maxl` |
| `LaneChange.PolicyChangeIsWarranted` | cistar-dev/cistar/controllers/lane_change_controllers.py:62-70 | a changed lane scores more than `speedThreshold` above the current lane, no lane scores higher, and every lower lane scores strictly less |
| `LaneChange.NoChangeIntoUnsafeLane` | cistar-dev/cistar/controllers/lane_change_controllers.py:47-70 | with a non-negative threshold and non-negative speeds, the policy never moves into a lane it scored unsafe |
| `LaneChange.DefaultChangerIsCautious` | cistar-dev/cistar/controllers/lane_change_controllers.py:13-15 | under the default parameters (`DefaultParams`: threshold 5, probability 0.5, window 0 back and 60 ahead, clearances 10 behind and 5 ahead) and non-negative speeds, a change needs a draw below 0.5 and a gain above 5, and never enters an unsafe lane |
| `LaneChange.StochasticController` | cistar-dev/cistar/controllers/lane_change_controllers.py:26-70 | the loop over the lanes, the argmax and the switch rule return exactly `Policy`, a lane in [0, num_lanes) |
| `LoopGen.Radius` | cistar_dev/cistar_dev/scenarios/loop/gen.py:29-30 | the radius times pi is the track length |
| `LoopGen.SpecifyNodes` | cistar_dev/cistar_dev/scenarios/loop/gen.py:25-37 | the nodes are bottom, right, top, left. The first is at (0, -r), each next is a quarter turn counter-clockwise from the one before (the last turns back to the first), and all lie on the circle of radius r |
| `LoopGen.SpecifyEdges` | cistar_dev/cistar_dev/scenarios/loop/gen.py:39-65 | the edge ids are bottom, right, top, left. Each edge's id equals its `from`, each `to` is the next edge's `from` (the last leads back to the first), every edge has type `edgeType` and length `length/4` |
| `LoopGen.EdgeLengthsSumToLength` | cistar_dev/cistar_dev/scenarios/loop/gen.py:46-63 | the four edge lengths sum to the circumference |
| `LoopGen.EdgesJoinNodes` | cistar_dev/cistar_dev/scenarios/loop/gen.py:32-63 | every `from` and `to` of every edge names one of the four nodes |
| `LoopGen.NextSegment` | cistar_dev/cistar_dev/scenarios/loop/gen.py:48-63 | following the edges from bottom, right, top and left leads to right, top, left and bottom respectively |
| `LoopGen.SpecifyTypes` | cistar_dev/cistar_dev/scenarios/loop/gen.py:67-75 | there is one lane type, `edgeType`, carrying exactly the input lane count and speed limit |
| `LoopGen.EdgeTypesDeclared` | cistar_dev/cistar_dev/scenarios/loop/gen.py:48-73 | every edge refers to a declared lane type |
| `LoopGen.SpecifyRoutes` | cistar_dev/cistar_dev/scenarios/loop/gen.py:77-86 | there is one route per segment, each of four segments, each starting with its own key |
| `LoopGen.RoutesAreRotations` | cistar_dev/cistar_dev/scenarios/loop/gen.py:81-84 | each route is a rotation of [bottom, right, top, left] and lists every segment exactly once |
| `LoopGen.WalkRound` | cistar_dev/cistar_dev/scenarios/loop/gen.py:48-63 | a walk of four steps along the edges from any segment goes once round the ring |
| `LoopGen.RoutesFollowEdges` | cistar_dev/cistar_dev/scenarios/loop/gen.py:48-84 | each route is the walk along the edges from its own key, and the edge of its last segment leads back to the key, so the route closes the loop |
| `LoopGen.SpecifyRerouters` | cistar_dev/cistar_dev/scenarios/loop/gen.py:89-98 | there are four rerouters, one per segment, with no segment watched twice |
| `LoopGen.RerouterRoute` | cistar_dev/cistar_dev/scenarios/loop/gen.py:93-96 | each rerouter names the route of the segment two quarter turns from its own: top→routebottom, bottom→routetop, left→routeright, right→routeleft |
| `LoopGen.ReroutersTargetOppositeRoute` | cistar_dev/cistar_dev/scenarios/loop/gen.py:81-96 | each rerouter's route starts two steps along the edges from the rerouter's segment, exists in the route table, and passes through the rerouter's own segment |

## Left out

- The simulator queries are not modelled: leading and trailing car, `get_x_by_id`, `get_cars` and the `env.vehicles` table. Their results are input data in `Env`. Vehicle identifiers are not modelled; a falsy car ID (None or an empty string) is `None`.
- `dxBack` and `dxForward` only parameterise the window query. The window's speeds are input data, so nothing checks that they came from that window.
- `random.random()` is replaced by the parameter `draw`. In the source, the draw is only taken when the best lane is another lane and its gain beats `speedThreshold`, because of the short-circuit `and`. So the global random generator advances only on a warranted change. `Policy` takes a `draw` on every call, and the model does not capture how far the generator's state advances.
- Floating point: positions, speeds and lengths are exact reals. `np.mean` rounding is not modelled. Neither is a float `%` that rounds up to the modulus itself.
- A track length of 0 or below is excluded for every input by `Env.WellFormed`. With length 0 the source raises ZeroDivisionError only for a lane that has both a leader and a trailer, and it returns normally when every lane lacks one. With a negative length Python's `%` gives a value in (length, 0]. Neither case is modelled. The vehicle's lane is required to be in [0, num_lanes), which the simulator keeps as an invariant. Python's negative list indexing and the `max([])` error for zero lanes are therefore not modelled.
- `LaneChange.NoChangeIntoUnsafeLane`: holds only for a non-negative `speedThreshold` and non-negative speeds and top speed. With a negative threshold the source can move the vehicle into a lane it scored 0.
- `LaneChange.NeverChange`: an unknown car ID, which makes the source raise KeyError, is not modelled.
- The edge `shape` polylines (numpy `sin`, `cos`, `linspace` and `"%.2f,%.2f"` formatting) are not modelled. `resolution` is therefore carried but never used.
- pi is a positive parameter, and its value plays no part in any property.
- `repr` rendering of numbers is not modelled: coordinates, lengths and speed limits stay reals, and the lane count stays an integer. The rerouter `name` strings are kept but not reasoned about.
- `CircleGenerator.__init__` is not modelled. It builds the `"%s-%dm%dl"` name string and calls the `Generator` base-class constructor, which is not part of this model.
- The `Generator` base class (`cistar_dev.core.generator`) is not part of this model. It writes these records to the simulator's files. The model assumes it registers the route of key `k` under the name `"route" + k`, which is what the rerouters' `route` strings refer to.
