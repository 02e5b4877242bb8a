/**
 * Lane-change policies of the traffic simulator's controllers
 * (cistar/controllers/lane_change_controllers.py).
 *
 * Every question the policy puts to the simulation environment (leading and
 * trailing car in a lane, their positions, the cars inside the sensing window
 * and their speeds) arrives here as input data in an `Env` value; the single
 * call to the global random source arrives as the parameter `draw`.
 */
module LaneChange {
  import opened Wrappers

  /** The tunable parameters of the stochastic lane changer. */
  datatype Params = Params(
    speedThreshold: real,  // minimum speed increase required to change
    prob: real,            // probability that a warranted change is requested
    dxBack: real,          // farthest distance behind the car it can see
    dxForward: real,       // farthest distance ahead of the car it can see
    gapBack: real,         // minimum clearance required behind the car
    gapForward: real)      // minimum clearance required ahead of the car

  /** The defaults of `stochastic_lane_changer`. */
  const DefaultParams := Params(5.0, 0.5, 0.0, 60.0, 10.0, 5.0)

  /** The querying vehicle: its lane, its position on the loop and its top speed. */
  datatype Vehicle = Vehicle(lane: int, pos: real, maxSpeed: real)

  /**
   * What the environment reports about one lane for the querying vehicle:
   * the position of the leading and of the trailing car (None when the query
   * returns no car) and the speeds of the cars in the sensing window
   * [pos - dxBack, pos + dxForward] of that lane.
   */
  datatype LaneObs = LaneObs(lead: Option<real>, trail: Option<real>, window: seq<real>)

  /** The read-only view of the simulation the controller is given. */
  datatype Env = Env(numLanes: nat, length: real, me: Vehicle, lanes: seq<LaneObs>)
  {
    /** One observation per lane, the vehicle's lane exists, the track has positive length. */
    predicate WellFormed()
    {
      |lanes| == numLanes && 0 <= me.lane < numLanes && length > 0.0
    }
  }

  // ---------------------------------------------------------------------------
  // Never-change policy

  /** The policy that keeps every vehicle in the lane it is in. */
  function NeverChange(env: Env): (lane: int)
    ensures lane == env.me.lane
  {
    env.me.lane
  }

  // ---------------------------------------------------------------------------
  // Cyclic distances

  /** The distance covered by `k` laps of a loop of length `m`. */
  function Laps(k: int, m: real): real
  {
    k as real * m
  }

  /** `d` is a whole number of laps of length `m`. */
  ghost predicate IsMultiple(d: real, m: real)
  {
    exists k: int :: d == Laps(k, m)
  }

  lemma FractionOfLap(t: real, m: real)
    requires 0.0 <= t < 1.0 && m > 0.0
    ensures 0.0 <= t * m < m
  {
  }

  /** The float `%` of the source for a positive modulus: the representative of `x` in [0, m). */
  function Mod(x: real, m: real): (r: real)
    requires m > 0.0
    ensures 0.0 <= r < m
    ensures IsMultiple(x - r, m)
  {
    var q := (x / m).Floor;
    var t := x / m - q as real;
    assert x - Laps(q, m) == t * m by {
      assert x == (x / m) * m;
    }
    FractionOfLap(t, m);
    x - Laps(q, m)
  }

  lemma LapsDiffer(i: int, j: int, m: real)
    requires m > 0.0 && i != j
    ensures Laps(i, m) - Laps(j, m) >= m || Laps(j, m) - Laps(i, m) >= m
  {
    var d := i - j;
    assert Laps(i, m) - Laps(j, m) == d as real * m;
    if d >= 1 {
      assert d as real * m >= 1.0 * m;
    } else {
      assert (-d) as real * m >= 1.0 * m;
    }
  }

  /** The two properties of `Mod` single out its result. */
  lemma ModUnique(x: real, m: real, r: real)
    requires m > 0.0
    requires 0.0 <= r < m && IsMultiple(x - r, m)
    ensures r == Mod(x, m)
  {
    var r0 := Mod(x, m);
    var k :| x - r == Laps(k, m);
    var k0 :| x - r0 == Laps(k0, m);
    if k != k0 {
      LapsDiffer(k, k0, m);
    }
  }

  /**
   * Distance along the loop going forward from position `behind` to position
   * `ahead`: the headway is the gap from the vehicle to its leader, the
   * footway the gap from its trailer to the vehicle.
   */
  function Gap(behind: real, ahead: real, length: real): (g: real)
    requires length > 0.0
    ensures 0.0 <= g < length
    ensures IsMultiple(ahead - behind - g, length)
  {
    Mod(ahead - behind, length)
  }

  // ---------------------------------------------------------------------------
  // Mean speed

  function Sum(s: seq<real>): real
  {
    if s == [] then 0.0 else s[0] + Sum(s[1..])
  }

  /** The arithmetic mean of a non-empty list of speeds: never below the slowest nor above the fastest. */
  function Mean(s: seq<real>): (r: real)
    requires |s| > 0
    ensures Min(s) <= r <= Max(s)
  {
    AverageWithinRange(s);
    Sum(s) / |s| as real
  }

  lemma AverageWithinRange(s: seq<real>)
    requires |s| > 0
    ensures Min(s) <= Sum(s) / |s| as real <= Max(s)
  {
    AverageBetween(s, Min(s), Max(s));
  }

  lemma AverageBetween(s: seq<real>, lo: real, hi: real)
    requires |s| > 0
    requires forall i :: 0 <= i < |s| ==> lo <= s[i] <= hi
    ensures lo <= Sum(s) / |s| as real <= hi
  {
    SumBounds(s, lo, hi);
    ShareBounds(Sum(s), |s| as real, lo, hi);
  }

  lemma ShareBounds(total: real, n: real, lo: real, hi: real)
    requires n > 0.0 && n * lo <= total <= n * hi
    ensures lo <= total / n <= hi
  {
    assert (total / n) * n == total;
  }

  lemma {:induction false} SumBounds(s: seq<real>, lo: real, hi: real)
    requires forall i :: 0 <= i < |s| ==> lo <= s[i] <= hi
    ensures |s| as real * lo <= Sum(s) <= |s| as real * hi
  {
    if s != [] {
      SumBounds(s[1..], lo, hi);
    }
  }

  /** The mean lies between any bounds on its elements. */
  lemma MeanBounds(s: seq<real>, lo: real, hi: real)
    requires |s| > 0
    requires forall i :: 0 <= i < |s| ==> lo <= s[i] <= hi
    ensures lo <= Mean(s) <= hi
  {
    assert lo <= Min(s) && Max(s) <= hi;
  }

  // ---------------------------------------------------------------------------
  // Per-lane desirability

  /**
   * Both neighbours exist and one of them is closer than the required
   * clearance. Since gaps lie in [0, length), clearances of at most 0 make no
   * lane unsafe, and a clearance of at least the track length makes every lane
   * with both neighbours unsafe.
   */
  predicate Unsafe(obs: LaneObs, me: Vehicle, length: real, p: Params)
    requires length > 0.0
    ensures Unsafe(obs, me, length, p) ==> obs.lead.Some? && obs.trail.Some?
    ensures p.gapForward <= 0.0 && p.gapBack <= 0.0 ==> !Unsafe(obs, me, length, p)
    ensures obs.lead.Some? && obs.trail.Some? && (p.gapForward >= length || p.gapBack >= length) ==>
      Unsafe(obs, me, length, p)
  {
    obs.lead.Some? && obs.trail.Some? &&
    (Gap(me.pos, obs.lead.value, length) < p.gapForward ||
     Gap(obs.trail.value, me.pos, length) < p.gapBack)
  }

  /**
   * The desirability the stochastic lane changer assigns to one lane: the top
   * speed, 0, or the mean speed of a non-empty window; 0 exactly for an unsafe
   * lane unless the top speed or that mean happens to be 0 too.
   */
  function LaneScore(obs: LaneObs, me: Vehicle, length: real, p: Params): (score: real)
    requires length > 0.0
    ensures score == me.maxSpeed || score == 0.0 || (|obs.window| > 0 && score == Mean(obs.window))
    ensures Unsafe(obs, me, length, p) ==> score == 0.0
    ensures !Unsafe(obs, me, length, p) && |obs.window| > 0 && obs.lead.Some? && obs.trail.Some? ==>
      Min(obs.window) <= score <= Max(obs.window)
  {
    if obs.lead.None? || obs.trail.None? then me.maxSpeed
    else if Unsafe(obs, me, length, p) then 0.0
    else if |obs.window| > 0 then Mean(obs.window)
    else me.maxSpeed
  }

  /** A lane missing a leader or a trailer scores the top speed, whatever the window holds. */
  lemma EmptyNeighbourScore(obs: LaneObs, me: Vehicle, length: real, p: Params)
    requires length > 0.0
    requires obs.lead.None? || obs.trail.None?
    ensures LaneScore(obs, me, length, p) == me.maxSpeed
    ensures LaneScore(obs.(window := []), me, length, p) == LaneScore(obs, me, length, p)
  {
  }

  /** A lane whose leader or trailer is too close scores 0, whatever the window holds. */
  lemma TightGapScore(obs: LaneObs, me: Vehicle, length: real, p: Params)
    requires length > 0.0
    requires obs.lead.Some? && obs.trail.Some?
    requires Gap(me.pos, obs.lead.value, length) < p.gapForward ||
             Gap(obs.trail.value, me.pos, length) < p.gapBack
    ensures LaneScore(obs, me, length, p) == 0.0
  {
  }

  /** A lane with both neighbours at safe distances scores the window's mean speed, or the top speed for an empty window. */
  lemma OpenLaneScore(obs: LaneObs, me: Vehicle, length: real, p: Params)
    requires length > 0.0
    requires obs.lead.Some? && obs.trail.Some? && !Unsafe(obs, me, length, p)
    ensures |obs.window| > 0 ==> LaneScore(obs, me, length, p) == Mean(obs.window)
    ensures |obs.window| == 0 ==> LaneScore(obs, me, length, p) == me.maxSpeed
  {
  }

  /** With speeds and the top speed in [0, hi], every lane scores in [0, hi]. */
  lemma ScoreBounds(obs: LaneObs, me: Vehicle, length: real, p: Params, hi: real)
    requires length > 0.0
    requires 0.0 <= me.maxSpeed <= hi
    requires forall i :: 0 <= i < |obs.window| ==> 0.0 <= obs.window[i] <= hi
    ensures 0.0 <= LaneScore(obs, me, length, p) <= hi
  {
    if obs.lead.Some? && obs.trail.Some? && !Unsafe(obs, me, length, p) && |obs.window| > 0 {
      MeanBounds(obs.window, 0.0, hi);
    }
  }

  /** The desirability vector `v` of the source, one entry per lane. */
  function Scores(env: Env, p: Params): (v: seq<real>)
    requires env.length > 0.0
    ensures |v| == |env.lanes|
    ensures forall i :: 0 <= i < |v| ==> v[i] == LaneScore(env.lanes[i], env.me, env.length, p)
  {
    seq(|env.lanes|, i requires 0 <= i < |env.lanes| => LaneScore(env.lanes[i], env.me, env.length, p))
  }

  // ---------------------------------------------------------------------------
  // Maximum and first index (the builtins `max` and `list.index`)

  function Min(s: seq<real>): (m: real)
    requires |s| > 0
    ensures m in s
    ensures forall i :: 0 <= i < |s| ==> m <= s[i]
  {
    if |s| == 1 then s[0]
    else
      var t := Min(s[1..]);
      if s[0] <= t then s[0] else t
  }

  function Max(s: seq<real>): (m: real)
    requires |s| > 0
    ensures m in s
    ensures forall i :: 0 <= i < |s| ==> s[i] <= m
  {
    if |s| == 1 then s[0]
    else
      var t := Max(s[1..]);
      if s[0] >= t then s[0] else t
  }

  function IndexOf(s: seq<real>, x: real): (i: nat)
    requires x in s
    ensures i < |s| && s[i] == x
    ensures forall j :: 0 <= j < i ==> s[j] != x
  {
    if s[0] == x then 0 else 1 + IndexOf(s[1..], x)
  }

  /** The lowest lane whose desirability is the maximum. */
  function BestLane(v: seq<real>): (b: nat)
    requires |v| > 0
    ensures b < |v|
    ensures forall j :: 0 <= j < |v| ==> v[j] <= v[b]
    ensures forall j :: 0 <= j < b ==> v[j] < v[b]
  {
    IndexOf(v, Max(v))
  }

  // ---------------------------------------------------------------------------
  // The switch rule and the policy

  /** Move to the best lane only if it is another lane, the gain beats the threshold and the draw falls below `prob`. */
  function SwitchRule(v: seq<real>, lane: int, speedThreshold: real, prob: real, draw: real): (target: int)
    requires 0 <= lane < |v|
    ensures 0 <= target < |v|
    ensures target == lane ||
      (target == BestLane(v) && v[target] - v[lane] > speedThreshold && draw < prob)
    ensures draw < prob && v[BestLane(v)] - v[lane] > speedThreshold ==> target == BestLane(v)
  {
    var maxl := BestLane(v);
    if maxl != lane && Max(v) - v[lane] > speedThreshold && draw < prob then maxl else lane
  }

  /** The lane the stochastic lane changer returns, for a given random draw. */
  function Policy(env: Env, p: Params, draw: real): (target: int)
    requires env.WellFormed()
    ensures target == env.me.lane || target == BestLane(Scores(env, p))
  {
    SwitchRule(Scores(env, p), env.me.lane, p.speedThreshold, p.prob, draw)
  }

  /** The returned lane exists. */
  lemma PolicyInRange(env: Env, p: Params, draw: real)
    requires env.WellFormed()
    ensures 0 <= Policy(env, p, draw) < env.numLanes
  {
  }

  /** The lane changes exactly when all three conditions hold, and then to the best lane. */
  lemma PolicyChangesIff(env: Env, p: Params, draw: real)
    requires env.WellFormed()
    ensures var v := Scores(env, p);
      (Policy(env, p, draw) != env.me.lane) <==>
      (BestLane(v) != env.me.lane && Max(v) - v[env.me.lane] > p.speedThreshold && draw < p.prob)
    ensures Policy(env, p, draw) != env.me.lane ==> Policy(env, p, draw) == BestLane(Scores(env, p))
  {
  }

  /** A changed lane beats the current one by more than the threshold, is a maximum, and is the lowest maximum. */
  lemma PolicyChangeIsWarranted(env: Env, p: Params, draw: real)
    requires env.WellFormed()
    ensures var v := Scores(env, p); var t := Policy(env, p, draw);
      t != env.me.lane ==>
      v[t] - v[env.me.lane] > p.speedThreshold &&
      (forall j :: 0 <= j < |v| ==> v[j] <= v[t]) &&
      (forall j :: 0 <= j < t ==> v[j] < v[t])
  {
  }

  /** A draw at or above `prob` never changes lanes: the policy then agrees with NeverChange. */
  lemma NoChanceMeansNoChange(env: Env, p: Params, draw: real)
    requires env.WellFormed()
    requires draw >= p.prob
    ensures Policy(env, p, draw) == NeverChange(env)
  {
  }

  /**
   * With non-negative speeds and threshold, the policy never moves the vehicle
   * into a lane it scored unsafe.
   */
  lemma NoChangeIntoUnsafeLane(env: Env, p: Params, draw: real)
    requires env.WellFormed()
    requires p.speedThreshold >= 0.0 && env.me.maxSpeed >= 0.0
    requires forall l, i :: 0 <= l < |env.lanes| && 0 <= i < |env.lanes[l].window| ==> env.lanes[l].window[i] >= 0.0
    ensures var t := Policy(env, p, draw);
      t != env.me.lane ==> !Unsafe(env.lanes[t], env.me, env.length, p)
  {
    var t := Policy(env, p, draw);
    var lane := env.me.lane;
    if t != lane {
      var obs := env.lanes[lane];
      var hi := Max(obs.window + [env.me.maxSpeed]);
      forall i | 0 <= i < |obs.window|
        ensures 0.0 <= obs.window[i] <= hi
      {
        assert obs.window[i] == (obs.window + [env.me.maxSpeed])[i];
      }
      assert env.me.maxSpeed == (obs.window + [env.me.maxSpeed])[|obs.window|];
      ScoreBounds(obs, env.me, env.length, p, hi);
    }
  }

  /**
   * Under the default parameters (threshold 5, probability 0.5) and
   * non-negative speeds, a change needs a draw below 0.5 and a gain above 5,
   * and never enters an unsafe lane.
   */
  lemma DefaultChangerIsCautious(env: Env, draw: real)
    requires env.WellFormed()
    requires env.me.maxSpeed >= 0.0
    requires forall l, i :: 0 <= l < |env.lanes| && 0 <= i < |env.lanes[l].window| ==> env.lanes[l].window[i] >= 0.0
    ensures var t := Policy(env, DefaultParams, draw); var v := Scores(env, DefaultParams);
      t != env.me.lane ==>
        draw < 0.5 && v[t] - v[env.me.lane] > 5.0 && !Unsafe(env.lanes[t], env.me, env.length, DefaultParams)
  {
    NoChangeIntoUnsafeLane(env, DefaultParams, draw);
  }

  /**
   * The controller as the source runs it: fill `v` lane by lane, then pick the
   * first maximum and apply the switch rule.
   */
  method StochasticController(env: Env, p: Params, draw: real) returns (target: int)
    requires env.WellFormed()
    ensures target == Policy(env, p, draw)
    ensures 0 <= target < env.numLanes
  {
    var numLanes := env.numLanes;
    var v := new real[numLanes](_ => 0.0);
    for lane := 0 to numLanes
      invariant forall k :: 0 <= k < lane ==> v[k] == LaneScore(env.lanes[k], env.me, env.length, p)
    {
      var obs := env.lanes[lane];
      if obs.lead.None? || obs.trail.None? {
        // empty lane
        v[lane] := env.me.maxSpeed;
        continue;
      }
      var leadPos := obs.lead.value;
      var trailPos := obs.trail.value;
      var thisPos := env.me.pos;
      var headway := Gap(thisPos, leadPos, env.length);
      var footway := Gap(trailPos, thisPos, env.length);
      if headway < p.gapForward || footway < p.gapBack {
        // too close to merge
        v[lane] := 0.0;
        continue;
      }
      if |obs.window| > 0 {
        v[lane] := Mean(obs.window);
      } else {
        v[lane] := env.me.maxSpeed;
      }
    }
    assert v[..] == Scores(env, p);
    var maxv := Max(v[..]);
    var maxl := IndexOf(v[..], maxv);
    var myv := v[env.me.lane];
    if maxl != env.me.lane && maxv - myv > p.speedThreshold && draw < p.prob {
      return maxl;
    }
    return env.me.lane;
  }
}
