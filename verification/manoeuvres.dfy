/** The tracker's manoeuvre checks: may a car overtake into the express
    lane, merge into the traffic lane, or return from the express lane to the
    traffic lane. The kinematic estimates the checks consult are floating
    point formulas outside this model; they enter as uninterpreted functions. */
module Manoeuvres {
  import opened Lanes
  import opened Cars
  import opened Tracker

  /** The kinematic estimates of a car.
      `followDistance(c, f)` is `c.follow_distance(safety_factor=f)`;
      `matchSpeedDistanceChange(c, o, f)` is
      `c.match_speed_distance_change(o, safety_factor=f)`. */
  datatype Kinematics = Kinematics(
    followDistance: (Car, real) -> real,
    matchSpeedDistanceChange: (Car, Car, real) -> real)

  /** The gap a car returning to the traffic lane keeps to the car behind. */
  const ReturnGap: real := 50.0

  /** The fraction of its preferred speed a car needs before merging in. */
  const MergeSpeedFraction: real := 0.7

  /** The safety factors the checks pass to the kinematic estimates. */
  const SafetyFactor: real := 2.0
  const FollowSafetyFactor: real := 1.3

  /** `can_overtake`. */
  function CanOvertake(k: Kinematics, l: seq<Car>, focus: Car): (r: bool)
    ensures r ==> focus.lane == TrafficLane
  {
    if focus.lane != TrafficLane then false
    else
      var ahead := CarDirectlyAhead(l, focus, ExpressLane);
      if ahead.Some? && (if ahead.value.speed > focus.speed
                         then ahead.value.distanceTaken - ahead.value.specs.size < focus.distanceTaken
                         else k.matchSpeedDistanceChange(focus, ahead.value, SafetyFactor)
                                > DistanceBetween(focus, ahead.value))
      then false
      else
        var behind := CarDirectlyBehind(l, focus, ExpressLane);
        !(&& behind.Some?
          && behind.value.speed > focus.speed
          && k.matchSpeedDistanceChange(behind.value, focus, SafetyFactor)
               > DistanceBetween(behind.value, focus))
  }

  /** `can_merge_in`. */
  function CanMergeIn(k: Kinematics, l: seq<Car>, focus: Car): (r: bool)
    ensures r ==> focus.lane == MergeLane
    ensures r ==> focus.speed >= focus.specs.preferredSpeed * MergeSpeedFraction
  {
    if focus.lane != MergeLane then false
    else if focus.speed < focus.specs.preferredSpeed * MergeSpeedFraction then false
    else
      var ahead := CarDirectlyAhead(l, focus, TrafficLane);
      if ahead.Some? && (if ahead.value.speed > focus.speed
                         then ahead.value.distanceTaken - ahead.value.specs.size < focus.distanceTaken
                         else k.matchSpeedDistanceChange(focus, ahead.value, SafetyFactor)
                                > ahead.value.distanceTaken - focus.distanceTaken)
      then false
      else
        var behind := CarDirectlyBehind(l, focus, TrafficLane);
        !(&& behind.Some?
          && behind.value.speed > focus.speed
          && k.matchSpeedDistanceChange(behind.value, focus, SafetyFactor) * 2.0
               > focus.distanceTaken - behind.value.distanceTaken)
  }

  /** `can_return_to_traffic_lane`. */
  function CanReturnToTrafficLane(k: Kinematics, l: seq<Car>, focus: Car): (r: bool)
    ensures r ==> focus.lane == ExpressLane
    ensures r ==> focus.speed >= focus.specs.preferredSpeed
    // the nearest car behind in the traffic lane is at least 50 m back
    ensures r ==> var behind := CarDirectlyBehind(l, focus, TrafficLane);
                  behind.None? || behind.value.distanceTaken + ReturnGap <= focus.distanceTaken
  {
    if focus.lane != ExpressLane then false
    else if focus.speed < focus.specs.preferredSpeed then false
    else
      var behind := CarDirectlyBehind(l, focus, TrafficLane);
      if behind.Some? && behind.value.distanceTaken + ReturnGap > focus.distanceTaken then false
      else
        var ahead := CarDirectlyAhead(l, focus, TrafficLane);
        !(&& ahead.Some?
          && ahead.value.speed < focus.specs.preferredSpeed
          && ahead.value.distanceTaken - focus.distanceTaken
               < k.followDistance(focus, FollowSafetyFactor))
  }

  /** No car in effective lane `lane` anywhere in the list. */
  predicate LaneEmpty(l: seq<Car>, lane: Lane) {
    forall j :: 0 <= j < |l| ==> EffectiveLaneOf(l[j]) != lane
  }

  /** With the express lane empty, a traffic-lane car may always overtake,
      whatever the kinematic estimates say. */
  lemma OvertakeIntoEmptyLane(k: Kinematics, l: seq<Car>, focus: Car)
    requires focus.lane == TrafficLane && LaneEmpty(l, ExpressLane)
    ensures CanOvertake(k, l, focus)
  {
  }

  /** With the traffic lane empty, a merging car may merge in exactly when it
      has reached 70% of its preferred speed. */
  lemma MergeIntoEmptyLane(k: Kinematics, l: seq<Car>, focus: Car)
    requires focus.lane == MergeLane && LaneEmpty(l, TrafficLane)
    ensures CanMergeIn(k, l, focus) <==> focus.speed >= focus.specs.preferredSpeed * MergeSpeedFraction
  {
  }

  /** With the traffic lane empty, an express-lane car may return exactly
      when it is at its preferred speed or faster. */
  lemma ReturnIntoEmptyLane(k: Kinematics, l: seq<Car>, focus: Car)
    requires focus.lane == ExpressLane && LaneEmpty(l, TrafficLane)
    ensures CanReturnToTrafficLane(k, l, focus) <==> focus.speed >= focus.specs.preferredSpeed
  {
  }

  /** The checks only look at the list around the focus car: a car the
      tracker does not hold finds no neighbours and passes every gap check. */
  lemma UntrackedCarSeesNoNeighbours(k: Kinematics, l: seq<Car>, focus: Car)
    requires focus !in l
    ensures CanOvertake(k, l, focus) <==> focus.lane == TrafficLane
    ensures CanMergeIn(k, l, focus) <==>
              focus.lane == MergeLane && focus.speed >= focus.specs.preferredSpeed * MergeSpeedFraction
    ensures CanReturnToTrafficLane(k, l, focus) <==>
              focus.lane == ExpressLane && focus.speed >= focus.specs.preferredSpeed
  {
  }

  /** The checks never allow two of the manoeuvres at once: each needs a
      different lane. */
  lemma ManoeuvresExclusive(k: Kinematics, l: seq<Car>, focus: Car)
    ensures !(CanOvertake(k, l, focus) && CanMergeIn(k, l, focus))
    ensures !(CanOvertake(k, l, focus) && CanReturnToTrafficLane(k, l, focus))
    ensures !(CanMergeIn(k, l, focus) && CanReturnToTrafficLane(k, l, focus))
  {
  }
}
