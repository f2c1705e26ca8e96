/** The vehicle enumerations shared by the C vehicle and the Python tracker:
    the six lane values, the three acceleration states, their integer codes,
    and the table that maps every lane to the stable lane it counts as. */
module Lanes {
  import opened Optional

  /** The six lane values. Three are stable lanes, three are lane changes in
      progress. */
  datatype Lane =
    | MergeLane
    | MergeToTraffic
    | TrafficLane
    | TrafficToExpress
    | ExpressToTraffic
    | ExpressLane

  datatype AccelerationState = MaintainingSpeed | Accelerating | Braking

  predicate IsStable(l: Lane) {
    l == MergeLane || l == TrafficLane || l == ExpressLane
  }

  predicate IsTransitional(l: Lane) {
    l == MergeToTraffic || l == TrafficToExpress || l == ExpressToTraffic
  }

  /** Every lane is stable or transitional, never both. */
  lemma StableXorTransitional(l: Lane)
    ensures IsStable(l) != IsTransitional(l)
  {
  }

  /** The integer value of a lane, as the `IntEnum` numbers it. */
  function LaneValue(l: Lane): (n: nat)
    ensures n < 6
  {
    match l
    case MergeLane => 0
    case MergeToTraffic => 1
    case TrafficLane => 2
    case TrafficToExpress => 3
    case ExpressToTraffic => 4
    case ExpressLane => 5
  }

  /** `Lane(n)`: the lane with value `n`, or `None` where Python raises
      `ValueError`. */
  function LaneFromValue(n: int): (r: Option<Lane>)
    ensures r.Some? <==> 0 <= n < 6
    ensures r.Some? ==> LaneValue(r.value) == n
  {
    if n == 0 then Some(MergeLane)
    else if n == 1 then Some(MergeToTraffic)
    else if n == 2 then Some(TrafficLane)
    else if n == 3 then Some(TrafficToExpress)
    else if n == 4 then Some(ExpressToTraffic)
    else if n == 5 then Some(ExpressLane)
    else None
  }

  /** Decoding the value of a lane gives the lane back. */
  lemma LaneValueRoundTrip(l: Lane)
    ensures LaneFromValue(LaneValue(l)) == Some(l)
  {
  }

  function AccelerationValue(a: AccelerationState): (n: nat)
    ensures n < 3
  {
    match a
    case MaintainingSpeed => 0
    case Accelerating => 1
    case Braking => 2
  }

  /** `AccelerationState(n)`: `None` where Python raises `ValueError`. */
  function AccelerationFromValue(n: int): (r: Option<AccelerationState>)
    ensures r.Some? <==> 0 <= n < 3
    ensures r.Some? ==> AccelerationValue(r.value) == n
  {
    if n == 0 then Some(MaintainingSpeed)
    else if n == 1 then Some(Accelerating)
    else if n == 2 then Some(Braking)
    else None
  }

  lemma AccelerationValueRoundTrip(a: AccelerationState)
    ensures AccelerationFromValue(AccelerationValue(a)) == Some(a)
  {
  }

  /** The `effective_lanes` table, indexed by lane value. */
  const EffectiveLanes: seq<Lane> :=
    [MergeLane, TrafficLane, TrafficLane, ExpressLane, TrafficLane, ExpressLane]

  /** The stable lane a car counts as being in: a car changing lanes already
      counts as being in the lane it is moving to. */
  function EffectiveLane(l: Lane): (r: Lane)
    ensures IsStable(r)
    ensures IsStable(l) ==> r == l
    ensures l == MergeToTraffic ==> r == TrafficLane
    ensures l == TrafficToExpress ==> r == ExpressLane
    ensures l == ExpressToTraffic ==> r == TrafficLane
  {
    EffectiveLanes[LaneValue(l)]
  }

  /** Taking the effective lane twice is the same as taking it once. */
  lemma EffectiveLaneIdempotent(l: Lane)
    ensures EffectiveLane(EffectiveLane(l)) == EffectiveLane(l)
  {
  }

  /** The lanes whose effective lane is the traffic lane. */
  lemma EffectiveTrafficLanes(l: Lane)
    ensures EffectiveLane(l) == TrafficLane <==>
              l in {TrafficLane, MergeToTraffic, ExpressToTraffic}
  {
  }
}
