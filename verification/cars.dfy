/** A tracked car as the Python side sees it: its identity, constant
    specification and last reported state. Distances and speeds are reals;
    Python uses floats. */
module Cars {
  import opened Optional
  import opened Lanes

  /** Constant parameters of a car. */
  datatype CarSpecs = CarSpecs(
    preferredSpeed: real,
    maxSpeed: real,
    acceleration: real,
    brakingPower: real,
    size: real)

  datatype Car = Car(
    id: string,
    specs: CarSpecs,
    lane: Lane,
    distanceTaken: real,
    speed: real,
    accelerationState: AccelerationState)

  /** A reported state: lane, distance taken, speed, acceleration state. */
  datatype CarState = CarState(
    lane: Lane,
    distanceTaken: real,
    speed: real,
    accelerationState: AccelerationState)

  /** Raised by the enum constructors on a value outside the enumeration. */
  datatype ValueError = ValueError

  /** `Car(car_id, specs, state)` from the raw integer codes of lane and
      acceleration state. */
  function NewCar(id: string, specs: CarSpecs, lane: int, distanceTaken: real, speed: real, acceleration: int)
    : (r: Result<Car, ValueError>)
    ensures r.Ok? <==> 0 <= lane < 6 && 0 <= acceleration < 3
    ensures r.Ok? ==> && r.value.id == id && r.value.specs == specs
                      && LaneValue(r.value.lane) == lane
                      && AccelerationValue(r.value.accelerationState) == acceleration
                      && r.value.distanceTaken == distanceTaken && r.value.speed == speed
  {
    match (LaneFromValue(lane), AccelerationFromValue(acceleration))
    case (Some(l), Some(a)) => Ok(Car(id, specs, l, distanceTaken, speed, a))
    case _ => Err(ValueError)
  }

  /** `update_state`: the reported state replaces the old one; the id and
      specification stay. */
  function UpdateState(c: Car, st: CarState): (r: Car)
    ensures r.id == c.id && r.specs == c.specs
    ensures CarState(r.lane, r.distanceTaken, r.speed, r.accelerationState) == st
  {
    c.(lane := st.lane, distanceTaken := st.distanceTaken, speed := st.speed,
       accelerationState := st.accelerationState)
  }

  /** `effective_lane`. */
  function EffectiveLaneOf(c: Car): (r: Lane)
    ensures IsStable(r)
    ensures IsStable(c.lane) ==> r == c.lane
  {
    EffectiveLane(c.lane)
  }

  /** `distance_between`: the absolute gap along the road. */
  function DistanceBetween(a: Car, b: Car): (r: real)
    ensures r >= 0.0
    ensures r == a.distanceTaken - b.distanceTaken || r == b.distanceTaken - a.distanceTaken
    ensures r == 0.0 <==> a.distanceTaken == b.distanceTaken
  {
    if a.distanceTaken >= b.distanceTaken then a.distanceTaken - b.distanceTaken
    else b.distanceTaken - a.distanceTaken
  }
}
