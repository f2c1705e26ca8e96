/** The vehicle's command processor (`processCommand`): a finite-state
    transition over the acceleration state and the lane. `processCommand`
    mutates a shared record, prints trace lines and raises SIGTERM; here the
    new record, the printed lines and the termination request are the result. */
module Commands {
  import opened Lanes

  /** A received command. `Unrecognised` stands for every value of the C
      enumeration that none of the five cases matches. */
  datatype Command =
    | MaintainSpeed
    | Accelerate
    | Brake
    | ChangeLane
    | Terminate
    | Unrecognised

  /** The vehicle state the processor mutates. */
  datatype State = State(accelerationState: AccelerationState, lane: Lane)

  /** One processed command: the new state, the lines printed in order, and
      whether the process raised SIGTERM on itself. */
  datatype Step = Step(state: State, trace: seq<string>, terminateRequested: bool)

  predicate IsAccelerationCommand(cmd: Command) {
    cmd == MaintainSpeed || cmd == Accelerate || cmd == Brake
  }

  /** The acceleration state an acceleration command selects. */
  function Target(cmd: Command): AccelerationState
    requires IsAccelerationCommand(cmd)
  {
    match cmd
    case MaintainSpeed => MaintainingSpeed
    case Accelerate => Accelerating
    case Brake => Braking
  }

  /** The lane a lane change starts from a stable lane. */
  function Transition(l: Lane): (r: Lane)
    requires IsStable(l)
    ensures IsTransitional(r)
    ensures EffectiveLane(r) != l
  {
    match l
    case MergeLane => MergeToTraffic
    case TrafficLane => TrafficToExpress
    case ExpressLane => ExpressToTraffic
  }

  /** No two stable lanes start the same lane change. */
  lemma TransitionInjective(a: Lane, b: Lane)
    requires IsStable(a) && IsStable(b)
    ensures Transition(a) == Transition(b) <==> a == b
  {
  }

  /** The line printed first for every command. */
  function Received(cmd: Command): string {
    match cmd
    case MaintainSpeed => "Maintain speed command received"
    case Accelerate => "Accelerate command received"
    case Brake => "Brake command received"
    case ChangeLane => "Change lane command received"
    case Terminate => "Terminate command received"
    case Unrecognised => "Unknown command received"
  }

  const AlreadyChanging: string := "Already changing lane"

  /** `processCommand(cmd, &state)`. */
  function Apply(cmd: Command, s: State): (r: Step)
    // every branch prints, and prints what it received first
    ensures 1 <= |r.trace| <= 2 && r.trace[0] == Received(cmd)
    // acceleration commands overwrite the acceleration state, keep the lane
    ensures IsAccelerationCommand(cmd) ==>
              r.state == State(Target(cmd), s.lane) && |r.trace| == 1
    // a lane change moves a stable lane to its lane change, keeps the acceleration state
    ensures cmd == ChangeLane && IsStable(s.lane) ==>
              r.state == State(s.accelerationState, Transition(s.lane)) && |r.trace| == 1
    // and is a reported no-op on a lane already being changed
    ensures cmd == ChangeLane && IsTransitional(s.lane) ==>
              r.state == s && r.trace == [Received(cmd), AlreadyChanging]
    // only Terminate requests termination, and it changes nothing
    ensures r.terminateRequested <==> cmd == Terminate
    ensures cmd in {Terminate, Unrecognised} ==> r.state == s && |r.trace| == 1
  {
    match cmd
    case MaintainSpeed => Step(s.(accelerationState := MaintainingSpeed), [Received(cmd)], false)
    case Accelerate => Step(s.(accelerationState := Accelerating), [Received(cmd)], false)
    case Brake => Step(s.(accelerationState := Braking), [Received(cmd)], false)
    case ChangeLane =>
      (match s.lane
       case MergeLane => Step(s.(lane := MergeToTraffic), [Received(cmd)], false)
       case TrafficLane => Step(s.(lane := TrafficToExpress), [Received(cmd)], false)
       case ExpressLane => Step(s.(lane := ExpressToTraffic), [Received(cmd)], false)
       case _ => Step(s, [Received(cmd), AlreadyChanging], false))
    case Terminate => Step(s, [Received(cmd)], true)
    case Unrecognised => Step(s, [Received(cmd)], false)
  }

  /** The lane a lane change leaves behind is always transitional. */
  lemma ChangeLaneEndsTransitional(s: State)
    ensures IsTransitional(Apply(ChangeLane, s).state.lane)
  {
  }

  /** Applying `ChangeLane` twice is the same as applying it once; the second
      application is the reported no-op. */
  lemma ChangeLaneIdempotent(s: State)
    ensures Apply(ChangeLane, Apply(ChangeLane, s).state).state == Apply(ChangeLane, s).state
    ensures Apply(ChangeLane, Apply(ChangeLane, s).state).trace == [Received(ChangeLane), AlreadyChanging]
  {
  }

  /** The state after `ChangeLane` has been applied n times in a row. */
  function ChangeLaneTimes(s: State, n: nat): State
    decreases n
  {
    if n == 0 then s else ChangeLaneTimes(Apply(ChangeLane, s).state, n - 1)
  }

  /** Any number (at least one) of lane changes equals a single one. */
  lemma {:induction false} ChangeLaneRepeated(s: State, n: nat)
    requires n >= 1
    ensures ChangeLaneTimes(s, n) == Apply(ChangeLane, s).state
    decreases n
  {
    if n > 1 {
      var t := Apply(ChangeLane, s).state;
      ChangeLaneRepeated(t, n - 1);
      ChangeLaneIdempotent(s);
    }
  }

  /** An acceleration command keeps no history: the resulting acceleration
      state does not depend on the previous one. */
  lemma AccelerationForgetsHistory(cmd: Command, s1: State, s2: State)
    requires IsAccelerationCommand(cmd)
    ensures Apply(cmd, s1).state.accelerationState == Apply(cmd, s2).state.accelerationState
  {
  }

  /** Acceleration and lane are independent sub-machines: an acceleration
      command and a lane change commute. */
  lemma AccelerationCommutesWithChangeLane(cmd: Command, s: State)
    requires IsAccelerationCommand(cmd)
    ensures Apply(ChangeLane, Apply(cmd, s).state).state == Apply(cmd, Apply(ChangeLane, s).state).state
  {
  }

  /** One concrete run, not an all-inputs statement: a sample run of
      Accelerate, ChangeLane, ChangeLane, Brake, starting from maintaining
      speed in the traffic lane. */
  lemma Scenario()
    ensures var s0 := State(MaintainingSpeed, TrafficLane);
            var s1 := Apply(Accelerate, s0).state;
            var s2 := Apply(ChangeLane, s1).state;
            var s3 := Apply(ChangeLane, s2).state;
            var s4 := Apply(Brake, s3).state;
            && s1 == State(Accelerating, TrafficLane)
            && s2 == State(Accelerating, TrafficToExpress)
            && s3 == s2
            && s4 == State(Braking, TrafficToExpress)
  {
  }
}
