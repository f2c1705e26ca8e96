# HTCS vehicle core in Dafny

This project models the sequential core of a highway convoy controller (HTCS):

- the on-vehicle **command processor** (`processCommand`). It drives the vehicle's acceleration state and lane from received commands. It prints a trace line for every branch, and it raises SIGTERM on `TERMINATE`;
- the **periodic scheduler** (`startRunning`). The model covers the millisecond to `itimerspec` split of the Linux variant and the control structure of both the Linux and the Windows variant;
- the Python **ordered car tracker** (`DetailedCarTracker`). It holds every known car in one list sorted by distance taken and offers insertion, lookup, removal, a one-swap update, and nearest-ahead/behind searches by effective lane. The manoeuvre checks (`can_overtake`, `can_merge_in`, `can_return_to_traffic_lane`) are built on those searches.

Everything is pure. A processed command returns the new state, the printed lines and a termination flag. A scheduler run returns the ordered list of abstract events it performs. Tracker operations return a new list.

Modules, one per concept:

- `Optional` (`optional.dfy`): `Option` and `Result`. They stand for Python's `None` returns and raised exceptions.
- `Lanes` (`lanes.dfy`): the lane and acceleration enumerations shared by the C and Python sides, their integer codes, and the `effective_lanes` table.
- `Commands` (`commands.dfy`): `processCommand` as `Apply`.
- `Scheduler` (`scheduler.dfy`): a C `int` (`Int32`), C's truncating `/` and `%`, the timer setting, and both `startRunning` variants.
- `Cars` (`cars.dfy`): the car record, `update_state` and `distance_between`.
- `Tracker` (`tracker.dfy`): the `DetailedCarTracker` list operations.
- `Manoeuvres` (`manoeuvres.dfy`): the three `can_*` checks. They are parameterised by uninterpreted kinematic estimates.

How the environment is modelled:

- The shared `*keepRunning` flag is given as `observed`: the values that successive checks of the scheduler's loop read.
- A run that has not yet seen the flag cleared reports `returned == false`.
- The outcomes of `sched_setscheduler` and `timer_create` are boolean inputs.

Two points about the code itself:

- The handler's `else` branch (`timer_delete`, `raise(SIGUSR1)`) would delete the timer and raise SIGUSR1, which stays pending because the wait loop's `sigsuspend` mask blocks it. In any case it tests the pointer `sv->keepRunning` rather than the flag, so it never runs. The model has no shutdown event.
- After a failed `timer_create` the code still installs the handler and calls `timer_settime` on the timer id it failed to create. The model's event trace keeps that `TimerArmed` event on the failure path.

## Model

| member | source | states |
|---|---|---|
| Lanes.LaneValue | python/car.py:21-27 | each lane has the integer value the `IntEnum` gives it, below 6 |
| Lanes.LaneFromValue | python/car.py:73 | `Lane(n)` succeeds exactly for 0 <= n < 6, and yields the lane whose value is n |
| Lanes.LaneValueRoundTrip | python/car.py:21-27 | decoding a lane's value gives back the lane |
| Lanes.AccelerationValue | python/car.py:15-18 | each acceleration state has its enum value, below 3 |
| Lanes.AccelerationFromValue | python/car.py:76 | `AccelerationState(n)` succeeds exactly for 0 <= n < 3, and yields the state whose value is n |
| Lanes.AccelerationValueRoundTrip | python/car.py:15-18 | decoding an acceleration state's value gives it back |
| Lanes.StableXorTransitional | python/car.py:21-27 | every lane is either stable or a lane change in progress, never both |
| Lanes.EffectiveLane | python/car.py:30-35 | the effective lane is always stable; a stable lane is its own effective lane; each lane change counts as its destination lane |
| Lanes.EffectiveLaneIdempotent | python/car.py:142-143 | taking the effective lane twice equals taking it once |
| Lanes.EffectiveTrafficLanes | python/car.py:30-35 | exactly the traffic lane and the two lane changes towards it count as the traffic lane |
| Commands.Transition | htcs-vehicle/src/command.c:21-30 | a lane change from a stable lane enters a transitional lane, and it counts as a different lane from the one left |
| Commands.TransitionInjective | htcs-vehicle/src/command.c:21-30 | different stable lanes start different lane changes |
| Commands.Apply | htcs-vehicle/src/command.c:5-44 | the three acceleration commands overwrite the acceleration state and keep the lane; `CHANGE_LANE` maps each stable lane to its lane change and keeps the acceleration state; on a lane change in progress it changes nothing and reports "Already changing lane"; `TERMINATE` and unknown commands change nothing; termination is requested exactly for `TERMINATE`; every branch first prints the line for the command it received |
| Commands.ChangeLaneEndsTransitional | htcs-vehicle/src/command.c:19-34 | after `CHANGE_LANE` the lane is always transitional |
| Commands.ChangeLaneIdempotent | htcs-vehicle/src/command.c:21-33 | applying `CHANGE_LANE` twice equals applying it once, and the second application reports "Already changing lane" |
| Commands.ChangeLaneRepeated | htcs-vehicle/src/command.c:21-33 | any positive number of consecutive `CHANGE_LANE` commands equals one |
| Commands.AccelerationForgetsHistory | htcs-vehicle/src/command.c:7-18 | the acceleration state after an acceleration command does not depend on the state before it |
| Commands.AccelerationCommutesWithChangeLane | htcs-vehicle/src/command.c:7-34 | an acceleration command and `CHANGE_LANE` give the same state in either order |
| Commands.Scenario | htcs-vehicle/src/command.c:5-44 | from maintaining speed in the traffic lane: a sample run of Accelerate, ChangeLane, ChangeLane, Brake passes through Accelerating/TrafficLane, Accelerating/TrafficToExpress (twice) and Braking/TrafficToExpress |
| Scheduler.CDiv | htcs-vehicle/src/scheduler.c:72 | C integer division truncates toward zero |
| Scheduler.CRem | htcs-vehicle/src/scheduler.c:73 | C remainder completes the division identity and has the dividend's sign |
| Scheduler.IntervalSpec | htcs-vehicle/src/scheduler.c:71-75 | seconds are `intervalMs / 1000`; the nanosecond product cannot overflow an int; converting back to milliseconds gives `intervalMs`; the first expiry equals the period; the nanosecond field is always a whole number of milliseconds, which with the round trip fixes it for every `int`; a non-negative interval gives a valid nanosecond field, at most 999000000 |
| Scheduler.IntervalSpecInverse | htcs-vehicle/src/scheduler.c:72-73 | every valid non-negative timespec of whole milliseconds is what the split produces from its millisecond value |
| Scheduler.ZeroIntervalDisarms | htcs-vehicle/src/scheduler.c:74-77 | the first expiry is zero, which leaves a POSIX timer disarmed, exactly when the interval is zero |
| Scheduler.NegativeIntervalInvalid | htcs-vehicle/src/scheduler.c:73 | a negative interval that is not a whole number of seconds gives a negative nanosecond field |
| Scheduler.LeadingTrue | htcs-vehicle/src/scheduler.c:83-85 | the number of loop checks that see the flag set before the first one that sees it cleared |
| Scheduler.WindowsStartRunning | htcs-vehicle/src/scheduler.c:6-12 | one callback then one sleep of the interval per check that sees the flag set, so the callback precedes the first sleep; the function returns exactly when some check sees the flag cleared |
| Scheduler.LinuxStartRunning | htcs-vehicle/src/scheduler.c:40-86 | setup reports a failed priority change and a failed timer creation, then installs the handler and arms the timer with the computed setting; a failed timer creation clears the flag, so the wait loop suspends zero times; otherwise it suspends once per check that sees the flag set; it returns exactly when the flag is seen cleared |
| Cars.NewCar | python/car.py:62-79 | constructing a car succeeds exactly for valid lane and acceleration codes and keeps id, specification, distance and speed |
| Cars.UpdateState | python/car.py:89-94 | a state update replaces lane, distance, speed and acceleration state, and keeps id and specification |
| Cars.DistanceBetween | python/car.py:101-102 | the distance between two cars is the absolute difference of their distances, zero exactly when they are level |
| Cars.EffectiveLaneOf | python/car.py:142-143 | a car's effective lane is always a stable lane, and a car in a stable lane counts as being in that lane |
| Tracker.FindIndex | python/car.py:187-191 | the scan finds the first position holding the id, and finds none exactly when no car has it |
| Tracker.Get | python/car.py:187-191 | `get` returns the first car with the id, and returns `None` exactly when there is none |
| Tracker.GetItem | python/car.py:181-185 | `tracker[id]` returns the same car as `get`, and raises `KeyError` exactly when there is none |
| Tracker.InsertPos | python/car.py:197-198 | the insertion point is the first position whose car is strictly further along; every car before it is at or behind the new distance |
| Tracker.InsertPosAfterTies | python/car.py:197-201 | on an ordered list the insertion point follows every car at or behind the new distance, so ties go behind existing equal cars |
| Tracker.PutIntoFullList | python/car.py:196-201 | insertion places the car at that point, and every other car keeps its order; on an ordered list ties go behind existing equal cars |
| Tracker.PutAddsOneCar | python/car.py:196-201 | insertion adds exactly the one car to the multiset of cars |
| Tracker.PutKeepsSorted | python/car.py:196-201 | insertion into a list ordered by distance keeps it ordered |
| Tracker.Pop | python/car.py:213-217 | `pop` removes and returns the first car with the id, and the rest keep their order; without such a car it returns the default and leaves the list unchanged |
| Tracker.PopReturnsGet | python/car.py:213-217 | `pop` returns the car `get` finds |
| Tracker.PopKeepsSorted | python/car.py:213-217 | removal keeps an ordered list ordered |
| Tracker.PopAfterPut | python/car.py:196-217 | inserting a car with a fresh id and popping that id gives back the car and the original list |
| Tracker.GetAfterPut | python/car.py:187-201 | a car with a fresh id is found by `get` once inserted |
| Tracker.UpdateCar | python/car.py:203-211 | an unknown id raises `KeyError`; otherwise the length and the multiset of cars, with the updated car in place of the old, are preserved; only the car's position and its successor's can change; the two swap exactly when the successor is now strictly behind the updated car |
| Tracker.UpdateKeepsSorted | python/car.py:207-211 | the single swap keeps the list ordered when the car moved forward and passed at most its successor |
| Tracker.UpdatePastTwoCarsUnsorts | python/car.py:207-211 | a car that passes two cars in one update leaves the list out of order, so the one-swap repair depends on that assumption |
| Tracker.IndexOfCar | python/car.py:226 | `list.index` finds the first position holding the car, and finds none exactly when the car is absent |
| Tracker.ScanAhead | python/car.py:240-244 | the forward scan stops at the first car in the lane at or after its start, and finds none when no car there is in the lane |
| Tracker.ScanBehind | python/car.py:229-233 | the backward scan stops at the last car in the lane at or before its start, and finds none when no car there is in the lane |
| Tracker.CarDirectlyAhead | python/car.py:235-244 | for a tracked car: the nearest later car in the lane, and none exactly when no later car is in the lane; for an untracked car: none |
| Tracker.CarDirectlyBehind | python/car.py:224-233 | for a tracked car: the nearest earlier car in the lane, and none exactly when no earlier car is in the lane; for an untracked car: none |
| Tracker.NeighboursOrdered | python/car.py:224-244 | in an ordered list the car ahead is at least as far along as the focus car, and the car behind is at most as far |
| Manoeuvres.CanOvertake | python/car.py:246-248 | overtaking is allowed only from the traffic lane |
| Manoeuvres.CanMergeIn | python/car.py:269-273 | merging in is allowed only from the merge lane, at 70% of the preferred speed or more |
| Manoeuvres.CanReturnToTrafficLane | python/car.py:295-304 | returning is allowed only from the express lane, at the preferred speed or more, and only when the nearest traffic-lane car behind is at least 50 m back |
| Manoeuvres.OvertakeIntoEmptyLane | python/car.py:246-267 | with no car in the express lane, a traffic-lane car may always overtake |
| Manoeuvres.MergeIntoEmptyLane | python/car.py:269-293 | with no car in the traffic lane, a merging car may merge exactly when it is at 70% of its preferred speed or more |
| Manoeuvres.ReturnIntoEmptyLane | python/car.py:295-310 | with no car in the traffic lane, an express-lane car may return exactly when it is at its preferred speed or more |
| Manoeuvres.UntrackedCarSeesNoNeighbours | python/car.py:224-310 | a car the tracker does not hold finds no neighbours, so for all three checks only the lane and speed guards decide |
| Manoeuvres.ManoeuvresExclusive | python/car.py:246-297 | no car is ever allowed two of the manoeuvres at once |

## Left out

- The timer signal handler `handlerTimer` (htcs-vehicle/src/scheduler.c:29-38) is left out. So are `sigaction`, `sigprocmask`/`sigsuspend`, `SIGUSR1` and the real-time signal. They are OS signal plumbing. One `Suspend` event stands for one wake-up of the wait loop.
- The handler's `timer_delete`/`raise(SIGUSR1)` branch is left out. It tests the flag pointer rather than the flag, so it never runs.
- `sched_setscheduler` and its priority 12 are left out. Its success is a boolean input, and only the reported failure is modelled.
- `timer_create` and `timer_settime` are not executed. Creation success is an input. Arming is an event that carries the computed setting.
- Runs in which the flag is never cleared are infinite. The model observes a finite prefix of flag reads.
- `fflush`, and the real `raise(SIGTERM)`, are left out. Termination is the `terminateRequested` output.
- The C `Command` enumeration's integer codes are left out. Its header is not part of this model. Every value other than the five named commands is `Unrecognised`.
- A C `lane` value outside the six enumerators is left out. It would also take the "Already changing lane" branch.
- The kinematic estimates (`follow_distance`, `distance_while_reaching_speed`, `time_to_speed`, `match_speed_distance_change`) are uninterpreted functions. They are floating-point formulas.
- Floats are modelled as Dafny reals, so the rounding of `preferred_speed * 0.7` and of the distance sums is not modelled.
- `threading.Lock`, the `time.time()` timestamp and `last_command` bookkeeping, and `__str__`/`__repr__` are left out. They are runtime details with no effect on the list.
- The dictionary-based `CarManager` base class is left out. `DetailedCarTracker` overrides every operation modelled here.
- `Cars.UpdateState`: Python stores the raw `state[3]` without converting it to `AccelerationState`. It also raises `ValueError` through `Lane(state[0])` on a bad lane code. The model takes an already typed state.
- Python finds a car in the list by object identity. The model compares car records, which agree with identity whenever no two list entries are equal records.
- `Manoeuvres.CanOvertake`: its contract states only the lane guard. The kinematic gap checks are characterised only through the empty-lane and untracked-car lemmas.
- `Manoeuvres.CanMergeIn`: its contract states only the lane and speed guards. The gap checks are characterised only through the empty-lane lemma.
- `Manoeuvres.CanReturnToTrafficLane`: its contract states the lane, speed and 50 m guards. It does not state the follow-distance check against the car ahead.
- The MQTT transport (C and Python), configuration reading, the visualiser and the process generator are left out. They are network, UI and process I/O.
