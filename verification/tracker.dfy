/** `DetailedCarTracker`: every known car in one list kept in order of
    distance taken, with lookup, removal and an in-place update that repairs
    the order by at most one swap, and the searches for the nearest car ahead
    or behind in a given effective lane. The list is a value here: each
    mutating operation returns the new list. Python compares cars by object
    identity; here two cars are the same when their records are equal. */
module Tracker {
  import opened Optional
  import opened Lanes
  import opened Cars

  /** Raised by `tracker[key]` and `update_car` for an unknown id. */
  datatype KeyError = KeyError

  /** The ordering the tracker maintains: non-decreasing distance taken. */
  predicate Sorted(l: seq<Car>) {
    forall i, j :: 0 <= i < j < |l| ==> l[i].distanceTaken <= l[j].distanceTaken
  }

  predicate HasId(l: seq<Car>, id: string) {
    exists i :: 0 <= i < |l| && l[i].id == id
  }

  /** Index `i` holds the first car with this id. */
  predicate FirstWithId(l: seq<Car>, id: string, i: int) {
    0 <= i < |l| && l[i].id == id && forall j :: 0 <= j < i ==> l[j].id != id
  }

  /** The position of the first car with this id, scanning from the front. */
  function FindIndex(l: seq<Car>, id: string): (r: Option<nat>)
    ensures r.Some? ==> FirstWithId(l, id, r.value)
    ensures r.None? <==> !HasId(l, id)
  {
    if |l| == 0 then None
    else if l[0].id == id then Some(0)
    else
      match FindIndex(l[1..], id)
      case None => None
      case Some(i) => Some(i + 1)
  }

  /** `get`: the first car with the id, or `None`. */
  function Get(l: seq<Car>, id: string): (r: Option<Car>)
    ensures r.None? <==> !HasId(l, id)
    ensures r.Some? ==> exists i :: FirstWithId(l, id, i) && l[i] == r.value
  {
    match FindIndex(l, id)
    case None => None
    case Some(i) => Some(l[i])
  }

  /** `tracker[id]`: the same car as `get`, or `KeyError`. */
  function GetItem(l: seq<Car>, id: string): (r: Result<Car, KeyError>)
    ensures r.Err? <==> !HasId(l, id)
    ensures r.Ok? ==> Get(l, id) == Some(r.value)
  {
    match FindIndex(l, id)
    case None => Err(KeyError)
    case Some(i) => Ok(l[i])
  }

  /** The insertion position for a car at distance `d`: in front of the
      first car that is strictly further along. */
  function InsertPos(l: seq<Car>, d: real): (k: nat)
    ensures k <= |l|
    ensures forall j :: 0 <= j < k ==> l[j].distanceTaken <= d
    ensures k < |l| ==> l[k].distanceTaken > d
  {
    if |l| == 0 || l[0].distanceTaken > d then 0 else 1 + InsertPos(l[1..], d)
  }

  /** On an ordered list the insertion point follows every car at or behind
      the new distance, so ties go behind the cars already there. */
  lemma InsertPosAfterTies(l: seq<Car>, d: real)
    requires Sorted(l)
    ensures forall j :: 0 <= j < |l| && l[j].distanceTaken <= d ==> j < InsertPos(l, d)
  {
  }

  /** `put_into_full_list`: insert before the first car strictly further
      along, or append. Ties go behind the cars already there; every other
      car keeps its place relative to the rest. */
  function PutIntoFullList(l: seq<Car>, c: Car): (r: seq<Car>)
    ensures |r| == |l| + 1
    ensures var k := InsertPos(l, c.distanceTaken);
            && r[k] == c
            && (forall j :: 0 <= j < k ==> r[j] == l[j])
            && (forall j :: k < j < |r| ==> r[j] == l[j - 1])
  {
    var k := InsertPos(l, c.distanceTaken);
    l[..k] + [c] + l[k..]
  }

  /** Inserting adds exactly the one car: no car is lost or duplicated. */
  lemma PutAddsOneCar(l: seq<Car>, c: Car)
    ensures multiset(PutIntoFullList(l, c)) == multiset(l) + multiset{c}
  {
    var k := InsertPos(l, c.distanceTaken);
    assert PutIntoFullList(l, c) == l[..k] + [c] + l[k..];
    assert l == l[..k] + l[k..];
  }

  /** Inserting keeps the list ordered. */
  lemma PutKeepsSorted(l: seq<Car>, c: Car)
    requires Sorted(l)
    ensures Sorted(PutIntoFullList(l, c))
  {
  }

  /** The result of `pop`: the remaining list and the returned value. */
  datatype Popped = Popped(list: seq<Car>, value: Option<Car>)

  /** `pop(id, default)`: remove and return the first car with the id, the
      others keeping their order; without one, return the default and leave
      the list alone. */
  function Pop(l: seq<Car>, id: string, default: Option<Car>): (r: Popped)
    ensures !HasId(l, id) ==> r == Popped(l, default)
    ensures HasId(l, id) ==>
              var i := FindIndex(l, id).value;
              && r.value == Some(l[i])
              && |r.list| == |l| - 1
              && (forall j :: 0 <= j < i ==> r.list[j] == l[j])
              && (forall j :: i <= j < |r.list| ==> r.list[j] == l[j + 1])
    ensures HasId(l, id) ==> multiset(r.list) + multiset{r.value.value} == multiset(l)
  {
    match FindIndex(l, id)
    case None => Popped(l, default)
    case Some(i) =>
      assert l == l[..i] + [l[i]] + l[i + 1..];
      Popped(l[..i] + l[i + 1..], Some(l[i]))
  }

  /** `pop` hands back the car `get` finds. */
  lemma PopReturnsGet(l: seq<Car>, id: string, default: Option<Car>)
    requires HasId(l, id)
    ensures Pop(l, id, default).value == Get(l, id)
  {
  }

  /** Removing a car keeps the list ordered. */
  lemma PopKeepsSorted(l: seq<Car>, id: string, default: Option<Car>)
    requires Sorted(l)
    ensures Sorted(Pop(l, id, default).list)
  {
  }

  /** Inserting a car with a fresh id and popping that id gives back the car
      and the original list. */
  lemma PopAfterPut(l: seq<Car>, c: Car, default: Option<Car>)
    requires !HasId(l, c.id)
    ensures Pop(PutIntoFullList(l, c), c.id, default) == Popped(l, Some(c))
  {
  }

  /** A car with a fresh id is found by `get` once inserted. */
  lemma GetAfterPut(l: seq<Car>, c: Car)
    requires !HasId(l, c.id)
    ensures Get(PutIntoFullList(l, c), c.id) == Some(c)
  {
  }

  /** `update_car(id, state)`: replace the state of the first car with the
      id, then swap it with its successor when the successor is now behind
      it. */
  function UpdateCar(l: seq<Car>, id: string, st: CarState): (r: Result<seq<Car>, KeyError>)
    ensures r.Err? <==> !HasId(l, id)
    ensures r.Ok? ==> |r.value| == |l|
    ensures r.Ok? ==>
              var i := FindIndex(l, id).value;
              var u := UpdateState(l[i], st);
              && multiset(r.value) == multiset(l[i := u])
              // nothing outside positions i and i + 1 moves
              && (forall j :: 0 <= j < |l| && j != i && j != i + 1 ==> r.value[j] == l[j])
              // the updated car lands at i + 1 exactly when its successor is now behind it
              && (if i + 1 < |l| && l[i + 1].distanceTaken < u.distanceTaken
                  then r.value[i] == l[i + 1] && r.value[i + 1] == u
                  else r.value[i] == u && (i + 1 < |l| ==> r.value[i + 1] == l[i + 1]))
  {
    match FindIndex(l, id)
    case None => Err(KeyError)
    case Some(i) =>
      var u := UpdateState(l[i], st);
      var l' := l[i := u];
      if i < |l'| - 1 && l'[i + 1].distanceTaken < u.distanceTaken then
        Ok(l'[i := l'[i + 1]][i + 1 := u])
      else
        Ok(l')
  }

  /** The single swap restores the order when the car moved forward and
      passed at most its successor, which is what the tracker relies on. */
  lemma UpdateKeepsSorted(l: seq<Car>, id: string, st: CarState)
    requires Sorted(l) && HasId(l, id)
    requires var i := FindIndex(l, id).value;
             && l[i].distanceTaken <= st.distanceTaken
             && (i + 2 < |l| ==> st.distanceTaken <= l[i + 2].distanceTaken)
    ensures Sorted(UpdateCar(l, id, st).value)
  {
  }

  /** A single counterexample, not an all-inputs statement: it shows that the
      at-most-one-car assumption of `UpdateKeepsSorted` is needed, since a car
      that passes two cars in one update is left out of order. */
  lemma UpdatePastTwoCarsUnsorts()
    ensures var s := CarSpecs(0.0, 0.0, 0.0, 0.0, 0.0);
            var l := [Car("a", s, TrafficLane, 0.0, 0.0, MaintainingSpeed),
                      Car("b", s, TrafficLane, 1.0, 0.0, MaintainingSpeed),
                      Car("c", s, TrafficLane, 2.0, 0.0, MaintainingSpeed)];
            Sorted(l) && !Sorted(UpdateCar(l, "a", CarState(TrafficLane, 3.0, 0.0, MaintainingSpeed)).value)
  {
    var s := CarSpecs(0.0, 0.0, 0.0, 0.0, 0.0);
    var l := [Car("a", s, TrafficLane, 0.0, 0.0, MaintainingSpeed),
              Car("b", s, TrafficLane, 1.0, 0.0, MaintainingSpeed),
              Car("c", s, TrafficLane, 2.0, 0.0, MaintainingSpeed)];
    assert FindIndex(l, "a") == Some(0);
    var r := UpdateCar(l, "a", CarState(TrafficLane, 3.0, 0.0, MaintainingSpeed)).value;
    assert r[1].distanceTaken == 3.0 && r[2].distanceTaken == 2.0;
  }

  /** The first position holding this very car. */
  function IndexOfCar(l: seq<Car>, c: Car): (r: Option<nat>)
    ensures r.None? <==> c !in l
    ensures r.Some? ==> r.value < |l| && l[r.value] == c && forall j :: 0 <= j < r.value ==> l[j] != c
  {
    if |l| == 0 then None
    else if l[0] == c then Some(0)
    else
      match IndexOfCar(l[1..], c)
      case None => None
      case Some(i) => Some(i + 1)
  }

  /** The smallest index at or after `from` whose car is in effective lane
      `lane`. */
  function ScanAhead(l: seq<Car>, from: nat, lane: Lane): (r: Option<nat>)
    ensures r.Some? ==> && from <= r.value < |l| && EffectiveLaneOf(l[r.value]) == lane
                        && forall j :: from <= j < r.value ==> EffectiveLaneOf(l[j]) != lane
    ensures r.None? ==> forall j :: from <= j < |l| ==> EffectiveLaneOf(l[j]) != lane
    decreases |l| - from
  {
    if from >= |l| then None
    else if EffectiveLaneOf(l[from]) == lane then Some(from)
    else ScanAhead(l, from + 1, lane)
  }

  /** The largest index at or before `from` whose car is in effective lane
      `lane`; `from` may be -1. */
  function ScanBehind(l: seq<Car>, from: int, lane: Lane): (r: Option<nat>)
    requires -1 <= from < |l|
    ensures r.Some? ==> && r.value <= from && EffectiveLaneOf(l[r.value]) == lane
                        && forall j :: r.value < j <= from ==> EffectiveLaneOf(l[j]) != lane
    ensures r.None? ==> forall j :: 0 <= j <= from ==> EffectiveLaneOf(l[j]) != lane
    decreases from + 1
  {
    if from < 0 then None
    else if EffectiveLaneOf(l[from]) == lane then Some(from)
    else ScanBehind(l, from - 1, lane)
  }

  /** `car_directly_ahead_in_effective_lane`: the nearest car further along
      the list than the focus car whose effective lane is `lane`. */
  function CarDirectlyAhead(l: seq<Car>, focus: Car, lane: Lane): (r: Option<Car>)
    ensures focus !in l ==> r.None?
    ensures focus in l ==>
              var i := IndexOfCar(l, focus).value;
              && (r.None? <==> forall j :: i < j < |l| ==> EffectiveLaneOf(l[j]) != lane)
              && (r.Some? ==> exists j :: && i < j < |l| && l[j] == r.value
                                          && EffectiveLaneOf(l[j]) == lane
                                          && forall m :: i < m < j ==> EffectiveLaneOf(l[m]) != lane)
  {
    match IndexOfCar(l, focus)
    case None => None
    case Some(i) =>
      match ScanAhead(l, i + 1, lane)
      case None => None
      case Some(j) => Some(l[j])
  }

  /** `car_directly_behind_in_effective_lane`: the nearest car earlier in the
      list than the focus car whose effective lane is `lane`. */
  function CarDirectlyBehind(l: seq<Car>, focus: Car, lane: Lane): (r: Option<Car>)
    ensures focus !in l ==> r.None?
    ensures focus in l ==>
              var i := IndexOfCar(l, focus).value;
              && (r.None? <==> forall j :: 0 <= j < i ==> EffectiveLaneOf(l[j]) != lane)
              && (r.Some? ==> exists j :: && 0 <= j < i && l[j] == r.value
                                          && EffectiveLaneOf(l[j]) == lane
                                          && forall m :: j < m < i ==> EffectiveLaneOf(l[m]) != lane)
  {
    match IndexOfCar(l, focus)
    case None => None
    case Some(i) =>
      match ScanBehind(l, i - 1, lane)
      case None => None
      case Some(j) => Some(l[j])
  }

  /** In an ordered list the car ahead is at least as far along as the focus
      car, and the car behind at most as far. */
  lemma NeighboursOrdered(l: seq<Car>, focus: Car, lane: Lane)
    requires Sorted(l)
    ensures CarDirectlyAhead(l, focus, lane).Some? ==>
              focus.distanceTaken <= CarDirectlyAhead(l, focus, lane).value.distanceTaken
    ensures CarDirectlyBehind(l, focus, lane).Some? ==>
              CarDirectlyBehind(l, focus, lane).value.distanceTaken <= focus.distanceTaken
  {
  }
}
