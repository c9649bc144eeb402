/** The consistency of the dispatch state across every action the pages can take: a
    vehicle serving an in-progress ride is 'On Ride', no vehicle serves two in-progress
    rides, a vehicle is 'On Ride' only while it serves one, and the tracked ride is a
    stored in-progress ride. Identifiers are fresh, as `Date.now()` makes them. */
module DispatchInvariant {
  import opened FleetModel
  import opened App
  import Seqs
  import PassengerHomePage
  import ConfirmRidePage
  import TrackingPage

  function VehicleIdOf(v: Vehicle): int
  {
    v.id
  }

  ghost predicate UniqueRideIds(rides: seq<Ride>)
  {
    forall i, j :: 0 <= i < j < |rides| ==> rides[i].id != rides[j].id
  }

  /** Every vehicle listed under the id of an in-progress ride is 'On Ride'. */
  ghost predicate RidesHoldVehicles(s: State)
  {
    forall i, k :: 0 <= i < |s.rides| && 0 <= k < |s.vehicles|
      && s.rides[i].status == InProgress && s.vehicles[k].id == s.rides[i].vehicleId
      ==> s.vehicles[k].status == OnRide
  }

  /** No two in-progress rides share a vehicle. */
  ghost predicate NoDoubleBooking(rides: seq<Ride>)
  {
    forall i, j :: 0 <= i < j < |rides| && rides[i].status == InProgress && rides[j].status == InProgress
      ==> rides[i].vehicleId != rides[j].vehicleId
  }

  /** A vehicle is 'On Ride' only while some in-progress ride holds it. */
  ghost predicate BusyVehiclesHaveRide(s: State)
  {
    forall k :: 0 <= k < |s.vehicles| && s.vehicles[k].status == OnRide ==>
      exists i :: 0 <= i < |s.rides| && s.rides[i].status == InProgress && s.rides[i].vehicleId == s.vehicles[k].id
  }

  /** The tracked ride is one of the stored rides, still in progress. */
  ghost predicate TrackedRideStored(s: State)
  {
    s.current.Active? ==>
      s.current.ride.status == InProgress && exists i :: 0 <= i < |s.rides| && s.rides[i] == s.current.ride
  }

  ghost predicate Consistent(s: State)
  {
    && UniqueVehicleIds(s.vehicles)
    && UniqueRideIds(s.rides)
    && RidesHoldVehicles(s)
    && NoDoubleBooking(s.rides)
    && BusyVehiclesHaveRide(s)
    && TrackedRideStored(s)
  }

  /** The application's state before anyone has signed in. */
  const Initial := State([], [], [], NoRide, Login)

  /** What a user can do to the shared state. */
  datatype Action =
    | AddVehicleAction(data: VehicleData, vehicleId: int, ownerEmail: string)
    | RemoveVehicleAction(removedId: int)
    | ScheduleAction(booking: ScheduleData, bookingId: int)
    | BookAction(home: PassengerHomePage.Home)
    | ConfirmAction(rideId: int, passenger: string, today: string)
    | BackAction
    | TimerAction(timer: TrackingPage.Timer)
    | CancelAction
    | NavigateAction(target: Page)

  /** The action's effect. Confirm acts on the draft ride the confirm page shows. */
  function Step(s: State, a: Action): State
  {
    match a
    case AddVehicleAction(data, id, email) => AddVehicle(s, data, id, email)
    case RemoveVehicleAction(id) => RemoveVehicle(s, id)
    case ScheduleAction(data, id) => AddScheduledRide(s, data, id)
    case BookAction(h) => PassengerHomePage.BookRide(s, h)
    case ConfirmAction(rideId, passenger, today) =>
      if s.current.Draft? then ConfirmRidePage.ConfirmClick(s, s.current.details, rideId, passenger, today) else s
    case BackAction => ConfirmRidePage.Back(s)
    case TimerAction(t) => TrackingPage.Fire(s, t)
    case CancelAction => CancelRide(s)
    case NavigateAction(p) => s.(page := p)
  }

  /** New vehicle ids are unused and unreferenced; new ride ids are unused. */
  predicate FreshFor(s: State, a: Action)
  {
    match a
    case AddVehicleAction(_, id, _) =>
      (forall k :: 0 <= k < |s.vehicles| ==> s.vehicles[k].id != id)
      && (forall i :: 0 <= i < |s.rides| ==> s.rides[i].vehicleId != id)
    case ConfirmAction(rideId, _, _) => forall i :: 0 <= i < |s.rides| ==> s.rides[i].id != rideId
    case _ => true
  }

  /** Ending a tracked ride with a terminal status, as completion and cancellation do. */
  function Release(s: State, c: Ride, st: Status): State
  {
    s.(rides := SetRideStatus(s.rides, c.id, st),
       vehicles := SetVehicleStatus(s.vehicles, c.vehicleId, Idle),
       current := NoRide)
  }

  /** The ride being released is stored once, and every other in-progress ride keeps
      its entry and holds a different vehicle. */
  lemma ReleaseKeepsOtherRides(s: State, st: Status)
    requires Consistent(s) && s.current.Active? && st != InProgress
    ensures var c := s.current.ride; var r := Release(s, c, st);
      && |r.rides| == |s.rides| && |r.vehicles| == |s.vehicles|
      && (forall i :: 0 <= i < |r.rides| && r.rides[i].status == InProgress ==>
            r.rides[i] == s.rides[i] && s.rides[i].id != c.id && s.rides[i].vehicleId != c.vehicleId)
      && (forall i :: 0 <= i < |s.rides| && s.rides[i].status == InProgress && s.rides[i].vehicleId != c.vehicleId ==>
            r.rides[i] == s.rides[i])
  {
    var c := s.current.ride;
    var r := Release(s, c, st);
    var i0 :| 0 <= i0 < |s.rides| && s.rides[i0] == c;
    forall i | 0 <= i < |r.rides| && r.rides[i].status == InProgress
      ensures r.rides[i] == s.rides[i] && s.rides[i].id != c.id && s.rides[i].vehicleId != c.vehicleId
    {
      assert s.rides[i].id != c.id;
      if i < i0 {
        assert s.rides[i].vehicleId != s.rides[i0].vehicleId;
      } else if i > i0 {
        assert s.rides[i0].vehicleId != s.rides[i].vehicleId;
      }
    }
    forall i | 0 <= i < |s.rides| && s.rides[i].status == InProgress && s.rides[i].vehicleId != c.vehicleId
      ensures r.rides[i] == s.rides[i]
    {
      assert i != i0;
      if i < i0 {
        assert s.rides[i].id != s.rides[i0].id;
      } else {
        assert s.rides[i0].id != s.rides[i].id;
      }
    }
  }

  lemma ReleaseHoldsVehicles(s: State, st: Status)
    requires Consistent(s) && s.current.Active? && st != InProgress
    ensures RidesHoldVehicles(Release(s, s.current.ride, st)) && NoDoubleBooking(Release(s, s.current.ride, st).rides)
  {
    var c := s.current.ride;
    var r := Release(s, c, st);
    ReleaseKeepsOtherRides(s, st);
    forall i, k | 0 <= i < |r.rides| && 0 <= k < |r.vehicles|
      && r.rides[i].status == InProgress && r.vehicles[k].id == r.rides[i].vehicleId
      ensures r.vehicles[k].status == OnRide
    {
      assert r.vehicles[k] == s.vehicles[k];
    }
  }

  lemma ReleaseBusyHaveRide(s: State, st: Status)
    requires Consistent(s) && s.current.Active? && st != InProgress
    ensures BusyVehiclesHaveRide(Release(s, s.current.ride, st))
  {
    var c := s.current.ride;
    var r := Release(s, c, st);
    ReleaseKeepsOtherRides(s, st);
    forall k | 0 <= k < |r.vehicles| && r.vehicles[k].status == OnRide
      ensures exists i :: 0 <= i < |r.rides| && r.rides[i].status == InProgress && r.rides[i].vehicleId == r.vehicles[k].id
    {
      assert s.vehicles[k].id != c.vehicleId && r.vehicles[k] == s.vehicles[k];
      var i :| 0 <= i < |s.rides| && s.rides[i].status == InProgress && s.rides[i].vehicleId == s.vehicles[k].id;
      assert r.rides[i] == s.rides[i];
    }
  }

  /** Completing or cancelling the tracked ride keeps the state consistent. */
  lemma ReleasePreserves(s: State, st: Status)
    requires Consistent(s) && s.current.Active? && st != InProgress
    ensures Consistent(Release(s, s.current.ride, st))
  {
    var r := Release(s, s.current.ride, st);
    assert forall i :: 0 <= i < |s.rides| ==> r.rides[i].id == s.rides[i].id;
    assert forall k :: 0 <= k < |s.vehicles| ==> r.vehicles[k].id == s.vehicles[k].id;
    ReleaseHoldsVehicles(s, st);
    ReleaseBusyHaveRide(s, st);
  }

  /** The state `startRide` leaves when it reserves a vehicle: the ride appended and
      tracked, its vehicle 'On Ride'. */
  function Reserve(s: State, ride: Ride): State
  {
    s.(rides := s.rides + [ride],
       vehicles := SetVehicleStatus(s.vehicles, ride.vehicleId, OnRide),
       current := Active(ride))
  }

  /** A new in-progress ride with a fresh id, on a vehicle no in-progress ride holds. */
  ghost predicate CanReserve(s: State, ride: Ride)
  {
    && ride.status == InProgress
    && (forall i :: 0 <= i < |s.rides| ==> s.rides[i].id != ride.id)
    && (forall i :: 0 <= i < |s.rides| && s.rides[i].status == InProgress ==> s.rides[i].vehicleId != ride.vehicleId)
  }

  lemma ReserveNoDoubleBooking(s: State, ride: Ride)
    requires Consistent(s) && CanReserve(s, ride)
    ensures NoDoubleBooking(Reserve(s, ride).rides)
  {
    var r := Reserve(s, ride);
    var n := |s.rides|;
    forall i, j | 0 <= i < j < |r.rides| && r.rides[i].status == InProgress && r.rides[j].status == InProgress
      ensures r.rides[i].vehicleId != r.rides[j].vehicleId
    {
      assert r.rides[i] == s.rides[i];
      if j < n {
        assert r.rides[j] == s.rides[j];
      }
    }
  }

  lemma ReserveBusyHaveRide(s: State, ride: Ride)
    requires Consistent(s) && CanReserve(s, ride)
    ensures BusyVehiclesHaveRide(Reserve(s, ride))
  {
    var r := Reserve(s, ride);
    var n := |s.rides|;
    forall q | 0 <= q < |r.vehicles| && r.vehicles[q].status == OnRide
      ensures exists i :: 0 <= i < |r.rides| && r.rides[i].status == InProgress && r.rides[i].vehicleId == r.vehicles[q].id
    {
      if s.vehicles[q].id == ride.vehicleId {
        assert r.rides[n] == ride;
      } else {
        var i :| 0 <= i < n && s.rides[i].status == InProgress && s.rides[i].vehicleId == s.vehicles[q].id;
        assert r.rides[i] == s.rides[i];
      }
    }
  }

  lemma ReserveHoldsVehicles(s: State, ride: Ride)
    requires Consistent(s) && CanReserve(s, ride)
    ensures RidesHoldVehicles(Reserve(s, ride))
  {
    var r := Reserve(s, ride);
    forall i, k | 0 <= i < |r.rides| && 0 <= k < |r.vehicles|
      && r.rides[i].status == InProgress && r.vehicles[k].id == r.rides[i].vehicleId
      ensures r.vehicles[k].status == OnRide
    {
      if i < |s.rides| {
        assert r.rides[i] == s.rides[i];
      }
    }
  }

  /** Reserving keeps the state consistent. */
  lemma ReservePreserves(s: State, ride: Ride)
    requires Consistent(s) && CanReserve(s, ride)
    ensures Consistent(Reserve(s, ride))
  {
    var r := Reserve(s, ride);
    assert forall k :: 0 <= k < |s.vehicles| ==> r.vehicles[k].id == s.vehicles[k].id;
    assert r.rides[|s.rides|] == ride;
    ReserveNoDoubleBooking(s, ride);
    ReserveBusyHaveRide(s, ride);
    ReserveHoldsVehicles(s, ride);
  }

  lemma StartRidePreserves(s: State, d: RideDetails, rideId: int, passenger: string, today: string)
    requires Consistent(s)
    requires forall i :: 0 <= i < |s.rides| ==> s.rides[i].id != rideId
    ensures Consistent(StartRide(s, d, rideId, passenger, today))
  {
    var r := StartRide(s, d, rideId, passenger, today);
    if HasIdleMatch(s.vehicles, d.route.vehicleType, d.route.passengerCount) {
      var k := FirstEligible(s.vehicles, d.route.vehicleType, d.route.passengerCount).value;
      var ride := r.current.ride;
      assert s.vehicles[k].status == Idle;
      assert r == Reserve(s, ride).(page := Tracking);
      ReservePreserves(s, ride);
    }
  }

  lemma AddVehiclePreserves(s: State, data: VehicleData, id: int, ownerEmail: string)
    requires Consistent(s)
    requires forall k :: 0 <= k < |s.vehicles| ==> s.vehicles[k].id != id
    requires forall i :: 0 <= i < |s.rides| ==> s.rides[i].vehicleId != id
    ensures Consistent(AddVehicle(s, data, id, ownerEmail))
  {
    var r := AddVehicle(s, data, id, ownerEmail);
    assert forall k :: 0 <= k < |s.vehicles| ==> r.vehicles[k] == s.vehicles[k];
  }

  lemma RemoveVehiclePreserves(s: State, id: int)
    requires Consistent(s)
    ensures Consistent(RemoveVehicle(s, id))
  {
    var r := RemoveVehicle(s, id);
    var keep := (v: Vehicle) => v.id != id;
    assert UniqueVehicleIds(s.vehicles);
    assert Seqs.DistinctKeys(s.vehicles, VehicleIdOf);
    Seqs.FilterKeepsDistinctKeys(s.vehicles, keep, VehicleIdOf);
    assert Seqs.DistinctKeys(r.vehicles, VehicleIdOf);
    forall q | 0 <= q < |r.vehicles|
      ensures exists k :: 0 <= k < |s.vehicles| && s.vehicles[k] == r.vehicles[q]
    {
      assert r.vehicles[q] in s.vehicles;
    }
  }

  lemma ConfirmPreserves(s: State, rideId: int, passenger: string, today: string)
    requires Consistent(s) && FreshFor(s, ConfirmAction(rideId, passenger, today))
    ensures Consistent(Step(s, ConfirmAction(rideId, passenger, today)))
  {
    if s.current.Draft? && ConfirmRidePage.IsVehicleAvailable(s.vehicles, s.current.details) {
      StartRidePreserves(s, s.current.details, rideId, passenger, today);
    }
  }

  /** Leaving the tracking page through the navigation bar and then letting the timer
      armed there run out leaves the tracked ride in progress and its vehicle held. */
  lemma TimerAfterLeavingKeepsRide(s: State, p: Page)
    requires s.page == Tracking && p != Tracking
    requires s.current.Active? && s.current.ride.status == InProgress
    ensures var r := Step(Step(s, NavigateAction(p)), TimerAction(TrackingPage.Arm(s)));
      && r.current == s.current && r.current.ride.status == InProgress
      && r.rides == s.rides && r.vehicles == s.vehicles && r.page == p
  {
    TrackingPage.TimerClearedByLeaving(s, p);
  }

  lemma TimerPreserves(s: State, t: TrackingPage.Timer)
    requires Consistent(s)
    ensures Consistent(Step(s, TimerAction(t)))
  {
    if t.armedFor == s.current && s.page == Tracking && s.current.Active? && s.current.ride.status == InProgress {
      ReleasePreserves(s, Completed);
      assert Step(s, TimerAction(t)) == Release(s, s.current.ride, Completed).(page := Passenger);
    }
  }

  lemma CancelPreserves(s: State)
    requires Consistent(s)
    ensures Consistent(Step(s, CancelAction))
  {
    if s.current.Active? {
      ReleasePreserves(s, Cancelled);
      assert Step(s, CancelAction) == Release(s, s.current.ride, Cancelled).(page := Passenger);
    }
  }

  /** Every action keeps the dispatch state consistent. */
  lemma StepPreserves(s: State, a: Action)
    requires Consistent(s) && FreshFor(s, a)
    ensures Consistent(Step(s, a))
  {
    match a
    case AddVehicleAction(data, id, email) => AddVehiclePreserves(s, data, id, email);
    case RemoveVehicleAction(id) => RemoveVehiclePreserves(s, id);
    case ScheduleAction(data, id) =>
    case BookAction(h) =>
    case ConfirmAction(rideId, passenger, today) => ConfirmPreserves(s, rideId, passenger, today);
    case BackAction =>
    case TimerAction(t) => TimerPreserves(s, t);
    case CancelAction => CancelPreserves(s);
    case NavigateAction(p) =>
  }

  /** The state after a run of actions. */
  function Run(s: State, actions: seq<Action>): State
    decreases |actions|
  {
    if |actions| == 0 then s else Run(Step(s, actions[0]), actions[1..])
  }

  /** Each action of the run uses fresh identifiers in the state it acts on. */
  ghost predicate FreshRun(s: State, actions: seq<Action>)
    decreases |actions|
  {
    |actions| == 0 || (FreshFor(s, actions[0]) && FreshRun(Step(s, actions[0]), actions[1..]))
  }

  lemma {:induction false} RunPreserves(s: State, actions: seq<Action>)
    requires Consistent(s) && FreshRun(s, actions)
    ensures Consistent(Run(s, actions))
    decreases |actions|
  {
    if |actions| > 0 {
      StepPreserves(s, actions[0]);
      RunPreserves(Step(s, actions[0]), actions[1..]);
    }
  }

  /** In every state reachable from start-up no vehicle serves two in-progress rides,
      and every listed vehicle of an in-progress ride is 'On Ride'. */
  lemma ReachableStatesHaveNoDoubleBooking(actions: seq<Action>)
    requires FreshRun(Initial, actions)
    ensures NoDoubleBooking(Run(Initial, actions).rides)
    ensures RidesHoldVehicles(Run(Initial, actions))
  {
    RunPreserves(Initial, actions);
  }

  /** In a consistent state `startRide` never reserves a vehicle that an in-progress
      ride holds. */
  lemma StartRideTakesFreeVehicle(s: State, d: RideDetails)
    requires Consistent(s)
    requires HasIdleMatch(s.vehicles, d.route.vehicleType, d.route.passengerCount)
    ensures var k := FirstEligible(s.vehicles, d.route.vehicleType, d.route.passengerCount).value;
      forall i :: 0 <= i < |s.rides| && s.rides[i].status == InProgress ==> s.rides[i].vehicleId != s.vehicles[k].id
  {
  }
}
