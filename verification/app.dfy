/** The dispatch state machine of the application shell: the shared vehicle, ride and
    scheduled-ride collections, the tracked ride and the current page, with the data
    operations it hands to every page (`addVehicle`, `removeVehicle`, `addScheduledRide`,
    `startRide`, `completeRide`, `cancelRide`). Identifiers, the signed-in user and
    today's date are parameters. */
module App {
  import opened Wrappers
  import opened FleetModel
  import Seqs

  datatype Page = Login | Signup | Passenger | Fleet | Confirm | Tracking | Profile | Dashboard

  /** `currentRide`: nothing, the ride details a passenger is about to confirm, or a
      snapshot of the ride that `startRide` created. */
  datatype Current = NoRide | Draft(details: RideDetails) | Active(ride: Ride)

  datatype State = State(
    vehicles: seq<Vehicle>,
    rides: seq<Ride>,
    scheduled: seq<ScheduledRide>,
    current: Current,
    page: Page)

  /** What the vehicle form submits to `addVehicle`. */
  datatype VehicleData = VehicleData(
    name: string,
    driver: string,
    location: string,
    maintenance: Maintenance,
    vehicleType: VehicleType,
    capacity: int)

  /** What the advance-booking form submits to `addScheduledRide`. */
  datatype ScheduleData = ScheduleData(
    pickup: string,
    drop: string,
    date: string,
    time: string,
    vehicleType: VehicleType,
    passengerCount: int,
    passenger: string)

  ghost predicate UniqueVehicleIds(vehicles: seq<Vehicle>)
  {
    forall i, j :: 0 <= i < j < |vehicles| ==> vehicles[i].id != vehicles[j].id
  }

  predicate HasVehicleId(vehicles: seq<Vehicle>, id: int)
  {
    exists i :: 0 <= i < |vehicles| && vehicles[i].id == id
  }

  /** Every vehicle whose id is `id` gets status `st`; the others are kept. */
  function SetVehicleStatus(vehicles: seq<Vehicle>, id: int, st: VehicleStatus): seq<Vehicle>
  {
    seq(|vehicles|, i requires 0 <= i < |vehicles| =>
      if vehicles[i].id == id then vehicles[i].(status := st) else vehicles[i])
  }

  /** Every ride whose id is `id` gets status `st`; the others are kept. */
  function SetRideStatus(rides: seq<Ride>, id: int, st: Status): seq<Ride>
  {
    seq(|rides|, i requires 0 <= i < |rides| =>
      if rides[i].id == id then rides[i].(status := st) else rides[i])
  }

  /** `addVehicle`: appends the submitted vehicle, idle and owned by the signed-in user. */
  function AddVehicle(s: State, data: VehicleData, id: int, ownerEmail: string): (r: State)
    ensures |r.vehicles| == |s.vehicles| + 1 && r.vehicles[..|s.vehicles|] == s.vehicles
    ensures var v := r.vehicles[|s.vehicles|];
      && v.id == id && v.status == Idle && v.ownerEmail == ownerEmail
      && v.name == data.name && v.driver == data.driver && v.location == data.location
      && v.maintenance == data.maintenance && v.vehicleType == data.vehicleType
      && v.capacity == data.capacity
    ensures r.(vehicles := s.vehicles) == s
  {
    var v := Vehicle(id, data.name, data.driver, data.location, data.maintenance,
                     data.vehicleType, data.capacity, Idle, ownerEmail);
    s.(vehicles := s.vehicles + [v])
  }

  /** `addScheduledRide`: appends the booking with status 'Scheduled'. */
  function AddScheduledRide(s: State, data: ScheduleData, id: int): (r: State)
    ensures |r.scheduled| == |s.scheduled| + 1 && r.scheduled[..|s.scheduled|] == s.scheduled
    ensures var b := r.scheduled[|s.scheduled|];
      && b.id == id && b.status == Scheduled
      && b.pickup == data.pickup && b.drop == data.drop && b.date == data.date && b.time == data.time
      && b.vehicleType == data.vehicleType && b.passengerCount == data.passengerCount
      && b.passenger == data.passenger
    ensures r.(scheduled := s.scheduled) == s
  {
    var b := ScheduledRide(id, data.pickup, data.drop, data.date, data.time,
                           data.vehicleType, data.passengerCount, data.passenger, Scheduled);
    s.(scheduled := s.scheduled + [b])
  }

  function KeepOtherVehicles(vehicles: seq<Vehicle>, id: int): seq<Vehicle>
  {
    Seqs.Filter(vehicles, (v: Vehicle) => v.id != id)
  }

  /** `removeVehicle`: drops every vehicle with that id, whatever its status. */
  function RemoveVehicle(s: State, id: int): (r: State)
    ensures forall v :: v in r.vehicles <==> v in s.vehicles && v.id != id
    ensures forall v :: multiset(r.vehicles)[v] == if v.id != id then multiset(s.vehicles)[v] else 0
    ensures !HasVehicleId(r.vehicles, id)
    ensures r.(vehicles := s.vehicles) == s
  {
    Seqs.FilterMultiset(s.vehicles, (v: Vehicle) => v.id != id);
    s.(vehicles := KeepOtherVehicles(s.vehicles, id))
  }

  /** The kept vehicles stay in fleet order: removing from a longer fleet extends what
      removing from its prefix keeps. */
  lemma RemoveVehicleKeepsOrder(s: State, w: Vehicle, id: int)
    ensures RemoveVehicle(s.(vehicles := s.vehicles + [w]), id).vehicles
      == RemoveVehicle(s, id).vehicles + (if w.id != id then [w] else [])
  {
    Seqs.FilterSnoc(s.vehicles, w, (v: Vehicle) => v.id != id);
  }

  /** `startRide`: reserves the first eligible vehicle and records an in-progress ride;
      with no eligible vehicle nothing changes. */
  function StartRide(s: State, d: RideDetails, rideId: int, passenger: string, today: string): (r: State)
    ensures !HasIdleMatch(s.vehicles, d.route.vehicleType, d.route.passengerCount) ==> r == s
    ensures HasIdleMatch(s.vehicles, d.route.vehicleType, d.route.passengerCount) ==>
      var k := FirstEligible(s.vehicles, d.route.vehicleType, d.route.passengerCount).value;
      var chosen := s.vehicles[k];
      && |r.rides| == |s.rides| + 1 && r.rides[..|s.rides|] == s.rides
      && var ride := r.rides[|s.rides|];
      && ride.id == rideId && ride.details == d && ride.passenger == passenger
      && ride.driver == chosen.driver && ride.vehicleId == chosen.id
      && ride.status == InProgress && ride.date == today
      && |r.vehicles| == |s.vehicles|
      && (forall j :: 0 <= j < |s.vehicles| ==>
            r.vehicles[j] == if s.vehicles[j].id == chosen.id then s.vehicles[j].(status := OnRide) else s.vehicles[j])
      && r.current == Active(ride) && r.page == Tracking && r.scheduled == s.scheduled
  {
    match FirstEligible(s.vehicles, d.route.vehicleType, d.route.passengerCount)
    case None => s
    case Some(k) =>
      var chosen := s.vehicles[k];
      var ride := Ride(rideId, d, passenger, chosen.driver, chosen.id, InProgress, today);
      s.(rides := s.rides + [ride],
         vehicles := SetVehicleStatus(s.vehicles, chosen.id, OnRide),
         current := Active(ride),
         page := Tracking)
  }

  /** `completeRide`: marks the ride with that id 'Completed' and its vehicle 'Idle',
      whatever their previous status; forgets the tracked ride only if it is this one. */
  function CompleteRide(s: State, ride: Option<Ride>): (r: State)
    ensures ride.None? ==> r == s
    ensures ride.Some? ==>
      var done := ride.value;
      && |r.rides| == |s.rides|
      && (forall i :: 0 <= i < |s.rides| ==>
            r.rides[i] == if s.rides[i].id == done.id then s.rides[i].(status := Completed) else s.rides[i])
      && |r.vehicles| == |s.vehicles|
      && (forall j :: 0 <= j < |s.vehicles| ==>
            r.vehicles[j] == if s.vehicles[j].id == done.vehicleId then s.vehicles[j].(status := Idle) else s.vehicles[j])
      && (r.current == if s.current.Active? && s.current.ride.id == done.id then NoRide else s.current)
      && r.page == s.page && r.scheduled == s.scheduled
  {
    match ride
    case None => s
    case Some(done) =>
      s.(rides := SetRideStatus(s.rides, done.id, Completed),
         vehicles := SetVehicleStatus(s.vehicles, done.vehicleId, Idle),
         current := if s.current.Active? && s.current.ride.id == done.id then NoRide else s.current)
  }

  /** `cancelRide`: acts on the tracked ride only. A draft has neither id nor vehicle, so
      cancelling it touches no record. */
  function CancelRide(s: State): (r: State)
    ensures s.current.NoRide? ==> r == s
    ensures s.current.Draft? ==> r == s.(current := NoRide, page := Passenger)
    ensures s.current.Active? ==>
      var c := s.current.ride;
      && |r.rides| == |s.rides|
      && (forall i :: 0 <= i < |s.rides| ==>
            r.rides[i] == if s.rides[i].id == c.id then s.rides[i].(status := Cancelled) else s.rides[i])
      && |r.vehicles| == |s.vehicles|
      && (forall j :: 0 <= j < |s.vehicles| ==>
            r.vehicles[j] == if s.vehicles[j].id == c.vehicleId then s.vehicles[j].(status := Idle) else s.vehicles[j])
      && r.current == NoRide && r.page == Passenger && r.scheduled == s.scheduled
  {
    match s.current
    case NoRide => s
    case Draft(_) => s.(current := NoRide, page := Passenger)
    case Active(c) =>
      s.(rides := SetRideStatus(s.rides, c.id, Cancelled),
         vehicles := SetVehicleStatus(s.vehicles, c.vehicleId, Idle),
         current := NoRide,
         page := Passenger)
  }

  /** Removing a vehicle right after adding it under an unused id restores the state. */
  lemma RemoveUndoesAdd(s: State, data: VehicleData, id: int, ownerEmail: string)
    requires !HasVehicleId(s.vehicles, id)
    ensures RemoveVehicle(AddVehicle(s, data, id, ownerEmail), id) == s
  {
    var added := AddVehicle(s, data, id, ownerEmail);
    var keep := (v: Vehicle) => v.id != id;
    Seqs.FilterConcat(s.vehicles, [added.vehicles[|s.vehicles|]], keep);
    Seqs.FilterAll(s.vehicles, keep);
    assert added.vehicles == s.vehicles + [added.vehicles[|s.vehicles|]];
    assert Seqs.Filter([added.vehicles[|s.vehicles|]], keep) == [];
  }

  /** With unique vehicle ids, a successful `startRide` changes exactly the chosen vehicle. */
  lemma StartRideChangesOnlyChosen(s: State, d: RideDetails, rideId: int, passenger: string, today: string)
    requires UniqueVehicleIds(s.vehicles)
    requires HasIdleMatch(s.vehicles, d.route.vehicleType, d.route.passengerCount)
    ensures var k := FirstEligible(s.vehicles, d.route.vehicleType, d.route.passengerCount).value;
      var r := StartRide(s, d, rideId, passenger, today);
      && r.vehicles[k] == s.vehicles[k].(status := OnRide)
      && forall j :: 0 <= j < |s.vehicles| && j != k ==> r.vehicles[j] == s.vehicles[j]
  {
    var k := FirstEligible(s.vehicles, d.route.vehicleType, d.route.passengerCount).value;
    var r := StartRide(s, d, rideId, passenger, today);
    forall j | 0 <= j < |s.vehicles| && j != k
      ensures r.vehicles[j] == s.vehicles[j]
    {
      if j < k {
        assert s.vehicles[j].id != s.vehicles[k].id;
      } else {
        assert s.vehicles[k].id != s.vehicles[j].id;
      }
    }
  }

  /** When exactly one vehicle can serve a request, a second `startRide` for the same
      request finds nothing and changes nothing: that vehicle is now on a ride. */
  lemma SecondStartFindsNoVehicle(s: State, d: RideDetails, id1: int, id2: int, passenger: string, today: string)
    requires HasIdleMatch(s.vehicles, d.route.vehicleType, d.route.passengerCount)
    requires forall i, j ::
      (0 <= i < |s.vehicles| && 0 <= j < |s.vehicles|
       && Eligible(s.vehicles[i], d.route.vehicleType, d.route.passengerCount)
       && Eligible(s.vehicles[j], d.route.vehicleType, d.route.passengerCount)) ==> i == j
    ensures var once := StartRide(s, d, id1, passenger, today);
      StartRide(once, d, id2, passenger, today) == once
  {
  }

  /** Cancelling twice is the same as cancelling once: the second call finds no tracked ride. */
  lemma CancelIsIdempotent(s: State)
    ensures CancelRide(CancelRide(s)) == CancelRide(s)
  {
  }
}
