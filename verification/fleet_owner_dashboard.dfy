/** The fleet owner's view of the shared data: the owner's vehicles, the rides of the
    owner's drivers, the scheduled rides the fleet could serve, and the dashboard counters. */
module FleetOwnerDashboard {
  import opened FleetModel
  import Seqs

  /** `vehicles.filter(v => v.ownerEmail === user.email)`. */
  function OwnerVehicles(vehicles: seq<Vehicle>, email: string): (r: seq<Vehicle>)
    ensures |r| <= |vehicles|
    ensures forall v :: v in r <==> v in vehicles && v.ownerEmail == email
    ensures forall v :: multiset(r)[v] == if v.ownerEmail == email then multiset(vehicles)[v] else 0
  {
    Seqs.FilterMultiset(vehicles, (v: Vehicle) => v.ownerEmail == email);
    Seqs.Filter(vehicles, (v: Vehicle) => v.ownerEmail == email)
  }

  /** The owner's vehicles keep fleet order: a vehicle added at the end of the fleet
      is listed after the owner's earlier ones, or not at all. */
  lemma OwnerVehiclesKeepOrder(vehicles: seq<Vehicle>, w: Vehicle, email: string)
    ensures OwnerVehicles(vehicles + [w], email)
      == OwnerVehicles(vehicles, email) + (if w.ownerEmail == email then [w] else [])
  {
    Seqs.FilterSnoc(vehicles, w, (v: Vehicle) => v.ownerEmail == email);
  }

  /** Some owner vehicle is driven by `driver` (`ownerDriverNames.includes`). */
  predicate DrivenByOwner(ownerVehicles: seq<Vehicle>, driver: string)
  {
    exists k :: 0 <= k < |ownerVehicles| && ownerVehicles[k].driver == driver
  }

  /** The rides whose driver name is one of the owner's drivers, in ride order. */
  function OwnerRides(rides: seq<Ride>, ownerVehicles: seq<Vehicle>): (r: seq<Ride>)
    ensures |r| <= |rides|
    ensures forall x :: x in r <==> x in rides && DrivenByOwner(ownerVehicles, x.driver)
    ensures forall x :: multiset(r)[x] == if DrivenByOwner(ownerVehicles, x.driver) then multiset(rides)[x] else 0
  {
    Seqs.FilterMultiset(rides, (x: Ride) => DrivenByOwner(ownerVehicles, x.driver));
    Seqs.Filter(rides, (x: Ride) => DrivenByOwner(ownerVehicles, x.driver))
  }

  /** The owner's rides keep ride order. */
  lemma OwnerRidesKeepOrder(rides: seq<Ride>, x: Ride, ownerVehicles: seq<Vehicle>)
    ensures OwnerRides(rides + [x], ownerVehicles)
      == OwnerRides(rides, ownerVehicles) + (if DrivenByOwner(ownerVehicles, x.driver) then [x] else [])
  {
    Seqs.FilterSnoc(rides, x, (y: Ride) => DrivenByOwner(ownerVehicles, y.driver));
  }

  /** A ride served by one of the owner's vehicles is listed: `startRide` records the
      vehicle's driver on the ride. */
  lemma RideOfOwnerVehicleListed(rides: seq<Ride>, ownerVehicles: seq<Vehicle>, x: Ride, k: int)
    requires x in rides && 0 <= k < |ownerVehicles| && x.driver == ownerVehicles[k].driver
    ensures x in OwnerRides(rides, ownerVehicles)
  {
  }

  /** Some owner vehicle has the booking's type and room for its passengers, whatever
      that vehicle's status. */
  predicate CanServe(ownerVehicles: seq<Vehicle>, b: ScheduledRide)
  {
    exists k :: 0 <= k < |ownerVehicles|
      && ownerVehicles[k].vehicleType == b.vehicleType && ownerVehicles[k].capacity >= b.passengerCount
  }

  /** The bookings as history entries (`{...sr, driver: 'Unassigned', ...}`), in order. */
  function Project(kept: seq<ScheduledRide>): (r: seq<Entry>)
    ensures |r| == |kept|
    ensures forall i :: 0 <= i < |kept| ==> r[i] == ScheduledEntry(kept[i])
    ensures forall b :: multiset(r)[ScheduledEntry(b)] == multiset(kept)[b]
    ensures forall e :: e in r <==> e.ScheduledEntry? && e.booking in kept
  {
    if |kept| == 0 then []
    else
      assert kept == [kept[0]] + kept[1..];
      [ScheduledEntry(kept[0])] + Project(kept[1..])
  }

  /** Projection distributes over concatenation. */
  lemma ProjectConcat(a: seq<ScheduledRide>, b: seq<ScheduledRide>)
    ensures Project(a + b) == Project(a) + Project(b)
  {
    var whole, parts := Project(a + b), Project(a) + Project(b);
    forall i | 0 <= i < |whole|
      ensures whole[i] == parts[i]
    {
      if i < |a| {
        assert (a + b)[i] == a[i];
      } else {
        assert (a + b)[i] == b[i - |a|];
      }
    }
  }

  /** `relevantScheduledRides`: the bookings the fleet could serve, projected as history
      entries with driver 'Unassigned', fare 'N/A' and status 'Pending'. */
  function RelevantScheduled(ownerVehicles: seq<Vehicle>, scheduled: seq<ScheduledRide>): (r: seq<Entry>)
    ensures |r| <= |scheduled|
    ensures forall e :: e in r ==> e.ScheduledEntry? && e.booking in scheduled && CanServe(ownerVehicles, e.booking)
    ensures forall b :: b in scheduled && CanServe(ownerVehicles, b) ==> ScheduledEntry(b) in r
    ensures forall b :: multiset(r)[ScheduledEntry(b)] == if CanServe(ownerVehicles, b) then multiset(scheduled)[b] else 0
    ensures forall e :: e in r ==> e.Driver() == "Unassigned" && e.Fare() == NotApplicable && e.Status() == Pending
  {
    Seqs.FilterMultiset(scheduled, (b: ScheduledRide) => CanServe(ownerVehicles, b));
    Project(Seqs.Filter(scheduled, (b: ScheduledRide) => CanServe(ownerVehicles, b)))
  }

  /** The projected bookings keep booking order, which fixes their rows in the CSV. */
  lemma RelevantScheduledKeepsOrder(ownerVehicles: seq<Vehicle>, scheduled: seq<ScheduledRide>, b: ScheduledRide)
    ensures RelevantScheduled(ownerVehicles, scheduled + [b])
      == RelevantScheduled(ownerVehicles, scheduled) + (if CanServe(ownerVehicles, b) then [ScheduledEntry(b)] else [])
  {
    var keep := (x: ScheduledRide) => CanServe(ownerVehicles, x);
    Seqs.FilterSnoc(scheduled, b, keep);
    ProjectConcat(Seqs.Filter(scheduled, keep), if keep(b) then [b] else []);
    assert Project(if keep(b) then [b] else []) == if keep(b) then [ScheduledEntry(b)] else [];
  }

  /** Whether a booking counts as relevant does not depend on vehicle statuses: a fleet
      whose vehicles are all on rides still sees the booking. */
  lemma RelevanceIgnoresStatus(ownerVehicles: seq<Vehicle>, b: ScheduledRide, k: int, st: VehicleStatus)
    requires 0 <= k < |ownerVehicles|
    ensures CanServe(ownerVehicles[k := ownerVehicles[k].(status := st)], b) == CanServe(ownerVehicles, b)
  {
    var changed := ownerVehicles[k := ownerVehicles[k].(status := st)];
    if CanServe(ownerVehicles, b) {
      var j :| 0 <= j < |ownerVehicles|
        && ownerVehicles[j].vehicleType == b.vehicleType && ownerVehicles[j].capacity >= b.passengerCount;
      assert changed[j].vehicleType == ownerVehicles[j].vehicleType && changed[j].capacity == ownerVehicles[j].capacity;
    }
    if CanServe(changed, b) {
      var j :| 0 <= j < |changed|
        && changed[j].vehicleType == b.vehicleType && changed[j].capacity >= b.passengerCount;
      assert changed[j].vehicleType == ownerVehicles[j].vehicleType && changed[j].capacity == ownerVehicles[j].capacity;
    }
  }

  /** `allOwnerRides`: the owner's rides, then the relevant bookings. */
  function AllOwnerRides(ownerRides: seq<Ride>, relevant: seq<Entry>): (r: seq<Entry>)
    ensures |r| == |ownerRides| + |relevant|
    ensures forall i :: 0 <= i < |ownerRides| ==> r[i] == RideEntry(ownerRides[i])
    ensures r[|ownerRides|..] == relevant
  {
    seq(|ownerRides|, i requires 0 <= i < |ownerRides| => RideEntry(ownerRides[i])) + relevant
  }

  /** The rides of a status, in ride order. */
  function WithStatus(rides: seq<Ride>, st: Status): (r: seq<Ride>)
    ensures |r| <= |rides|
    ensures forall x :: x in r <==> x in rides && x.status == st
    ensures forall x :: multiset(r)[x] == if x.status == st then multiset(rides)[x] else 0
  {
    Seqs.FilterMultiset(rides, (x: Ride) => x.status == st);
    Seqs.Filter(rides, (x: Ride) => x.status == st)
  }

  /** The counter grows by one exactly for a ride of that status, and the list keeps
      ride order. */
  lemma WithStatusKeepsOrder(rides: seq<Ride>, x: Ride, st: Status)
    ensures WithStatus(rides + [x], st) == WithStatus(rides, st) + (if x.status == st then [x] else [])
    ensures |WithStatus(rides + [x], st)| == |WithStatus(rides, st)| + (if x.status == st then 1 else 0)
  {
    Seqs.FilterSnoc(rides, x, (y: Ride) => y.status == st);
  }

  /** The dashboard's counters: total vehicles, active rides, completed rides. */
  datatype Stats = Stats(totalVehicles: nat, activeRides: nat, completedRides: nat)

  function StatsOf(ownerVehicles: seq<Vehicle>, ownerRides: seq<Ride>): Stats
  {
    Stats(|ownerVehicles|, |WithStatus(ownerRides, InProgress)|, |WithStatus(ownerRides, Completed)|)
  }

  /** Active and completed rides are disjoint, so together they never exceed the
      owner's rides. */
  lemma ActivePlusCompletedBounded(ownerVehicles: seq<Vehicle>, ownerRides: seq<Ride>)
    ensures StatsOf(ownerVehicles, ownerRides).activeRides + StatsOf(ownerVehicles, ownerRides).completedRides
      <= |ownerRides|
  {
    Seqs.FilterDisjointCount(ownerRides, (x: Ride) => x.status == InProgress, (x: Ride) => x.status == Completed);
  }
}
