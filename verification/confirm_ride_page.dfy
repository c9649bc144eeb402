/** The confirmation page: the availability gate in front of `startRide`, and the
    confirm and back actions. */
module ConfirmRidePage {
  import opened FleetModel
  import App

  /** `isVehicleAvailable`: some vehicle is idle, of the route's type, and holds the
      route's passengers. */
  predicate IsVehicleAvailable(vehicles: seq<Vehicle>, d: RideDetails)
  {
    exists i :: 0 <= i < |vehicles| && vehicles[i].status == Idle
      && vehicles[i].vehicleType == d.route.vehicleType
      && vehicles[i].capacity >= d.route.passengerCount
  }

  /** What the page shows: whether Confirm is enabled and whether the
      "no matching vehicles" notice appears. */
  datatype View = View(confirmEnabled: bool, showsNoVehicleNotice: bool)

  function ViewOf(vehicles: seq<Vehicle>, d: RideDetails): (v: View)
    ensures v.confirmEnabled <==> !v.showsNoVehicleNotice
  {
    var available := IsVehicleAvailable(vehicles, d);
    View(available, !available)
  }

  /** The gate is exactly the condition under which `startRide` finds a vehicle:
      Confirm is enabled iff pressing it would start a ride, and the notice is shown
      iff it would not. */
  lemma GateIffStartRideSucceeds(s: App.State, d: RideDetails, rideId: int, passenger: string, today: string)
    ensures var started := App.StartRide(s, d, rideId, passenger, today);
      && (ViewOf(s.vehicles, d).confirmEnabled <==> |started.rides| == |s.rides| + 1)
      && (ViewOf(s.vehicles, d).showsNoVehicleNotice <==> started == s)
  {
    assert IsVehicleAvailable(s.vehicles, d) <==> HasIdleMatch(s.vehicles, d.route.vehicleType, d.route.passengerCount);
  }

  /** Pressing Confirm: a disabled button does nothing; an enabled one hands the
      details, unchanged, to `startRide`, which opens the tracking page. */
  function ConfirmClick(s: App.State, d: RideDetails, rideId: int, passenger: string, today: string): (r: App.State)
    ensures !IsVehicleAvailable(s.vehicles, d) ==> r == s
    ensures IsVehicleAvailable(s.vehicles, d) ==>
      && r.page == App.Tracking
      && |r.rides| == |s.rides| + 1 && r.rides[|s.rides|].details == d
      && r.current == App.Active(r.rides[|s.rides|])
  {
    GateIffStartRideSucceeds(s, d, rideId, passenger, today);
    if ViewOf(s.vehicles, d).confirmEnabled then App.StartRide(s, d, rideId, passenger, today) else s
  }

  /** Pressing Back returns to the passenger page and changes nothing else. */
  function Back(s: App.State): (r: App.State)
    ensures r.page == App.Passenger
    ensures r.(page := s.page) == s
  {
    s.(page := App.Passenger)
  }
}
