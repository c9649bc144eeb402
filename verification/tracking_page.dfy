/** The tracking page: the auto-complete timer as an explicit step, the vehicle
    lookup, the placeholder, and cancel. */
module TrackingPage {
  import opened Wrappers
  import opened FleetModel
  import App

  /** A pending auto-complete timer, armed for the tracked ride of the render that set it. */
  datatype Timer = Timer(armedFor: App.Current)

  /** The effect arms a timer for the tracked ride at hand. */
  function Arm(s: App.State): Timer
  {
    Timer(s.current)
  }

  /** The timer fires. The effect's cleanup clears the timer when the tracked ride
      changes and when the page unmounts, that is, when the page is no longer
      'tracking'; a cleared timer does nothing. Coming back to the page with the same
      tracked ride arms an equal timer, so only the page at firing time matters.
      Otherwise the timer completes the tracked ride and returns to the passenger page,
      but only if that ride is in progress. */
  function Fire(s: App.State, t: Timer): (r: App.State)
    ensures t.armedFor != s.current ==> r == s
    ensures s.page != App.Tracking ==> r == s
    ensures !(s.current.Active? && s.current.ride.status == InProgress) ==> r == s
    ensures (t.armedFor == s.current && s.page == App.Tracking
             && s.current.Active? && s.current.ride.status == InProgress) ==>
      var c := s.current.ride;
      && r.current == App.NoRide && r.page == App.Passenger
      && |r.rides| == |s.rides|
      && (forall i :: 0 <= i < |s.rides| ==>
            r.rides[i] == if s.rides[i].id == c.id then s.rides[i].(status := Completed) else s.rides[i])
      && |r.vehicles| == |s.vehicles|
      && (forall j :: 0 <= j < |s.vehicles| ==>
            r.vehicles[j] == if s.vehicles[j].id == c.vehicleId then s.vehicles[j].(status := Idle) else s.vehicles[j])
      && r.scheduled == s.scheduled
  {
    if t.armedFor != s.current || s.page != App.Tracking then s
    else if s.current.Active? && s.current.ride.status == InProgress then
      App.CompleteRide(s, Some(s.current.ride)).(page := App.Passenger)
    else s
  }

  /** Leaving the tracking page clears its timer: the tracked ride stays in progress,
      with its stored record and its vehicle untouched, when the timer would have fired. */
  lemma TimerClearedByLeaving(s: App.State, p: App.Page)
    requires s.page == App.Tracking && p != App.Tracking
    ensures var left := s.(page := p);
      && Fire(left, Arm(s)) == left
      && Fire(left, Arm(s)).current == s.current
      && Fire(left, Arm(s)).rides == s.rides
      && Fire(left, Arm(s)).vehicles == s.vehicles
  {
  }

  /** A timer armed before a cancellation never fires afterwards. */
  lemma TimerClearedByCancel(s: App.State)
    ensures Fire(App.CancelRide(s), Arm(s)) == App.CancelRide(s)
  {
  }

  /** A ride is auto-completed at most once: the timer that completed it has no further effect. */
  lemma TimerCompletesOnce(s: App.State)
    ensures var once := Fire(s, Arm(s));
      Fire(once, Arm(s)) == once
  {
  }

  /** `vehicles.find(v => v.id === currentRide.vehicleId)`; a draft has no vehicle id. */
  function VehicleForRide(vehicles: seq<Vehicle>, vehicleId: Option<int>): (r: Option<Vehicle>)
    ensures r.Some? ==> vehicleId.Some? && r.value in vehicles && r.value.id == vehicleId.value
    ensures r.Some? ==> exists k :: (0 <= k < |vehicles| && vehicles[k] == r.value
      && forall j :: 0 <= j < k ==> vehicles[j].id != vehicleId.value)
    ensures r.None? <==> vehicleId.None? || forall j :: 0 <= j < |vehicles| ==> vehicles[j].id != vehicleId.value
  {
    if vehicleId.None? || |vehicles| == 0 then None
    else if vehicles[0].id == vehicleId.value then Some(vehicles[0])
    else
      var rest := VehicleForRide(vehicles[1..], vehicleId);
      if rest.Some? then
        var k :| 0 <= k < |vehicles[1..]| && vehicles[1..][k] == rest.value
          && forall j :: 0 <= j < k ==> vehicles[1..][j].id != vehicleId.value;
        assert vehicles[k + 1] == rest.value;
        rest
      else rest
  }

  const Unavailable := "Vehicle details unavailable"

  /** What the page shows. */
  datatype View =
    | Placeholder
    | Live(driver: Option<string>, status: Option<Status>, markers: seq<Vehicle>, vehicleLabel: string)

  function RideVehicleId(c: App.Current): Option<int>
  {
    if c.Active? then Some(c.ride.vehicleId) else None
  }

  /** Without a tracked ride only the placeholder is shown; otherwise the map gets the
      ride's vehicle, or nothing and the 'unavailable' label when no vehicle has its id. */
  function ViewOf(s: App.State): (v: View)
    ensures v.Placeholder? <==> s.current.NoRide?
    ensures v.Live? ==>
      var found := VehicleForRide(s.vehicles, RideVehicleId(s.current));
      && |v.markers| <= 1
      && (found.None? <==> v.markers == [])
      && (found.None? ==> v.vehicleLabel == Unavailable)
      && (found.Some? ==> v.markers == [found.value] && v.vehicleLabel == found.value.name)
      && (s.current.Active? ==> v.driver == Some(s.current.ride.driver) && v.status == Some(s.current.ride.status))
  {
    match s.current
    case NoRide => Placeholder
    case Draft(_) => Live(None, None, [], Unavailable)
    case Active(c) =>
      var found := VehicleForRide(s.vehicles, Some(c.vehicleId));
      if found.Some? then Live(Some(c.driver), Some(c.status), [found.value], found.value.name)
      else Live(Some(c.driver), Some(c.status), [], Unavailable)
  }

  /** The placeholder's button goes to the passenger page. */
  function GoHome(s: App.State): (r: App.State)
    ensures r.page == App.Passenger && r.(page := s.page) == s
  {
    s.(page := App.Passenger)
  }

  /** The Cancel button is `cancelRide`: the tracked ride is cancelled and its vehicle
      freed, every other record is kept, and the page returns to the passenger home. */
  function CancelClick(s: App.State): (r: App.State)
    ensures s.current.NoRide? ==> r == s
    ensures s.current.Draft? ==> r == s.(current := App.NoRide, page := App.Passenger)
    ensures s.current.Active? ==>
      var c := s.current.ride;
      && r.current == App.NoRide && r.page == App.Passenger && r.scheduled == s.scheduled
      && |r.rides| == |s.rides|
      && (forall i :: 0 <= i < |s.rides| ==>
            r.rides[i] == if s.rides[i].id == c.id then s.rides[i].(status := Cancelled) else s.rides[i])
      && |r.vehicles| == |s.vehicles|
      && (forall j :: 0 <= j < |s.vehicles| ==>
            r.vehicles[j] == if s.vehicles[j].id == c.vehicleId then s.vehicles[j].(status := Idle) else s.vehicles[j])
  {
    App.CancelRide(s)
  }
}
