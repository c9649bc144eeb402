/** The records the ride-dispatch frontend keeps in its shared data context: vehicles,
    route quotes, rides and scheduled rides, plus the eligibility rule by which a
    vehicle can serve a request. */
module FleetModel {
  import opened Wrappers

  datatype VehicleType = Normal | Emergency

  /** `status` of a vehicle: 'Idle' or 'On Ride'. */
  datatype VehicleStatus = Idle | OnRide

  /** `maintenanceStatus` of a vehicle. */
  datatype Maintenance = Healthy | Due | Critical

  /** The `status` literal of a ride, a scheduled ride or a projected scheduled ride. */
  datatype Status = InProgress | Completed | Cancelled | Scheduled | Pending

  /** Traffic classification of a quoted route. */
  datatype Traffic = AllClear | Busy | MuchBusy

  /** The literal the source stores for each status. */
  function StatusText(st: Status): string
  {
    match st
    case InProgress => "In Progress"
    case Completed => "Completed"
    case Cancelled => "Cancelled"
    case Scheduled => "Scheduled"
    case Pending => "Pending"
  }

  /** A fleet vehicle. `capacity` is the number the stored capacity text denotes. */
  datatype Vehicle = Vehicle(
    id: int,
    name: string,
    driver: string,
    location: string,
    maintenance: Maintenance,
    vehicleType: VehicleType,
    capacity: int,
    status: VehicleStatus,
    ownerEmail: string)

  /** A quoted route. The distance is kept in tenths of a kilometre and the ETA in
      minutes: the numbers behind the "X.Y km" and "N min" display strings. */
  datatype Route = Route(
    id: int,
    name: string,
    traffic: Traffic,
    distanceTenths: int,
    eta: int,
    vehicleType: VehicleType,
    passengerCount: int)

  /** What the passenger confirms: the chosen route with its fare and ETA. */
  datatype RideDetails = RideDetails(pickup: string, drop: string, fare: int, eta: int, route: Route)

  /** A confirmed ride: the confirmed details plus what `startRide` adds to them. */
  datatype Ride = Ride(
    id: int,
    details: RideDetails,
    passenger: string,
    driver: string,
    vehicleId: int,
    status: Status,
    date: string)

  /** An advance booking. */
  datatype ScheduledRide = ScheduledRide(
    id: int,
    pickup: string,
    drop: string,
    date: string,
    time: string,
    vehicleType: VehicleType,
    passengerCount: int,
    passenger: string,
    status: Status)

  /** The `fare` field of a history entry: a number, or the literal 'N/A'. */
  datatype Fare = Amount(amount: int) | NotApplicable

  /** An entry of the owner's ride history: a ride, or a scheduled ride projected with
      driver 'Unassigned', fare 'N/A' and status 'Pending' over its own fields. */
  datatype Entry = RideEntry(ride: Ride) | ScheduledEntry(booking: ScheduledRide)
  {
    function Date(): string
    {
      match this
      case RideEntry(r) => r.date
      case ScheduledEntry(b) => b.date
    }

    /** Rides carry no `time` field; the empty string stands for its absence. */
    function Time(): string
    {
      match this
      case RideEntry(_) => ""
      case ScheduledEntry(b) => b.time
    }

    function Passenger(): string
    {
      match this
      case RideEntry(r) => r.passenger
      case ScheduledEntry(b) => b.passenger
    }

    function Driver(): string
    {
      match this
      case RideEntry(r) => r.driver
      case ScheduledEntry(_) => "Unassigned"
    }

    function Fare(): Fare
    {
      match this
      case RideEntry(r) => Amount(r.details.fare)
      case ScheduledEntry(_) => NotApplicable
    }

    function Status(): Status
    {
      match this
      case RideEntry(r) => r.status
      case ScheduledEntry(_) => Pending
    }
  }

  /** A vehicle can serve a request when it is idle, of the requested type and large enough. */
  predicate Eligible(v: Vehicle, vehicleType: VehicleType, passengerCount: int)
  {
    v.status == Idle && v.vehicleType == vehicleType && v.capacity >= passengerCount
  }

  /** Some vehicle of the fleet can serve the request. */
  predicate HasIdleMatch(vehicles: seq<Vehicle>, vehicleType: VehicleType, passengerCount: int)
  {
    exists i :: 0 <= i < |vehicles| && Eligible(vehicles[i], vehicleType, passengerCount)
  }

  /** Index of the first vehicle, in fleet order, that can serve the request
      (`vehicles.find(...)`). */
  function FirstEligible(vehicles: seq<Vehicle>, vehicleType: VehicleType, passengerCount: int): (r: Option<nat>)
    ensures r.Some? ==> r.value < |vehicles| && Eligible(vehicles[r.value], vehicleType, passengerCount)
    ensures r.Some? ==> forall j :: 0 <= j < r.value ==> !Eligible(vehicles[j], vehicleType, passengerCount)
    ensures r.None? <==> !HasIdleMatch(vehicles, vehicleType, passengerCount)
  {
    if |vehicles| == 0 then None
    else if Eligible(vehicles[0], vehicleType, passengerCount) then Some(0)
    else
      match FirstEligible(vehicles[1..], vehicleType, passengerCount)
      case None => None
      case Some(k) => Some(k + 1)
  }
}
