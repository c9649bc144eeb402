/** The fleet-management form: the maintenance slider, the add-vehicle handler with
    the browser's `required`/`min` checks in front of it, and the per-vehicle remove
    button. */
module VehiclesManagement {
  import opened Wrappers
  import opened FleetModel
  import App

  /** The slider's positions: `min="0" max="2" step="1"`. */
  type Slider = x: int | 0 <= x <= 2

  /** `statusMap[slider].name`. */
  function MaintenanceFor(slider: Slider): (m: Maintenance)
    ensures slider == 0 <==> m == Healthy
    ensures slider == 2 <==> m == Critical
  {
    if slider == 0 then Healthy else if slider == 1 then Due else Critical
  }

  /** The slider position showing a status: the inverse of `MaintenanceFor`. */
  function SliderFor(m: Maintenance): Slider
  {
    match m
    case Healthy => 0
    case Due => 1
    case Critical => 2
  }

  lemma SliderRoundTrip(slider: Slider, m: Maintenance)
    ensures SliderFor(MaintenanceFor(slider)) == slider
    ensures MaintenanceFor(SliderFor(m)) == m
  {
  }

  /** The form's fields. A number input holds either nothing or a number. */
  datatype Form = Form(
    name: string,
    driver: string,
    location: string,
    slider: Slider,
    vehicleType: VehicleType,
    capacity: Option<int>)

  /** The form as the page first shows it, and as a successful submission leaves it. */
  const Blank := Form("", "", "", 0, Normal, None)

  /** The handler's guard: all four text fields filled. */
  predicate Filled(f: Form)
  {
    f.name != "" && f.driver != "" && f.location != "" && f.capacity.Some?
  }

  /** `handleAddVehicle`: a filled form is submitted exactly as entered (maintenance
      from the slider) and reset; any other form changes nothing. */
  function HandleAddVehicle(f: Form, s: App.State, id: int, ownerEmail: string): (r: (Form, App.State))
    ensures Filled(f) ==> r.0 == Blank
    ensures Filled(f) ==> |r.1.vehicles| == |s.vehicles| + 1 && r.1.vehicles[..|s.vehicles|] == s.vehicles
    ensures Filled(f) ==> var v := r.1.vehicles[|s.vehicles|];
      && v.name == f.name && v.driver == f.driver && v.location == f.location
      && v.maintenance == MaintenanceFor(f.slider) && v.vehicleType == f.vehicleType
      && v.capacity == f.capacity.value && v.status == Idle && v.ownerEmail == ownerEmail && v.id == id
    ensures !Filled(f) ==> r == (f, s)
    ensures r.1.(vehicles := s.vehicles) == s
  {
    if Filled(f) then
      var data := App.VehicleData(f.name, f.driver, f.location, MaintenanceFor(f.slider), f.vehicleType, f.capacity.value);
      (Blank, App.AddVehicle(s, data, id, ownerEmail))
    else (f, s)
  }

  /** The browser's constraint validation: every `required` field filled and the
      capacity at least `min="1"`; a form that fails it never reaches the handler. */
  predicate BrowserAccepts(f: Form)
  {
    Filled(f) && f.capacity.value >= 1
  }

  function Submit(f: Form, s: App.State, id: int, ownerEmail: string): (r: (Form, App.State))
    ensures BrowserAccepts(f) ==> r == HandleAddVehicle(f, s, id, ownerEmail)
    ensures !BrowserAccepts(f) ==> r == (f, s)
  {
    if BrowserAccepts(f) then HandleAddVehicle(f, s, id, ownerEmail) else (f, s)
  }

  /** Every vehicle added through the page seats at least one passenger. */
  lemma SubmittedCapacityPositive(f: Form, s: App.State, id: int, ownerEmail: string)
    ensures var r := Submit(f, s, id, ownerEmail);
      |r.1.vehicles| > |s.vehicles| ==> r.1.vehicles[|s.vehicles|].capacity >= 1
  {
  }

  /** The remove button of a listed vehicle: `removeVehicle(v.id)`. */
  function RemoveClick(s: App.State, v: Vehicle): (r: App.State)
    ensures forall w :: w in r.vehicles <==> w in s.vehicles && w.id != v.id
    ensures forall w :: multiset(r.vehicles)[w] == if w.id != v.id then multiset(s.vehicles)[w] else 0
    ensures r.(vehicles := s.vehicles) == s
  {
    App.RemoveVehicle(s, v.id)
  }

  /** The remaining vehicles keep their fleet order. */
  lemma RemoveClickKeepsOrder(s: App.State, w: Vehicle, v: Vehicle)
    ensures RemoveClick(s.(vehicles := s.vehicles + [w]), v).vehicles
      == RemoveClick(s, v).vehicles + (if w.id != v.id then [w] else [])
  {
    App.RemoveVehicleKeepsOrder(s, w, v.id);
  }

  /** Removing a vehicle just added through the form restores the fleet. */
  lemma RemoveUndoesSubmit(f: Form, s: App.State, id: int, ownerEmail: string)
    requires BrowserAccepts(f) && !App.HasVehicleId(s.vehicles, id)
    ensures var r := Submit(f, s, id, ownerEmail);
      RemoveClick(r.1, r.1.vehicles[|s.vehicles|]) == s
  {
    var data := App.VehicleData(f.name, f.driver, f.location, MaintenanceFor(f.slider), f.vehicleType, f.capacity.value);
    App.RemoveUndoesAdd(s, data, id, ownerEmail);
  }
}
