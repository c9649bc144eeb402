# NeurofleetX ride dispatch — a Dafny model

NeurofleetX is a ride-dispatch web application. Passengers quote routes and book
rides. The first idle vehicle that matches is reserved, and an auto-complete timer ends
the ride. Fleet owners manage their vehicles and see projections of the rides: owner
filters, a per-date analytics chart, a maintenance pie chart, and a ride history with a
CSV export. A small Spring backend registers users under unique emails.

The model covers four parts, one Dafny module per source file.

- **Dispatch state machine** (`App`, `ConfirmRidePage`, `TrackingPage`).
  - The React state is an immutable `App.State`: vehicles, rides, scheduled rides,
    `currentRide` and the page.
  - `currentRide` plays two roles in the source: the draft a passenger is about to
    confirm, and the ride being tracked. It is modelled as
    `Current = NoRide | Draft | Active`.
  - The auto-complete timer is an explicit step. `TrackingPage.Arm` records the
    `currentRide` the effect was set up for. The effect's cleanup clears the timer
    when `currentRide` changes and when the tracking page unmounts, so
    `TrackingPage.Fire` does nothing when `currentRide` has changed or the page is no
    longer 'tracking'.
  - `DispatchInvariant` runs every page action through `Step`. It proves that
    reachable states never book a vehicle twice, that every vehicle serving an
    in-progress ride is 'On Ride', and that 'On Ride' vehicles serve such a ride.
- **Quoting and booking** (`PassengerHomePage`).
  - The two `Math.random()` draws per route become parameters: the distance in
    tenths of a kilometre and an exact `real` jitter in [0, 2).
  - Fare and ETA are therefore exact integer and real arithmetic.
  - Suggested destinations are a fold, then a sort, then a prefix of three.
- **Fleet-owner projections** (`FleetOwnerDashboard`, `RideAnalyticsChart`,
  `MaintenancePieChart`, `RideHistory`).
  - These are pure functions over sequences.
  - Each `reduce` is a prefix-recursive fold. It is tied to an independent
    count-based reference definition by a lemma.
  - Sorting is one generic insertion sort (`Sorting.Sort`) under a total preorder.
- **Form validators** (`VehiclesManagement`, `AdvanceBooking`, `SignUpPage`,
  `LoginPage`) and the backend rule in `UserService`.
  - Browser constraint validation (`required`, `min`) is modelled separately as
    `BrowserAccepts`. It sits in front of the JavaScript handlers, so the handlers'
    own guards are shown exactly as written.
  - The user table is a map from email to user. The password encoder and the
    assigned id are parameters.

The shared modules are:

- `Wrappers`: `Option`/`Result`;
- `Seqs`: filter and sums;
- `Sorting`;
- `Text`: whitespace trimming, `parseInt`, integer rendering, join and split;
- `Ratios`: exact real-number facts.

Some behaviour of the code is easy to miss, and the model follows the code:

- The code reports no error when a busy vehicle is removed, when a finished ride is
  completed again, or when a booking is dated before today.
  - `removeVehicle` removes a vehicle that is on a ride.
  - `completeRide` does not look at the ride's prior status.
  - `handleScheduleRide` never compares the date with today. Only the date input's
    `min` attribute does, and `AdvanceBooking.HandlerAcceptsPastDate` shows it.
- `cancelRide` acts only on `currentRide`. Called with a draft, it touches no stored
  record, because a draft has no id and no vehicle.

## Model

| member | source | states |
|---|---|---|
| FleetModel.FirstEligible | frontend/src/App.js:181-185 | `vehicles.find`: the result is the first vehicle in fleet order that is idle, of the route's type and large enough; there is none exactly when no vehicle qualifies |
| App.AddVehicle | frontend/src/App.js:162-166 | exactly one vehicle is appended, with the submitted fields, the fresh id, status Idle and the signed-in owner's email; nothing else changes |
| App.AddScheduledRide | frontend/src/App.js:168-172 | exactly one booking is appended, with the submitted fields, the fresh id and status Scheduled; nothing else changes |
| App.RemoveVehicle | frontend/src/App.js:174-178 | keeps exactly the vehicles whose id differs, whatever their status, each as often as it occurred; afterwards no vehicle has that id; only the fleet changes |
| App.RemoveVehicleKeepsOrder | frontend/src/App.js:174-178 | `filter` keeps fleet order: appending a vehicle appends it to the result exactly when its id differs |
| App.StartRide | frontend/src/App.js:180-213 | with no eligible vehicle the state is unchanged; otherwise one in-progress ride is appended, carrying the details, the chosen vehicle's driver and id and today's date; only vehicles with the chosen id become 'On Ride'; the ride becomes tracked and the page becomes 'tracking' |
| App.CompleteRide | frontend/src/App.js:215-230 | `null` is a no-op; otherwise the ride with that id becomes Completed and the vehicle with its vehicle id becomes Idle, whatever their prior status; every other record is kept; the tracked ride is forgotten only when its id matches |
| App.CancelRide | frontend/src/App.js:232-246 | with no current ride it is a no-op; a draft is dropped without touching any record; a tracked ride becomes Cancelled and its vehicle Idle; the page becomes 'passenger' |
| App.RemoveUndoesAdd | frontend/src/App.js:162-178 | removing a vehicle right after adding it under an unused id gives back the original state |
| App.StartRideChangesOnlyChosen | frontend/src/App.js:205-207 | with unique vehicle ids, exactly the chosen vehicle changes, to 'On Ride', and every other vehicle is kept |
| App.SecondStartFindsNoVehicle | frontend/src/App.js:181-190 | when a single vehicle could serve a request, a second identical request finds none and changes nothing |
| App.CancelIsIdempotent | frontend/src/App.js:232-233 | cancelling twice is the same as cancelling once |
| PassengerHomePage.MatchingAvailableIffIdleMatch | frontend/src/components/passenger/PassengerHomePage.js:26-30 | filtering the idle vehicles and then matching on type and capacity holds exactly when some vehicle is eligible |
| PassengerHomePage.DistanceTenths | frontend/src/components/passenger/PassengerHomePage.js:54 | `(2.0 + r*0.5).toFixed(1)`, for a draw r in [0,1), lies between 2.0 and 2.5 km (20 to 25 tenths) |
| PassengerHomePage.Eta | frontend/src/components/passenger/PassengerHomePage.js:48-55 | with jitter in [0,2), the ETA lies between the rounded base time and that plus two minutes |
| PassengerHomePage.RoundMonotone | frontend/src/components/passenger/PassengerHomePage.js:55 | `Math.round` is monotone |
| PassengerHomePage.RoundShift | frontend/src/components/passenger/PassengerHomePage.js:55 | `Math.round` commutes with adding a whole number |
| PassengerHomePage.Quote | frontend/src/components/passenger/PassengerHomePage.js:48-63 | three routes, with ids 1, 2 and 3 and traffic All Clear, Busy and Much Busy; each carries the requested type and count, a distance in [20,25] tenths and an ETA within its traffic band |
| PassengerHomePage.FindRoutes | frontend/src/components/passenger/PassengerHomePage.js:46-80 | every re-quote clears the selected route; with pickup and drop both set, there are three routes and the message tells whether a vehicle matches (both directions); otherwise the routes are cleared |
| PassengerHomePage.Fare | frontend/src/components/passenger/PassengerHomePage.js:143 | `Math.floor(km*5 + 5)` equals half the tenths, rounded down, plus 5 |
| PassengerHomePage.QuotedFareRange | frontend/src/components/passenger/PassengerHomePage.js:143 | every quoted route's fare is between 15 and 17 |
| PassengerHomePage.BookRide | frontend/src/components/passenger/PassengerHomePage.js:138-150 | does nothing unless pickup, drop, a selected route and a matching vehicle are all present; otherwise the draft carries the route, pickup, drop, fare and ETA, and the page becomes 'confirm'; nothing else changes |
| PassengerHomePage.SuggestionClick | frontend/src/components/passenger/PassengerHomePage.js:159-162 | the destination becomes the drop; "City Center" fills the pickup only when it is empty; no other field changes |
| PassengerHomePage.SuggestionEnablesQuote | frontend/src/components/passenger/PassengerHomePage.js:159-162 | after clicking a non-empty suggestion, quoting yields three routes |
| PassengerHomePage.DestinationCountsExact | frontend/src/components/passenger/PassengerHomePage.js:34-37 | the tally lists each non-empty drop once, with the number of rides to it; rides without a drop are ignored |
| PassengerHomePage.RankedDestinations | frontend/src/components/passenger/PassengerHomePage.js:38-39 | the ranked entries are still exact counts and are ordered by non-increasing count |
| PassengerHomePage.SuggestionsAreRankedPrefix | frontend/src/components/passenger/PassengerHomePage.js:40-41 | the suggestions are the first min(3, n) drops of the ranking |
| PassengerHomePage.SuggestedDestinationsAreTopThree | frontend/src/components/passenger/PassengerHomePage.js:33-43 | at most three distinct drops that really occur, in order of non-increasing ride count, with no omitted drop having more rides than a listed one |
| ConfirmRidePage.GateIffStartRideSucceeds | frontend/src/components/passenger/ConfirmRidePage.js:7-30 | Confirm is enabled exactly when `startRide` would append a ride; the notice shows exactly when `startRide` would change nothing |
| ConfirmRidePage.ViewOf | frontend/src/components/passenger/ConfirmRidePage.js:27-30 | the button is enabled exactly when the no-vehicle notice is hidden |
| ConfirmRidePage.ConfirmClick | frontend/src/components/passenger/ConfirmRidePage.js:30 | an enabled click passes the details unchanged to `startRide`, which records one ride with them and tracks it; a disabled button changes nothing |
| ConfirmRidePage.Back | frontend/src/components/passenger/ConfirmRidePage.js:31 | the page becomes 'passenger' and nothing else changes |
| TrackingPage.Fire | frontend/src/components/passenger/TrackingPage.js:9-18 | a timer that outlived its `currentRide`, or fires after the page stopped being 'tracking', has no effect; otherwise an in-progress tracked ride is completed, its vehicle becomes Idle, the page becomes 'passenger', and anything else is left alone |
| TrackingPage.TimerClearedByLeaving | frontend/src/components/passenger/TrackingPage.js:9-18 | after the tracking page is left, its timer changes nothing: the tracked ride, the rides and the vehicles stay as they were |
| TrackingPage.TimerClearedByCancel | frontend/src/components/passenger/TrackingPage.js:17 | a timer armed before a cancel changes nothing after it |
| TrackingPage.TimerCompletesOnce | frontend/src/components/passenger/TrackingPage.js:11-17 | the same timer firing twice has the effect of firing once |
| TrackingPage.VehicleForRide | frontend/src/components/passenger/TrackingPage.js:24 | `find` by id: the first vehicle whose id is the ride's vehicle id, or none exactly when no vehicle has it |
| TrackingPage.ViewOf | frontend/src/components/passenger/TrackingPage.js:20-36 | the placeholder shows exactly when nothing is tracked; otherwise the map gets the found vehicle or an empty list, and the label reads 'Vehicle details unavailable' when there is none |
| TrackingPage.GoHome | frontend/src/components/passenger/TrackingPage.js:21 | the placeholder button goes to 'passenger' and changes nothing else |
| TrackingPage.CancelClick | frontend/src/components/passenger/TrackingPage.js:43 | with no current ride nothing changes; a draft is dropped and the page returns to 'passenger' with every record kept; a tracked ride becomes Cancelled and its vehicle Idle, every other ride and vehicle is kept, bookings are kept, and the page returns to 'passenger' |
| DispatchInvariant.StartRideTakesFreeVehicle | frontend/src/App.js:181-185 | in a consistent state the vehicle `startRide` picks serves no in-progress ride |
| DispatchInvariant.StartRidePreserves | frontend/src/App.js:180-213 | `startRide` keeps the dispatch state consistent |
| DispatchInvariant.ReleasePreserves | frontend/src/App.js:215-246 | ending the tracked ride, by completion or by cancellation, keeps the state consistent |
| DispatchInvariant.AddVehiclePreserves | frontend/src/App.js:162-166 | adding a vehicle under a fresh id keeps the state consistent |
| DispatchInvariant.RemoveVehiclePreserves | frontend/src/App.js:174-178 | removing a vehicle, even one on a ride, keeps the state consistent |
| DispatchInvariant.TimerAfterLeavingKeepsRide | frontend/src/App.js:278-279 | navigating away from 'tracking' and then letting the armed timer run out leaves the tracked ride in progress and every ride and vehicle unchanged |
| DispatchInvariant.StepPreserves | frontend/src/App.js:162-246 | every page action with fresh ids keeps the state consistent |
| DispatchInvariant.RunPreserves | frontend/src/App.js:162-246 | any sequence of such actions keeps the state consistent |
| DispatchInvariant.ReachableStatesHaveNoDoubleBooking | frontend/src/App.js:19-23 | from the empty initial state, no two in-progress rides share a vehicle, and every vehicle serving one is 'On Ride' |
| FleetOwnerDashboard.OwnerVehicles | frontend/src/components/fleet/FleetOwnerDashboard.js:17 | exactly the vehicles whose owner email is the user's, each as often as in the fleet |
| FleetOwnerDashboard.OwnerVehiclesKeepOrder | frontend/src/components/fleet/FleetOwnerDashboard.js:17 | fleet order is kept: appending a vehicle appends it to the result exactly when the owner email matches |
| FleetOwnerDashboard.OwnerRides | frontend/src/components/fleet/FleetOwnerDashboard.js:18-19 | exactly the rides whose driver name is one of the owner's vehicles' drivers, each as often as in the ride list |
| FleetOwnerDashboard.OwnerRidesKeepOrder | frontend/src/components/fleet/FleetOwnerDashboard.js:18-19 | ride order is kept: appending a ride appends it to the result exactly when an owner vehicle's driver drives it |
| FleetOwnerDashboard.RideOfOwnerVehicleListed | frontend/src/components/fleet/FleetOwnerDashboard.js:18-19 | a ride driven by an owner vehicle's driver is listed, whatever vehicle id it records |
| FleetOwnerDashboard.RelevantScheduled | frontend/src/components/fleet/FleetOwnerDashboard.js:22-29 | a booking is projected exactly when some owner vehicle has its type and enough capacity; projections show driver 'Unassigned', fare 'N/A' and status 'Pending', and keep the booking's other fields, and each booking is projected as often as it occurs |
| FleetOwnerDashboard.RelevantScheduledKeepsOrder | frontend/src/components/fleet/FleetOwnerDashboard.js:22-29 | booking order is kept: appending a booking appends its projection exactly when some owner vehicle can serve it |
| FleetOwnerDashboard.RelevanceIgnoresStatus | frontend/src/components/fleet/FleetOwnerDashboard.js:23 | a vehicle's status does not affect whether a booking is projected |
| FleetOwnerDashboard.AllOwnerRides | frontend/src/components/fleet/FleetOwnerDashboard.js:31 | the owner's rides, in order, followed by the projected bookings |
| FleetOwnerDashboard.WithStatus | frontend/src/components/fleet/FleetOwnerDashboard.js:33-45 | exactly the rides with that status, each as often as in the input |
| FleetOwnerDashboard.WithStatusKeepsOrder | frontend/src/components/fleet/FleetOwnerDashboard.js:33-45 | input order is kept: appending a ride appends it to the result exactly when it has that status, and the count grows by one exactly then |
| FleetOwnerDashboard.ActivePlusCompletedBounded | frontend/src/components/fleet/FleetOwnerDashboard.js:33-45 | the active and completed counts add up to at most the number of owner rides |
| RideAnalyticsChart.DataByDateExact | frontend/src/components/fleet/RideAnalyticsChart.js:7-14 | each date appears once; its count is the number of completed rides on that date and its fare is the sum of their fares |
| RideAnalyticsChart.OnlyCompletedCount | frontend/src/components/fleet/RideAnalyticsChart.js:8 | the aggregation equals the aggregation of the completed rides alone |
| RideAnalyticsChart.DataByDateCountsAll | frontend/src/components/fleet/RideAnalyticsChart.js:7-14 | the per-date counts add up to the number of completed rides |
| RideAnalyticsChart.ChartData | frontend/src/components/fleet/RideAnalyticsChart.js:7-16 | after sorting, the entries are still exact, the dates are distinct and ascending, and the counts still add up to the number of completed rides |
| RideAnalyticsChart.Series | frontend/src/components/fleet/RideAnalyticsChart.js:19 | one value per date: the ride count or the fare, as `chartType` selects |
| RideAnalyticsChart.Labels | frontend/src/components/fleet/RideAnalyticsChart.js:18 | one label per date, in the same order |
| RideAnalyticsChart.MaxValue | frontend/src/components/fleet/RideAnalyticsChart.js:25 | at least 1 and at least every value; either 1 or one of the values |
| RideAnalyticsChart.ChartShownIffCompleted | frontend/src/components/fleet/RideAnalyticsChart.js:36 | the chart has data exactly when some ride is completed |
| RideAnalyticsChart.BarHeight | frontend/src/components/fleet/RideAnalyticsChart.js:43 | a value between 0 and the maximum gives a height between 0% and 100%, and the maximum gives exactly 100% |
| MaintenancePieChart.Tally | frontend/src/components/fleet/MaintenancePieChart.js:4-5 | the three counts add up to the number of vehicles |
| MaintenancePieChart.Bump | frontend/src/components/fleet/MaintenancePieChart.js:4 | a vehicle adds one to its own status's count and leaves the other counts alone |
| MaintenancePieChart.TallyExact | frontend/src/components/fleet/MaintenancePieChart.js:4 | each count is the number of vehicles with that status |
| MaintenancePieChart.ChartOf | frontend/src/components/fleet/MaintenancePieChart.js:6 | the placeholder shows exactly when the fleet is empty |
| MaintenancePieChart.LargeArcMatchesPercent | frontend/src/components/fleet/MaintenancePieChart.js:18 | the flag test `percent > 50` agrees with the count test 2n > total |
| MaintenancePieChart.SegmentsPartitionCircle | frontend/src/components/fleet/MaintenancePieChart.js:9-20 | the segments run from 0 to the total without gaps or overlaps; each spans its status's count; each non-zero status appears once, in the order Healthy, Due, Critical; a zero status has no segment; the large-arc flag is set exactly when a status holds more than half |
| MaintenancePieChart.AtMostOneLargeArc | frontend/src/components/fleet/MaintenancePieChart.js:18 | at most one segment takes the large arc |
| MaintenancePieChart.LegendCounts | frontend/src/components/fleet/MaintenancePieChart.js:30 | the legend lists every status in key order, with the number of vehicles in it |
| RideHistory.CsvRowRoundTrip | frontend/src/components/fleet/RideHistory.js:6 | when no field contains a comma, splitting a row at commas gives back date, passenger, driver, fare and status |
| RideHistory.CsvRoundTrip | frontend/src/components/fleet/RideHistory.js:5-7 | splitting the file at newlines gives the header, then one row per entry in input order, with no trailing newline; an empty list gives the header and an empty line |
| RideHistory.CommaInNameShiftsColumns | frontend/src/components/fleet/RideHistory.js:6 | an unquoted comma in a passenger name splits the row into six fields, shifting driver, fare and status one column right |
| RideHistory.CsvRowIsJoin | frontend/src/components/fleet/RideHistory.js:6 | a row is its five cells joined by ',' |
| RideHistory.Displayed | frontend/src/components/fleet/RideHistory.js:52-54 | the table shows a permutation of the entries, newest date first; the input sequence itself is not reordered |
| RideHistory.DateCell | frontend/src/components/fleet/RideHistory.js:57 | the date, followed by " at " and the time only when a time is present |
| RideHistory.FareCell | frontend/src/components/fleet/RideHistory.js:60 | 'N/A' verbatim, otherwise '$' followed by the fare |
| RideHistory.ColoursDistinguishStatuses | frontend/src/components/fleet/RideHistory.js:22-30 | gray is the colour only of a status outside the four cases (Scheduled); the four named statuses get four different colours |
| RideHistory.Table | frontend/src/components/fleet/RideHistory.js:52-63 | the rows are, one for one, the full rows (date, passenger, driver, fare, status text and colour) of a rearrangement of the entries that lists newer dates first |
| VehiclesManagement.MaintenanceFor | frontend/src/components/fleet/VehiclesManagement.js:15-24 | slider 0 gives Healthy, 2 gives Critical, and otherwise Due |
| VehiclesManagement.SliderRoundTrip | frontend/src/components/fleet/VehiclesManagement.js:15-19 | the slider position and the maintenance status determine each other |
| VehiclesManagement.HandleAddVehicle | frontend/src/components/fleet/VehiclesManagement.js:21-40 | a form with all four fields filled submits them as entered, with maintenance from the slider, and resets to blank; any other form leaves the form and the state unchanged |
| VehiclesManagement.SubmittedCapacityPositive | frontend/src/components/fleet/VehiclesManagement.js:64 | with the browser's `min="1"` in front, every added vehicle has capacity at least 1 |
| VehiclesManagement.RemoveClick | frontend/src/components/fleet/VehiclesManagement.js:91 | Remove is offered for every vehicle, whatever its status, and removes exactly the vehicles with that id, keeping every other vehicle as often as it occurred |
| VehiclesManagement.RemoveClickKeepsOrder | frontend/src/components/fleet/VehiclesManagement.js:91 | the remaining vehicles keep fleet order: appending a vehicle appends it to the result exactly when its id differs from the removed one |
| VehiclesManagement.RemoveUndoesSubmit | frontend/src/components/fleet/VehiclesManagement.js:91 | removing a just-added vehicle restores the state |
| AdvanceBooking.TodayStringIsIsoDate | frontend/src/components/passenger/AdvanceBooking.js:17-23 | YYYY-MM-DD: ten characters, dashes at 4 and 7, and digit fields whose values are the year, `getMonth()+1` and the day |
| AdvanceBooking.PassengerCountEntry | frontend/src/components/passenger/AdvanceBooking.js:73 | `parseInt(value) \|\| 1`: never zero; an unreadable entry gives 1; any other parsed value is kept |
| AdvanceBooking.PassengerCountRoundTrip | frontend/src/components/passenger/AdvanceBooking.js:73 | a non-zero count rendered into the field reads back as itself |
| AdvanceBooking.HandleScheduleRide | frontend/src/components/passenger/AdvanceBooking.js:25-45 | a form with pickup, drop, date and time all filled books one ride with those fields, the type, the count and the user's name; it clears the four fields, keeps type and count, and shows the message; any other form changes nothing |
| AdvanceBooking.SubmittedBookingIsValid | frontend/src/components/passenger/AdvanceBooking.js:60-73 | with the browser's constraints in front, a booked date is not before today and the count is at least 1 |
| AdvanceBooking.HandlerAcceptsPastDate | frontend/src/components/passenger/AdvanceBooking.js:27-60 | the handler itself books a date before today; only the `min` attribute refuses it |
| SignUpPage.Validate | frontend/src/components/auth/SignUpPage.js:15-23 | the blank check comes first, on trimmed fields; the length check on the untrimmed password comes only after it passes; otherwise the request carries exactly name, email, password and role |
| SignUpPage.HandleSignUp | frontend/src/components/auth/SignUpPage.js:13-35 | an invalid form shows its error and sends nothing; a valid one sends the request, shows the reply's message on failure and clears the error on success, ending with loading off |
| SignUpPage.SentIffValid | frontend/src/components/auth/SignUpPage.js:15-28 | `signup` is called exactly when no field is all whitespace and the password has at least 6 characters |
| SignUpPage.PaddedPasswordPasses | frontend/src/components/auth/SignUpPage.js:20 | a password of five spaces and one letter passes, since the length is counted before trimming |
| LoginPage.HandleLogin | frontend/src/components/auth/LoginPage.js:11-28 | `login` is called exactly when both fields are non-empty, with exactly those values; otherwise the missing-field error shows |
| LoginPage.WhitespacePasswordSent | frontend/src/components/auth/LoginPage.js:13 | a password of a single space is sent, as nothing is trimmed |
| LoginPage.SentRequestSettles | frontend/src/components/auth/LoginPage.js:23-27 | after a reply, loading is off, and an error shows exactly when the reply failed with a message |
| UserService.FindByEmail | backend/src/main/java/com/neurofleetx/backend/service/UserService.java:18-20 | finds a user exactly when the email is registered, and the user found is stored under that email |
| UserService.RegisterUser | backend/src/main/java/com/neurofleetx/backend/service/UserService.java:22-34 | fails with "Email is already taken!" exactly when the email exists, and then stores nothing; otherwise it saves name, email and role, the encoded password and the assigned id, and keeps the table keyed by email |
| UserService.FindAfterRegister | backend/src/main/java/com/neurofleetx/backend/service/UserService.java:18-33 | after registering, `findByEmail` finds the saved user, and other emails find what they found before |
| UserService.SecondRegistrationFails | backend/src/main/java/com/neurofleetx/backend/service/UserService.java:23-25 | registering the same email twice fails the second time and keeps the first user |
| UserService.InputIdIgnored | backend/src/main/java/com/neurofleetx/backend/service/UserService.java:27-30 | the input's id has no effect on the result |
| Text.TrimEmptyIffBlank | frontend/src/components/auth/SignUpPage.js:15 | `trim()` gives the empty string exactly when every character is whitespace |
| Text.ParseIntOfIntToString | frontend/src/components/passenger/AdvanceBooking.js:73 | `parseInt` reads back every integer as the number field renders it |

## Left out

- Browser I/O and the network. Not modelled:
  - localStorage reads and writes;
  - the `fetch` calls behind login, signup and token checks;
  - the authentication and data contexts' HTTP clients.
  The outcome of `login`/`signup` is an `AuthReply.Reply` parameter.
- The Gemini route-advice call, the map view, the navbar, the profile page and all JSX
  markup: external services and presentation.
- Real time:
  - the tracking timer's 20 seconds (the timer is an explicit `Fire` step);
  - the 5-second clearing of the booking success message.
- `Math.random`, `Date.now()` ids and `new Date()`: these are parameters (distance draw,
  jitter, fresh ids, today's date). Ids are required to be unused, as a millisecond
  clock makes them in practice.
- Floating point: distances, ETAs, percentages and bar heights use exact integers and
  reals. The pie chart's angles and SVG coordinates (trigonometry) are left out, and
  segments are kept as vehicle counts out of the total.
- Locale date labels (`toLocaleDateString`): the formatter is a function parameter of
  `RideAnalyticsChart.Labels`.
- `new Date(...)` ordering of dates: dates are ISO `YYYY-MM-DD` strings compared
  character by character, which is the same order. Malformed dates (NaN) are not
  modelled.
- RideHistory.Displayed: does not state that equal dates keep their input order (the
  stability of `Array.prototype.sort`); the sort used is an insertion sort.
- PassengerHomePage.DestinationCountsExact: counts a drop named like a member of
  `Object.prototype` ("constructor", "toString", "valueOf", "__proto__") like any other
  drop; the source's plain-object tally starts such keys from the inherited value
  (or ignores `__proto__`), which this model does not reproduce.
- PassengerHomePage.SuggestedDestinationsAreTopThree: rests on the same tally, so it
  does not hold for the source when a drop is named like an `Object.prototype` member.
- UserService.RegisterUser: treats the `existsByEmail` check and the `save` as one
  atomic step. The source takes no lock between them, so two concurrent registrations
  of one email are not modelled.
- PassengerHomePage.RankedDestinations: does not state how drops with equal counts are
  ordered. JavaScript orders object keys that look like integers first, which this
  model does not reproduce.
- CSV download mechanics (Blob, hidden anchor, click) and `window.print`. The CSV file
  is modelled as the string that would be downloaded. Fields are not quoted, as in the
  code.
- Vehicle capacity is stored as the raw input string and compared with `>=` coercion.
  It is modelled as the integer the string denotes.
- Strings are sequences of Unicode code points. UTF-16 lengths (`password.length`)
  differ only for characters outside the Basic Multilingual Plane.
- Text.ParseInt: reads an optional sign and decimal digits after leading whitespace. It
  leaves out `parseInt`'s hexadecimal `0x` prefix, which a number input never yields.
- Enumerations (vehicle type, status, maintenance) are Dafny datatypes. The source's
  string fields only ever receive these literals, from selects, sliders and code.
- `renderPage` and the navbar's page switching are presentation. Only the page each
  operation sets is modelled (`DispatchInvariant.Step` also allows any navigation).
- The browser's `required` and `type="email"` checks on the login and signup forms are
  not modelled. The handlers are modelled as written, and their own checks cover
  emptiness.
- The registration controller, JWT plumbing and the JPA repository are left out.
  `UserRepository` is a map from email to user.
