/** The passenger's booking page: route quotes with injected randomness, the
    availability check, booking, and the suggested-destination ranking. */
module PassengerHomePage {
  import opened Wrappers
  import opened FleetModel
  import App
  import Seqs
  import Sorting

  /** The two `Math.random()` draws made for one route: `spread` scales the distance
      and `jitter` is the already doubled ETA noise. */
  datatype Draw = Draw(spread: real, jitter: real)

  predicate ValidDraw(d: Draw)
  {
    0.0 <= d.spread < 1.0 && 0.0 <= d.jitter < 2.0
  }

  /** The page's own state. */
  datatype Home = Home(
    pickup: string,
    drop: string,
    routes: seq<Route>,
    selected: Option<Route>,
    message: string,
    vehicleType: VehicleType,
    passengerCount: int)

  /** `Math.round`: the nearest integer, halves rounded up. */
  function Round(x: real): int
  {
    (x + 0.5).Floor
  }

  lemma RoundMonotone(x: real, y: real)
    requires x <= y
    ensures Round(x) <= Round(y)
  {
  }

  lemma RoundShift(x: real, n: int)
    ensures Round(x + n as real) == Round(x) + n
  {
    assert x + n as real + 0.5 == (x + 0.5) + n as real;
  }

  /** `(2.0 + spread * 0.5).toFixed(1)` in tenths of a kilometre; `toFixed` picks the
      nearer tenth and the larger one on a tie. */
  function DistanceTenths(spread: real): (t: int)
    requires 0.0 <= spread < 1.0
    ensures 20 <= t <= 25
  {
    Round(20.0 + 5.0 * spread)
  }

  function TrafficFactor(t: Traffic): real
  {
    match t
    case AllClear => 1.0
    case Busy => 1.5
    case MuchBusy => 2.0
  }

  /** The ETA without jitter: distance in km, times 5, times the traffic factor. */
  function BaseMinutes(tenths: int, t: Traffic): real
  {
    (tenths as real / 10.0) * 5.0 * TrafficFactor(t)
  }

  /** `Math.round(distance * 5 * factor + jitter)`: at most two minutes above the rounded base. */
  function Eta(tenths: int, t: Traffic, jitter: real): (eta: int)
    requires 0.0 <= jitter < 2.0
    ensures Round(BaseMinutes(tenths, t)) <= eta <= Round(BaseMinutes(tenths, t)) + 2
  {
    var base := BaseMinutes(tenths, t);
    RoundMonotone(base, base + jitter);
    RoundMonotone(base + jitter, base + 2 as real);
    RoundShift(base, 2);
    Round(base + jitter)
  }

  /** The three fixed route templates: id, name and traffic class. */
  function Template(i: nat): (int, string, Traffic)
    requires i < 3
  {
    [(1, "Main St Route", AllClear), (2, "Highway Route", Busy), (3, "City Bypass", MuchBusy)][i]
  }

  /** One quoted route built from its template and its draws. */
  function QuoteRoute(i: nat, vehicleType: VehicleType, passengerCount: int, d: Draw): Route
    requires i < 3 && ValidDraw(d)
  {
    var (id, name, traffic) := Template(i);
    var tenths := DistanceTenths(d.spread);
    Route(id, name, traffic, tenths, Eta(tenths, traffic, d.jitter), vehicleType, passengerCount)
  }

  /** The three candidate routes of one request. */
  function Quote(vehicleType: VehicleType, passengerCount: int, draws: seq<Draw>): (routes: seq<Route>)
    requires |draws| == 3 && forall i :: 0 <= i < 3 ==> ValidDraw(draws[i])
    ensures |routes| == 3
    ensures routes[0].id == 1 && routes[0].traffic == AllClear
    ensures routes[1].id == 2 && routes[1].traffic == Busy
    ensures routes[2].id == 3 && routes[2].traffic == MuchBusy
    ensures forall i :: 0 <= i < 3 ==>
      && routes[i].vehicleType == vehicleType && routes[i].passengerCount == passengerCount
      && 20 <= routes[i].distanceTenths <= 25
      && Round(BaseMinutes(routes[i].distanceTenths, routes[i].traffic)) <= routes[i].eta
      && routes[i].eta <= Round(BaseMinutes(routes[i].distanceTenths, routes[i].traffic)) + 2
  {
    seq(3, i requires 0 <= i < 3 => QuoteRoute(i, vehicleType, passengerCount, draws[i]))
  }

  /** `availableVehicles`: the idle vehicles, in fleet order. */
  function AvailableVehicles(vehicles: seq<Vehicle>): seq<Vehicle>
  {
    Seqs.Filter(vehicles, (v: Vehicle) => v.status == Idle)
  }

  /** `isMatchingVehicleAvailable`: some available vehicle has the type and the room. */
  predicate IsMatchingVehicleAvailable(vehicles: seq<Vehicle>, vehicleType: VehicleType, passengerCount: int)
  {
    var available := AvailableVehicles(vehicles);
    exists i :: 0 <= i < |available| && available[i].vehicleType == vehicleType
      && available[i].capacity >= passengerCount
  }

  /** The page's check is the matcher's: some vehicle is idle, of the type, and large enough. */
  lemma MatchingAvailableIffIdleMatch(vehicles: seq<Vehicle>, vehicleType: VehicleType, passengerCount: int)
    ensures IsMatchingVehicleAvailable(vehicles, vehicleType, passengerCount)
        <==> HasIdleMatch(vehicles, vehicleType, passengerCount)
  {
    var available := AvailableVehicles(vehicles);
    if HasIdleMatch(vehicles, vehicleType, passengerCount) {
      var i :| 0 <= i < |vehicles| && Eligible(vehicles[i], vehicleType, passengerCount);
      assert vehicles[i] in available;
    }
    if IsMatchingVehicleAvailable(vehicles, vehicleType, passengerCount) {
      var i :| 0 <= i < |available| && available[i].vehicleType == vehicleType
        && available[i].capacity >= passengerCount;
      assert available[i] in vehicles;
    }
  }

  const SelectRouteMessage := "Please select a route to book."
  const NoMatchMessage := "No vehicles match your criteria. See available vehicles below."

  /** `handleFindRoutes`, re-run whenever pickup, drop, fleet, type or count changes. */
  function FindRoutes(h: Home, vehicles: seq<Vehicle>, draws: seq<Draw>): (r: Home)
    requires |draws| == 3 && forall i :: 0 <= i < 3 ==> ValidDraw(draws[i])
    ensures r.selected == None
    ensures r.pickup == h.pickup && r.drop == h.drop
    ensures r.vehicleType == h.vehicleType && r.passengerCount == h.passengerCount
    ensures (h.pickup == "" || h.drop == "") ==> r.routes == [] && r.message == h.message
    ensures h.pickup != "" && h.drop != "" ==>
      && |r.routes| == 3
      && (forall i :: 0 <= i < 3 ==>
            (r.routes[i].id == i + 1
             && r.routes[i].vehicleType == h.vehicleType && r.routes[i].passengerCount == h.passengerCount))
      && (r.message == SelectRouteMessage <==> HasIdleMatch(vehicles, h.vehicleType, h.passengerCount))
      && (r.message == NoMatchMessage <==> !HasIdleMatch(vehicles, h.vehicleType, h.passengerCount))
  {
    MatchingAvailableIffIdleMatch(vehicles, h.vehicleType, h.passengerCount);
    if h.pickup != "" && h.drop != "" then
      h.(routes := Quote(h.vehicleType, h.passengerCount, draws),
         message := if IsMatchingVehicleAvailable(vehicles, h.vehicleType, h.passengerCount)
                    then SelectRouteMessage else NoMatchMessage,
         selected := None)
    else
      h.(routes := [], selected := None)
  }

  /** `Math.floor(parseFloat(distance) * 5 + 5)` with the distance in tenths. */
  function Fare(tenths: int): (fare: int)
    ensures fare == tenths / 2 + 5
  {
    (tenths * 5 + 50) / 10
  }

  /** Every quoted route costs between 15 and 17, whatever its traffic class. */
  lemma QuotedFareRange(routes: seq<Route>, vehicleType: VehicleType, passengerCount: int, draws: seq<Draw>, i: int)
    requires |draws| == 3 && forall k :: 0 <= k < 3 ==> ValidDraw(draws[k])
    requires routes == Quote(vehicleType, passengerCount, draws) && 0 <= i < 3
    ensures 15 <= Fare(routes[i].distanceTenths) <= 17
  {
  }

  /** The booking guard of `handleBookRide`. */
  predicate CanBook(h: Home, vehicles: seq<Vehicle>)
  {
    h.pickup != "" && h.drop != "" && h.selected.Some?
    && IsMatchingVehicleAvailable(vehicles, h.vehicleType, h.passengerCount)
  }

  /** `handleBookRide`: with the guard met, the chosen route becomes the draft ride
      (fare from its distance, ETA from its time) and the confirm page opens. */
  function BookRide(s: App.State, h: Home): (r: App.State)
    ensures !CanBook(h, s.vehicles) ==> r == s
    ensures CanBook(h, s.vehicles) ==>
      && r.page == App.Confirm && r.current.Draft?
      && var d := r.current.details;
      && d.route == h.selected.value && d.pickup == h.pickup && d.drop == h.drop
      && d.fare == h.selected.value.distanceTenths / 2 + 5 && d.eta == h.selected.value.eta
      && r.(current := s.current, page := s.page) == s
  {
    if CanBook(h, s.vehicles) then
      var route := h.selected.value;
      var d := RideDetails(h.pickup, h.drop, Fare(route.distanceTenths), route.eta, route);
      s.(current := App.Draft(d), page := App.Confirm)
    else s
  }

  /** `handleSuggestionClick`: the destination becomes the drop; an empty pickup
      becomes "City Center", any other pickup is kept. */
  function SuggestionClick(h: Home, destination: string): (r: Home)
    ensures r.drop == destination
    ensures h.pickup != "" ==> r.pickup == h.pickup
    ensures h.pickup == "" ==> r.pickup == "City Center"
    ensures r.(pickup := h.pickup, drop := h.drop) == h
  {
    h.(drop := destination, pickup := if h.pickup == "" then "City Center" else h.pickup)
  }

  /** After clicking a non-empty suggestion the page can quote routes. */
  lemma SuggestionEnablesQuote(h: Home, destination: string, vehicles: seq<Vehicle>, draws: seq<Draw>)
    requires destination != ""
    requires |draws| == 3 && forall i :: 0 <= i < 3 ==> ValidDraw(draws[i])
    ensures |FindRoutes(SuggestionClick(h, destination), vehicles, draws).routes| == 3
  {
  }

  // ---- Suggested destinations ----

  /** Number of rides whose drop is `d`. */
  function Occurrences(rides: seq<Ride>, d: string): nat
  {
    if |rides| == 0 then 0
    else Occurrences(rides[..|rides| - 1], d) + (if rides[|rides| - 1].details.drop == d then 1 else 0)
  }

  /** One step of the `reduce`: counts a non-empty drop, adding it at the end when new. */
  function Tally(acc: seq<(string, nat)>, d: string): seq<(string, nat)>
  {
    if d == "" then acc
    else if exists i :: 0 <= i < |acc| && acc[i].0 == d then
      seq(|acc|, i requires 0 <= i < |acc| => if acc[i].0 == d then (d, acc[i].1 + 1) else acc[i])
    else acc + [(d, 1)]
  }

  /** The drop counts as an association list; this model lists drops in order of first appearance. */
  function DestinationCounts(rides: seq<Ride>): seq<(string, nat)>
  {
    if |rides| == 0 then []
    else Tally(DestinationCounts(rides[..|rides| - 1]), rides[|rides| - 1].details.drop)
  }

  function EntryKey(e: (string, nat)): string
  {
    e.0
  }

  predicate HasKey(counts: seq<(string, nat)>, d: string)
  {
    exists i :: 0 <= i < |counts| && counts[i].0 == d
  }

  /** The counts are exact: each drop with rides appears once, paired with its number of rides. */
  ghost predicate CountsExact(counts: seq<(string, nat)>, rides: seq<Ride>)
  {
    && Seqs.DistinctKeys(counts, EntryKey)
    && (forall i :: 0 <= i < |counts| ==>
          counts[i].0 != "" && counts[i].1 > 0 && counts[i].1 == Occurrences(rides, counts[i].0))
    && (forall d :: d != "" && Occurrences(rides, d) > 0 ==> HasKey(counts, d))
  }

  lemma OccurrencesStep(rides: seq<Ride>, e: string)
    requires |rides| > 0
    ensures Occurrences(rides, e) ==
      Occurrences(rides[..|rides| - 1], e) + (if rides[|rides| - 1].details.drop == e then 1 else 0)
  {
  }

  /** Counting an empty drop changes nothing. */
  lemma TallyEmptyExact(acc: seq<(string, nat)>, rides: seq<Ride>)
    requires |rides| > 0 && rides[|rides| - 1].details.drop == ""
    requires CountsExact(acc, rides[..|rides| - 1])
    ensures CountsExact(Tally(acc, ""), rides)
  {
    forall e ensures Occurrences(rides, e) == Occurrences(rides[..|rides| - 1], e) + (if e == "" then 1 else 0) {
      OccurrencesStep(rides, e);
    }
  }

  /** Counting a drop already listed increments its entry. */
  lemma TallyKnownExact(acc: seq<(string, nat)>, rides: seq<Ride>)
    requires |rides| > 0
    requires rides[|rides| - 1].details.drop != "" && HasKey(acc, rides[|rides| - 1].details.drop)
    requires CountsExact(acc, rides[..|rides| - 1])
    ensures CountsExact(Tally(acc, rides[|rides| - 1].details.drop), rides)
  {
    var d := rides[|rides| - 1].details.drop;
    var counts := Tally(acc, d);
    forall e ensures Occurrences(rides, e) == Occurrences(rides[..|rides| - 1], e) + (if e == d then 1 else 0) {
      OccurrencesStep(rides, e);
    }
    assert |counts| == |acc|;
    assert forall i :: 0 <= i < |acc| ==> EntryKey(counts[i]) == EntryKey(acc[i]);
    forall e | HasKey(acc, e)
      ensures HasKey(counts, e)
    {
      var i :| 0 <= i < |acc| && acc[i].0 == e;
      assert counts[i].0 == e;
    }
  }

  /** Counting a new drop appends it with one ride. */
  lemma TallyNewExact(acc: seq<(string, nat)>, rides: seq<Ride>)
    requires |rides| > 0
    requires rides[|rides| - 1].details.drop != "" && !HasKey(acc, rides[|rides| - 1].details.drop)
    requires CountsExact(acc, rides[..|rides| - 1])
    ensures CountsExact(Tally(acc, rides[|rides| - 1].details.drop), rides)
  {
    var d := rides[|rides| - 1].details.drop;
    var counts := Tally(acc, d);
    forall e ensures Occurrences(rides, e) == Occurrences(rides[..|rides| - 1], e) + (if e == d then 1 else 0) {
      OccurrencesStep(rides, e);
    }
    assert counts == acc + [(d, 1)];
    forall e | HasKey(acc, e)
      ensures HasKey(counts, e)
    {
      var i :| 0 <= i < |acc| && acc[i].0 == e;
      assert counts[i].0 == e;
    }
    assert HasKey(counts, d) by {
      assert counts[|acc|].0 == d;
    }
  }

  lemma {:induction false} DestinationCountsExact(rides: seq<Ride>)
    ensures CountsExact(DestinationCounts(rides), rides)
  {
    if |rides| > 0 {
      var prefix := rides[..|rides| - 1];
      var d := rides[|rides| - 1].details.drop;
      var acc := DestinationCounts(prefix);
      DestinationCountsExact(prefix);
      if d == "" {
        TallyEmptyExact(acc, rides);
      } else if HasKey(acc, d) {
        TallyKnownExact(acc, rides);
      } else {
        TallyNewExact(acc, rides);
      }
    }
  }

  /** Reordering exact counts keeps them exact. */
  lemma PermutationKeepsExact(a: seq<(string, nat)>, b: seq<(string, nat)>, rides: seq<Ride>)
    requires multiset(a) == multiset(b)
    requires CountsExact(a, rides)
    ensures CountsExact(b, rides)
  {
    Seqs.PermutationKeepsDistinctKeys(a, b, EntryKey);
    forall i | 0 <= i < |b|
      ensures b[i].0 != "" && b[i].1 > 0 && b[i].1 == Occurrences(rides, b[i].0)
    {
      assert b[i] in multiset(a);
    }
    forall d | d != "" && Occurrences(rides, d) > 0
      ensures HasKey(b, d)
    {
      var i :| 0 <= i < |a| && a[i].0 == d;
      assert a[i] in multiset(b);
    }
  }

  /** Ranking order: larger counts first. */
  function MoreRides(a: (string, nat), b: (string, nat)): bool
  {
    a.1 >= b.1
  }

  lemma MoreRidesIsTotalPreorder()
    ensures Sorting.IsTotalPreorder(MoreRides)
  {
  }

  /** At most the first three of a ranked list, as `slice(0, 3)` takes them. */
  function FirstThree<T>(s: seq<T>): (r: seq<T>)
    ensures |r| == if |s| < 3 then |s| else 3
    ensures r == s[..|r|]
  {
    if |s| < 3 then s else s[..3]
  }

  /** The drop counts ranked by non-increasing count; in this model ties keep the association list's order. */
  function RankedDestinations(rides: seq<Ride>): (ranked: seq<(string, nat)>)
    ensures CountsExact(ranked, rides)
    ensures Sorting.SortedBy(ranked, MoreRides)
  {
    MoreRidesIsTotalPreorder();
    var counts := DestinationCounts(rides);
    DestinationCountsExact(rides);
    var sorted := Sorting.Sort(counts, MoreRides);
    PermutationKeepsExact(counts, sorted, rides);
    sorted
  }

  /** `suggestedDestinations`: the drops with the most rides, at most three of them. */
  function SuggestedDestinations(rides: seq<Ride>): seq<string>
  {
    var top := FirstThree(RankedDestinations(rides));
    seq(|top|, i requires 0 <= i < |top| => top[i].0)
  }

  /** The suggestions read off the ranking: the first (at most three) drops. */
  lemma SuggestionsAreRankedPrefix(rides: seq<Ride>)
    ensures var ranked := RankedDestinations(rides);
      var r := SuggestedDestinations(rides);
      && |r| <= 3 && |r| <= |ranked| && (|r| < 3 ==> |r| == |ranked|)
      && forall i :: 0 <= i < |r| ==> r[i] == ranked[i].0
  {
  }

  /** Distinct non-empty drops, each with rides. */
  ghost predicate DistinctDrops(r: seq<string>, rides: seq<Ride>)
  {
    && (forall i, j :: 0 <= i < j < |r| ==> r[i] != r[j])
    && (forall i :: 0 <= i < |r| ==> r[i] != "" && Occurrences(rides, r[i]) > 0)
  }

  /** Ordered by non-increasing ride count. */
  ghost predicate MostRidesFirst(r: seq<string>, rides: seq<Ride>)
  {
    forall i, j :: 0 <= i < j < |r| ==> Occurrences(rides, r[i]) >= Occurrences(rides, r[j])
  }

  /** A drop with rides is left out only when three suggestions are shown, each with at
      least as many rides as it. */
  ghost predicate NoneBetterLeftOut(r: seq<string>, rides: seq<Ride>)
  {
    forall d :: d != "" && Occurrences(rides, d) > 0 && d !in r ==>
      |r| == 3 && forall i :: 0 <= i < 3 ==> Occurrences(rides, r[i]) >= Occurrences(rides, d)
  }

  lemma SuggestionsDistinct(rides: seq<Ride>)
    ensures DistinctDrops(SuggestedDestinations(rides), rides)
  {
    var ranked := RankedDestinations(rides);
    var r := SuggestedDestinations(rides);
    SuggestionsAreRankedPrefix(rides);
    forall i, j | 0 <= i < j < |r|
      ensures r[i] != r[j]
    {
      assert EntryKey(ranked[i]) != EntryKey(ranked[j]);
    }
  }

  lemma SuggestionsOrdered(rides: seq<Ride>)
    ensures MostRidesFirst(SuggestedDestinations(rides), rides)
  {
    var ranked := RankedDestinations(rides);
    var r := SuggestedDestinations(rides);
    SuggestionsAreRankedPrefix(rides);
    forall i, j | 0 <= i < j < |r|
      ensures Occurrences(rides, r[i]) >= Occurrences(rides, r[j])
    {
      assert MoreRides(ranked[i], ranked[j]);
    }
  }

  lemma SuggestionsLeaveOutNoBetter(rides: seq<Ride>)
    ensures NoneBetterLeftOut(SuggestedDestinations(rides), rides)
  {
    var ranked := RankedDestinations(rides);
    var r := SuggestedDestinations(rides);
    SuggestionsAreRankedPrefix(rides);
    forall d | d != "" && Occurrences(rides, d) > 0 && d !in r
      ensures |r| == 3 && forall i :: 0 <= i < 3 ==> Occurrences(rides, r[i]) >= Occurrences(rides, d)
    {
      var q :| 0 <= q < |ranked| && ranked[q].0 == d;
      assert q >= |r|;
      forall i | 0 <= i < 3
        ensures Occurrences(rides, r[i]) >= Occurrences(rides, d)
      {
        assert MoreRides(ranked[i], ranked[q]);
      }
    }
  }

  /** The suggestions are at most three distinct non-empty drops, ordered by
      non-increasing ride count; a drop with rides is left out only when three
      suggestions are shown, each with at least as many rides as it. */
  lemma SuggestedDestinationsAreTopThree(rides: seq<Ride>)
    ensures var r := SuggestedDestinations(rides);
      |r| <= 3 && DistinctDrops(r, rides) && MostRidesFirst(r, rides) && NoneBetterLeftOut(r, rides)
  {
    SuggestionsAreRankedPrefix(rides);
    SuggestionsDistinct(rides);
    SuggestionsOrdered(rides);
    SuggestionsLeaveOutNoBetter(rides);
  }
}
