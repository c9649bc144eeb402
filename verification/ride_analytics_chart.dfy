/** The owner's ride analytics: completed rides grouped by date, with their number and
    total fare, listed in chronological order and drawn as bars scaled to the largest value. */
module RideAnalyticsChart {
  import opened FleetModel
  import Seqs
  import Sorting
  import Text
  import Ratios

  /** The accumulator entry of one date. */
  datatype DayStats = DayStats(date: string, rides: nat, fare: int)

  function DateOf(d: DayStats): string
  {
    d.date
  }

  function RidesOf(d: DayStats): int
  {
    d.rides
  }

  function FareOf(d: DayStats): int
  {
    d.fare
  }

  predicate IsCompleted(x: Ride)
  {
    x.status == Completed
  }

  /** The number of completed rides dated `date`. */
  function CountOn(rides: seq<Ride>, date: string): nat
  {
    if |rides| == 0 then 0
    else
      var last := rides[|rides| - 1];
      CountOn(rides[..|rides| - 1], date) + (if last.status == Completed && last.date == date then 1 else 0)
  }

  /** The total fare of the completed rides dated `date`. */
  function FareOn(rides: seq<Ride>, date: string): int
  {
    if |rides| == 0 then 0
    else
      var last := rides[|rides| - 1];
      FareOn(rides[..|rides| - 1], date) + (if last.status == Completed && last.date == date then last.details.fare else 0)
  }

  predicate HasDate(stats: seq<DayStats>, date: string)
  {
    exists i :: 0 <= i < |stats| && stats[i].date == date
  }

  /** One step of the `reduce`: a completed ride adds one ride and its fare to its date,
      which is appended when new; any other ride leaves the accumulator alone. */
  function AddRide(acc: seq<DayStats>, x: Ride): seq<DayStats>
  {
    if x.status != Completed then acc
    else if HasDate(acc, x.date) then
      seq(|acc|, i requires 0 <= i < |acc| =>
        if acc[i].date == x.date then DayStats(x.date, acc[i].rides + 1, acc[i].fare + x.details.fare) else acc[i])
    else acc + [DayStats(x.date, 1, x.details.fare)]
  }

  /** `dataByDate`, its dates in order of first appearance. */
  function DataByDate(rides: seq<Ride>): seq<DayStats>
  {
    if |rides| == 0 then []
    else AddRide(DataByDate(rides[..|rides| - 1]), rides[|rides| - 1])
  }

  /** Each date with completed rides appears once, with their number and fare total. */
  ghost predicate StatsExact(stats: seq<DayStats>, rides: seq<Ride>)
  {
    && Seqs.DistinctKeys(stats, DateOf)
    && (forall i :: 0 <= i < |stats| ==> EntryExact(stats[i], rides))
    && (forall date :: CountOn(rides, date) > 0 ==> HasDate(stats, date))
  }

  ghost predicate EntryExact(d: DayStats, rides: seq<Ride>)
  {
    d.rides > 0 && d.rides == CountOn(rides, d.date) && d.fare == FareOn(rides, d.date)
  }

  /** Adding the last ride leaves every other date's figures as they were. */
  lemma OtherDateUnchanged(rides: seq<Ride>, date: string)
    requires |rides| > 0
    requires rides[|rides| - 1].status != Completed || rides[|rides| - 1].date != date
    ensures CountOn(rides, date) == CountOn(rides[..|rides| - 1], date)
    ensures FareOn(rides, date) == FareOn(rides[..|rides| - 1], date)
  {
  }

  lemma IgnoredRideExact(acc: seq<DayStats>, rides: seq<Ride>)
    requires |rides| > 0 && rides[|rides| - 1].status != Completed
    requires StatsExact(acc, rides[..|rides| - 1])
    ensures StatsExact(AddRide(acc, rides[|rides| - 1]), rides)
  {
    forall date
      ensures CountOn(rides, date) == CountOn(rides[..|rides| - 1], date)
      ensures FareOn(rides, date) == FareOn(rides[..|rides| - 1], date)
    {
      OtherDateUnchanged(rides, date);
    }
    forall i | 0 <= i < |acc|
      ensures EntryExact(acc[i], rides)
    {
      assert EntryExact(acc[i], rides[..|rides| - 1]);
    }
  }

  /** A completed ride on a listed date adds one ride and its fare to that entry only. */
  lemma KnownDateEntry(acc: seq<DayStats>, rides: seq<Ride>, i: int)
    requires |rides| > 0 && rides[|rides| - 1].status == Completed && HasDate(acc, rides[|rides| - 1].date)
    requires 0 <= i < |acc| && EntryExact(acc[i], rides[..|rides| - 1])
    ensures |AddRide(acc, rides[|rides| - 1])| == |acc|
    ensures EntryExact(AddRide(acc, rides[|rides| - 1])[i], rides)
    ensures AddRide(acc, rides[|rides| - 1])[i].date == acc[i].date
  {
    var x := rides[|rides| - 1];
    if acc[i].date != x.date {
      OtherDateUnchanged(rides, acc[i].date);
    }
  }

  lemma KnownDateExact(acc: seq<DayStats>, rides: seq<Ride>)
    requires |rides| > 0
    requires rides[|rides| - 1].status == Completed && HasDate(acc, rides[|rides| - 1].date)
    requires StatsExact(acc, rides[..|rides| - 1])
    ensures StatsExact(AddRide(acc, rides[|rides| - 1]), rides)
  {
    var x := rides[|rides| - 1];
    var stats := AddRide(acc, x);
    forall i | 0 <= i < |acc|
      ensures EntryExact(stats[i], rides) && DateOf(stats[i]) == DateOf(acc[i])
    {
      KnownDateEntry(acc, rides, i);
    }
    forall date | CountOn(rides, date) > 0
      ensures HasDate(stats, date)
    {
      if date != x.date {
        OtherDateUnchanged(rides, date);
      }
      var i :| 0 <= i < |acc| && acc[i].date == date;
      assert stats[i].date == date;
    }
  }

  lemma NewDateExact(acc: seq<DayStats>, rides: seq<Ride>)
    requires |rides| > 0
    requires rides[|rides| - 1].status == Completed && !HasDate(acc, rides[|rides| - 1].date)
    requires StatsExact(acc, rides[..|rides| - 1])
    ensures StatsExact(AddRide(acc, rides[|rides| - 1]), rides)
  {
    var x := rides[|rides| - 1];
    var prefix := rides[..|rides| - 1];
    var stats := AddRide(acc, x);
    assert stats == acc + [DayStats(x.date, 1, x.details.fare)];
    assert CountOn(prefix, x.date) == 0;
    NoCountNoFare(prefix, x.date);
    forall i | 0 <= i < |acc|
      ensures EntryExact(stats[i], rides)
    {
      assert EntryExact(acc[i], prefix);
      OtherDateUnchanged(rides, acc[i].date);
    }
    forall date | CountOn(rides, date) > 0
      ensures HasDate(stats, date)
    {
      if date == x.date {
        assert stats[|acc|].date == date;
      } else {
        OtherDateUnchanged(rides, date);
        var i :| 0 <= i < |acc| && acc[i].date == date;
        assert stats[i].date == date;
      }
    }
  }

  /** A date without completed rides has no fare. */
  lemma {:induction false} NoCountNoFare(rides: seq<Ride>, date: string)
    requires CountOn(rides, date) == 0
    ensures FareOn(rides, date) == 0
  {
    if |rides| > 0 {
      NoCountNoFare(rides[..|rides| - 1], date);
    }
  }

  /** The grouping is exact for every list of rides. */
  lemma {:induction false} DataByDateExact(rides: seq<Ride>)
    ensures StatsExact(DataByDate(rides), rides)
  {
    if |rides| > 0 {
      var prefix := rides[..|rides| - 1];
      var x := rides[|rides| - 1];
      var acc := DataByDate(prefix);
      DataByDateExact(prefix);
      if x.status != Completed {
        IgnoredRideExact(acc, rides);
      } else if HasDate(acc, x.date) {
        KnownDateExact(acc, rides);
      } else {
        NewDateExact(acc, rides);
      }
    }
  }

  /** Folding one ride in adds one to the total count when the ride is completed. */
  lemma AddRideCount(acc: seq<DayStats>, x: Ride)
    requires Seqs.DistinctKeys(acc, DateOf)
    ensures Seqs.SumBy(AddRide(acc, x), RidesOf) == Seqs.SumBy(acc, RidesOf) + (if x.status == Completed then 1 else 0)
  {
    if x.status == Completed {
      if HasDate(acc, x.date) {
        var k :| 0 <= k < |acc| && acc[k].date == x.date;
        assert forall i :: 0 <= i < |acc| && i != k ==> DateOf(acc[i]) != DateOf(acc[k]);
        Seqs.SumByPointwise(acc, AddRide(acc, x), RidesOf, k, 1);
      } else {
        Seqs.SumByConcat(acc, [DayStats(x.date, 1, x.details.fare)], RidesOf);
      }
    }
  }

  lemma CompletedStep(rides: seq<Ride>)
    requires |rides| > 0
    ensures |Seqs.Filter(rides, IsCompleted)| ==
      |Seqs.Filter(rides[..|rides| - 1], IsCompleted)| + (if rides[|rides| - 1].status == Completed then 1 else 0)
  {
    var prefix := rides[..|rides| - 1];
    var x := rides[|rides| - 1];
    assert rides == prefix + [x];
    Seqs.FilterConcat(prefix, [x], IsCompleted);
  }

  /** The ride counts add up to the number of completed rides. */
  lemma {:induction false} DataByDateCountsAll(rides: seq<Ride>)
    ensures Seqs.SumBy(DataByDate(rides), RidesOf) == |Seqs.Filter(rides, IsCompleted)|
  {
    if |rides| > 0 {
      var prefix := rides[..|rides| - 1];
      DataByDateCountsAll(prefix);
      DataByDateExact(prefix);
      AddRideCount(DataByDate(prefix), rides[|rides| - 1]);
      CompletedStep(rides);
    }
  }

  /** Rides that are not completed play no part: grouping all rides equals grouping
      the completed ones. */
  lemma {:induction false} OnlyCompletedCount(rides: seq<Ride>)
    ensures DataByDate(rides) == DataByDate(Seqs.Filter(rides, IsCompleted))
  {
    if |rides| > 0 {
      var prefix := rides[..|rides| - 1];
      var x := rides[|rides| - 1];
      OnlyCompletedCount(prefix);
      assert rides == prefix + [x];
      Seqs.FilterConcat(prefix, [x], IsCompleted);
      Seqs.FilterSingle(x, IsCompleted);
      var kept := Seqs.Filter(prefix, IsCompleted);
      assert DataByDate(rides) == AddRide(DataByDate(prefix), x);
      if x.status == Completed {
        assert (kept + [x])[..|kept|] == kept;
        assert Seqs.Filter(rides, IsCompleted) == kept + [x];
        assert DataByDate(kept + [x]) == AddRide(DataByDate(kept), x);
      } else {
        assert Seqs.Filter(rides, IsCompleted) == kept + [];
        assert kept + [] == kept;
      }
    }
  }

  /** `new Date(a) - new Date(b)` on ISO dates, as an order on accumulator entries. */
  function EarlierDate(a: DayStats, b: DayStats): bool
  {
    Text.LexLe(a.date, b.date)
  }

  lemma EarlierDateIsTotalPreorder()
    ensures Sorting.IsTotalPreorder(EarlierDate)
  {
    forall a: DayStats, b: DayStats, c: DayStats | EarlierDate(a, b) && EarlierDate(b, c)
      ensures EarlierDate(a, c)
    {
      Text.LexLeTransitive(a.date, b.date, c.date);
    }
    forall a: DayStats, b: DayStats
      ensures EarlierDate(a, b) || EarlierDate(b, a)
    {
      Text.LexLeTotal(a.date, b.date);
    }
  }

  /** `sortedDates` with their entries: every date with completed rides, once, earliest
      first, with the exact count and fare total. */
  function ChartData(rides: seq<Ride>): (r: seq<DayStats>)
    ensures StatsExact(r, rides)
    ensures forall i, j :: 0 <= i < j < |r| ==> Text.LexLe(r[i].date, r[j].date) && r[i].date != r[j].date
    ensures Seqs.SumBy(r, RidesOf) == |Seqs.Filter(rides, IsCompleted)|
  {
    var grouped := DataByDate(rides);
    EarlierDateIsTotalPreorder();
    var r := Sorting.Sort(grouped, EarlierDate);
    DataByDateExact(rides);
    PermutationKeepsExact(grouped, r, rides);
    DataByDateCountsAll(rides);
    Seqs.SumByPermutation(grouped, r, RidesOf);
    r
  }

  lemma PermutationKeepsExact(a: seq<DayStats>, b: seq<DayStats>, rides: seq<Ride>)
    requires multiset(a) == multiset(b)
    requires StatsExact(a, rides)
    ensures StatsExact(b, rides)
  {
    Seqs.PermutationKeepsDistinctKeys(a, b, DateOf);
    forall i | 0 <= i < |b|
      ensures EntryExact(b[i], rides)
    {
      assert b[i] in multiset(a);
    }
    forall date | CountOn(rides, date) > 0
      ensures HasDate(b, date)
    {
      var i :| 0 <= i < |a| && a[i].date == date;
      assert a[i] in multiset(b);
    }
  }

  /** The chart shows bars exactly when some ride is completed (else its placeholder). */
  lemma ChartShownIffCompleted(rides: seq<Ride>)
    ensures |ChartData(rides)| > 0 <==> |Seqs.Filter(rides, IsCompleted)| > 0
  {
    var r := ChartData(rides);
    Seqs.SumByPositive(r, RidesOf);
  }

  /** The `chartType` toggle. */
  datatype ChartType = RidesChart | FareChart

  /** `data`: the selected field of each date. */
  function Series(stats: seq<DayStats>, chartType: ChartType): (data: seq<int>)
    ensures |data| == |stats|
    ensures forall i :: 0 <= i < |stats| ==>
      data[i] == (if chartType == RidesChart then stats[i].rides else stats[i].fare)
  {
    seq(|stats|, i requires 0 <= i < |stats| => if chartType == RidesChart then stats[i].rides else stats[i].fare)
  }

  /** `labels`: one label per date, in the same order; the locale formatting is a parameter. */
  function Labels(stats: seq<DayStats>, format: string -> string): (labels: seq<string>)
    ensures |labels| == |stats|
    ensures forall i :: 0 <= i < |stats| ==> labels[i] == format(stats[i].date)
  {
    seq(|stats|, i requires 0 <= i < |stats| => format(stats[i].date))
  }

  /** `Math.max(...data, 1)` for a non-empty series, 1 for an empty one. */
  function MaxValue(data: seq<int>): (m: int)
    ensures m >= 1
    ensures forall i :: 0 <= i < |data| ==> data[i] <= m
    ensures m == 1 || exists i :: 0 <= i < |data| && data[i] == m
  {
    if |data| == 0 then 1
    else
      var rest := MaxValue(data[1..]);
      assert forall i :: 1 <= i < |data| ==> data[i] == data[1..][i - 1];
      if data[0] > rest then data[0] else rest
  }

  /** A bar's height as a percentage of the chart: no bar of a non-negative value leaves it. */
  function BarHeight(value: int, maxValue: int): (h: real)
    requires maxValue >= 1
    ensures 0 <= value <= maxValue ==> 0.0 <= h <= 100.0
    ensures value == maxValue ==> h == 100.0
  {
    Ratios.FractionBounds(value, maxValue);
    (value as real / maxValue as real) * 100.0
  }
}
