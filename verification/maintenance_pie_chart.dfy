/** The maintenance pie chart: vehicles counted by maintenance status, and one pie
    segment per status with vehicles, laid end to end around the circle in the order
    Healthy, Due, Critical. Angles are kept as vehicle counts out of the total. */
module MaintenancePieChart {
  import opened FleetModel
  import Seqs
  import Ratios

  datatype Counts = Counts(healthy: nat, due: nat, critical: nat)

  function CountOf(c: Counts, m: Maintenance): nat
  {
    match m
    case Healthy => c.healthy
    case Due => c.due
    case Critical => c.critical
  }

  /** One step of the `reduce`: the vehicle's own status goes up by one. */
  function Bump(c: Counts, m: Maintenance): (r: Counts)
    ensures CountOf(r, m) == CountOf(c, m) + 1
    ensures forall other :: other != m ==> CountOf(r, other) == CountOf(c, other)
  {
    match m
    case Healthy => c.(healthy := c.healthy + 1)
    case Due => c.(due := c.due + 1)
    case Critical => c.(critical := c.critical + 1)
  }

  /** `data`: starting from zero for each status, every vehicle bumps its status. */
  function Tally(vehicles: seq<Vehicle>): (c: Counts)
    ensures c.healthy + c.due + c.critical == |vehicles|
  {
    if |vehicles| == 0 then Counts(0, 0, 0)
    else Bump(Tally(vehicles[..|vehicles| - 1]), vehicles[|vehicles| - 1].maintenance)
  }

  function InStatus(m: Maintenance): Vehicle -> bool
  {
    (v: Vehicle) => v.maintenance == m
  }

  /** Each count is the number of vehicles in that status. */
  lemma {:induction false} TallyExact(vehicles: seq<Vehicle>, m: Maintenance)
    ensures CountOf(Tally(vehicles), m) == |Seqs.Filter(vehicles, InStatus(m))|
  {
    if |vehicles| > 0 {
      var prefix := vehicles[..|vehicles| - 1];
      var v := vehicles[|vehicles| - 1];
      var inStatus := InStatus(m);
      TallyExact(prefix, m);
      assert vehicles == prefix + [v];
      Seqs.FilterConcat(prefix, [v], inStatus);
      Seqs.FilterSingle(v, inStatus);
      assert inStatus(v) <==> v.maintenance == m;
      assert Tally(vehicles) == Bump(Tally(prefix), v.maintenance);
    }
  }

  /** A pie segment: the status it shows and the arc from `start` to `end` vehicles
      out of the total; `largeArc` is the SVG large-arc flag. */
  datatype Segment = Segment(status: Maintenance, start: nat, end: nat, largeArc: bool)

  /** The chart: the 'No vehicle data' placeholder, or the segments and the legend. */
  datatype Chart = NoData | Pie(segments: seq<Segment>, legend: seq<(Maintenance, nat)>)

  /** `percent > 50 ? 1 : 0`, in counts. */
  predicate IsLarge(n: nat, total: nat)
  {
    2 * n > total
  }

  /** The percentage test and the count test agree (in exact arithmetic). */
  lemma LargeArcMatchesPercent(n: nat, total: nat)
    requires total > 0
    ensures (n as real / total as real) * 100.0 > 50.0 <==> IsLarge(n, total)
  {
    var t := total as real;
    var r := n as real / t;
    Ratios.DivTimes(n as real, t);
    Ratios.ScaleMonotone(r, 0.5, t);
    Ratios.ScaleMonotone(0.5, r, t);
  }

  /** The segment a status contributes, starting at `start`: none when its count is
      zero (the `null` that `filter(Boolean)` drops). */
  function Part(m: Maintenance, c: Counts, start: nat, total: nat): (r: seq<Segment>)
    ensures |r| <= 1
  {
    var n := CountOf(c, m);
    if n > 0 then [Segment(m, start, start + n, IsLarge(n, total))] else []
  }

  /** `segments`: the keys in order Healthy, Due, Critical, each status's arc starting
      where the counts before it end (`cumulativePercent`). */
  function Segments(c: Counts, total: nat): seq<Segment>
  {
    Part(Healthy, c, 0, total) + Part(Due, c, c.healthy, total) + Part(Critical, c, c.healthy + c.due, total)
  }

  function Rank(m: Maintenance): nat
  {
    match m
    case Healthy => 0
    case Due => 1
    case Critical => 2
  }

  /** The legend: every status, with its count, in key order. */
  function Legend(c: Counts): seq<(Maintenance, nat)>
  {
    [(Healthy, c.healthy), (Due, c.due), (Critical, c.critical)]
  }

  function ChartOf(vehicles: seq<Vehicle>): (r: Chart)
    ensures r.NoData? <==> |vehicles| == 0
  {
    if |vehicles| == 0 then NoData
    else
      var c := Tally(vehicles);
      Pie(Segments(c, |vehicles|), Legend(c))
  }

  /** The segments partition the circle: they start at 0, each starts where the previous
      one ends, the last ends at the total, each spans its status's count, the statuses
      with vehicles appear once each in key order, and the large-arc flag is set exactly
      on segments of more than half the vehicles. */
  ghost predicate Partitions(s: seq<Segment>, c: Counts, total: nat)
  {
    Spans(s, total) && Widths(s, c, total) && InKeyOrder(s) && Covers(s, c)
  }

  ghost predicate Spans(s: seq<Segment>, total: nat)
  {
    && |s| > 0 && s[0].start == 0 && s[|s| - 1].end == total
    && (forall i :: 0 <= i < |s| - 1 ==> s[i].end == s[i + 1].start)
  }

  ghost predicate Widths(s: seq<Segment>, c: Counts, total: nat)
  {
    forall i :: 0 <= i < |s| ==>
      s[i].end - s[i].start == CountOf(c, s[i].status) > 0
      && s[i].largeArc == IsLarge(s[i].end - s[i].start, total)
  }

  ghost predicate InKeyOrder(s: seq<Segment>)
  {
    forall i :: 0 <= i < |s| - 1 ==> Rank(s[i].status) < Rank(s[i + 1].status)
  }

  ghost predicate Covers(s: seq<Segment>, c: Counts)
  {
    forall m :: CountOf(c, m) > 0 <==> exists i :: 0 <= i < |s| && s[i].status == m
  }

  lemma SegmentsSpan(c: Counts, total: nat)
    requires total == c.healthy + c.due + c.critical > 0
    ensures Spans(Segments(c, total), total)
  {
    var h, d, k := c.healthy, c.due, c.critical;
    var sh := Segment(Healthy, 0, h, IsLarge(h, total));
    var sd := Segment(Due, h, h + d, IsLarge(d, total));
    var sk := Segment(Critical, h + d, h + d + k, IsLarge(k, total));
    var s := Segments(c, total);
    if h > 0 && d > 0 && k > 0 {
      assert s == [sh, sd, sk];
    } else if h > 0 && d > 0 {
      assert s == [sh, sd];
    } else if h > 0 && k > 0 {
      assert s == [sh, sk];
    } else if d > 0 && k > 0 {
      assert s == [sd, sk];
    } else if h > 0 {
      assert s == [sh];
    } else if d > 0 {
      assert s == [sd];
    } else {
      assert s == [sk];
    }
  }

  lemma SegmentsWidths(c: Counts, total: nat)
    requires total == c.healthy + c.due + c.critical > 0
    ensures Widths(Segments(c, total), c, total)
  {
    var h, d, k := c.healthy, c.due, c.critical;
    var sh := Segment(Healthy, 0, h, IsLarge(h, total));
    var sd := Segment(Due, h, h + d, IsLarge(d, total));
    var sk := Segment(Critical, h + d, h + d + k, IsLarge(k, total));
    var s := Segments(c, total);
    if h > 0 && d > 0 && k > 0 {
      assert s == [sh, sd, sk];
    } else if h > 0 && d > 0 {
      assert s == [sh, sd];
    } else if h > 0 && k > 0 {
      assert s == [sh, sk];
    } else if d > 0 && k > 0 {
      assert s == [sd, sk];
    } else if h > 0 {
      assert s == [sh];
    } else if d > 0 {
      assert s == [sd];
    } else {
      assert s == [sk];
    }
  }

  lemma SegmentsInKeyOrder(c: Counts, total: nat)
    requires total == c.healthy + c.due + c.critical > 0
    ensures InKeyOrder(Segments(c, total))
  {
    var h, d, k := c.healthy, c.due, c.critical;
    var sh := Segment(Healthy, 0, h, IsLarge(h, total));
    var sd := Segment(Due, h, h + d, IsLarge(d, total));
    var sk := Segment(Critical, h + d, h + d + k, IsLarge(k, total));
    var s := Segments(c, total);
    if h > 0 && d > 0 && k > 0 {
      assert s == [sh, sd, sk];
    } else if h > 0 && d > 0 {
      assert s == [sh, sd];
    } else if h > 0 && k > 0 {
      assert s == [sh, sk];
    } else if d > 0 && k > 0 {
      assert s == [sd, sk];
    } else if h > 0 {
      assert s == [sh];
    } else if d > 0 {
      assert s == [sd];
    } else {
      assert s == [sk];
    }
  }

  lemma SegmentsCover(c: Counts, total: nat)
    requires total == c.healthy + c.due + c.critical > 0
    ensures Covers(Segments(c, total), c)
  {
    var h, d, k := c.healthy, c.due, c.critical;
    var sh := Segment(Healthy, 0, h, IsLarge(h, total));
    var sd := Segment(Due, h, h + d, IsLarge(d, total));
    var sk := Segment(Critical, h + d, h + d + k, IsLarge(k, total));
    var s := Segments(c, total);
    if h > 0 && d > 0 && k > 0 {
      assert s == [sh, sd, sk];
      assert s[0].status == Healthy && s[1].status == Due && s[2].status == Critical;
    } else if h > 0 && d > 0 {
      assert s == [sh, sd];
      assert s[0].status == Healthy && s[1].status == Due;
    } else if h > 0 && k > 0 {
      assert s == [sh, sk];
      assert s[0].status == Healthy && s[1].status == Critical;
    } else if d > 0 && k > 0 {
      assert s == [sd, sk];
      assert s[0].status == Due && s[1].status == Critical;
    } else if h > 0 {
      assert s == [sh];
      assert s[0].status == Healthy;
    } else if d > 0 {
      assert s == [sd];
      assert s[0].status == Due;
    } else {
      assert s == [sk];
      assert s[0].status == Critical;
    }
  }

  lemma SegmentsPartition(c: Counts, total: nat)
    requires total == c.healthy + c.due + c.critical > 0
    ensures Partitions(Segments(c, total), c, total)
  {
    SegmentsSpan(c, total);
    SegmentsWidths(c, total);
    SegmentsInKeyOrder(c, total);
    SegmentsCover(c, total);
  }

  lemma SegmentsPartitionCircle(vehicles: seq<Vehicle>)
    requires |vehicles| > 0
    ensures Partitions(ChartOf(vehicles).segments, Tally(vehicles), |vehicles|)
  {
    SegmentsPartition(Tally(vehicles), |vehicles|);
  }

  /** At most one segment takes the large arc. */
  lemma AtMostOneLargeArc(vehicles: seq<Vehicle>)
    requires |vehicles| > 0
    ensures var s := ChartOf(vehicles).segments;
      forall i, j :: 0 <= i < j < |s| ==> !(s[i].largeArc && s[j].largeArc)
  {
    var s := ChartOf(vehicles).segments;
    SegmentsPartitionCircle(vehicles);
    forall i, j | 0 <= i < j < |s|
      ensures !(s[i].largeArc && s[j].largeArc)
    {
      EndsGrow(s, Tally(vehicles), |vehicles|, i, j);
    }
  }

  /** Along a partition, later segments start no earlier than earlier ones end. */
  lemma {:induction false} EndsGrow(s: seq<Segment>, c: Counts, total: nat, i: int, j: int)
    requires Partitions(s, c, total) && 0 <= i < j < |s|
    ensures s[i].end <= s[j].start && s[j].end <= total
    decreases |s| - i
  {
    if j + 1 < |s| {
      EndsGrow(s, c, total, j, j + 1);
    }
    if i + 1 < j {
      EndsGrow(s, c, total, i + 1, j);
    }
  }

  /** The legend lists every status with the number of vehicles in it. */
  lemma LegendCounts(vehicles: seq<Vehicle>, i: int)
    requires |vehicles| > 0 && 0 <= i < 3
    ensures var e := ChartOf(vehicles).legend[i];
      e.1 == |Seqs.Filter(vehicles, InStatus(e.0))| && Rank(e.0) == i
  {
    TallyExact(vehicles, ChartOf(vehicles).legend[i].0);
  }
}
