/**
 * The trajectory sampler: nominal dates every STEP_DAYS days over the
 * trailing WINDOW_DAYS days, each aligned to the latest table date at or
 * before it, and the cycle vector of every aligned date that has enough
 * history, kept in order and with duplicates.
 */
module Trajectory {
  import opened Registry
  import opened Clock
  import opened Prices
  import opened CycleVector

  const WINDOW_DAYS: nat := 365
  const STEP_DAYS: nat := 10

  /** The nominal dates of a date range: the first is end - window, each next one is
      step days later, and the range stops at the last one not after end. */
  function NominalDates(end: Date, window: nat, step: nat): (ds: seq<Date>)
    requires step > 0
    ensures |ds| > 0 && ds[0] == end - window
    ensures forall k :: 0 <= k < |ds| - 1 ==> ds[k + 1] == ds[k] + step
    ensures ds[|ds| - 1] <= end < ds[|ds| - 1] + step
  {
    var n := window / step;
    DivisionBounds(window, step);
    var ds := seq(n + 1, k requires 0 <= k <= n => end - window + k * step);
    assert forall k :: 0 <= k < n ==> ds[k + 1] == ds[k] + step by {
      forall k | 0 <= k < n ensures ds[k + 1] == ds[k] + step {
        assert (k + 1) * step == k * step + step;
      }
    }
    ds
  }

  lemma DivisionBounds(a: nat, b: nat)
    requires b > 0
    ensures (a / b) * b <= a < (a / b) * b + b
  {
    assert a == (a / b) * b + a % b;
  }

  /** The program's window: 37 nominal dates, strictly ascending, none after end. */
  lemma {:induction false} NominalWindow(end: Date)
    ensures |NominalDates(end, WINDOW_DAYS, STEP_DAYS)| == 37
    ensures forall i, j :: 0 <= i < j < 37 ==>
      NominalDates(end, WINDOW_DAYS, STEP_DAYS)[i] < NominalDates(end, WINDOW_DAYS, STEP_DAYS)[j] <= end
  {
    var ds := NominalDates(end, WINDOW_DAYS, STEP_DAYS);
    assert forall k :: 0 <= k < |ds| ==> ds[k] == end - 365 + 10 * k;
  }

  /** One trajectory point tagged with the date it was computed for. */
  datatype Sample = Sample(date: Date, point: Vec)

  /** The sample for one nominal date: None when it aligns to no table date or when the
      aligned date has too little history. */
  function SampleAt(t: Table, d: Date, registry: seq<Sector>, trig: Trig): Option<Sample>
    requires ValidTable(t)
  {
    match Align(t, d)
    case None => None
    case Some(a) =>
      match Vector(t, a, registry, trig)
      case None => None
      case Some(v) => Some(Sample(a, v))
  }

  /** The samples of the nominal dates, in their order. */
  function Sampled(t: Table, ds: seq<Date>, registry: seq<Sector>, trig: Trig): seq<Sample>
    requires ValidTable(t)
  {
    if ds == [] then []
    else
      var s := SampleAt(t, ds[|ds| - 1], registry, trig);
      Sampled(t, ds[..|ds| - 1], registry, trig) + (if s.Some? then [s.value] else [])
  }

  /** The points of the samples, dates dropped. */
  function Points(ss: seq<Sample>): (ps: seq<Vec>)
    ensures |ps| == |ss|
    ensures forall i :: 0 <= i < |ss| ==> ps[i] == ss[i].point
  {
    seq(|ss|, i requires 0 <= i < |ss| => ss[i].point)
  }

  /** The program's trajectory loop: walk the nominal dates, align each to the table,
      and append the vector of every aligned date that has one. */
  method SampleTrajectory(t: Table, end: Date, registry: seq<Sector>, trig: Trig) returns (points: seq<Vec>)
    requires ValidTable(t)
    ensures points == Points(Sampled(t, NominalDates(end, WINDOW_DAYS, STEP_DAYS), registry, trig))
    ensures |points| <= 37
  {
    var dates := NominalDates(end, WINDOW_DAYS, STEP_DAYS);
    points := [];
    for i := 0 to |dates|
      invariant points == Points(Sampled(t, dates[..i], registry, trig))
    {
      var d := dates[i];
      assert dates[..i + 1] == dates[..i] + [d];
      SampledSnoc(t, dates[..i], d, registry, trig);
      var valid: Date;
      if d !in Dates(t) {
        var past := Dates(Until(t, d));
        if |past| == 0 {
          continue;
        }
        valid := past[|past| - 1];
      } else {
        valid := d;
      }
      var v := CalculateVector(t, valid, registry, trig);
      if v.Some? {
        PointsSnoc(Sampled(t, dates[..i], registry, trig), Sample(valid, v.value));
        points := points + [v.value];
      }
    }
    assert dates[..|dates|] == dates;
    NominalWindow(end);
    SampledLength(t, dates, registry, trig);
  }

  // ---------------------------------------------------------------------------
  // Properties of the trajectory

  /** There are never more samples than nominal dates. */
  lemma {:induction false} SampledLength(t: Table, ds: seq<Date>, registry: seq<Sector>, trig: Trig)
    requires ValidTable(t)
    ensures |Sampled(t, ds, registry, trig)| <= |ds|
  {
    if ds != [] {
      SampledLength(t, ds[..|ds| - 1], registry, trig);
    }
  }

  /** A nominal date yields a sample exactly when at least HISTORY table rows are dated
      on or before it; the sample is dated the latest table date on or before it, and
      its point is the vector of the nominal date itself. */
  lemma SampleRule(t: Table, d: Date, registry: seq<Sector>, trig: Trig)
    requires ValidTable(t)
    ensures SampleAt(t, d, registry, trig).Some? <==> |Until(t, d)| >= HISTORY
    ensures SampleAt(t, d, registry, trig).Some? ==>
      && SampleAt(t, d, registry, trig).value.date == Align(t, d).value
      && LatestAtOrBefore(t, d, SampleAt(t, d, registry, trig).value.date)
      && Vector(t, d, registry, trig) == Some(SampleAt(t, d, registry, trig).value.point)
  {
    AlignIsLatestPrior(t, d);
    UntilPrefix(t, d);
    if Align(t, d).Some? {
      AlignKeepsHistory(t, d);
    } else {
      assert |t| > 0 ==> t[0].date > d;
    }
  }

  /** Every sample of nominal dates not after d is dated no later than d's aligned date. */
  lemma {:induction false} SampledNotAfter(t: Table, ds: seq<Date>, registry: seq<Sector>, trig: Trig, d: Date)
    requires ValidTable(t)
    requires forall m :: 0 <= m < |ds| ==> ds[m] <= d
    requires Align(t, d).Some?
    ensures forall i :: 0 <= i < |Sampled(t, ds, registry, trig)| ==>
      Sampled(t, ds, registry, trig)[i].date <= Align(t, d).value
  {
    if ds != [] {
      var last := ds[|ds| - 1];
      SampledNotAfter(t, ds[..|ds| - 1], registry, trig, d);
      if SampleAt(t, last, registry, trig).Some? {
        AlignMonotone(t, last, d);
      }
    }
  }

  /** Nominal dates in ascending order give samples whose dates never decrease. */
  lemma {:induction false} SampledDatesNondecreasing(t: Table, ds: seq<Date>, registry: seq<Sector>, trig: Trig)
    requires ValidTable(t)
    requires forall i, j :: 0 <= i < j < |ds| ==> ds[i] <= ds[j]
    ensures forall i, j :: 0 <= i < j < |Sampled(t, ds, registry, trig)| ==>
      Sampled(t, ds, registry, trig)[i].date <= Sampled(t, ds, registry, trig)[j].date
  {
    if ds != [] {
      var front, last := ds[..|ds| - 1], ds[|ds| - 1];
      SampledDatesNondecreasing(t, front, registry, trig);
      var s := SampleAt(t, last, registry, trig);
      if s.Some? {
        SampledNotAfter(t, front, registry, trig, last);
      }
    }
  }

  /** The program's own trajectory: over the window ending at end, the resolved dates of
      the samples never decrease. */
  lemma WindowDatesNondecreasing(t: Table, end: Date, registry: seq<Sector>, trig: Trig)
    requires ValidTable(t)
    ensures var s := Sampled(t, NominalDates(end, WINDOW_DAYS, STEP_DAYS), registry, trig);
      forall i, j :: 0 <= i < j < |s| ==> s[i].date <= s[j].date
  {
    NominalWindow(end);
    SampledDatesNondecreasing(t, NominalDates(end, WINDOW_DAYS, STEP_DAYS), registry, trig);
  }

  /** When every nominal date has enough history nothing is skipped: sample m is the
      sample of nominal date m (see SampleRule), so repeated points stay. */
  lemma {:induction false} NoSkipWithHistory(t: Table, ds: seq<Date>, registry: seq<Sector>, trig: Trig)
    requires ValidTable(t)
    requires forall m :: 0 <= m < |ds| ==> |Until(t, ds[m])| >= HISTORY
    ensures |Sampled(t, ds, registry, trig)| == |ds|
    ensures forall m :: 0 <= m < |ds| ==>
      SampleAt(t, ds[m], registry, trig).Some? &&
      Sampled(t, ds, registry, trig)[m] == SampleAt(t, ds[m], registry, trig).value
  {
    if ds != [] {
      var front, last := ds[..|ds| - 1], ds[|ds| - 1];
      NoSkipWithHistory(t, front, registry, trig);
      var s := SampleAt(t, last, registry, trig);
      assert s.Some? by {
        SampleRule(t, last, registry, trig);
      }
      var prev := Sampled(t, front, registry, trig);
      var whole := Sampled(t, ds, registry, trig);
      assert whole == prev + [s.value];
      forall m | 0 <= m < |ds|
        ensures SampleAt(t, ds[m], registry, trig).Some? && whole[m] == SampleAt(t, ds[m], registry, trig).value
      {
        if m < |front| {
          assert ds[m] == front[m] && whole[m] == prev[m];
        } else {
          assert ds[m] == last && whole[m] == s.value;
        }
      }
    }
  }

  /** The trajectory without alignment: the vector of every nominal date that has at
      least HISTORY rows dated on or before it, in order. */
  function HistoryPoints(t: Table, ds: seq<Date>, registry: seq<Sector>, trig: Trig): seq<Vec>
    requires ValidTable(t)
  {
    if ds == [] then []
    else
      var v := Vector(t, ds[|ds| - 1], registry, trig);
      HistoryPoints(t, ds[..|ds| - 1], registry, trig) + (if v.Some? then [v.value] else [])
  }

  /** Alignment never changes the trajectory: its points are exactly the vectors of the
      nominal dates that have enough history. */
  lemma {:induction false} AlignmentIsTransparent(t: Table, ds: seq<Date>, registry: seq<Sector>, trig: Trig)
    requires ValidTable(t)
    ensures Points(Sampled(t, ds, registry, trig)) == HistoryPoints(t, ds, registry, trig)
  {
    if ds != [] {
      var front, last := ds[..|ds| - 1], ds[|ds| - 1];
      AlignmentIsTransparent(t, front, registry, trig);
      SampleRule(t, last, registry, trig);
      var s := SampleAt(t, last, registry, trig);
      if s.Some? {
        PointsSnoc(Sampled(t, front, registry, trig), s.value);
      }
    }
  }

  /** A further nominal date adds its sample, if it has one. */
  lemma SampledSnoc(t: Table, ds: seq<Date>, d: Date, registry: seq<Sector>, trig: Trig)
    requires ValidTable(t)
    ensures Sampled(t, ds + [d], registry, trig) == Sampled(t, ds, registry, trig) +
      (if SampleAt(t, d, registry, trig).Some? then [SampleAt(t, d, registry, trig).value] else [])
  {
    assert (ds + [d])[..|ds|] == ds;
  }

  lemma PointsSnoc(ss: seq<Sample>, s: Sample)
    ensures Points(ss + [s]) == Points(ss) + [s.point]
  {
  }
}
