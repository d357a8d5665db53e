/**
 * One run of the engine on a fetched price table: the trajectory over the
 * year before the latest date, the vector as of the latest date, and its
 * phase.  Fetching, rounding, rendering and publishing are outside.
 */
module Engine {
  import opened Registry
  import opened Clock
  import opened Prices
  import opened CycleVector
  import opened Trajectory
  import opened PhaseClassifier

  /** What the run hands to the chart renderer. */
  datatype Report = Report(trajectory: seq<Vec>, current: Vec, phase: Phase)

  /** The run: None when the latest date has too little history (the program reports
      the failure and stops), otherwise the report over the registry SECTORS. */
  method Run(t: Table, trig: Trig) returns (r: Option<Report>)
    requires ValidTable(t) && |t| > 0
    ensures r.None? <==> |t| < HISTORY
    ensures r.Some? ==>
      && r.value.trajectory == Points(Sampled(t, NominalDates(Last(t).date, WINDOW_DAYS, STEP_DAYS), SECTORS, trig))
      && |r.value.trajectory| <= 37
      && Vector(t, Last(t).date, SECTORS, trig) == Some(r.value.current)
      && r.value.phase == FirstMatch(PHASES, Sign(r.value.current.x), Sign(r.value.current.y))
      && r.value.phase != Unknown
  {
    var latest := Last(t).date;
    var history := SampleTrajectory(t, latest, SECTORS, trig);
    var current := CalculateVector(t, latest, SECTORS, trig);
    UntilLatest(t);
    if current.None? {
      return None;
    }
    var phase := Classify(current.value);
    r := Some(Report(history, current.value, phase));
  }

  /** Every row of an ascending table is dated on or before its latest date. */
  lemma UntilLatest(t: Table)
    requires Ascending(t) && |t| > 0
    ensures Until(t, Last(t).date) == t
  {
    UntilPrefix(t, Last(t).date);
    var k := |Until(t, Last(t).date)|;
    assert k == |t| by {
      assert |t| - 1 < k;
    }
  }
}
