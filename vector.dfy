/**
 * The cycle vector of one date: each instrument's percentage deviation of
 * its latest price from its 200-row moving average, projected onto the
 * instrument's clock direction, summed over the registry and scaled by 1/4.
 */
module CycleVector {
  import opened Registry
  import opened Clock
  import opened Prices

  /** Rows of history the moving average needs. */
  const HISTORY: nat := 200

  /** The fixed damping constant the summed forces are divided by. */
  const SCALE: real := 4.0

  /** Every row has a price for c. */
  ghost predicate Priced(rows: Table, c: Code) {
    forall i :: 0 <= i < |rows| ==> c in rows[i].prices
  }

  /** The sum of the prices of c over the rows. */
  function Sum(rows: Table, c: Code): real
    requires Priced(rows, c)
  {
    if rows == [] then 0.0 else Sum(Front(rows), c) + Last(rows).prices[c]
  }

  /** The HISTORY most recent rows. */
  function Window(rows: Table): Table
    requires |rows| >= HISTORY
  {
    rows[|rows| - HISTORY..]
  }

  /** The moving average of c over the window. */
  function Baseline(rows: Table, c: Code): real
    requires |rows| >= HISTORY && Priced(Window(rows), c)
  {
    Sum(Window(rows), c) / HISTORY as real
  }

  /** The percentage deviation of a price from its baseline. */
  function Deviation(current: real, baseline: real): real
    requires baseline != 0.0
  {
    (current - baseline) / baseline * 100.0
  }

  /** With uniform columns the window prices every instrument of the latest row. */
  lemma WindowPriced(rows: Table)
    requires |rows| >= HISTORY && SameColumns(rows)
    ensures forall c :: c in Last(rows).prices ==> Priced(Window(rows), c)
  {
  }

  /** No instrument has a zero baseline (the program divides by it unguarded). */
  ghost predicate BaselinesNonzero(rows: Table) {
    |rows| >= HISTORY && SameColumns(rows) ==>
      (WindowPriced(rows);
       forall c :: c in Last(rows).prices ==> Sum(Window(rows), c) != 0.0)
  }

  /** What the engine assumes of its price table: ascending dates, a price for every
      instrument on every row, and a nonzero baseline wherever one is taken. */
  ghost predicate ValidTable(t: Table) {
    && Ascending(t)
    && SameColumns(t)
    && forall k :: HISTORY <= k <= |t| ==> BaselinesNonzero(t[..k])
  }

  /** The deviation of every instrument of the latest row. */
  function Deviations(rows: Table): map<Code, real>
    requires |rows| >= HISTORY && SameColumns(rows) && BaselinesNonzero(rows)
  {
    WindowPriced(rows);
    var current := Last(rows).prices;
    map c | c in current :: Deviation(current[c], Baseline(rows, c))
  }

  /** The force one registry entry adds: none when its code has no deviation. */
  function Contribution(s: Sector, devs: map<Code, real>, trig: Trig): Vec {
    if s.code in devs then Force(devs[s.code], s.clock, trig) else Zero
  }

  /** The summed forces of the registry, in registry order. */
  function SumForces(registry: seq<Sector>, devs: map<Code, real>, trig: Trig): Vec {
    if registry == [] then Zero
    else Add(SumForces(registry[..|registry| - 1], devs, trig), Contribution(registry[|registry| - 1], devs, trig))
  }

  function Scaled(total: Vec): Vec {
    Vec(total.x / SCALE, total.y / SCALE)
  }

  /** The cycle vector as of date d, or None with fewer than HISTORY rows dated on or before d. */
  function Vector(t: Table, d: Date, registry: seq<Sector>, trig: Trig): Option<Vec>
    requires ValidTable(t)
  {
    var rows := Until(t, d);
    if |rows| < HISTORY then None
    else
      UntilPrefix(t, d);
      SameColumnsPrefix(t, |rows|);
      Some(Scaled(SumForces(registry, Deviations(rows), trig)))
  }

  /** Enough history makes the deviations of the filtered rows defined, and the vector
      their scaled registry fold. */
  lemma VectorOfRows(t: Table, d: Date, registry: seq<Sector>, trig: Trig)
    requires ValidTable(t) && |Until(t, d)| >= HISTORY
    ensures SameColumns(Until(t, d)) && BaselinesNonzero(Until(t, d))
    ensures Vector(t, d, registry, trig) == Some(Scaled(SumForces(registry, Deviations(Until(t, d)), trig)))
  {
    UntilPrefix(t, d);
    SameColumnsPrefix(t, |Until(t, d)|);
  }

  /** The program's vector computation: filter the table, take the deviations, and
      accumulate the force of each registry entry that has one. */
  method CalculateVector(t: Table, d: Date, registry: seq<Sector>, trig: Trig) returns (v: Option<Vec>)
    requires ValidTable(t)
    ensures v.None? <==> |Until(t, d)| < HISTORY
    ensures v == Vector(t, d, registry, trig)
  {
    var rows := Until(t, d);
    if |rows| < HISTORY {
      return None;
    }
    VectorOfRows(t, d, registry, trig);
    var deviations := Deviations(rows);
    var totalX, totalY := AccumulateForces(registry, deviations, trig);
    v := Some(Vec(totalX / SCALE, totalY / SCALE));
  }

  /** The accumulation loop of the vector computation: add deviation * cos and
      deviation * sin of each entry's clock angle, skipping entries without a deviation. */
  method AccumulateForces(registry: seq<Sector>, deviations: map<Code, real>, trig: Trig) returns (totalX: real, totalY: real)
    ensures Vec(totalX, totalY) == SumForces(registry, deviations, trig)
  {
    totalX, totalY := 0.0, 0.0;
    for i := 0 to |registry|
      invariant Vec(totalX, totalY) == SumForces(registry[..i], deviations, trig)
    {
      var sector := registry[i];
      assert registry[..i + 1][..i] == registry[..i];
      if sector.code !in deviations {
        continue;
      }
      var strength := deviations[sector.code];
      var rad := ClockToRad(sector.clock, trig.pi);
      var x := strength * trig.cos(rad);
      var y := strength * trig.sin(rad);
      totalX := totalX + x;
      totalY := totalY + y;
    }
    assert registry[..|registry|] == registry;
  }

  // ---------------------------------------------------------------------------
  // Deviations and baselines

  /** A price equal to its baseline deviates by zero, and only such a price; above a
      positive baseline the deviation is positive, below it negative. */
  lemma DeviationSign(current: real, baseline: real)
    requires baseline != 0.0
    ensures Deviation(current, baseline) == 0.0 <==> current == baseline
    ensures baseline > 0.0 ==> (Deviation(current, baseline) > 0.0 <==> current > baseline)
    ensures baseline > 0.0 ==> (Deviation(current, baseline) < 0.0 <==> current < baseline)
  {
    var q := (current - baseline) / baseline;
    assert q * baseline == current - baseline;
    if baseline > 0.0 {
      assert q > 0.0 <==> current - baseline > 0.0;
      assert q < 0.0 <==> current - baseline < 0.0;
    }
  }

  /** Rows that all price c at p sum to |rows| * p. */
  lemma {:induction false} SumConstant(rows: Table, c: Code, p: real)
    requires Priced(rows, c)
    requires forall i :: 0 <= i < |rows| ==> rows[i].prices[c] == p
    ensures Sum(rows, c) == |rows| as real * p
  {
    if rows != [] {
      SumConstant(Front(rows), c, p);
    }
  }

  /** Rows that all price c above zero have a positive sum. */
  lemma {:induction false} SumPositive(rows: Table, c: Code)
    requires Priced(rows, c) && |rows| > 0
    requires forall i :: 0 <= i < |rows| ==> rows[i].prices[c] > 0.0
    ensures Sum(rows, c) > 0.0
  {
    if |rows| > 1 {
      SumPositive(Front(rows), c);
    }
  }

  /** Over a window of unchanged prices the baseline is that price. */
  lemma FlatBaseline(rows: Table, c: Code)
    requires |rows| >= HISTORY && SameColumns(rows) && c in Last(rows).prices
    requires forall i :: |rows| - HISTORY <= i < |rows| ==> rows[i].prices == Last(rows).prices
    ensures Priced(Window(rows), c) && Baseline(rows, c) == Last(rows).prices[c]
  {
    WindowPriced(rows);
    SumConstant(Window(rows), c, Last(rows).prices[c]);
  }

  /** A price table of positive prices has a nonzero baseline everywhere. */
  lemma PositivePricesNonzeroBaselines(t: Table)
    requires SameColumns(t)
    requires forall i, c :: 0 <= i < |t| && c in t[i].prices ==> t[i].prices[c] > 0.0
    ensures forall k :: HISTORY <= k <= |t| ==> BaselinesNonzero(t[..k])
  {
    forall k | HISTORY <= k <= |t| ensures BaselinesNonzero(t[..k]) {
      var rows := t[..k];
      SameColumnsPrefix(t, k);
      WindowPriced(rows);
      forall c | c in Last(rows).prices ensures Sum(Window(rows), c) != 0.0 {
        SumPositive(Window(rows), c);
      }
    }
  }

  // ---------------------------------------------------------------------------
  // The fold over the registry

  /** The registry entries whose codes are among the given ones, in order. */
  function Present(registry: seq<Sector>, codes: set<Code>): seq<Sector> {
    if registry == [] then []
    else
      var s := registry[|registry| - 1];
      Present(registry[..|registry| - 1], codes) + (if s.code in codes then [s] else [])
  }

  /** The registry without the entries for one code. */
  function Without(registry: seq<Sector>, code: Code): seq<Sector> {
    if registry == [] then []
    else
      var s := registry[|registry| - 1];
      Without(registry[..|registry| - 1], code) + (if s.code != code then [s] else [])
  }

  /** Entries without a deviation are skipped: the fold equals the fold over the
      entries whose codes have one. */
  lemma {:induction false} SkipAbsent(registry: seq<Sector>, devs: map<Code, real>, trig: Trig)
    ensures SumForces(registry, devs, trig) == SumForces(Present(registry, devs.Keys), devs, trig)
  {
    if registry != [] {
      var front, s := registry[..|registry| - 1], registry[|registry| - 1];
      SkipAbsent(front, devs, trig);
      if s.code in devs {
        var p := Present(front, devs.Keys) + [s];
        assert Present(registry, devs.Keys) == p;
        assert p[..|p| - 1] == Present(front, devs.Keys) && p[|p| - 1] == s;
      } else {
        assert Present(registry, devs.Keys) == Present(front, devs.Keys);
      }
    }
  }

  /** A code with no deviation can be dropped from the registry without changing the fold. */
  lemma {:induction false} DropAbsentCode(registry: seq<Sector>, devs: map<Code, real>, trig: Trig, code: Code)
    requires code !in devs
    ensures SumForces(registry, devs, trig) == SumForces(Without(registry, code), devs, trig)
  {
    if registry != [] {
      var front, s := registry[..|registry| - 1], registry[|registry| - 1];
      DropAbsentCode(front, devs, trig, code);
      var w := Without(front, code);
      if s.code != code {
        assert Without(registry, code) == w + [s];
        SumForcesSnoc(w, s, devs, trig);
      } else {
        assert Without(registry, code) == w;
        assert Contribution(s, devs, trig) == Zero;
      }
    }
  }

  /** Appending an entry adds its force. */
  lemma SumForcesSnoc(registry: seq<Sector>, s: Sector, devs: map<Code, real>, trig: Trig)
    ensures SumForces(registry + [s], devs, trig) == Add(SumForces(registry, devs, trig), Contribution(s, devs, trig))
  {
    assert (registry + [s])[..|registry|] == registry;
  }

  /** When every deviation is zero the forces cancel to the zero vector. */
  lemma {:induction false} ZeroDeviations(registry: seq<Sector>, devs: map<Code, real>, trig: Trig)
    requires forall c :: c in devs ==> devs[c] == 0.0
    ensures SumForces(registry, devs, trig) == Zero
  {
    if registry != [] {
      ZeroDeviations(registry[..|registry| - 1], devs, trig);
    }
  }

  /** The entry's code either has no deviation or a zero one. */
  ghost predicate Silent(s: Sector, devs: map<Code, real>) {
    s.code in devs ==> devs[s.code] == 0.0
  }

  /** When only entry k can have a nonzero deviation, the fold is that entry's force. */
  lemma SingleContributor(registry: seq<Sector>, devs: map<Code, real>, trig: Trig, k: nat)
    requires k < |registry|
    requires forall j :: 0 <= j < |registry| && j != k ==> Silent(registry[j], devs)
    ensures SumForces(registry, devs, trig) == Contribution(registry[k], devs, trig)
  {
    var rest := registry[..k] + registry[k + 1..];
    SumForcesRemove(registry, devs, trig, k);
    forall j | 0 <= j < |rest| ensures Silent(rest[j], devs) {
      if j < k {
        assert rest[j] == registry[j];
      } else {
        assert rest[j] == registry[j + 1];
      }
    }
    SilentFold(rest, devs, trig);
  }

  /** The fold over silent entries is the zero vector. */
  lemma {:induction false} SilentFold(registry: seq<Sector>, devs: map<Code, real>, trig: Trig)
    requires forall j :: 0 <= j < |registry| ==> Silent(registry[j], devs)
    ensures SumForces(registry, devs, trig) == Zero
  {
    if registry != [] {
      SilentFold(registry[..|registry| - 1], devs, trig);
    }
  }

  /** The fold is the fold without entry j plus entry j's force. */
  lemma {:induction false} SumForcesRemove(registry: seq<Sector>, devs: map<Code, real>, trig: Trig, j: nat)
    requires j < |registry|
    ensures SumForces(registry, devs, trig)
         == Add(SumForces(registry[..j] + registry[j + 1..], devs, trig), Contribution(registry[j], devs, trig))
  {
    var n := |registry|;
    if j < n - 1 {
      var front := registry[..n - 1];
      SumForcesRemove(front, devs, trig, j);
      var rest := registry[..j] + registry[j + 1..];
      assert rest[..|rest| - 1] == front[..j] + front[j + 1..];
      assert rest[|rest| - 1] == registry[n - 1];
    } else {
      assert registry[..j] + registry[j + 1..] == registry[..n - 1];
    }
  }

  /** The order of the registry does not matter: a reordered registry gives the same sum. */
  lemma {:induction false} SumForcesPermutation(r1: seq<Sector>, r2: seq<Sector>, devs: map<Code, real>, trig: Trig)
    requires multiset(r1) == multiset(r2)
    ensures SumForces(r1, devs, trig) == SumForces(r2, devs, trig)
    decreases |r1|
  {
    if r1 != [] {
      var n := |r1|;
      var s := r1[n - 1];
      assert r1 == r1[..n - 1] + [s];
      assert s in multiset(r2);
      var j :| 0 <= j < |r2| && r2[j] == s;
      var rest := r2[..j] + r2[j + 1..];
      assert r2 == r2[..j] + [s] + r2[j + 1..];
      assert multiset(r1) == multiset(r1[..n - 1]) + multiset{s};
      assert multiset(r2) == multiset(r2[..j]) + multiset{s} + multiset(r2[j + 1..]);
      assert multiset(rest) == multiset(r2[..j]) + multiset(r2[j + 1..]);
      assert multiset(r1[..n - 1]) == multiset(r1) - multiset{s};
      assert multiset(rest) == multiset(r2) - multiset{s};
      SumForcesPermutation(r1[..n - 1], rest, devs, trig);
      SumForcesRemove(r2, devs, trig, j);
    } else {
      assert |r2| == |multiset(r2)| == 0;
    }
  }

  // ---------------------------------------------------------------------------
  // The cycle vector of a table

  /** On an ascending table a vector exists exactly when the table has at least HISTORY
      rows and the HISTORY-th row is dated on or before d. */
  lemma VectorDefined(t: Table, d: Date, registry: seq<Sector>, trig: Trig)
    requires ValidTable(t)
    ensures Vector(t, d, registry, trig).Some? <==> |t| >= HISTORY && t[HISTORY - 1].date <= d
  {
    UntilPrefix(t, d);
  }

  /** Every instrument at its baseline. */
  ghost predicate AtBaseline(rows: Table) {
    && |rows| >= HISTORY && SameColumns(rows)
    && (WindowPriced(rows);
        forall c :: c in Last(rows).prices ==> Last(rows).prices[c] == Baseline(rows, c))
  }

  /** A table whose every latest price equals its moving average gives the zero vector. */
  lemma VectorAtBaseline(t: Table, d: Date, registry: seq<Sector>, trig: Trig)
    requires ValidTable(t)
    requires AtBaseline(Until(t, d))
    ensures Vector(t, d, registry, trig) == Some(Zero)
  {
    var rows := Until(t, d);
    UntilPrefix(t, d);
    SameColumnsPrefix(t, |rows|);
    WindowPriced(rows);
    var devs := Deviations(rows);
    forall c | c in devs ensures devs[c] == 0.0 {
      DeviationSign(Last(rows).prices[c], Baseline(rows, c));
    }
    ZeroDeviations(registry, devs, trig);
  }

  /** A window of unchanged prices puts every instrument at its baseline. */
  lemma FlatWindowAtBaseline(rows: Table)
    requires |rows| >= HISTORY && SameColumns(rows)
    requires forall i :: |rows| - HISTORY <= i < |rows| ==> rows[i].prices == Last(rows).prices
    ensures AtBaseline(rows)
  {
    forall c | c in Last(rows).prices ensures Priced(Window(rows), c) && Last(rows).prices[c] == Baseline(rows, c) {
      FlatBaseline(rows, c);
    }
  }

  /** An instrument the table never prices contributes nothing: the vector is the one
      of the registry without it. */
  lemma VectorWithoutUnpricedCode(t: Table, d: Date, registry: seq<Sector>, trig: Trig, code: Code)
    requires ValidTable(t)
    requires forall i :: 0 <= i < |t| ==> code !in t[i].prices
    ensures Vector(t, d, registry, trig) == Vector(t, d, Without(registry, code), trig)
  {
    var rows := Until(t, d);
    if |rows| >= HISTORY {
      UntilPrefix(t, d);
      SameColumnsPrefix(t, |rows|);
      DropAbsentCode(registry, Deviations(rows), trig, code);
    }
  }

  /** Reordering the registry does not change the vector. */
  lemma VectorPermutation(t: Table, d: Date, r1: seq<Sector>, r2: seq<Sector>, trig: Trig)
    requires ValidTable(t)
    requires multiset(r1) == multiset(r2)
    ensures Vector(t, d, r1, trig) == Vector(t, d, r2, trig)
  {
    var rows := Until(t, d);
    if |rows| >= HISTORY {
      UntilPrefix(t, d);
      SameColumnsPrefix(t, |rows|);
      SumForcesPermutation(r1, r2, Deviations(rows), trig);
    }
  }

  /** One instrument at 3 o'clock deviating by +40%, every other one by zero: the
      vector is (10, 0), given cos 0 = 1 and sin 0 = 0. */
  lemma SingleInstrumentAtThree(registry: seq<Sector>, devs: map<Code, real>, trig: Trig, k: nat)
    requires k < |registry| && registry[k].clock == 3.0
    requires registry[k].code in devs && devs[registry[k].code] == 40.0
    requires forall j :: 0 <= j < |registry| && j != k ==> Silent(registry[j], devs)
    requires trig.cos(0.0) == 1.0 && trig.sin(0.0) == 0.0
    ensures Scaled(SumForces(registry, devs, trig)) == Vec(10.0, 0.0)
  {
    SingleContributor(registry, devs, trig, k);
    ForceAtThree(40.0, trig);
  }
}
