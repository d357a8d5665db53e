# Cycle vector engine — a Dafny model

This project models the core of the sector-rotation chart (`src/main.py`). That
core is the "cycle vector engine". Twelve Tokyo sector instruments each sit on a
12-hour "economic clock". Each instrument's momentum is the percentage deviation
of its latest closing price from its 200-row moving average. Each momentum pulls
towards its instrument's clock direction. The summed pull, divided by 4, is a
point in the plane. The engine samples that point every ten days over the past
year and names the quadrant (economic phase) of the latest point.

Modules, leaves first:

- `Registry` (`registry.dfy`): the `SECTORS` registry (code, name, clock position), the phase
  table `PHASES` in its insertion order, and the `Phase` labels (回復期, 好況期, 後退期, 不況期, 不明).
- `Clock` (`clock.dfy`): the clock-to-angle conversion `90 - 30·clock` degrees, then radians. Cosine,
  sine and the value of pi are not computed. They are fields of a `Trig` value that
  every operation takes as a parameter, so every statement holds for any trigonometry.
- `Prices` (`prices.dfy`): the price table as a sequence of rows, each with an integer day number
  and a map from code to `real` price. It also holds the filter "rows dated on or
  before d" (`Until`, a boolean mask as in pandas) and the nominal-date alignment (`Align`).
- `CycleVector` (`vector.dfy`): the window, baseline and deviation arithmetic; the fold over the
  registry (`SumForces`); the specification `Vector`; and `CalculateVector`, the
  program's computation, proved equal to `Vector`, with its accumulating loop (and its `continue`) in
  `AccumulateForces`.
- `Trajectory` (`trajectory.dfy`): the nominal dates from `end - 365` to `end` in 10-day steps, and
  the sampling loop `SampleTrajectory`, proved equal to the specification `Sampled`.
- `PhaseClassifier` (`phase.dfy`): the sign rule (zero counts as positive) and the loop-and-break
  scan of the phase table, `Classify`.
- `Engine` (`engine.dfy`): `Run`, the part of `main` from the latest date to the phase label.

The table is assumed `ValidTable`, which means three things:

- dates strictly ascend;
- every row prices the same instruments (the price source fills gaps forwards and backwards);
- no instrument's baseline is zero wherever one is taken (the program divides by it unguarded).

`PositivePricesNonzeroBaselines` shows that positive prices meet the third condition.

The proofs also show that aligning a nominal date to the prior table date never
changes the result. The rows dated on or before the aligned date are exactly those
dated on or before the nominal date (`AlignKeepsHistory`). So the trajectory is just
the vectors of the nominal dates that have at least 200 rows at or before them
(`AlignmentIsTransparent`).

Three behaviours of the program that the model keeps as they are:

- The program divides by the 200-row baseline without a guard (src/main.py:113). The model requires the baseline to be nonzero.
- The 200-row threshold counts the rows dated on or before the target date, not the rows of the whole table (src/main.py:105-107).
- `main` does not add the current point to the trajectory. It passes that point to the renderer separately (src/main.py:317-322), and `Run` does the same.

## Model

| member | source | states |
|---|---|---|
| `Registry.RegistryShape` | src/main.py:31-51 | twelve sectors, distinct codes, every clock position in [0, 12), and three sectors per quadrant span in the listed order (recovery 9–12, boom 0–3, slowdown 3–6, recession 6–9) |
| `Registry.PhaseTableShape` | src/main.py:54-59 | the phase table has four rules with distinct phases and distinct sign pairs drawn from {+1, −1}, none of them Unknown |
| `Clock.ClockFace` | src/main.py:98-101 | degrees are exactly `90 − 30·clock`: clock 0 is 90° (+y, π/2 rad), 3 is 0° (+x, 0 rad), 6 is −90°, 9 is −180°; each added hour subtracts 30°; position 12 is position 0 minus a full turn (2π) |
| `Clock.DirectionAtTwelve` | src/main.py:98-101 | with 2π-periodic cosine and sine, clock positions 0 and 12 give the same direction |
| `Clock.ForceAtThree` | src/main.py:124-127 | a force at 3 o'clock is (strength, 0) when cos 0 = 1 and sin 0 = 0 |
| `Prices.UntilMembers` | src/main.py:105 | the filtered rows are exactly the table rows dated on or before the target date |
| `Prices.UntilPrefix` | src/main.py:105 | on an ascending table the filter keeps a prefix: row i is kept iff it is dated on or before the target |
| `Prices.AlignIsLatestPrior` | src/main.py:284-290 | alignment returns the nominal date when present and otherwise the latest table date on or before it; in both cases that is the latest table date ≤ the nominal date; it fails exactly when every table date is later |
| `Prices.AlignMonotone` | src/main.py:284-290 | a later nominal date aligns, and to a date no earlier |
| `Prices.AlignKeepsHistory` | src/main.py:284-292 | the rows dated on or before the aligned date are the rows dated on or before the nominal date |
| `CycleVector.CalculateVector` | src/main.py:103-133 | the result is None exactly when fewer than 200 rows are dated on or before the target, and otherwise equals `Vector`: the registry fold of deviation·(cos, sin) of each clock angle, skipping codes without a deviation, divided by 4.0 |
| `CycleVector.AccumulateForces` | src/main.py:115-130 | the accumulating loop, including its `continue` for codes without a deviation, ends with the registry fold `SumForces` |
| `CycleVector.DeviationSign` | src/main.py:113 | `(current − ma200)/ma200·100` is zero iff current equals the baseline; with a positive baseline it is positive iff current is above it and negative iff below |
| `CycleVector.SumConstant` | src/main.py:111 | prices that are all p sum to (number of rows)·p |
| `CycleVector.SumPositive` | src/main.py:111 | positive prices have a positive sum |
| `CycleVector.FlatBaseline` | src/main.py:110-111 | over 200 unchanged rows the moving average is the latest price |
| `CycleVector.PositivePricesNonzeroBaselines` | src/main.py:111-113 | positive prices make every baseline the program divides by nonzero |
| `CycleVector.SkipAbsent` | src/main.py:118-121 | the fold over the registry equals the fold over only the entries whose code has a deviation |
| `CycleVector.DropAbsentCode` | src/main.py:118-121 | removing a code without a deviation from the registry leaves the fold unchanged |
| `CycleVector.ZeroDeviations` | src/main.py:115-130 | every deviation zero gives the zero sum |
| `CycleVector.SilentFold` | src/main.py:118-130 | entries with no deviation or a zero one add no force |
| `CycleVector.SingleContributor` | src/main.py:118-130 | when all entries but one are absent or zero, the sum is that entry's force |
| `CycleVector.SumForcesRemove` | src/main.py:118-130 | the sum is the sum without entry j plus entry j's force |
| `CycleVector.SumForcesPermutation` | src/main.py:118-130 | a reordering of the registry (same multiset) gives the same sum |
| `CycleVector.VectorDefined` | src/main.py:105-108 | on an ascending table a vector exists iff the table has at least 200 rows and row 200 is dated on or before the target |
| `CycleVector.VectorAtBaseline` | src/main.py:110-133 | when every latest price equals its 200-row mean the vector is (0, 0) |
| `CycleVector.FlatWindowAtBaseline` | src/main.py:110-111 | a window of 200 identical rows puts every instrument at its baseline |
| `CycleVector.VectorWithoutUnpricedCode` | src/main.py:118-121 | a code the table never prices gives the same vector as a registry without that code |
| `CycleVector.VectorPermutation` | src/main.py:118-133 | reordering the registry does not change the vector |
| `CycleVector.SingleInstrumentAtThree` | src/main.py:124-133 | a +40% deviation at 3 o'clock, with all others zero, scales to (10, 0) |
| `Trajectory.NominalDates` | src/main.py:281-282 | the nominal dates start at end − window, step by `step` days, and stop at the last one not after end |
| `Trajectory.NominalWindow` | src/main.py:281-282 | the 365-day window in 10-day steps has 37 strictly ascending dates, none after end |
| `Trajectory.SampleTrajectory` | src/main.py:279-294 | the loop's points are those of `Sampled` over the nominal dates, in order; at most 37 |
| `Trajectory.SampledLength` | src/main.py:284-294 | never more samples than nominal dates |
| `Trajectory.SampleRule` | src/main.py:284-294 | a nominal date yields a sample iff at least 200 rows are dated on or before it; the sample's date is the latest table date on or before it; its point is the vector of the nominal date |
| `Trajectory.SampledNotAfter` | src/main.py:284-294 | samples of nominal dates up to d are dated no later than d's aligned date |
| `Trajectory.SampledDatesNondecreasing` | src/main.py:284-294 | ascending nominal dates give samples with non-decreasing resolved dates |
| `Trajectory.WindowDatesNondecreasing` | src/main.py:279-294 | over the program's own 365-day, 10-day-step window the resolved sample dates never decrease |
| `Trajectory.NoSkipWithHistory` | src/main.py:284-294 | with enough history at every nominal date nothing is skipped: sample m is the sample of nominal date m, so points that repeat are kept |
| `Trajectory.AlignmentIsTransparent` | src/main.py:284-294 | the trajectory's points are exactly the vectors of the nominal dates having at least 200 rows on or before them, in order |
| `PhaseClassifier.Classify` | src/main.py:305-312 | the scan returns the first table rule matching the signs (zero counts as +); the result is never Unknown; Recovery iff x < 0 ≤ y, Boom iff 0 ≤ x and 0 ≤ y, Slowdown iff y < 0 ≤ x, Recession iff x < 0 and y < 0 |
| `PhaseClassifier.QuadrantPhases` | src/main.py:54-59 | the table lookup gives each quadrant its phase, and (0, 0) is Boom |
| `PhaseClassifier.FirstMatchFinds` | src/main.py:309-312 | in a table with distinct sign pairs the scan finds the rule for those signs wherever it stands |
| `Engine.UntilLatest` | src/main.py:276 | every row is dated on or before the table's latest date |
| `Engine.Run` | src/main.py:276-312 | None iff the table has fewer than 200 rows; otherwise the trajectory is sampled over the window ending at the latest date and has at most 37 points, the current point is the vector at the latest date, and the phase is its table phase, never Unknown |

## Left out

- Reading the configuration from the environment and exiting on bad JSON (`load_secrets`): process I/O.
- Downloading prices and filling gaps (`get_market_data`): a foreign library call. Its output appears only as the precondition `ValidTable` (ascending dates, the same instruments on every row); the table must be nonempty for `Run`, as `df.index[-1]` demands.
- The HTML and chart templating (`generate_chart_html`), the WordPress POST, and the console messages: user interface and network I/O.
- Floating point: prices and vectors are exact `real`s, cosine and sine are abstract, and `round(x, 2)` on the published points is not modelled.
- A zero baseline: the program divides by it unguarded and would produce NaN or infinity. The model requires it to be nonzero instead.
- An instrument column that is all missing (all NaN) after the download and so stays in the table: NaN arithmetic is not modelled. An instrument that is absent from the table is modelled, and it is skipped.
- Calendar details of `pd.date_range`: dates are integer day numbers stepped by 10.
