# Machine-vision QC station: decision logic in Dafny

This project models the decision logic of `Machine_Vision_QC.py`, an OpenMV script that inspects
populated circuit boards of four colour variants (yellow, blue, red, gray). The model covers:

- the constant tables: `COLORS`, `BINARY_THRESHOLDS`, `EXP_TIMES`, `PERIMETER_ROIS`, `INNER_ROIS`,
  `COMPONENT_ROIS` and `GOOD_BOARDS`;
- the colour classifier (`get_color`);
- the exposure search (`get_exp_time`) and the retry-once around it in the main loop;
- the two-phase board inspection (`inspect_board`) with its good/bad history counters;
- the presence probes (`sense_machine_empty`, `ready_for_shot`);
- one inspection cycle that joins these steps.

Every camera measurement is an input:

- the RGB triple that `get_color` obtains from the histogram and `image.lab_to_rgb`;
- the reading `probe(e)` of the exposure region at exposure `e` (`test_new_exp_time`);
- the black-pixel count `measured(phase, id)` of component `id` in the snapshot of `phase`;
- the mean `reading(i)` of the `i`-th trigger-region snapshot.

Modules, one per file:

- `Wrappers` (`wrappers.dfy`): `Option`. It replaces the string sentinel `"none"`.
- `Arith` (`arith.dfy`): `Abs`.
- `Scan` (`scan.dfy`): `FirstWhere`, the first-match search. The classifier, the exposure search, the
  inspection and the settle detector all stop at the first element that passes a test, and each is
  specified through it.
- `Config` (`config.dfy`): the tables and their integrity lemmas.
  - Colours are the datatype `BoardColor`.
  - `COLORS` is an ordered `seq<Profile>`, so that first-match-wins is kept.
  - The catalogs are `seq<Roi>` in insertion order.
  - `GOOD_BOARDS[c]` is a `map<int, int>`. It is built from the 44 counts of each colour, listed in
    id order 1..44, exactly as the source lists them.
- `ColorClassifier` (`color_classifier.dfy`): `GetColor` with its nested loops, and `Classify`, which
  specifies it.
- `ExposureCalibrator` (`exposure.dfy`): `GetExpTime` with its loop, and `Search`, which specifies it.
  Also the retry, both as written and corrected.
- `BoardInspector` (`inspector.dfy`): the `History` class and `InspectBoard`, which mutates it.
  `Schedule` and `Decide` specify the method.
- `PresenceSensor` (`presence.dfy`): `SenseMachineEmpty`, and `ReadyForShot` with its loop.
- `Station` (`station.dfy`): one cycle after the part has settled. It classifies, calibrates with one
  retry and inspects. If both searches fail it aborts.

The float test `(m − r) / r < −0.90` at line 274 becomes the integer test `10 * m < r`.
`BoardInspector.RoiFailsIffPercentChangeBelow` proves the two equivalent over the reals for every
positive reference. Python's `int()` truncates toward zero, and the model writes that out:

- `int((min + max) / 2)` is `ExposureCalibrator.Midpoint`;
- `int((max − min) / 1000 + 1)` is `ExposureCalibrator.Attempts`, which is 0 when max < min.

Three behaviours of the code that are easy to misread:

- Probe count of the exposure search. A search that never reads in the window makes
  floor((max−min)/1000)+1 probes in total, midpoint included (`ExhaustedSearchProbeCount`).
- `ready_for_shot` with means 50, 48, 46, …. The first mean differs from the starting baseline 0 by
  50, so it does not settle. The second, 48, differs from the new baseline 50 by 2 < 25, so the
  stream settles at the second snapshot (`SlowDriftSettlesAtSecondReading`).
- Catalog overlap. Component 15 is in both catalogs (`CatalogsShareComponent15`), so it is checked
  in each phase.

## Model

| member | source | states |
|---|---|---|
| `Config.Ids` | Machine_Vision_QC.py:263 | definition: a catalog's ids, one per ROI, in insertion order |
| `Config.ComponentRois` | Machine_Vision_QC.py:99 | `COMPONENT_ROIS` has one catalog per inspection phase (two) |
| `Config.ReferenceTable` | Machine_Vision_QC.py:104-132 | definition: a reference table is keyed by exactly the components 1..44, each with its listed count |
| `Config.ExpRange` | Machine_Vision_QC.py:35-39 | `EXP_TIMES` has a range for every colour |
| `Config.GoodBoard` | Machine_Vision_QC.py:104-132 | `GOOD_BOARDS` has a reference table for every colour |
| `Config.Labels` | Machine_Vision_QC.py:5-8 | definition: the colours of `COLORS` are exactly its profiles' labels |
| `Config.ColorKeysAgree` | Machine_Vision_QC.py:5-39 | `COLORS`, `BINARY_THRESHOLDS`, `EXP_TIMES` and `GOOD_BOARDS` have the same four colour keys, fallback gray included |
| `Config.ThresholdsPerPhase` | Machine_Vision_QC.py:17-30 | each colour has one binary threshold per inspection phase |
| `Config.ExposureRangesValid` | Machine_Vision_QC.py:35-39 | every exposure range satisfies 0 <= min < max |
| `Config.CatalogsCoverComponents` | Machine_Vision_QC.py:49-97 | the union of the two catalogs' ids is exactly 1..44 |
| `Config.CatalogIdsDistinct` | Machine_Vision_QC.py:49-97 | no id repeats inside a catalog |
| `Config.CatalogsShareComponent15` | Machine_Vision_QC.py:56-80 | component 15 is in both catalogs |
| `Config.ReferenceCountsPositive` | Machine_Vision_QC.py:104-132 | every colour has a strictly positive count for each component 1..44 |
| `Config.CatalogReferencesPositive` | Machine_Vision_QC.py:261-274 | every id either catalog lists has a positive reference for every colour, so line 274's division is defined |
| `ColorClassifier.Classify` | Machine_Vision_QC.py:173-200 | the reported colour is a profile's colour or the fallback; it is the fallback when no profile matches; any other colour belongs to a matching profile with no matching profile before it |
| `ColorClassifier.GetColor` | Machine_Vision_QC.py:170-200 | returns the colour of the first profile, in table order, whose three channels all differ from the test triple by less than 40; if there is none, returns gray |
| `ColorClassifier.ClassifyIsTableColor` | Machine_Vision_QC.py:173-200 | the reported colour is always one of the `COLORS` keys |
| `ColorClassifier.ReferenceTripleClassifiesAsItself` | Machine_Vision_QC.py:5-8 | a triple equal to a profile's reference triple is classified as that profile |
| `ColorClassifier.NoMatchFallsBackToGray` | Machine_Vision_QC.py:194-200 | a triple that is 40 or more off every profile on some channel is reported gray |
| `ColorClassifier.YellowShadowsRed` | Machine_Vision_QC.py:173-193 | the yellow and red windows overlap; a triple in both is reported yellow, because yellow is scanned first |
| `ExposureCalibrator.Midpoint` | Machine_Vision_QC.py:219 | the truncated midpoint lies in [min, max), and is the floor of (min+max)/2 for non-negative bounds |
| `ExposureCalibrator.Candidates` | Machine_Vision_QC.py:219-239 | definition: the candidates are the midpoint, then min + k·1000 for k = 0, 1, …, one per attempt |
| `ExposureCalibrator.GetExpTime` | Machine_Vision_QC.py:213-240 | probes the candidates in order and stops at the first reading in [200, 220], returning it; no probe follows a success; otherwise it probes every candidate and returns None |
| `ExposureCalibrator.AttemptsCount` | Machine_Vision_QC.py:223 | for min <= max the attempt count n is at least 1 and satisfies (n−1)·1000 <= max−min < n·1000; for max < min it is 0 |
| `ExposureCalibrator.Search` | Machine_Vision_QC.py:226-240 | a found exposure reads in the window [200, 220] |
| `ExposureCalibrator.CandidatesWithinRange` | Machine_Vision_QC.py:218-239 | for 0 <= min < max every probed exposure lies in [min, max); max is never tried |
| `ExposureCalibrator.ExhaustedSearchProbeCount` | Machine_Vision_QC.py:223-240 | with no reading in the window, the search makes floor((max−min)/1000)+1 probes and returns None |
| `ExposureCalibrator.MidpointFirst` | Machine_Vision_QC.py:224-231 | a midpoint reading in the window is returned on the first probe |
| `ExposureCalibrator.SearchSoundness` | Machine_Vision_QC.py:230-231 | a returned exposure is a candidate whose reading is in the window |
| `ExposureCalibrator.ConfiguredCandidatesWithinRange` | Machine_Vision_QC.py:35-39 | for each colour's configured range, every candidate lies in [min, max) |
| `ExposureCalibrator.AppliedExposureAsWritten` | Machine_Vision_QC.py:340-350 | the first search's exposure when it succeeds; otherwise the second search's exposure when that succeeds |
| `ExposureCalibrator.SentinelIffBothSearchesFail` | Machine_Vision_QC.py:340-350 | as written, "none" reaches `set_auto_exposure` exactly when both searches fail |
| `ExposureCalibrator.SentinelReachesSensor` | Machine_Vision_QC.py:340-350 | as written, a board that never reads in the window hands the sentinel "none" to `set_auto_exposure` |
| `ExposureCalibrator.CalibrateWithRetry` | Machine_Vision_QC.py:340-345 | the first search's result when it succeeds; otherwise exactly the second search's result |
| `ExposureCalibrator.CalibrateWithRetrySound` | Machine_Vision_QC.py:340-345 | a calibrated exposure is a candidate of the range that read in the window on one of the two attempts |
| `ExposureCalibrator.CalibrateWithRetryFailsIffBothFail` | Machine_Vision_QC.py:340-345 | the calibration fails exactly when both searches fail |
| `ExposureCalibrator.RetryMatchesAsWritten` | Machine_Vision_QC.py:340-350 | the corrected retry gives the exposure the source applies, or None exactly where the source applies "none" |
| `BoardInspector.History.constructor` | Machine_Vision_QC.py:135-137 | the counters start at good = 0, bad = 0 |
| `BoardInspector.RoiFails` | Machine_Vision_QC.py:274-276 | a failing ROI measured less than its reference; a count of exactly 10% of the reference does not fail; a count of 0 fails iff the reference is positive |
| `BoardInspector.RoiFailsIffPercentChangeBelow` | Machine_Vision_QC.py:274-276 | for ref > 0, `10*m < ref` iff `(m − ref)/ref < −0.90` |
| `BoardInspector.NinetyPercentBoundary` | Machine_Vision_QC.py:276 | a change of exactly −0.90 does not fail (strict `<`); one pixel fewer does |
| `BoardInspector.ExcessNeverFails` | Machine_Vision_QC.py:274-276 | a count at or above the reference never fails; only a shortfall is flagged |
| `BoardInspector.PhaseVisits` | Machine_Vision_QC.py:263 | definition: a phase checks its catalog's ids in insertion order |
| `BoardInspector.ScheduleMembers` | Machine_Vision_QC.py:254-263 | a (phase, id) check is scheduled iff the phase runs and the id is in that phase's catalog |
| `BoardInspector.SchedulePhasesInOrder` | Machine_Vision_QC.py:254 | every phase-0 check precedes every phase-1 check |
| `BoardInspector.SchedulePrefix` | Machine_Vision_QC.py:254-263 | the checks made up to any point are a prefix of the full schedule |
| `BoardInspector.Decide` | Machine_Vision_QC.py:254-287 | a rejection names a scheduled check with a reference, carries its measured and reference counts, and that check fails; the board is accepted iff no scheduled check fails |
| `BoardInspector.VerdictAtFirstFailure` | Machine_Vision_QC.py:274-283 | the verdict is a rejection at the first failing check of the schedule |
| `BoardInspector.InspectBoard` | Machine_Vision_QC.py:244-288 | visits the perimeter, then the inner catalog, in order, one snapshot per phase started. It stops at the first failing ROI and increments bad; otherwise it increments good. Exactly one counter rises by 1. Verdict and deltas are a function of the measured counts |
| `BoardInspector.RejectIffSomeCheckFails` | Machine_Vision_QC.py:254-287 | a board is rejected iff some scheduled check fails. The rejection names the first failing check and its two counts |
| `BoardInspector.NoCollapseAccepts` | Machine_Vision_QC.py:284-287 | a board whose counts are all at least 10% of reference is accepted |
| `BoardInspector.ConfiguredReferencesDefined` | Machine_Vision_QC.py:99-132 | the configured catalogs and reference tables meet the inspection's precondition for every colour |
| `BoardInspector.Component15CheckedInBothPhases` | Machine_Vision_QC.py:56-80 | component 15 is checked in phase 0 and in phase 1 |
| `BoardInspector.ConfiguredFirstCheck` | Machine_Vision_QC.py:49-50 | the first check is component 1 in phase 0 |
| `BoardInspector.GrayReferenceOfComponent1` | Machine_Vision_QC.py:104 | gray's reference count for component 1 is 3021 |
| `BoardInspector.GrayComponent1Rejected` | Machine_Vision_QC.py:274-283 | a gray board measuring 250 at component 1 (reference 3021) is rejected at (phase 0, id 1) |
| `PresenceSensor.SenseMachineEmpty` | Machine_Vision_QC.py:292-299 | the fixture reads empty iff the mean exceeds 190 |
| `PresenceSensor.Seconds` | Machine_Vision_QC.py:307-310 | definition: the observation period is the five snapshots 0..4 |
| `PresenceSensor.SettleIndex` | Machine_Vision_QC.py:305-320 | the index found is one of the five snapshots, settled, with no settled snapshot before it; there is none iff no snapshot of the five settles |
| `PresenceSensor.ReadyForShot` | Machine_Vision_QC.py:305-320 | takes 1 to 5 readings, with a baseline that starts at 0 and is then the previous mean. It returns true at the first reading within 25 of its baseline; otherwise false after exactly 5 |
| `PresenceSensor.DarkFirstReadingSettlesImmediately` | Machine_Vision_QC.py:308-315 | a first mean below 25 settles at once, because the baseline starts at 0 |
| `PresenceSensor.SlowDriftSettlesAtSecondReading` | Machine_Vision_QC.py:310-318 | means 50 then 48 settle at the second snapshot |
| `PresenceSensor.SteadyClimbNeverSettles` | Machine_Vision_QC.py:310-320 | means that rise by 50 each second never settle; all five snapshots are spent |
| `Station.Cycle` | Machine_Vision_QC.py:337-360 | the cycle's colour is the classifier's; it aborts iff the retried calibration for that colour's range fails; an inspected cycle's verdict is the inspection's verdict for that colour's reference table |
| `Station.InspectedExposureCalibrated` | Machine_Vision_QC.py:338-350 | an inspected cycle applies a candidate exposure of its colour's range, below max, that read in the window |
| `Station.AbortsExactlyOnSentinel` | Machine_Vision_QC.py:340-350 | the cycle aborts exactly when the source would apply "none"; otherwise it applies the source's exposure |
| `Station.CycleReferencesDefined` | Machine_Vision_QC.py:338-360 | for whatever colour is reported, every checked component has a positive reference |

## Left out

- Camera and board I/O are left out (`init`, `sensor.*`, `snapshot`, `skip_frames`, `pyb.delay`). They
  are hardware side effects. Their readings are oracle inputs, and the delays have no counterpart.
- The histogram, `image.lab_to_rgb`, `img.binary`, `find_blobs` and `blob.pixels()` are left out. They
  are library calls with floating-point colour conversion. The RGB triple and the per-ROI black-pixel
  counts are inputs. `BINARY_THRESHOLDS`, `BLACK_THRESHOLDS`, `EXP_ROI` and `TRIGGER_ROI` are kept as
  data, the local `color_roi` of line 160 is not, and `BINARY_THRESHOLDS` only through `Config.ThresholdsPerPhase`. Their effect on
  the counts is inside the `measured` oracle.
- Floating-point division and `round` are replaced by exact arithmetic. The integer test agrees with
  the float test whenever the quotient is not within one unit in the last place of −0.90. That holds
  for any reference count of the size the tables hold.
- `print` logging is left out. `InspectBoard` returns the verdict, and the failing id and counts that
  the source prints, as a `Verdict` value.
- The infinite polling loop (lines 324-365) is left out, except the retry at lines 342-345 and the
  cycle in `Station`. The empty/occupied gate and the wait-for-removal loop block on hardware.
- `ExposureCalibrator.GetExpTime`: it takes the range (min, max) directly, not the `EXP_TIMES` dictionary
  and colour. A colour missing from the dictionary cannot occur, because every colour has a range
  (`Config.ExpRange`).
- `BoardInspector.InspectBoard`: it requires `color in references` (lines 256 and 261 raise `KeyError`
  otherwise) and a positive reference for every catalog id. A missing id raises `KeyError` and a zero
  reference `ZeroDivisionError` at line 274. A negative reference raises nothing there: the source
  divides and compares, and the model does not cover that case. The configured tables meet the
  requirement for every colour (`BoardInspector.ConfiguredReferencesDefined`).
- `ExposureCalibrator.Search`: `probe` is a function of the exposure alone. The source takes a fresh
  snapshot for every probe (line 207), and the midpoint recurs as a later candidate (index 21 for
  blue, 15 for yellow, 36 for red, 86 for gray), so a second probe of the midpoint could read
  differently. The model cannot show that.
- `COLORS`, `PERIMETER_ROIS` and `INNER_ROIS` are taken to iterate in insertion order. MicroPython's
  plain `dict` does not promise an order (it offers `OrderedDict` for that).
  `ColorClassifier.YellowShadowsRed` and the inspection order depend on this assumption.

## Findings

| source | as written | input that shows it | evidently intended | confidence | as-written member | corrected member |
|---|---|---|---|---|---|---|
| Machine_Vision_QC.py:340-350 | after a second failed exposure search, the string "none" is passed as `exposure_us` to `set_auto_exposure` | any colour, with the exposure region never reading in [200, 220] on either attempt (e.g. every reading 0) | skip the inspection when calibration fails twice | not executed; high, by reading | `ExposureCalibrator.SentinelReachesSensor` | `Station.InspectedExposureCalibrated` |
