/**
 * One inspection cycle once a part has settled (Machine_Vision_QC.py, lines 337-360):
 * classify the colour, calibrate the exposure with one retry, inspect. Unlike the source,
 * which hands the sentinel "none" to the sensor when both searches fail, the cycle here is
 * aborted in that case and no inspection runs.
 */
module Station {
  import opened Wrappers
  import opened Config
  import opened ColorClassifier
  import opened ExposureCalibrator
  import opened BoardInspector

  datatype CycleOutcome =
    | Aborted(color: BoardColor)
    | Inspected(color: BoardColor, exposure: int, verdict: Verdict)

  /** The cycle for a board whose colour patch converts to `rgb`, whose exposure probes read `probe`
      (then `retryProbe` after the reset), and whose components count `measured`. */
  function Cycle(rgb: Triple, probe: int -> int, retryProbe: int -> int, measured: (nat, int) -> nat): (o: CycleOutcome)
    ensures o.color == Classify(Colors, FallbackColor, rgb)
    ensures o.Aborted? <==> CalibrateWithRetry(ExpRange(o.color).0, ExpRange(o.color).1, probe, retryProbe).None?
    ensures o.Inspected? ==> o.verdict == Decide(ComponentRois(), InspectionPhases, GoodBoard(o.color), measured)
  {
    var color := Classify(Colors, FallbackColor, rgb);
    var (minT, maxT) := ExpRange(color);
    match CalibrateWithRetry(minT, maxT, probe, retryProbe)
    case None => Aborted(color)
    case Some(e) => Inspected(color, e, Decide(ComponentRois(), InspectionPhases, GoodBoard(color), measured))
  }

  /** An inspected cycle applies a calibrated exposure: a candidate of the colour's range, below its
      maximum, at which one of the two searches read the target window. */
  lemma InspectedExposureCalibrated(rgb: Triple, probe: int -> int, retryProbe: int -> int,
                                    measured: (nat, int) -> nat)
    requires Cycle(rgb, probe, retryProbe, measured).Inspected?
    ensures var o := Cycle(rgb, probe, retryProbe, measured);
      var (minT, maxT) := ExpRange(o.color);
      o.exposure in Candidates(minT, maxT) && minT <= o.exposure < maxT &&
      (InWindow(probe(o.exposure)) || InWindow(retryProbe(o.exposure)))
  {
    var color := Classify(Colors, FallbackColor, rgb);
    CalibrateWithRetrySound(ExpRange(color).0, ExpRange(color).1, probe, retryProbe);
    ConfiguredCandidatesWithinRange(color);
  }

  /** The cycle aborts exactly when the source would hand "none" to the sensor, and otherwise applies
      the exposure the source applies. */
  lemma AbortsExactlyOnSentinel(rgb: Triple, probe: int -> int, retryProbe: int -> int,
                                measured: (nat, int) -> nat)
    ensures var o := Cycle(rgb, probe, retryProbe, measured);
      var (minT, maxT) := ExpRange(o.color);
      match o
      case Aborted(_) => AppliedExposureAsWritten(minT, maxT, probe, retryProbe) == NoneString
      case Inspected(_, e, _) => AppliedExposureAsWritten(minT, maxT, probe, retryProbe) == Micros(e)
  {
    var color := Classify(Colors, FallbackColor, rgb);
    RetryMatchesAsWritten(ExpRange(color).0, ExpRange(color).1, probe, retryProbe);
  }

  /** Whatever colour the classifier reports, every component the inspection checks has a positive
      reference count for it, so the inspection's division is defined. */
  lemma CycleReferencesDefined(rgb: Triple, probe: int -> int, retryProbe: int -> int,
                               measured: (nat, int) -> nat)
    ensures ReferencesDefined(ComponentRois(), InspectionPhases, GoodBoard(Cycle(rgb, probe, retryProbe, measured).color))
  {
    ConfiguredReferencesDefined(Cycle(rgb, probe, retryProbe, measured).color);
  }
}
