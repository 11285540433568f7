/**
 * The exposure search, get_exp_time (Machine_Vision_QC.py, lines 203-240), and the
 * retry-once around it in the main loop (lines 340-350). A probe of an exposure
 * (test_new_exp_time: set the exposure, wait, snapshot, take the maximum of EXP_ROI)
 * is an oracle `probe` from exposure to reading.
 */
module ExposureCalibrator {
  import opened Wrappers
  import opened Scan
  import opened Config

  /** Step between successive candidates, in microseconds. */
  const TimeIncrement: int := 1000

  /** The target band of the reference region's maximum, inclusive at both ends. */
  const TargetLow: int := 200
  const TargetHigh: int := 220

  predicate InWindow(reading: int)
  {
    TargetLow <= reading <= TargetHigh
  }

  /** int((min + max) / 2): Python's int() truncates toward zero. */
  function Midpoint(minT: int, maxT: int): (mid: int)
    ensures 0 <= minT <= maxT ==> minT <= mid <= maxT
    ensures 0 <= minT < maxT ==> mid < maxT
    ensures 0 <= minT + maxT ==> minT + maxT - 1 <= 2 * mid <= minT + maxT
  {
    var s := minT + maxT;
    if s >= 0 then s / 2 else -((-s) / 2)
  }

  /** The iteration count int((max - min) / 1000 + 1) of range(): for max < min the value inside
      int() lies below 1, so the loop runs zero times. */
  function Attempts(minT: int, maxT: int): nat
  {
    if maxT - minT >= 0 then (maxT - minT) / TimeIncrement + 1 else 0
  }

  /** The attempt count is floor((max - min) / 1000) + 1, the midpoint plus one attempt per whole
      1000 us step from min, and none at all for an inverted range. */
  lemma AttemptsCount(minT: int, maxT: int)
    ensures minT <= maxT ==> Attempts(minT, maxT) >= 1
    ensures minT <= maxT ==>
              (Attempts(minT, maxT) - 1) * TimeIncrement <= maxT - minT < Attempts(minT, maxT) * TimeIncrement
    ensures maxT < minT ==> Attempts(minT, maxT) == 0
  {
  }

  /** The exposure tried at attempt `k`: the midpoint first, then min, min + 1000, min + 2000, ... */
  function Candidate(minT: int, maxT: int, k: nat): int
  {
    if k == 0 then Midpoint(minT, maxT) else minT + (k - 1) * TimeIncrement
  }

  /** Every exposure the search may try, in order. */
  function Candidates(minT: int, maxT: int): (cs: seq<int>)
    ensures |cs| == Attempts(minT, maxT)
    ensures forall k :: 0 <= k < |cs| ==> cs[k] == Candidate(minT, maxT, k)
  {
    seq(Attempts(minT, maxT), k requires 0 <= k => Candidate(minT, maxT, k))
  }

  /** The result of one search: the first candidate whose reading is in the window. */
  function Search(minT: int, maxT: int, probe: int -> int): (r: Option<int>)
    ensures r.Some? ==> InWindow(probe(r.value))
  {
    var cs := Candidates(minT, maxT);
    match FirstWhere(cs, e => InWindow(probe(e)))
    case Some(k) => Some(cs[k])
    case None => None
  }

  /** get_exp_time. `probed` lists the exposures applied to the sensor, in order. */
  method GetExpTime(minT: int, maxT: int, probe: int -> int) returns (exposure: Option<int>, probed: seq<int>)
    ensures exposure == Search(minT, maxT, probe)
    ensures |probed| <= Attempts(minT, maxT) && probed == Candidates(minT, maxT)[..|probed|]
    ensures forall k :: 0 <= k < |probed| ==> (InWindow(probe(probed[k])) <==> exposure.Some? && k == |probed| - 1)
    ensures exposure.Some? ==> |probed| > 0 && exposure.value == probed[|probed| - 1]
    ensures exposure.None? ==> |probed| == Attempts(minT, maxT)
  {
    ghost var cs := Candidates(minT, maxT);
    var avg := Midpoint(minT, maxT);
    var attempts := Attempts(minT, maxT);
    var expTime := avg;
    var firstAttempt := true;
    probed := [];
    for attempt := 0 to attempts
      invariant probed == cs[..attempt]
      invariant forall k :: 0 <= k < attempt ==> !InWindow(probe(cs[k]))
      invariant expTime == Candidate(minT, maxT, attempt)
      invariant firstAttempt <==> attempt == 0
    {
      var statsMax := probe(expTime);
      probed := probed + [expTime];
      if TargetLow <= statsMax <= TargetHigh {
        FirstWhereUnique(cs, e => InWindow(probe(e)), attempt);
        return Some(expTime), probed;
      } else if firstAttempt {
        expTime := minT;
        firstAttempt := false;
      } else {
        expTime := expTime + TimeIncrement;
      }
    }
    assert FirstWhere(cs, e => InWindow(probe(e))).None?;
    assert cs[..attempts] == cs;
    exposure := None;
  }

  /** For a range 0 <= min < max every candidate lies in [min, max): max itself is never tried. */
  lemma CandidatesWithinRange(minT: int, maxT: int)
    requires 0 <= minT < maxT
    ensures forall k :: 0 <= k < Attempts(minT, maxT) ==> minT <= Candidate(minT, maxT, k) < maxT
  {
  }

  /** A search whose readings never enter the window makes floor((max - min) / 1000) + 1 probes. */
  lemma ExhaustedSearchProbeCount(minT: int, maxT: int, probe: int -> int)
    requires minT <= maxT
    requires forall e :: !InWindow(probe(e))
    ensures Search(minT, maxT, probe) == None
    ensures |Candidates(minT, maxT)| == (maxT - minT) / TimeIncrement + 1
  {
    assert FirstWhere(Candidates(minT, maxT), e => InWindow(probe(e))).None?;
  }

  /** When the midpoint reads in the window, it is the answer, found on the first probe. */
  lemma MidpointFirst(minT: int, maxT: int, probe: int -> int)
    requires minT <= maxT
    requires InWindow(probe(Midpoint(minT, maxT)))
    ensures Search(minT, maxT, probe) == Some(Midpoint(minT, maxT))
  {
    FirstWhereUnique(Candidates(minT, maxT), e => InWindow(probe(e)), 0);
  }

  /** A found exposure is a candidate of the range whose reading is in the window. */
  lemma SearchSoundness(minT: int, maxT: int, probe: int -> int)
    requires Search(minT, maxT, probe).Some?
    ensures InWindow(probe(Search(minT, maxT, probe).value))
    ensures Search(minT, maxT, probe).value in Candidates(minT, maxT)
  {
  }

  /** For each board colour the configured range yields candidates inside that range. */
  lemma ConfiguredCandidatesWithinRange(c: BoardColor)
    requires c in ExpTimes
    ensures forall e :: e in Candidates(ExpTimes[c].0, ExpTimes[c].1) ==> ExpTimes[c].0 <= e < ExpTimes[c].1
  {
    ExposureRangesValid();
    CandidatesWithinRange(ExpTimes[c].0, ExpTimes[c].1);
  }

  /** What the main loop hands to set_auto_exposure at line 350: a number, or the string "none". */
  datatype ExposureArgument = Micros(us: int) | NoneString

  /** Lines 340-345 as written: search; on "none" reset and search once more; whatever the second
      search yields, including "none", goes to the sensor. `retryProbe` gives the readings after the reset. */
  function AppliedExposureAsWritten(minT: int, maxT: int, probe: int -> int, retryProbe: int -> int): (a: ExposureArgument)
    ensures Search(minT, maxT, probe).Some? ==> a == Micros(Search(minT, maxT, probe).value)
    ensures Search(minT, maxT, probe).None? && Search(minT, maxT, retryProbe).Some? ==>
              a == Micros(Search(minT, maxT, retryProbe).value)
  {
    match Search(minT, maxT, probe)
    case Some(e) => Micros(e)
    case None =>
      match Search(minT, maxT, retryProbe)
      case Some(e) => Micros(e)
      case None => NoneString
  }

  /** The sentinel reaches the sensor exactly when both searches come back empty. */
  lemma SentinelIffBothSearchesFail(minT: int, maxT: int, probe: int -> int, retryProbe: int -> int)
    ensures AppliedExposureAsWritten(minT, maxT, probe, retryProbe) == NoneString <==>
            Search(minT, maxT, probe).None? && Search(minT, maxT, retryProbe).None?
  {
  }

  /** A board whose reference region never reads in the window (a hand left over the fixture on both
      attempts, say) sends the sentinel "none" to the sensor as an exposure time. */
  lemma SentinelReachesSensor(c: BoardColor)
    requires c in ExpTimes
    ensures AppliedExposureAsWritten(ExpTimes[c].0, ExpTimes[c].1, e => 0, e => 0) == NoneString
  {
    ExposureRangesValid();
    ExhaustedSearchProbeCount(ExpTimes[c].0, ExpTimes[c].1, e => 0);
  }

  /** The retry-once calibration with the exhausted case kept as None, so a caller can abort the cycle
      instead of applying an invalid exposure. */
  function CalibrateWithRetry(minT: int, maxT: int, probe: int -> int, retryProbe: int -> int): (r: Option<int>)
    ensures Search(minT, maxT, probe).Some? ==> r == Search(minT, maxT, probe)
    ensures Search(minT, maxT, probe).None? ==> r == Search(minT, maxT, retryProbe)
  {
    match Search(minT, maxT, probe)
    case Some(e) => Some(e)
    case None => Search(minT, maxT, retryProbe)
  }

  /** A calibrated exposure is a candidate of the range that read in the window on one of the two
      attempts. */
  lemma CalibrateWithRetrySound(minT: int, maxT: int, probe: int -> int, retryProbe: int -> int)
    requires CalibrateWithRetry(minT, maxT, probe, retryProbe).Some?
    ensures CalibrateWithRetry(minT, maxT, probe, retryProbe).value in Candidates(minT, maxT)
    ensures InWindow(probe(CalibrateWithRetry(minT, maxT, probe, retryProbe).value)) ||
            InWindow(retryProbe(CalibrateWithRetry(minT, maxT, probe, retryProbe).value))
  {
    if Search(minT, maxT, probe).Some? {
      SearchSoundness(minT, maxT, probe);
    } else {
      SearchSoundness(minT, maxT, retryProbe);
    }
  }

  /** The calibration fails only when both searches do. */
  lemma CalibrateWithRetryFailsIffBothFail(minT: int, maxT: int, probe: int -> int, retryProbe: int -> int)
    ensures CalibrateWithRetry(minT, maxT, probe, retryProbe).None? <==>
            Search(minT, maxT, probe).None? && Search(minT, maxT, retryProbe).None?
  {
  }

  /** The two forms agree except that the as-written one turns the exhausted case into "none". */
  lemma RetryMatchesAsWritten(minT: int, maxT: int, probe: int -> int, retryProbe: int -> int)
    ensures match CalibrateWithRetry(minT, maxT, probe, retryProbe)
      case Some(e) => AppliedExposureAsWritten(minT, maxT, probe, retryProbe) == Micros(e)
      case None => AppliedExposureAsWritten(minT, maxT, probe, retryProbe) == NoneString
  {
  }
}
