/**
 * The presence probes over the trigger region: sense_machine_empty (Machine_Vision_QC.py,
 * lines 291-299) and the settle detector ready_for_shot (lines 302-320). The snapshot and
 * its mean are outside the model: the mean of the `i`-th snapshot is an oracle `reading(i)`,
 * and the one-second delays between snapshots are left out.
 */
module PresenceSensor {
  import opened Wrappers
  import opened Scan
  import opened Arith

  /** A mean above this is taken as blank background: no part in the fixture. */
  const EmptyThreshold: int := 190

  /** Consecutive means closer than this count as a settled scene. */
  const SettleTolerance: int := 25

  /** Number of snapshots ready_for_shot takes at most (one per second). */
  const ObservationPeriod: nat := 5

  /** sense_machine_empty: true iff the mean strictly exceeds the threshold. */
  function SenseMachineEmpty(mean: int): (empty: bool)
    ensures empty <==> mean > EmptyThreshold
  {
    if mean > EmptyThreshold then true else false
  }

  /** The baseline that snapshot `i` is compared with: 0 before the first, then the previous mean. */
  function Baseline(reading: nat -> int, i: nat): int
  {
    if i == 0 then 0 else reading(i - 1)
  }

  /** Snapshot `i` is settled when its mean is within the tolerance of the baseline. */
  predicate Settled(reading: nat -> int, i: nat)
  {
    Abs(reading(i) - Baseline(reading, i)) < SettleTolerance
  }

  /** The snapshot numbers 0 .. ObservationPeriod - 1. */
  function Seconds(): (s: seq<nat>)
    ensures |s| == ObservationPeriod && forall i :: 0 <= i < |s| ==> s[i] == i
  {
    seq(ObservationPeriod, i requires 0 <= i => i as nat)
  }

  /** The snapshot at which ready_for_shot succeeds, if any. */
  function SettleIndex(reading: nat -> int): (r: Option<nat>)
    ensures r.Some? ==> r.value < ObservationPeriod && Settled(reading, r.value)
    ensures r.Some? ==> forall j :: 0 <= j < r.value ==> !Settled(reading, j)
    ensures r.None? <==> forall j :: 0 <= j < ObservationPeriod ==> !Settled(reading, j)
  {
    match FirstWhere(Seconds(), i => Settled(reading, i))
    case Some(k) => Some(Seconds()[k])
    case None => None
  }

  /** ready_for_shot. `taken` counts the snapshots it takes. */
  method ReadyForShot(reading: nat -> int) returns (ready: bool, taken: nat)
    ensures 1 <= taken <= ObservationPeriod
    ensures ready <==> SettleIndex(reading).Some?
    ensures ready ==> SettleIndex(reading) == Some(taken - 1)
    ensures !ready ==> taken == ObservationPeriod
    ensures forall i :: 0 <= i < taken ==> (Settled(reading, i) <==> ready && i == taken - 1)
  {
    var oldMean := 0;
    taken := 0;
    for second := 0 to ObservationPeriod
      invariant taken == second
      invariant oldMean == Baseline(reading, second)
      invariant forall i :: 0 <= i < second ==> !Settled(reading, i)
    {
      var newMean := reading(second);
      taken := taken + 1;
      if Abs(newMean - oldMean) < SettleTolerance {
        FirstWhereUnique(Seconds(), i => Settled(reading, i), second);
        return true, taken;
      } else {
        oldMean := newMean;
      }
    }
    assert FirstWhere(Seconds(), i => Settled(reading, i)).None?;
    ready := false;
  }

  /** A first mean below the tolerance settles at once: the baseline starts at 0, so a dark scene
      (a hand over the trigger region, say) reads as settled on the first snapshot. */
  lemma DarkFirstReadingSettlesImmediately(reading: nat -> int)
    requires 0 <= reading(0) < SettleTolerance
    ensures SettleIndex(reading) == Some(0)
  {
    FirstWhereUnique(Seconds(), i => Settled(reading, i), 0);
  }

  /** Means 50 then 48 settle at the second snapshot: only the first comparison, against 0, fails. */
  lemma SlowDriftSettlesAtSecondReading(reading: nat -> int)
    requires reading(0) == 50 && reading(1) == 48
    ensures SettleIndex(reading) == Some(1)
  {
    assert !Settled(reading, 0);
    FirstWhereUnique(Seconds(), i => Settled(reading, i), 1);
  }

  /** Means that keep jumping by at least the tolerance never settle: all five snapshots are spent. */
  lemma SteadyClimbNeverSettles(reading: nat -> int)
    requires forall i: nat :: reading(i) == 50 * i + 50
    ensures SettleIndex(reading) == None
  {
  }
}
