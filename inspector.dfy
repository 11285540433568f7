/**
 * The board inspection, inspect_board (Machine_Vision_QC.py, lines 243-288), and the
 * good/bad history it updates (lines 134-137). Snapshots, binarisation with
 * BINARY_THRESHOLDS[color][phase] and blob counting are outside the model: the
 * black-pixel count of component `id` in phase `phase` is an oracle `measured(phase, id)`.
 */
module BoardInspector {
  import opened Wrappers
  import opened Scan
  import opened Config

  /** The running good/bad counters (history_tracker). */
  class History {
    var good: nat
    var bad: nat

    constructor ()
      ensures good == 0 && bad == 0
    {
      good := 0;
      bad := 0;
    }
  }

  /** One component check: the phase it belongs to and the component id. */
  datatype Visit = Visit(phase: nat, id: int)

  /** The outcome of an inspection; a rejection names the first failing component and the two counts
      whose ratio is the reported percent change. */
  datatype Verdict = Accept | Reject(phase: nat, id: int, measured: nat, reference: int)

  /** percent_change = (measured - reference) / reference < -0.90, in exact integer form. */
  predicate RoiFails(measured: nat, reference: int): (fails: bool)
    ensures fails ==> measured < reference
    ensures reference == 10 * measured ==> !fails
    ensures measured == 0 ==> (fails <==> reference > 0)
  {
    10 * measured < reference
  }

  /** The integer test is the source's percent-change test, for every positive reference count. */
  lemma RoiFailsIffPercentChangeBelow(measured: nat, reference: int)
    requires reference > 0
    ensures RoiFails(measured, reference) <==>
      ((measured - reference) as real) / (reference as real) < -0.90
  {
    DivBelow((measured - reference) as real, reference as real, -0.90);
  }

  /** For a positive divisor, a quotient lies below `c` iff the dividend lies below `c` times the divisor. */
  lemma DivBelow(a: real, r: real, c: real)
    requires r > 0.0
    ensures a / r < c <==> a < c * r
  {
    var q := a / r;
    assert a == q * r;
    if q < c {
      assert (c - q) * r > 0.0;
    } else {
      assert (q - c) * r >= 0.0;
    }
  }

  /** A count of exactly 10% of the reference (change -0.90) passes; one count fewer fails. */
  lemma NinetyPercentBoundary(reference: nat)
    requires reference > 0 && reference % 10 == 0
    ensures !RoiFails(reference / 10, reference)
    ensures ((reference / 10 - reference) as real) / (reference as real) == -0.90
    ensures RoiFails(reference / 10 - 1, reference) || reference / 10 == 0
  {
    RoiFailsIffPercentChangeBelow(reference / 10, reference);
  }

  /** A count at or above the reference never fails: only a shortfall is flagged. */
  lemma ExcessNeverFails(measured: nat, reference: int)
    requires measured >= reference
    ensures !RoiFails(measured, reference)
  {
  }

  /** The checks of one phase, in catalog order. */
  function PhaseVisits(phase: nat, ids: seq<int>): (vs: seq<Visit>)
    ensures |vs| == |ids|
    ensures forall i :: 0 <= i < |ids| ==> vs[i] == Visit(phase, ids[i])
  {
    seq(|ids|, i requires 0 <= i < |ids| => Visit(phase, ids[i]))
  }

  /** The checks of phases 0 .. phases-1, phase by phase, each in catalog order. */
  function Schedule(catalogs: seq<seq<int>>, phases: nat): seq<Visit>
    requires phases <= |catalogs|
  {
    if phases == 0 then [] else Schedule(catalogs, phases - 1) + PhaseVisits(phases - 1, catalogs[phases - 1])
  }

  /** A check appears in the schedule iff its phase runs and its id is in that phase's catalog. */
  lemma {:induction false} ScheduleMembers(catalogs: seq<seq<int>>, phases: nat, v: Visit)
    requires phases <= |catalogs|
    ensures v in Schedule(catalogs, phases) <==> v.phase < phases && v.id in catalogs[v.phase]
  {
    if phases > 0 {
      ScheduleMembers(catalogs, phases - 1, v);
      var last := PhaseVisits(phases - 1, catalogs[phases - 1]);
      if v.phase == phases - 1 && v.id in catalogs[v.phase] {
        var i :| 0 <= i < |catalogs[v.phase]| && catalogs[v.phase][i] == v.id;
        assert last[i] == v;
      }
    }
  }

  /** Phases never interleave: every check of an earlier phase precedes every check of a later one. */
  lemma {:induction false} SchedulePhasesInOrder(catalogs: seq<seq<int>>, phases: nat)
    requires phases <= |catalogs|
    ensures forall i, j :: 0 <= i < j < |Schedule(catalogs, phases)| ==>
      Schedule(catalogs, phases)[i].phase <= Schedule(catalogs, phases)[j].phase
    ensures forall i :: 0 <= i < |Schedule(catalogs, phases)| ==> Schedule(catalogs, phases)[i].phase < phases
  {
    if phases > 0 {
      SchedulePhasesInOrder(catalogs, phases - 1);
    }
  }

  /** The schedule of the first phases is a prefix of the schedule of more phases, extended by
      the checks made so far in the next phase. */
  lemma {:induction false} SchedulePrefix(catalogs: seq<seq<int>>, phases: nat, phase: nat, k: nat)
    requires phase < phases <= |catalogs| && k <= |catalogs[phase]|
    ensures |Schedule(catalogs, phase)| + k <= |Schedule(catalogs, phases)|
    ensures Schedule(catalogs, phase) + PhaseVisits(phase, catalogs[phase][..k]) ==
      Schedule(catalogs, phases)[..|Schedule(catalogs, phase)| + k]
    decreases phases - phase
  {
    var head := Schedule(catalogs, phase) + PhaseVisits(phase, catalogs[phase][..k]);
    var whole := Schedule(catalogs, phase + 1);
    assert catalogs[phase][..|catalogs[phase]|] == catalogs[phase];
    assert head == whole[..|head|];
    if phase + 1 < phases {
      SchedulePrefix(catalogs, phases, phase + 1, 0);
      assert catalogs[phase + 1][..0] == [];
    }
  }

  /** Every checked id has a positive reference count. */
  ghost predicate ReferencesDefined(catalogs: seq<seq<int>>, phases: nat, reference: map<int, int>)
    requires phases <= |catalogs|
  {
    forall ph, id :: 0 <= ph < phases && id in catalogs[ph] ==> id in reference && reference[id] > 0
  }

  /** A check fails when its component's measured count has collapsed below 10% of the reference. */
  predicate Fails(v: Visit, reference: map<int, int>, measured: (nat, int) -> nat)
  {
    v.id in reference && RoiFails(measured(v.phase, v.id), reference[v.id])
  }

  /** The verdict of an inspection: a rejection at the first failing check of the schedule. */
  function Decide(catalogs: seq<seq<int>>, phases: nat, reference: map<int, int>, measured: (nat, int) -> nat): (d: Verdict)
    requires phases <= |catalogs|
    ensures d.Reject? ==> Visit(d.phase, d.id) in Schedule(catalogs, phases) && d.id in reference
    ensures d.Reject? ==> d.measured == measured(d.phase, d.id) && d.reference == reference[d.id]
    ensures d.Reject? ==> RoiFails(d.measured, d.reference)
    ensures d.Accept? <==> forall v :: v in Schedule(catalogs, phases) ==> !Fails(v, reference, measured)
  {
    var s := Schedule(catalogs, phases);
    match FirstWhere(s, v => Fails(v, reference, measured))
    case Some(i) => Reject(s[i].phase, s[i].id, measured(s[i].phase, s[i].id), reference[s[i].id])
    case None => Accept
  }

  /** When check `n` of the schedule is the first to fail, the verdict is a rejection at it. */
  lemma VerdictAtFirstFailure(catalogs: seq<seq<int>>, phases: nat, reference: map<int, int>,
                              measured: (nat, int) -> nat, n: nat)
    requires phases <= |catalogs| && n < |Schedule(catalogs, phases)|
    requires Fails(Schedule(catalogs, phases)[n], reference, measured)
    requires forall j :: 0 <= j < n ==> !Fails(Schedule(catalogs, phases)[j], reference, measured)
    ensures var v := Schedule(catalogs, phases)[n];
      Decide(catalogs, phases, reference, measured) == Reject(v.phase, v.id, measured(v.phase, v.id), reference[v.id])
  {
    FirstWhereUnique(Schedule(catalogs, phases), v => Fails(v, reference, measured), n);
  }

  /** inspect_board. `visited` lists the checks made, in order; `snapshots` counts the phases started.
      Exactly one counter goes up by one, as the verdict says. */
  method InspectBoard(color: BoardColor, references: map<BoardColor, map<int, int>>, phases: nat,
                      catalogs: seq<seq<int>>, measured: (nat, int) -> nat, history: History)
    returns (verdict: Verdict, visited: seq<Visit>, snapshots: nat)
    requires phases <= |catalogs|
    requires color in references && ReferencesDefined(catalogs, phases, references[color])
    modifies history
    ensures verdict == Decide(catalogs, phases, references[color], measured)
    ensures |visited| <= |Schedule(catalogs, phases)| && visited == Schedule(catalogs, phases)[..|visited|]
    ensures verdict.Accept? ==> visited == Schedule(catalogs, phases) && snapshots == phases
    ensures verdict.Reject? ==> |visited| > 0 && visited[|visited| - 1] == Visit(verdict.phase, verdict.id)
    ensures forall j :: 0 <= j < |visited| ==>
      (Fails(visited[j], references[color], measured) <==> verdict.Reject? && j == |visited| - 1)
    ensures verdict.Reject? ==> snapshots == verdict.phase + 1
    ensures history.good == old(history.good) + (if verdict.Accept? then 1 else 0)
    ensures history.bad == old(history.bad) + (if verdict.Reject? then 1 else 0)
  {
    var reference := references[color];
    visited, snapshots := [], 0;
    for phase := 0 to phases
      invariant visited == Schedule(catalogs, phase)
      invariant snapshots == phase
      invariant forall j :: 0 <= j < |visited| ==> !Fails(visited[j], reference, measured)
      invariant history.good == old(history.good) && history.bad == old(history.bad)
    {
      snapshots := snapshots + 1;
      var ids := catalogs[phase];
      ghost var before := visited;
      for k := 0 to |ids|
        invariant visited == before + PhaseVisits(phase, ids[..k])
        invariant forall j :: 0 <= j < |visited| ==> !Fails(visited[j], reference, measured)
        invariant history.good == old(history.good) && history.bad == old(history.bad)
      {
        var key := ids[k];
        assert key in catalogs[phase];
        var blackPixels := measured(phase, key);
        visited := visited + [Visit(phase, key)];
        assert ids[..k + 1] == ids[..k] + [key];
        SchedulePrefix(catalogs, phases, phase, k + 1);
        if RoiFails(blackPixels, reference[key]) {
          history.bad := history.bad + 1;
          verdict := Reject(phase, key, blackPixels, reference[key]);
          assert forall j :: 0 <= j < |visited| ==> visited[j] == Schedule(catalogs, phases)[j];
          VerdictAtFirstFailure(catalogs, phases, reference, measured, |visited| - 1);
          return;
        }
      }
      assert ids[..|ids|] == ids;
    }
    assert FirstWhere(Schedule(catalogs, phases), v => Fails(v, reference, measured)).None?;
    history.good := history.good + 1;
    verdict := Accept;
  }

  /** An inspection rejects iff some scheduled check fails; a rejection names a failing check of the
      schedule before which no check fails. */
  lemma RejectIffSomeCheckFails(catalogs: seq<seq<int>>, phases: nat, reference: map<int, int>,
                                measured: (nat, int) -> nat)
    requires phases <= |catalogs|
    ensures Decide(catalogs, phases, reference, measured).Reject? <==>
      exists v :: v in Schedule(catalogs, phases) && Fails(v, reference, measured)
    ensures Decide(catalogs, phases, reference, measured).Reject? ==>
      var d := Decide(catalogs, phases, reference, measured);
      exists n :: 0 <= n < |Schedule(catalogs, phases)| && Schedule(catalogs, phases)[n] == Visit(d.phase, d.id) &&
        Fails(Visit(d.phase, d.id), reference, measured) && d.measured == measured(d.phase, d.id) &&
        d.reference == reference[d.id] &&
        forall j :: 0 <= j < n ==> !Fails(Schedule(catalogs, phases)[j], reference, measured)
  {
  }

  /** If no component's count has fallen below 10% of its reference the board is accepted; in
      particular a board whose counts all reach their references is accepted. */
  lemma NoCollapseAccepts(catalogs: seq<seq<int>>, phases: nat, reference: map<int, int>,
                          measured: (nat, int) -> nat)
    requires phases <= |catalogs|
    requires forall ph, id :: 0 <= ph < phases && id in catalogs[ph] && id in reference ==>
      10 * measured(ph, id) >= reference[id]
    ensures Decide(catalogs, phases, reference, measured) == Accept
  {
    var s := Schedule(catalogs, phases);
    forall i | 0 <= i < |s| ensures !Fails(s[i], reference, measured) {
      ScheduleMembers(catalogs, phases, s[i]);
    }
  }

  /** The configured catalogs have a positive reference count for every id they list, for every colour. */
  lemma ConfiguredReferencesDefined(c: BoardColor)
    requires c in GoodBoards
    ensures ReferencesDefined(ComponentRois(), InspectionPhases, GoodBoards[c])
  {
    CatalogReferencesPositive();
  }

  /** With the configured catalogs component 15 is checked twice, once in each phase. */
  lemma Component15CheckedInBothPhases()
    ensures Visit(0, 15) in Schedule(ComponentRois(), InspectionPhases)
    ensures Visit(1, 15) in Schedule(ComponentRois(), InspectionPhases)
  {
    CatalogsShareComponent15();
    ScheduleMembers(ComponentRois(), InspectionPhases, Visit(0, 15));
    ScheduleMembers(ComponentRois(), InspectionPhases, Visit(1, 15));
  }

  /** A gray board whose component 1 counts 250 black pixels against a reference of 3021
      (change about -0.917) is rejected at the very first check, in phase 0. */
  lemma GrayComponent1Rejected(measured: (nat, int) -> nat)
    requires measured(0, 1) == 250
    ensures Decide(ComponentRois(), InspectionPhases, GoodBoards[Gray], measured) == Reject(0, 1, 250, 3021)
  {
    ConfiguredFirstCheck();
    GrayReferenceOfComponent1();
    VerdictAtFirstFailure(ComponentRois(), InspectionPhases, GoodBoards[Gray], measured, 0);
  }

  /** The first configured check is component 1 in phase 0. */
  lemma ConfiguredFirstCheck()
    ensures |Schedule(ComponentRois(), InspectionPhases)| > 0
    ensures Schedule(ComponentRois(), InspectionPhases)[0] == Visit(0, 1)
  {
    var c := ComponentRois();
    assert c[0][0] == 1;
    assert Schedule(c, 1) == PhaseVisits(0, c[0]);
    SchedulePrefix(c, InspectionPhases, 0, |c[0]|);
    assert c[0][..|c[0]|] == c[0];
  }

  lemma GrayReferenceOfComponent1()
    ensures 1 in GoodBoards[Gray] && GoodBoards[Gray][1] == 3021
  {
    assert GoodBoards[Gray] == ReferenceTable(GrayCounts);
    assert |GrayCounts| == 44;
    assert GrayCounts[0] == 3021;
  }
}
