/**
 * The station's constant configuration tables (Machine_Vision_QC.py, lines 5-132)
 * and the integrity facts the rest of the model relies on.
 */
module Config {

  /** The four board variants; the source spells them as the strings "yellow", "blue", "red", "gray". */
  datatype BoardColor = Yellow | Blue | Red | Gray

  /** An RGB triple, indexed 0 (R), 1 (G), 2 (B) as the source indexes its tuples. */
  type Triple = t: seq<int> | |t| == 3 witness [0, 0, 0]

  /** One entry of COLORS: a label and its reference RGB triple. */
  datatype Profile = Profile(color: BoardColor, rgb: Triple)

  /** A rectangle (x, y, w, h) in image coordinates. */
  datatype Rect = Rect(x: int, y: int, w: int, h: int)

  /** One entry of a component catalog: component id and its rectangle. */
  datatype Roi = Roi(id: int, rect: Rect)

  /** A binary threshold: the grayscale band (lo, hi) kept as foreground. */
  datatype Band = Band(lo: int, hi: int)

  /** COLORS, in its insertion order: yellow, blue, red, gray. */
  const Colors: seq<Profile> := [
    Profile(Yellow, [247, 255, 123]),
    Profile(Blue, [110, 255, 255]),
    Profile(Red, [255, 203, 115]),
    Profile(Gray, [74, 215, 115])
  ]

  /** The label returned when no profile matches. */
  const FallbackColor: BoardColor := Gray

  /** Per-channel tolerance of the colour classifier (strict). */
  const ColorTolerance: int := 40

  /** BINARY_THRESHOLDS: per colour, one band for each inspection phase. */
  const BinaryThresholds: map<BoardColor, seq<Band>> := map[
    Gray := [Band(80, 255), Band(80, 255)],
    Red := [Band(150, 255), Band(170, 255)],
    Blue := [Band(110, 255), Band(155, 255)],
    Yellow := [Band(120, 255), Band(160, 255)]
  ]

  /** BLACK_THRESHOLDS: the band counted as black inside an ROI. */
  const BlackThresholds: Band := Band(0, 25)

  /** INSPECTION_PHASES. */
  const InspectionPhases: nat := 2

  /** EXP_TIMES: per colour, the (min, max) exposure search range in microseconds. */
  const ExpTimes: map<BoardColor, (int, int)> := map[
    Blue := (10000, 50000),
    Yellow := (8000, 36000),
    Red := (60000, 130000),
    Gray := (80000, 250000)
  ]

  /** The exposure range of a colour: EXP_TIMES[c], which exists for every colour. */
  function ExpRange(c: BoardColor): (r: (int, int))
    ensures c in ExpTimes && r == ExpTimes[c]
  {
    match c
    case Yellow => ExpTimes[Yellow]
    case Blue => ExpTimes[Blue]
    case Red => ExpTimes[Red]
    case Gray => ExpTimes[Gray]
  }

  /** TRIGGER_ROI: where presence is sensed. */
  const TriggerRoi: Rect := Rect(255, 76, 214, 328)

  /** EXP_ROI: a region that is always blank, used for exposure calibration. */
  const ExpRoi: Rect := Rect(382, 314, 21, 37)

  /** PERIMETER_ROIS, in insertion order (inspected in phase 0). */
  const PerimeterRois: seq<Roi> := [
    Roi(1, Rect(252, 49, 53, 57)), Roi(2, Rect(365, 51, 20, 52)),
    Roi(3, Rect(382, 50, 21, 51)), Roi(4, Rect(402, 50, 23, 53)),
    Roi(5, Rect(441, 53, 49, 57)), Roi(13, Rect(450, 129, 42, 47)),
    Roi(14, Rect(238, 192, 33, 24)), Roi(15, Rect(239, 216, 31, 22)),
    Roi(19, Rect(452, 184, 37, 44)), Roi(25, Rect(451, 233, 40, 48)),
    Roi(26, Rect(233, 298, 21, 20)), Roi(27, Rect(233, 317, 21, 18)),
    Roi(28, Rect(234, 332, 21, 20)), Roi(34, Rect(454, 289, 21, 24)),
    Roi(37, Rect(296, 411, 46, 21)), Roi(39, Rect(354, 406, 22, 25)),
    Roi(40, Rect(384, 414, 10, 14)), Roi(41, Rect(399, 413, 10, 14)),
    Roi(42, Rect(414, 421, 12, 10)), Roi(43, Rect(415, 331, 34, 78)),
    Roi(44, Rect(458, 335, 26, 77))
  ]

  /** INNER_ROIS, in insertion order (inspected in phase 1). */
  const InnerRois: seq<Roi> := [
    Roi(6, Rect(316, 100, 20, 28)), Roi(7, Rect(332, 100, 20, 28)),
    Roi(8, Rect(349, 100, 20, 28)), Roi(9, Rect(263, 146, 28, 30)),
    Roi(10, Rect(324, 146, 45, 47)), Roi(11, Rect(385, 133, 31, 23)),
    Roi(12, Rect(386, 157, 30, 24)), Roi(15, Rect(239, 216, 31, 22)),
    Roi(16, Rect(320, 214, 51, 21)), Roi(17, Rect(385, 184, 31, 20)),
    Roi(18, Rect(386, 208, 30, 20)), Roi(20, Rect(265, 245, 21, 34)),
    Roi(21, Rect(295, 245, 20, 34)), Roi(22, Rect(331, 252, 51, 45)),
    Roi(23, Rect(385, 233, 33, 21)), Roi(24, Rect(385, 257, 31, 21)),
    Roi(29, Rect(277, 306, 47, 45)), Roi(30, Rect(339, 299, 22, 20)),
    Roi(31, Rect(339, 316, 22, 20)), Roi(32, Rect(339, 334, 23, 18)),
    Roi(33, Rect(425, 293, 27, 22)), Roi(35, Rect(264, 376, 28, 28)),
    Roi(36, Rect(296, 393, 48, 20)), Roi(38, Rect(354, 375, 23, 27))
  ]

  /** The ids of a catalog, in its order. */
  function Ids(rois: seq<Roi>): (ids: seq<int>)
    ensures |ids| == |rois|
    ensures forall i :: 0 <= i < |rois| ==> ids[i] == rois[i].id
  {
    seq(|rois|, i requires 0 <= i < |rois| => rois[i].id)
  }

  /** COMPONENT_ROIS: the catalogs of the inspection phases, as id sequences. */
  function ComponentRois(): (c: seq<seq<int>>)
    ensures |c| == InspectionPhases
  {
    [Ids(PerimeterRois), Ids(InnerRois)]
  }

  /** The count `counts` records for component `id` (components are numbered from 1). */
  function CountOf(counts: seq<int>, id: int): int
    requires 1 <= id <= |counts|
  {
    counts[id - 1]
  }

  /** A reference table whose keys are the components 1..|counts|, component `id` having `counts[id - 1]`. */
  function ReferenceTable(counts: seq<int>): (m: map<int, int>)
    ensures forall id :: id in m <==> 1 <= id <= |counts|
    ensures forall id :: 1 <= id <= |counts| ==> m[id] == counts[id - 1]
  {
    map id | 1 <= id <= |counts| :: CountOf(counts, id)
  }

  /** A table built from positive counts has a positive count under every key. */
  lemma ReferenceTablePositive(counts: seq<int>)
    requires forall i :: 0 <= i < |counts| ==> counts[i] > 0
    ensures forall id :: id in ReferenceTable(counts) ==> ReferenceTable(counts)[id] > 0
  {
  }

  /** GOOD_BOARDS["gray"], components 1..44 in order. */
  const GrayCounts: seq<int> := [
    3021, 435, 463, 487, 2765, 147, 164, 156, 430, 2111, 414,
    424, 1492, 447, 438, 503, 428, 422, 1422, 422, 448, 1458,
    453, 419, 1479, 160, 153, 170, 2112, 152, 168, 164, 403,
    360, 442, 541, 558, 416, 379, 106, 92, 78, 2462, 2002
  ]

  /** GOOD_BOARDS["red"], components 1..44 in order. */
  const RedCounts: seq<int> := [
    2967, 445, 434, 443, 2793, 137, 154, 154, 432, 2035, 434,
    411, 971, 410, 454, 366, 378, 353, 938, 428, 429, 824,
    410, 356, 964, 142, 151, 172, 1988, 119, 173, 164, 361,
    312, 457, 527, 551, 400, 347, 87, 70, 94, 2370, 2002
  ]

  /** GOOD_BOARDS["blue"], components 1..44 in order. */
  const BlueCounts: seq<int> := [
    2865, 393, 396, 408, 2785, 141, 145, 140, 428, 2106, 436,
    422, 896, 312, 442, 392, 413, 389, 868, 439, 447, 881,
    426, 389, 845, 27, 19, 34, 2107, 131, 154, 146, 396,
    317, 432, 535, 488, 415, 340, 47, 43, 87, 2378, 2002
  ]

  /** GOOD_BOARDS["yellow"], components 1..44 in order. */
  const YellowCounts: seq<int> := [
    2523, 498, 481, 502, 2558, 200, 217, 222, 543, 2014, 469,
    457, 1002, 454, 506, 582, 459, 444, 905, 493, 499, 942,
    497, 441, 955, 180, 182, 220, 1988, 213, 258, 229, 459,
    345, 572, 639, 564, 453, 367, 97, 79, 94, 2288, 1921
  ]

  /** GOOD_BOARDS: per colour, the black-pixel count of each component on a good board. */
  const GoodBoards: map<BoardColor, map<int, int>> := map[
    Gray := ReferenceTable(GrayCounts),
    Red := ReferenceTable(RedCounts),
    Blue := ReferenceTable(BlueCounts),
    Yellow := ReferenceTable(YellowCounts)
  ]

  /** The reference table of a colour: GOOD_BOARDS[c], which exists for every colour. */
  function GoodBoard(c: BoardColor): (m: map<int, int>)
    ensures c in GoodBoards && m == GoodBoards[c]
  {
    match c
    case Yellow => GoodBoards[Yellow]
    case Blue => GoodBoards[Blue]
    case Red => GoodBoards[Red]
    case Gray => GoodBoards[Gray]
  }

  /** The labels of a profile table. */
  function Labels(profiles: seq<Profile>): (ls: set<BoardColor>)
    ensures forall i :: 0 <= i < |profiles| ==> profiles[i].color in ls
    ensures forall c :: c in ls ==> exists i :: 0 <= i < |profiles| && profiles[i].color == c
  {
    set i | 0 <= i < |profiles| :: profiles[i].color
  }

  /** Every colour of COLORS keys BINARY_THRESHOLDS, EXP_TIMES and GOOD_BOARDS, and no other key does. */
  lemma ColorKeysAgree()
    ensures Labels(Colors) == BinaryThresholds.Keys == ExpTimes.Keys == GoodBoards.Keys
    ensures FallbackColor in Labels(Colors)
  {
    assert Colors[0].color == Yellow && Colors[1].color == Blue;
    assert Colors[2].color == Red && Colors[3].color == Gray;
  }

  /** Each colour has one binary threshold per inspection phase. */
  lemma ThresholdsPerPhase()
    ensures forall c :: c in BinaryThresholds ==> |BinaryThresholds[c]| == InspectionPhases
  {
  }

  /** Each exposure range is non-empty and non-negative: 0 <= min < max. */
  lemma ExposureRangesValid()
    ensures forall c :: c in ExpTimes ==> 0 <= ExpTimes[c].0 < ExpTimes[c].1
  {
  }

  /** The ids of both catalogs together are exactly the components 1..44. */
  lemma CatalogsCoverComponents()
    ensures forall id :: id in Ids(PerimeterRois) || id in Ids(InnerRois) <==> 1 <= id <= 44
  {
    var p, q := Ids(PerimeterRois), Ids(InnerRois);
    assert p == [1, 2, 3, 4, 5, 13, 14, 15, 19, 25, 26, 27, 28, 34, 37, 39, 40, 41, 42, 43, 44];
    assert q == [6, 7, 8, 9, 10, 11, 12, 15, 16, 17, 18, 20, 21, 22, 23, 24, 29, 30, 31, 32, 33, 35, 36, 38];
  }

  /** Ids are distinct inside each catalog (they are dictionary keys in the source). */
  lemma CatalogIdsDistinct()
    ensures forall i, j :: 0 <= i < j < |PerimeterRois| ==> PerimeterRois[i].id != PerimeterRois[j].id
    ensures forall i, j :: 0 <= i < j < |InnerRois| ==> InnerRois[i].id != InnerRois[j].id
  {
  }

  /** Component 15 is listed in both catalogs, so the catalogs are not disjoint. */
  lemma CatalogsShareComponent15()
    ensures 15 in Ids(PerimeterRois) && 15 in Ids(InnerRois)
  {
    assert PerimeterRois[7].id == 15 && InnerRois[7].id == 15;
  }

  /** Every reference table has a strictly positive count for each component 1..44. */
  lemma ReferenceCountsPositive()
    ensures forall c, id :: c in GoodBoards && 1 <= id <= 44 ==> id in GoodBoards[c] && GoodBoards[c][id] > 0
  {
    assert |GrayCounts| == |RedCounts| == |BlueCounts| == |YellowCounts| == 44;
    GrayCountsPositive();
    RedCountsPositive();
    BlueCountsPositive();
    YellowCountsPositive();
    ReferenceTablePositive(GrayCounts);
    ReferenceTablePositive(RedCounts);
    ReferenceTablePositive(BlueCounts);
    ReferenceTablePositive(YellowCounts);
  }

  /** Each colour's counts, one literal at a time. */
  lemma GrayCountsPositive()
    ensures forall i :: 0 <= i < |GrayCounts| ==> GrayCounts[i] > 0
  {
  }

  lemma RedCountsPositive()
    ensures forall i :: 0 <= i < |RedCounts| ==> RedCounts[i] > 0
  {
  }

  lemma BlueCountsPositive()
    ensures forall i :: 0 <= i < |BlueCounts| ==> BlueCounts[i] > 0
  {
  }

  lemma YellowCountsPositive()
    ensures forall i :: 0 <= i < |YellowCounts| ==> YellowCounts[i] > 0
  {
  }

  /** Every id either catalog lists has a positive reference count for every colour, so the division by
      the reference count in the inspection is always defined. */
  lemma CatalogReferencesPositive()
    ensures forall c, ph, id :: c in GoodBoards && 0 <= ph < |ComponentRois()| && id in ComponentRois()[ph] ==>
      id in GoodBoards[c] && GoodBoards[c][id] > 0
  {
    CatalogsCoverComponents();
    ReferenceCountsPositive();
  }
}
