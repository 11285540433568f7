/**
 * The colour classifier, get_color (Machine_Vision_QC.py, lines 150-200).
 * The camera set-up, the histogram and the LAB-to-RGB conversion are outside the
 * model: the classifier receives the converted RGB triple directly.
 */
module ColorClassifier {
  import opened Wrappers
  import opened Scan
  import opened Config
  import opened Arith

  /** One channel matches when reference and test differ by strictly less than the tolerance. */
  predicate ChannelMatches(reference: int, test: int)
  {
    Abs(reference - test) < ColorTolerance
  }

  /** A profile matches when all three of its channels match. */
  predicate Matches(p: Profile, rgb: Triple)
  {
    forall i :: 0 <= i < 3 ==> ChannelMatches(p.rgb[i], rgb[i])
  }

  /** The colour reported for `rgb`: the first matching profile of `profiles`, else `fallback`. */
  function Classify(profiles: seq<Profile>, fallback: BoardColor, rgb: Triple): (c: BoardColor)
    ensures c in Labels(profiles) || c == fallback
    ensures (forall j :: 0 <= j < |profiles| ==> !Matches(profiles[j], rgb)) ==> c == fallback
    ensures c != fallback ==>
              exists i :: 0 <= i < |profiles| && Matches(profiles[i], rgb) && profiles[i].color == c &&
                          forall j :: 0 <= j < i ==> !Matches(profiles[j], rgb)
  {
    match FirstWhere(profiles, p => Matches(p, rgb))
    case Some(i) => profiles[i].color
    case None => fallback
  }

  /** The scan of get_color: profiles in table order, each building a per-channel match list. */
  method GetColor(rgb: Triple) returns (color: BoardColor)
    ensures color == Classify(Colors, FallbackColor, rgb)
    ensures (exists i :: 0 <= i < |Colors| && Matches(Colors[i], rgb) && color == Colors[i].color &&
              forall j :: 0 <= j < i ==> !Matches(Colors[j], rgb)) ||
            ((forall j :: 0 <= j < |Colors| ==> !Matches(Colors[j], rgb)) && color == FallbackColor)
  {
    var success := [1, 1, 1];
    var k := 0;
    while k < |Colors|
      invariant 0 <= k <= |Colors|
      invariant forall j :: 0 <= j < k ==> !Matches(Colors[j], rgb)
    {
      var reference := Colors[k].rgb;
      var matched: seq<int> := [];
      var idx := 0;
      while idx < |reference|
        invariant 0 <= idx <= |reference|
        invariant |matched| == idx
        invariant forall c :: 0 <= c < idx ==> matched[c] == if ChannelMatches(reference[c], rgb[c]) then 1 else 0
      {
        var diff := Abs(reference[idx] - rgb[idx]);
        if diff < ColorTolerance {
          matched := matched + [1];
        } else {
          matched := matched + [0];
        }
        idx := idx + 1;
      }
      if matched == success {
        FirstWhereUnique(Colors, p => Matches(p, rgb), k);
        return Colors[k].color;
      }
      assert !Matches(Colors[k], rgb) by {
        var c :| 0 <= c < 3 && matched[c] != success[c];
      }
      k := k + 1;
    }
    color := FallbackColor;
  }

  /** Whatever the triple, the reported colour is one of the keys of COLORS. */
  lemma ClassifyIsTableColor(rgb: Triple)
    ensures Classify(Colors, FallbackColor, rgb) in Labels(Colors)
  {
    ColorKeysAgree();
  }

  /** A triple equal to a profile's own reference triple is classified as that profile: the four
      reference triples lie outside each other's tolerance windows where it matters. */
  lemma ReferenceTripleClassifiesAsItself(i: nat)
    requires i < |Colors|
    ensures Classify(Colors, FallbackColor, Colors[i].rgb) == Colors[i].color
  {
    var rgb := Colors[i].rgb;
    assert Matches(Colors[i], rgb);
    forall j | 0 <= j < i ensures !Matches(Colors[j], rgb) {
      if i == 1 { assert !ChannelMatches(Colors[0].rgb[0], rgb[0]); }
      if i == 2 {
        assert !ChannelMatches(Colors[0].rgb[1], rgb[1]);
        assert !ChannelMatches(Colors[1].rgb[0], rgb[0]);
      }
      if i == 3 {
        assert !ChannelMatches(Colors[0].rgb[0], rgb[0]);
        assert !ChannelMatches(Colors[1].rgb[1], rgb[1]);
        assert !ChannelMatches(Colors[2].rgb[0], rgb[0]);
      }
    }
    FirstWhereUnique(Colors, p => Matches(p, rgb), i);
  }

  /** A triple that misses every profile on some channel falls back to gray. */
  lemma NoMatchFallsBackToGray(rgb: Triple)
    requires forall j :: 0 <= j < |Colors| ==> exists c :: 0 <= c < 3 && Abs(Colors[j].rgb[c] - rgb[c]) >= ColorTolerance
    ensures Classify(Colors, FallbackColor, rgb) == Gray
  {
  }

  /** The yellow and red tolerance windows overlap: a triple inside both is reported yellow,
      only because yellow comes first in the table. */
  lemma YellowShadowsRed()
    ensures Matches(Colors[0], [250, 230, 120]) && Matches(Colors[2], [250, 230, 120])
    ensures Classify(Colors, FallbackColor, [250, 230, 120]) == Yellow
  {
  }
}
