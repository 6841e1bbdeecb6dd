/**
 * The size recommendation engine. For each size of a garment it compares the
 * garment's measurements with the estimated body, using the ease (extra room) the
 * fit type calls for less what stretch fabrics give back, scores the fit of each
 * measurement, averages the scores with fixed weights, and picks the best size.
 */
module RecommendationEngine {
  import opened Wrappers
  import Dicts
  import opened Numbers
  import opened Text
  import opened Schemas
  import BodyEstimator
  import StableSort

  // === Ease ===

  /** EASE_CONFIG with `.get(measurement, 5)`: minimum ease in cm. */
  function BaseEase(fitType: FitType, measurement: string): (e: real)
    ensures e >= 2.0
  {
    match fitType
    case SlimFit =>
      if measurement == "chest" then 3.0
      else if measurement == "waist" || measurement == "hip" then 2.0
      else 5.0
    case RegularFit => 5.0
    case LooseFit =>
      if measurement == "chest" || measurement == "waist" || measurement == "hip" then 10.0 else 5.0
    case Oversized =>
      if measurement == "chest" || measurement == "waist" || measurement == "hip" then 15.0 else 5.0
  }

  /** STRETCH_FABRICS: fabric word and the ease it gives back at 100%, in table order. */
  const StretchFabrics: Dicts.Dict<string, real> := [
    ("elastane", 2.5),
    ("spandex", 2.5),
    ("lycra", 2.5),
    ("polyester_blend", 1.0),
    ("jersey", 1.5),
    ("stretch_cotton", 1.5)
  ]

  /** The reduction of the first table word occurring inside `fabricLower`. */
  function FirstStretchMatch(fabricLower: string, table: Dicts.Dict<string, real>): Option<real> {
    if table == [] then None
    else if Contains(fabricLower, table[0].0) then Some(table[0].1)
    else FirstStretchMatch(fabricLower, table[1..])
  }

  /**
   * The match is the first table word that occurs in the fabric name, and there is
   * none exactly when no table word occurs in it.
   */
  lemma {:induction false} FirstStretchMatchIsFirst(fabricLower: string, table: Dicts.Dict<string, real>)
    ensures var r := FirstStretchMatch(fabricLower, table);
      && (r.None? <==> forall i :: 0 <= i < |table| ==> !Contains(fabricLower, table[i].0))
      && (r.Some? ==>
            exists i :: 0 <= i < |table| && Contains(fabricLower, table[i].0) && r.value == table[i].1
              && (forall j :: 0 <= j < i ==> !Contains(fabricLower, table[j].0)))
  {
    if table != [] && !Contains(fabricLower, table[0].0) {
      FirstStretchMatchIsFirst(fabricLower, table[1..]);
      assert forall i :: 1 <= i < |table| ==> table[i] == table[1..][i - 1];
      var r := FirstStretchMatch(fabricLower, table);
      if r.Some? {
        var i :| 0 <= i < |table[1..]| && Contains(fabricLower, table[1..][i].0) && r.value == table[1..][i].1
              && (forall j :: 0 <= j < i ==> !Contains(fabricLower, table[1..][j].0));
        assert Contains(fabricLower, table[i + 1].0) && r.value == table[i + 1].1;
        assert forall j :: 0 <= j < i + 1 ==> !Contains(fabricLower, table[j].0) by {
          forall j | 0 <= j < i + 1 ensures !Contains(fabricLower, table[j].0) {
            if j > 0 {
              assert table[j] == table[1..][j - 1];
            }
          }
        }
      }
    }
  }

  /** What one fabric entry takes off the ease: its reduction scaled by its percentage. */
  function StretchContribution(fabric: string, percentage: real): real {
    match FirstStretchMatch(Lower(fabric), StretchFabrics)
    case None => 0.0
    case Some(reduction) => reduction * (percentage / 100.0)
  }

  /** The uncapped sum of the contributions, in dictionary order. */
  function TotalStretch(fabricComposition: Dicts.Dict<string, real>): real {
    if fabricComposition == [] then 0.0
    else
      var last := fabricComposition[|fabricComposition| - 1];
      TotalStretch(fabricComposition[..|fabricComposition| - 1]) + StretchContribution(last.0, last.1)
  }

  /** No fiber of the composition has a negative percentage. */
  predicate NoNegativeShare(fabricComposition: Dicts.Dict<string, real>) {
    forall i :: 0 <= i < |fabricComposition| ==> fabricComposition[i].1 >= 0.0
  }

  /**
   * `_calculate_stretch_reduction`: the total, capped at 4 cm; with no negative
   * percentage it lies between 0 and 4 cm.
   */
  function StretchReduction(fabricComposition: Dicts.Dict<string, real>): (r: real)
    ensures r <= 4.0
    ensures NoNegativeShare(fabricComposition) ==> 0.0 <= r
  {
    if NoNegativeShare(fabricComposition) then
      TotalStretchBounds(fabricComposition);
      Min(TotalStretch(fabricComposition), 4.0)
    else
      Min(TotalStretch(fabricComposition), 4.0)
  }

  method CalculateStretchReduction(fabricComposition: Dicts.Dict<string, real>) returns (r: real)
    ensures r == StretchReduction(fabricComposition)
  {
    var totalReduction := 0.0;
    var i := 0;
    while i < |fabricComposition|
      invariant 0 <= i <= |fabricComposition|
      invariant totalReduction == TotalStretch(fabricComposition[..i])
    {
      var (fabric, percentage) := fabricComposition[i];
      var fabricLower := Lower(fabric);
      ghost var before := totalReduction;
      var j := 0;
      while j < |StretchFabrics|
        invariant 0 <= j <= |StretchFabrics|
        invariant totalReduction == before
        invariant FirstStretchMatch(fabricLower, StretchFabrics) == FirstStretchMatch(fabricLower, StretchFabrics[j..])
      {
        var (stretchFabric, reduction) := StretchFabrics[j];
        if Contains(fabricLower, stretchFabric) {
          totalReduction := totalReduction + reduction * (percentage / 100.0);
          break;
        }
        assert StretchFabrics[j..][1..] == StretchFabrics[j + 1..];
        j := j + 1;
      }
      assert totalReduction == before + StretchContribution(fabric, percentage);
      assert fabricComposition[..i + 1][..i] == fabricComposition[..i];
      i := i + 1;
    }
    assert fabricComposition[..i] == fabricComposition;
    r := Min(totalReduction, 4.0);
  }

  lemma MulNonNegative(a: real, b: real)
    requires a >= 0.0 && b >= 0.0
    ensures a * b >= 0.0
  {
  }

  lemma MulMonotonic(a: real, b: real, c: real)
    requires a <= b && c >= 0.0
    ensures a * c <= b * c
  {
  }

  /** Every reduction in the stretch table lies between 1 and 2.5 cm. */
  lemma StretchTableBounds(fabricLower: string)
    ensures var m := FirstStretchMatch(fabricLower, StretchFabrics);
      m.Some? ==> 1.0 <= m.value <= 2.5
  {
    FirstStretchMatchIsFirst(fabricLower, StretchFabrics);
    assert forall i :: 0 <= i < |StretchFabrics| ==> 1.0 <= StretchFabrics[i].1 <= 2.5;
  }

  /**
   * With no negative percentages, the total stretch is at least zero and at most
   * 2.5 cm per 100 percentage points of the composition.
   */
  lemma {:induction false} TotalStretchBounds(fabricComposition: Dicts.Dict<string, real>)
    requires NoNegativeShare(fabricComposition)
    ensures 0.0 <= TotalStretch(fabricComposition) <= 0.025 * SumValues(fabricComposition)
  {
    if fabricComposition != [] {
      var n := |fabricComposition|;
      var last := fabricComposition[n - 1];
      var prefix := fabricComposition[..n - 1];
      TotalStretchBounds(prefix);
      StretchContributionBounds(last.0, last.1);
      assert TotalStretch(fabricComposition) == TotalStretch(prefix) + StretchContribution(last.0, last.1);
      assert SumValues(fabricComposition) == SumValues(prefix) + last.1;
    }
  }

  /** One entry takes off between 0 and 2.5 cm per 100 percentage points. */
  lemma StretchContributionBounds(fabric: string, percentage: real)
    requires percentage >= 0.0
    ensures 0.0 <= StretchContribution(fabric, percentage) <= 0.025 * percentage
  {
    StretchTableBounds(Lower(fabric));
    match FirstStretchMatch(Lower(fabric), StretchFabrics)
    case None =>
      assert StretchContribution(fabric, percentage) == 0.0;
    case Some(reduction) =>
      assert 1.0 <= reduction <= 2.5;
      assert StretchContribution(fabric, percentage) == reduction * (percentage / 100.0);
      ScaledReductionBound(reduction, percentage);
  }

  /** A reduction of at most 2.5 cm scaled by a percentage. */
  lemma ScaledReductionBound(reduction: real, percentage: real)
    requires 0.0 <= reduction <= 2.5 && percentage >= 0.0
    ensures 0.0 <= reduction * (percentage / 100.0) <= 0.025 * percentage
  {
    MulNonNegative(reduction, percentage / 100.0);
    MulMonotonic(reduction, 2.5, percentage / 100.0);
  }

  /**
   * For a composition that passes validation (percentages summing to 99..101, none
   * negative) the 4 cm cap is never reached: the reduction is the plain total, at
   * most 2.525 cm.
   */
  lemma StretchCapUnreachedForValidComposition(fabricComposition: Dicts.Dict<string, real>)
    requires NoNegativeShare(fabricComposition)
    requires ValidateFabricComposition(fabricComposition).Success?
    ensures StretchReduction(fabricComposition) == TotalStretch(fabricComposition)
    ensures 0.0 <= StretchReduction(fabricComposition) <= 2.525
  {
    TotalStretchBounds(fabricComposition);
  }

  /** "cotton" contains none of the stretch words. */
  lemma CottonMatchesNothing()
    ensures FirstStretchMatch(Lower("cotton"), StretchFabrics) == None
  {
    LowerCotton();
    NoStretchWordInCotton();
  }

  lemma LowerCotton()
    ensures Lower("cotton") == "cotton"
  {
  }

  lemma NoStretchWordInCotton()
    ensures FirstStretchMatch("cotton", StretchFabrics) == None
  {
    NoStretchWordInCottonHead();
    NoStretchWordInCottonTail();
  }

  lemma NoStretchWordInCottonHead()
    ensures !Contains("cotton", "elastane") && !Contains("cotton", "spandex") && !Contains("cotton", "lycra")
  {
    AbsentChar("cotton", "elastane", 'e');
    AbsentChar("cotton", "spandex", 's');
    AbsentChar("cotton", "lycra", 'l');
  }

  lemma NoStretchWordInCottonTail()
    ensures !Contains("cotton", "polyester_blend") && !Contains("cotton", "jersey") && !Contains("cotton", "stretch_cotton")
  {
    AbsentChar("cotton", "polyester_blend", 'p');
    AbsentChar("cotton", "jersey", 'j');
    AbsentChar("cotton", "stretch_cotton", 's');
  }

  /** A pure-cotton garment gets no stretch reduction. */
  lemma CottonHasNoStretch()
    ensures StretchReduction([("cotton", 100.0)]) == 0.0
  {
    var fc: Dicts.Dict<string, real> := [("cotton", 100.0)];
    CottonMatchesNothing();
    assert StretchContribution("cotton", 100.0) == 0.0;
    assert fc[..0] == [];
    assert TotalStretch(fc) == TotalStretch(fc[..0]) + StretchContribution("cotton", 100.0);
  }

  /** Five percent elastane in a cotton blend takes 0.125 cm off the ease. */
  lemma ElastaneBlendReduction()
    ensures StretchReduction([("cotton", 95.0), ("elastane", 5.0)]) == 0.125
  {
    var fc: Dicts.Dict<string, real> := [("cotton", 95.0), ("elastane", 5.0)];
    CottonContribution(95.0);
    ElastaneContribution();
    assert fc[..1] == [("cotton", 95.0)];
    assert fc[..1][..0] == [];
    assert TotalStretch(fc[..1]) == 0.0;
  }

  lemma CottonContribution(percentage: real)
    ensures StretchContribution("cotton", percentage) == 0.0
  {
    CottonMatchesNothing();
  }

  /** Elastane, the first stretch word, takes 2.5 cm per 100 percentage points. */
  lemma ElastaneContribution()
    ensures StretchContribution("elastane", 5.0) == 0.125
  {
    LowerOfLowerCase("elastane");
    assert Contains("elastane", "elastane");
  }

  /** The ease left after the stretch reduction, floored at 0 cm or 1 cm. */
  function EaseAfterStretch(baseEase: real, stretchReduction: real): (e: real)
    ensures e >= 0.0
    ensures e >= baseEase - stretchReduction
    ensures stretchReduction <= 2.0 ==> e >= 1.0
    ensures stretchReduction >= 0.0 && baseEase >= 1.0 ==> e <= baseEase
  {
    var adjustedEase := baseEase - stretchReduction;
    if stretchReduction > 2.0 then Max(adjustedEase, 0.0) else Max(adjustedEase, 1.0)
  }

  /** More stretch never asks for more ease, across the jump of the floor at 2 cm too. */
  lemma EaseAntitoneInStretch(baseEase: real, r1: real, r2: real)
    requires r1 <= r2
    ensures EaseAfterStretch(baseEase, r2) <= EaseAfterStretch(baseEase, r1)
  {
  }

  /** `_calculate_required_ease`. */
  function RequiredEase(fitType: FitType, fabricComposition: Dicts.Dict<string, real>, measurement: string): (e: real)
    ensures e >= 0.0
    ensures e >= BaseEase(fitType, measurement) - 4.0
  {
    EaseAfterStretch(BaseEase(fitType, measurement), StretchReduction(fabricComposition))
  }

  method CalculateRequiredEase(fitType: FitType, fabricComposition: Dicts.Dict<string, real>, measurement: string)
    returns (e: real)
    ensures e == RequiredEase(fitType, fabricComposition, measurement)
  {
    var baseEase := BaseEase(fitType, measurement);
    var stretchReduction := CalculateStretchReduction(fabricComposition);
    var adjustedEase := baseEase - stretchReduction;
    if stretchReduction > 2.0 {
      e := Max(adjustedEase, 0.0);
    } else {
      e := Max(adjustedEase, 1.0);
    }
  }

  /** Without stretch fabric the required ease is the table value. */
  lemma NoStretchKeepsBaseEase(fitType: FitType, fabricComposition: Dicts.Dict<string, real>, measurement: string)
    requires StretchReduction(fabricComposition) == 0.0
    ensures RequiredEase(fitType, fabricComposition, measurement) == BaseEase(fitType, measurement)
  {
  }

  // === Fit status and score ===

  /** `available_space / required_ease`, with 5 cm standing in for a zero ease. */
  function FitRatio(availableSpace: real, requiredEase: real): real {
    if requiredEase == 0.0 then availableSpace / 5.0 else availableSpace / requiredEase
  }

  /** `_get_fit_status`: FIT_THRESHOLDS 0.5, 0.8, 1.2, 1.5 on the ratio. */
  function GetFitStatus(availableSpace: real, requiredEase: real): FitStatus {
    var ratio := FitRatio(availableSpace, requiredEase);
    if ratio < 0.5 then Tight
    else if ratio < 0.8 then Fitted
    else if ratio < 1.2 then Comfortable
    else if ratio < 1.5 then Loose
    else VeryLoose
  }

  function StatusRank(s: FitStatus): nat {
    match s
    case Tight => 0
    case Fitted => 1
    case Comfortable => 2
    case Loose => 3
    case VeryLoose => 4
  }

  lemma DivBelow(a: real, c: real, t: real)
    requires c > 0.0
    ensures a / c < t <==> a < t * c
  {
    DivMulIdentity(a, c);
    if a / c < t {
      MulStrict(a / c, t, c);
    } else {
      MulMonotonic(t, a / c, c);
    }
  }

  lemma DivMulIdentity(a: real, c: real)
    requires c != 0.0
    ensures a / c * c == a
  {
  }

  lemma MulStrict(a: real, b: real, c: real)
    requires a < b && c > 0.0
    ensures a * c < b * c
  {
  }

  /**
   * The status bands in terms of the room itself: under half the required ease is
   * tight, under 0.8 of it fitted, under 1.2 comfortable, under 1.5 loose, and the
   * rest very loose.
   */
  lemma FitStatusBands(availableSpace: real, requiredEase: real)
    requires requiredEase > 0.0
    ensures var s := GetFitStatus(availableSpace, requiredEase);
      && (s == Tight <==> availableSpace < 0.5 * requiredEase)
      && (s == Fitted <==> 0.5 * requiredEase <= availableSpace < 0.8 * requiredEase)
      && (s == Comfortable <==> 0.8 * requiredEase <= availableSpace < 1.2 * requiredEase)
      && (s == Loose <==> 1.2 * requiredEase <= availableSpace < 1.5 * requiredEase)
      && (s == VeryLoose <==> 1.5 * requiredEase <= availableSpace)
  {
    DivBelow(availableSpace, requiredEase, 0.5);
    DivBelow(availableSpace, requiredEase, 0.8);
    DivBelow(availableSpace, requiredEase, 1.2);
    DivBelow(availableSpace, requiredEase, 1.5);
  }

  /** With zero required ease the bands are measured against 5 cm. */
  lemma FitStatusBandsWithoutEase(availableSpace: real)
    ensures var s := GetFitStatus(availableSpace, 0.0);
      && (s == Tight <==> availableSpace < 2.5)
      && (s == Fitted <==> 2.5 <= availableSpace < 4.0)
      && (s == Comfortable <==> 4.0 <= availableSpace < 6.0)
      && (s == Loose <==> 6.0 <= availableSpace < 7.5)
      && (s == VeryLoose <==> 7.5 <= availableSpace)
  {
  }

  /** A garment smaller than the body is always tight. */
  lemma NegativeSpaceIsTight(availableSpace: real, requiredEase: real)
    requires availableSpace < 0.0 && requiredEase >= 0.0
    ensures GetFitStatus(availableSpace, requiredEase) == Tight
  {
    if requiredEase > 0.0 {
      FitStatusBands(availableSpace, requiredEase);
    }
  }

  /** More room never gives a tighter status. */
  lemma FitStatusMonotonic(s1: real, s2: real, requiredEase: real)
    requires s1 <= s2 && requiredEase >= 0.0
    ensures StatusRank(GetFitStatus(s1, requiredEase)) <= StatusRank(GetFitStatus(s2, requiredEase))
  {
    if requiredEase > 0.0 {
      FitStatusBands(s1, requiredEase);
      FitStatusBands(s2, requiredEase);
    }
  }

  /** The score of one measurement before the preference bonus. */
  function BaseFitScore(availableSpace: real, status: FitStatus): real {
    if availableSpace < 0.0 then Max(0.0, 30.0 + availableSpace * 5.0)
    else match status
      case Tight => 50.0
      case Fitted => 75.0
      case Comfortable => 100.0
      case Loose => 85.0
      case VeryLoose => 60.0
  }

  /** The preference bonus: +10 when the status leans the way the shopper asked for. */
  function PreferenceBonus(preference: PreferredFit, status: FitStatus): real {
    if preference == Tighter && (status == Fitted || status == Tight) then 10.0
    else if preference == Looser && (status == Loose || status == VeryLoose) then 10.0
    else 0.0
  }

  /** The score of one measurement, as `_score_size` computes it. */
  function FitScore(availableSpace: real, requiredEase: real, preference: PreferredFit): real {
    var status := GetFitStatus(availableSpace, requiredEase);
    BaseFitScore(availableSpace, status) + PreferenceBonus(preference, status)
  }

  /**
   * With a non-negative required ease every measurement scores between 0 and 100,
   * and exactly the comfortable ones reach 100.
   */
  lemma FitScoreBounds(availableSpace: real, requiredEase: real, preference: PreferredFit)
    requires requiredEase >= 0.0
    ensures 0.0 <= FitScore(availableSpace, requiredEase, preference) <= 100.0
    ensures FitScore(availableSpace, requiredEase, preference) == 100.0
            <==> GetFitStatus(availableSpace, requiredEase) == Comfortable
  {
    if availableSpace < 0.0 {
      NegativeSpaceIsTight(availableSpace, requiredEase);
    } else if GetFitStatus(availableSpace, requiredEase) == Comfortable {
      assert FitRatio(availableSpace, requiredEase) >= 0.8;
    }
  }

  /**
   * Scores rise towards the comfortable band and fall beyond it: with the preference
   * neutral, more room helps while the status is below comfortable and hurts after.
   */
  lemma FitScoreUnimodal(s1: real, s2: real, requiredEase: real)
    requires s1 <= s2 && requiredEase >= 0.0
    ensures StatusRank(GetFitStatus(s2, requiredEase)) <= 2 ==>
              FitScore(s1, requiredEase, TrueToSize) <= FitScore(s2, requiredEase, TrueToSize)
    ensures StatusRank(GetFitStatus(s1, requiredEase)) >= 2 ==>
              FitScore(s1, requiredEase, TrueToSize) >= FitScore(s2, requiredEase, TrueToSize)
  {
    FitStatusMonotonic(s1, s2, requiredEase);
    if s1 < 0.0 {
      NegativeSpaceIsTight(s1, requiredEase);
    }
    if s2 < 0.0 {
      NegativeSpaceIsTight(s2, requiredEase);
    }
  }

  /** A stated preference adds exactly 10 points on its side of comfortable and nothing else. */
  lemma PreferenceShiftsScore(availableSpace: real, requiredEase: real)
    ensures var s := GetFitStatus(availableSpace, requiredEase);
      && FitScore(availableSpace, requiredEase, Tighter) - FitScore(availableSpace, requiredEase, TrueToSize)
         == (if StatusRank(s) < 2 then 10.0 else 0.0)
      && FitScore(availableSpace, requiredEase, Looser) - FitScore(availableSpace, requiredEase, TrueToSize)
         == (if StatusRank(s) > 2 then 10.0 else 0.0)
  {
  }

  // === Scoring one size ===

  /** `measurement_mapping`: garment key and the body key it is compared with, in order. */
  const MeasurementMapping: seq<(string, string)> := [
    ("chest_width", "chest"),
    ("chest", "chest"),
    ("waist", "waist"),
    ("hip", "hip"),
    ("shoulder_width", "shoulder")
  ]

  /** `measurement_weights.get(body_key, 0.1)`. */
  function MeasurementWeight(bodyKey: string): (w: real)
    ensures 0.1 <= w <= 0.4
  {
    if bodyKey == "chest" then 0.4
    else if bodyKey == "waist" then 0.3
    else if bodyKey == "hip" then 0.2
    else if bodyKey == "shoulder" then 0.1
    else 0.1
  }

  /** What one compared measurement adds to a size's score. */
  datatype Component = Component(weight: real, fitScore: real, breakdown: SizeBreakdown)

  /**
   * The comparison of one mapping entry, or nothing when the garment lacks the value
   * (or holds None) or the body lacks the measurement.
   */
  function ComponentFor(body: Dicts.Dict<string, real>, garment: GarmentMeasurements, fitType: FitType,
                        fabricComposition: Dicts.Dict<string, real>, preference: PreferredFit,
                        garmKey: string, bodyKey: string): Option<Component>
  {
    var garmentEntry := Dicts.Get(garment, garmKey);
    var bodyEntry := Dicts.Get(body, bodyKey);
    if garmentEntry.None? || garmentEntry.value.None? || bodyEntry.None? then None
    else
        var garmentValue := garmentEntry.value.value;
        var bodyValue := bodyEntry.value;
        var requiredEase := RequiredEase(fitType, fabricComposition, bodyKey);
        var availableSpace := garmentValue - bodyValue;
        var status := GetFitStatus(availableSpace, requiredEase);
        Some(Component(
          MeasurementWeight(bodyKey),
          FitScore(availableSpace, requiredEase, preference),
          SizeBreakdown(bodyKey, Round1(bodyValue), Round1(garmentValue), Round1(requiredEase), status)))
  }

  /** `ComponentFor` on fixed inputs, as a function of the mapping entry. */
  function Comparison(body: Dicts.Dict<string, real>, garment: GarmentMeasurements, fitType: FitType,
                      fabricComposition: Dicts.Dict<string, real>, preference: PreferredFit): (string, string) -> Option<Component>
  {
    (garmKey, bodyKey) => ComponentFor(body, garment, fitType, fabricComposition, preference, garmKey, bodyKey)
  }

  /** The body of `_score_size`'s loop for one mapping entry. */
  method CompareMeasurement(body: Dicts.Dict<string, real>, garment: GarmentMeasurements, fitType: FitType,
                            fabricComposition: Dicts.Dict<string, real>, preference: PreferredFit,
                            garmKey: string, bodyKey: string) returns (c: Option<Component>)
    ensures c == ComponentFor(body, garment, fitType, fabricComposition, preference, garmKey, bodyKey)
  {
    var garmentValue := Dicts.Get(garment, garmKey);
    if garmentValue.None? || garmentValue.value.None? {
      return None;
    }
    var bodyValue := Dicts.Get(body, bodyKey);
    if bodyValue.None? {
      return None;
    }
    var requiredEase := CalculateRequiredEase(fitType, fabricComposition, bodyKey);
    var availableSpace := garmentValue.value.value - bodyValue.value;
    var fitStatus := GetFitStatus(availableSpace, requiredEase);
    var fitScore: real;
    if availableSpace < 0.0 {
      fitScore := Max(0.0, 30.0 + availableSpace * 5.0);
    } else if fitStatus == Tight {
      fitScore := 50.0;
    } else if fitStatus == Fitted {
      fitScore := 75.0;
    } else if fitStatus == Comfortable {
      fitScore := 100.0;
    } else if fitStatus == Loose {
      fitScore := 85.0;
    } else {
      fitScore := 60.0;
    }
    if preference == Tighter && (fitStatus == Fitted || fitStatus == Tight) {
      fitScore := fitScore + 10.0;
    } else if preference == Looser && (fitStatus == Loose || fitStatus == VeryLoose) {
      fitScore := fitScore + 10.0;
    }
    var weight := MeasurementWeight(bodyKey);
    c := Some(Component(weight, fitScore,
      SizeBreakdown(bodyKey, Round1(bodyValue.value), Round1(garmentValue.value.value), Round1(requiredEase), fitStatus)));
  }

  /** The running totals of `_score_size`'s loop. */
  datatype Tally = Tally(measuredWeight: real, weightedScore: real, breakdowns: seq<SizeBreakdown>)

  function TallyOf(compare: (string, string) -> Option<Component>, pairs: seq<(string, string)>): Tally {
    if pairs == [] then Tally(0.0, 0.0, [])
    else
      var t := TallyOf(compare, pairs[..|pairs| - 1]);
      var last := pairs[|pairs| - 1];
      AddComponent(t, compare(last.0, last.1))
  }

  /** One more entry extends the totals by the comparison it yields. */
  function AddComponent(t: Tally, c: Option<Component>): Tally {
    match c
    case None => t
    case Some(c) => Tally(t.measuredWeight + c.weight, t.weightedScore + c.fitScore * c.weight, t.breakdowns + [c.breakdown])
  }

  lemma TallyStep(compare: (string, string) -> Option<Component>, pairs: seq<(string, string)>, i: nat)
    requires i < |pairs|
    ensures TallyOf(compare, pairs[..i + 1]) == AddComponent(TallyOf(compare, pairs[..i]), compare(pairs[i].0, pairs[i].1))
  {
    assert pairs[..i + 1][..i] == pairs[..i];
  }

  /** The score a size gets without any compared measurement: 100 less four 5-point penalties. */
  const UnmeasuredScore: real := 100.0 - 5.0 * 4.0

  /** The totals of `_score_size` for one size. */
  function SizeTally(body: Dicts.Dict<string, real>, garment: GarmentMeasurements, fitType: FitType,
                     fabricComposition: Dicts.Dict<string, real>, preference: PreferredFit): Tally
  {
    TallyOf(Comparison(body, garment, fitType, fabricComposition, preference), MeasurementMapping)
  }

  /** `_score_size`: the weighted mean of the measurement scores, clamped to 0..100. */
  function SizeScore(body: Dicts.Dict<string, real>, garment: GarmentMeasurements, fitType: FitType,
                     fabricComposition: Dicts.Dict<string, real>, preference: PreferredFit): (r: (real, seq<SizeBreakdown>))
    ensures 0.0 <= r.0 <= 100.0
  {
    var t := SizeTally(body, garment, fitType, fabricComposition, preference);
    var score := if t.measuredWeight > 0.0 then t.weightedScore / t.measuredWeight else UnmeasuredScore;
    (Max(0.0, Min(100.0, score)), t.breakdowns)
  }

  method ScoreSize(body: Dicts.Dict<string, real>, garment: GarmentMeasurements, fitType: FitType,
                   fabricComposition: Dicts.Dict<string, real>, preference: PreferredFit)
    returns (score: real, breakdowns: seq<SizeBreakdown>)
    ensures (score, breakdowns) == SizeScore(body, garment, fitType, fabricComposition, preference)
  {
    score := 100.0;
    var measuredWeight, weightedFitScore;
    measuredWeight, weightedFitScore, breakdowns := TallyMapping(Comparison(body, garment, fitType, fabricComposition, preference), MeasurementMapping);
    if measuredWeight > 0.0 {
      score := weightedFitScore / measuredWeight;
    } else {
      score := score - 5.0 * 4.0;
    }
    score := Max(0.0, Min(100.0, score));
  }

  /**
   * The loop of `_score_size` over a garment-to-body key mapping; `compare` performs one
   * comparison (the engine passes `Comparison`, whose statement form is `CompareMeasurement`).
   */
  method TallyMapping(compare: (string, string) -> Option<Component>, mapping: seq<(string, string)>)
    returns (measuredWeight: real, weightedFitScore: real, breakdowns: seq<SizeBreakdown>)
    ensures Tally(measuredWeight, weightedFitScore, breakdowns) == TallyOf(compare, mapping)
  {
    breakdowns := [];
    measuredWeight := 0.0;
    weightedFitScore := 0.0;
    var i := 0;
    while i < |mapping|
      invariant 0 <= i <= |mapping|
      invariant TallyOf(compare, mapping[..i]) == Tally(measuredWeight, weightedFitScore, breakdowns)
    {
      var (garmKey, bodyKey) := mapping[i];
      ghost var before := Tally(measuredWeight, weightedFitScore, breakdowns);
      var c := compare(garmKey, bodyKey);
      if c.Some? {
        measuredWeight := measuredWeight + c.value.weight;
        weightedFitScore := weightedFitScore + c.value.fitScore * c.value.weight;
        breakdowns := breakdowns + [c.value.breakdown];
      }
      assert Tally(measuredWeight, weightedFitScore, breakdowns) == AddComponent(before, c);
      TallyStep(compare, mapping, i);
      i := i + 1;
    }
    assert mapping[..i] == mapping;
  }

  /** A compared measurement weighs 0.1..0.4, scores 0..100 and reports a non-negative ease. */
  predicate SoundComponent(c: Option<Component>) {
    c.Some? ==> 0.1 <= c.value.weight <= 0.4 && 0.0 <= c.value.fitScore <= 100.0
                && c.value.breakdown.easeApplied >= 0.0
  }

  /** Every comparison the engine makes is sound, and reports the body key it used. */
  lemma ComponentBounds(body: Dicts.Dict<string, real>, garment: GarmentMeasurements, fitType: FitType,
                        fabricComposition: Dicts.Dict<string, real>, preference: PreferredFit,
                        garmKey: string, bodyKey: string)
    ensures var c := ComponentFor(body, garment, fitType, fabricComposition, preference, garmKey, bodyKey);
      SoundComponent(c) && (c.Some? ==> c.value.breakdown.measurement == bodyKey)
  {
    var c := ComponentFor(body, garment, fitType, fabricComposition, preference, garmKey, bodyKey);
    if c.Some? {
      var g := Dicts.Get(garment, garmKey).value.value;
      var b := Dicts.Get(body, bodyKey).value;
      var e := RequiredEase(fitType, fabricComposition, bodyKey);
      FitScoreBounds(g - b, e, preference);
      Round1NonNegative(e);
    }
  }

  /**
   * With sound comparisons the weighted total stays within 0..100 times the weight,
   * and the weight is positive exactly when something was compared.
   */
  lemma {:induction false} TallyBounds(compare: (string, string) -> Option<Component>, pairs: seq<(string, string)>)
    requires forall i :: 0 <= i < |pairs| ==> SoundComponent(compare(pairs[i].0, pairs[i].1))
    ensures var t := TallyOf(compare, pairs);
      && 0.0 <= t.weightedScore <= 100.0 * t.measuredWeight
      && 0.1 * |t.breakdowns| as real <= t.measuredWeight <= 0.4 * |t.breakdowns| as real
      && |t.breakdowns| <= |pairs|
      && (forall i :: 0 <= i < |t.breakdowns| ==> t.breakdowns[i].easeApplied >= 0.0)
  {
    if pairs != [] {
      var p := pairs[..|pairs| - 1];
      var last := pairs[|pairs| - 1];
      TallyBounds(compare, p);
      var t := TallyOf(compare, p);
      var c := compare(last.0, last.1);
      assert SoundComponent(c);
      if c.Some? {
        MulNonNegative(c.value.fitScore, c.value.weight);
        MulMonotonic(c.value.fitScore, 100.0, c.value.weight);
        var bs := t.breakdowns + [c.value.breakdown];
        assert forall i :: 0 <= i < |bs| ==> bs[i].easeApplied >= 0.0 by {
          forall i | 0 <= i < |bs| ensures bs[i].easeApplied >= 0.0 {
            if i < |t.breakdowns| { assert bs[i] == t.breakdowns[i]; }
          }
        }
        assert (|t.breakdowns| + 1) as real == |t.breakdowns| as real + 1.0;
        var r := TallyOf(compare, pairs);
        assert r == Tally(t.measuredWeight + c.value.weight, t.weightedScore + c.value.fitScore * c.value.weight, bs);
        assert 0.0 <= r.weightedScore;
        assert t.weightedScore <= 100.0 * t.measuredWeight;
        assert c.value.fitScore * c.value.weight <= 100.0 * c.value.weight;
        assert 100.0 * r.measuredWeight == 100.0 * t.measuredWeight + 100.0 * c.value.weight;
        assert r.weightedScore <= 100.0 * r.measuredWeight;
        assert 0.1 * |r.breakdowns| as real <= r.measuredWeight;
        assert r.measuredWeight <= 0.4 * |r.breakdowns| as real;
      }
    }
  }

  lemma ComparisonSound(body: Dicts.Dict<string, real>, garment: GarmentMeasurements, fitType: FitType,
                        fabricComposition: Dicts.Dict<string, real>, preference: PreferredFit,
                        pairs: seq<(string, string)>)
    ensures var compare := Comparison(body, garment, fitType, fabricComposition, preference);
      forall i :: 0 <= i < |pairs| ==> SoundComponent(compare(pairs[i].0, pairs[i].1))
    ensures var compare := Comparison(body, garment, fitType, fabricComposition, preference);
      forall i :: 0 <= i < |pairs| ==>
        compare(pairs[i].0, pairs[i].1).Some? ==> compare(pairs[i].0, pairs[i].1).value.breakdown.measurement == pairs[i].1
  {
    var compare := Comparison(body, garment, fitType, fabricComposition, preference);
    forall i | 0 <= i < |pairs|
      ensures SoundComponent(compare(pairs[i].0, pairs[i].1))
      ensures compare(pairs[i].0, pairs[i].1).Some? ==> compare(pairs[i].0, pairs[i].1).value.breakdown.measurement == pairs[i].1
    {
      ComponentBounds(body, garment, fitType, fabricComposition, preference, pairs[i].0, pairs[i].1);
    }
  }

  lemma DivWithin(a: real, c: real, t: real)
    requires c > 0.0 && 0.0 <= a <= t * c && t >= 0.0
    ensures 0.0 <= a / c <= t
  {
    DivBelow(a, c, t);
    if a / c > t {
      MulStrict(t, a / c, c);
      DivMulIdentity(a, c);
    }
  }

  /**
   * When some measurement was compared the score is the plain weighted mean (the
   * clamp never cuts it), and when none was the size scores 80.
   */
  lemma SizeScoreIsWeightedMean(body: Dicts.Dict<string, real>, garment: GarmentMeasurements, fitType: FitType,
                                fabricComposition: Dicts.Dict<string, real>, preference: PreferredFit)
    ensures var t := SizeTally(body, garment, fitType, fabricComposition, preference);
      var r := SizeScore(body, garment, fitType, fabricComposition, preference);
      && (t.breakdowns != [] ==> t.measuredWeight > 0.0 && r.0 == t.weightedScore / t.measuredWeight)
      && (t.breakdowns == [] ==> r.0 == 80.0)
      && (forall i :: 0 <= i < |r.1| ==> r.1[i].easeApplied >= 0.0)
  {
    var t := SizeTally(body, garment, fitType, fabricComposition, preference);
    ComparisonSound(body, garment, fitType, fabricComposition, preference, MeasurementMapping);
    TallyBounds(Comparison(body, garment, fitType, fabricComposition, preference), MeasurementMapping);
    if t.breakdowns != [] {
      DivWithin(t.weightedScore, t.measuredWeight, 100.0);
    }
  }

  /** Every compared measurement scores `c`. */
  ghost predicate AllScore(compare: (string, string) -> Option<Component>, pairs: seq<(string, string)>, c: real) {
    forall i :: 0 <= i < |pairs| ==>
      compare(pairs[i].0, pairs[i].1).Some? ==> compare(pairs[i].0, pairs[i].1).value.fitScore == c
  }

  lemma {:induction false} UniformTally(compare: (string, string) -> Option<Component>, pairs: seq<(string, string)>, c: real)
    requires AllScore(compare, pairs, c)
    ensures TallyOf(compare, pairs).weightedScore == c * TallyOf(compare, pairs).measuredWeight
  {
    if pairs != [] {
      var p := pairs[..|pairs| - 1];
      assert AllScore(compare, p, c) by {
        forall i | 0 <= i < |p| ensures p[i] == pairs[i] {}
      }
      UniformTally(compare, p, c);
      var t := TallyOf(compare, p);
      var last := pairs[|pairs| - 1];
      var k := compare(last.0, last.1);
      if k.Some? {
        assert k.value.fitScore == c;
        MulDistributes(c, t.measuredWeight, k.value.weight);
      }
    }
  }

  lemma MulDistributes(c: real, a: real, w: real)
    ensures c * a + c * w == c * (a + w)
  {
  }

  lemma UniformMean(compare: (string, string) -> Option<Component>, pairs: seq<(string, string)>, c: real)
    requires AllScore(compare, pairs, c) && TallyOf(compare, pairs).measuredWeight > 0.0
    ensures TallyOf(compare, pairs).weightedScore / TallyOf(compare, pairs).measuredWeight == c
  {
    var t := TallyOf(compare, pairs);
    UniformTally(compare, pairs, c);
    DivMulIdentity(c * t.measuredWeight, t.measuredWeight);
  }

  /** If every compared measurement scores `c`, so does the size. */
  lemma UniformScoresAverageToThemselves(body: Dicts.Dict<string, real>, garment: GarmentMeasurements, fitType: FitType,
                                         fabricComposition: Dicts.Dict<string, real>, preference: PreferredFit, c: real)
    requires AllScore(Comparison(body, garment, fitType, fabricComposition, preference), MeasurementMapping, c)
    requires SizeTally(body, garment, fitType, fabricComposition, preference).breakdowns != []
    ensures SizeScore(body, garment, fitType, fabricComposition, preference).0 == c
  {
    SizeScoreIsWeightedMean(body, garment, fitType, fabricComposition, preference);
    UniformMean(Comparison(body, garment, fitType, fabricComposition, preference), MeasurementMapping, c);
  }

  // === Fit description ===

  /** `fit_status.title()`: the tag capitalised after each non-letter. */
  function StatusTitle(s: FitStatus): string {
    match s
    case Tight => "Tight"
    case Fitted => "Fitted"
    case Comfortable => "Comfortable"
    case Loose => "Loose"
    case VeryLoose => "Very_Loose"
  }

  /** The phrase table entry for a status and body measurement, if there is one. */
  function PhraseTable(s: FitStatus, measurement: string): Option<(string, string)> {
    match s
    case Tight =>
      if measurement == "chest" then Some(("Tight on chest", "Göğüste dar"))
      else if measurement == "waist" then Some(("Tight on waist", "Belde dar"))
      else if measurement == "hip" then Some(("Tight on hips", "Kalçada dar"))
      else if measurement == "shoulder" then Some(("Tight on shoulders", "Omuzlarda dar"))
      else None
    case Fitted =>
      if measurement == "chest" then Some(("Fitted on chest", "Göğüste oturumlu"))
      else if measurement == "waist" then Some(("Fitted on waist", "Belde oturumlu"))
      else if measurement == "hip" then Some(("Fitted on hips", "Kalçada oturumlu"))
      else if measurement == "shoulder" then Some(("Fitted on shoulders", "Omuzlarda oturumlu"))
      else None
    case Comfortable =>
      if measurement == "chest" then Some(("Comfortable chest fit", "Göğüste rahat"))
      else if measurement == "waist" then Some(("Comfortable waist fit", "Belde rahat"))
      else if measurement == "hip" then Some(("Comfortable hip fit", "Kalçada rahat"))
      else if measurement == "shoulder" then Some(("Comfortable shoulder fit", "Omuzlarda rahat"))
      else None
    case Loose =>
      if measurement == "chest" then Some(("Roomy on chest", "Göğüste bol"))
      else if measurement == "waist" then Some(("Roomy on waist", "Belde bol"))
      else if measurement == "hip" then Some(("Roomy on hips", "Kalçada bol"))
      else if measurement == "shoulder" then Some(("Roomy on shoulders", "Omuzlarda bol"))
      else None
    case VeryLoose =>
      if measurement == "chest" then Some(("Very loose on chest", "Göğüste çok bol"))
      else if measurement == "waist" then Some(("Very loose on waist", "Belde çok bol"))
      else if measurement == "hip" then Some(("Very loose on hips", "Kalçada çok bol"))
      else if measurement == "shoulder" then Some(("Very loose on shoulders", "Omuzlarda çok bol"))
      else None
  }

  /** The body measurements the phrase table knows. */
  predicate KnownMeasurement(m: string) {
    m == "chest" || m == "waist" || m == "hip" || m == "shoulder"
  }

  /** The English and Turkish phrase for a breakdown, with the generic fallback. */
  function Phrase(b: SizeBreakdown): (string, string) {
    PhraseTable(b.fitStatus, b.measurement).GetOr((StatusTitle(b.fitStatus) + " fit", "Genel uyum"))
  }

  /** The table covers exactly the four known measurements, for every status. */
  lemma PhraseTableCoverage(s: FitStatus, m: string)
    ensures PhraseTable(s, m).Some? <==> KnownMeasurement(m)
  {
  }

  /** The statuses the description mentions. */
  predicate Flagged(s: FitStatus) {
    s == Tight || s == Loose || s == VeryLoose
  }

  /** The phrases of the flagged breakdowns, in order. */
  function Issues(bds: seq<SizeBreakdown>): seq<(string, string)> {
    if bds == [] then []
    else
      var b := bds[|bds| - 1];
      Issues(bds[..|bds| - 1]) + (if Flagged(b.fitStatus) then [Phrase(b)] else [])
  }

  function Firsts(ps: seq<(string, string)>): (r: seq<string>)
    ensures |r| == |ps| && forall i :: 0 <= i < |ps| ==> r[i] == ps[i].0
  {
    if ps == [] then [] else Firsts(ps[..|ps| - 1]) + [ps[|ps| - 1].0]
  }

  function Seconds(ps: seq<(string, string)>): (r: seq<string>)
    ensures |r| == |ps| && forall i :: 0 <= i < |ps| ==> r[i] == ps[i].1
  {
    if ps == [] then [] else Seconds(ps[..|ps| - 1]) + [ps[|ps| - 1].1]
  }

  const GoodFit: string := "Good overall fit"
  const GoodFitTr: string := "Genel olarak iyi uyum"

  /** `_generate_fit_description`: the flagged phrases joined by ". ", or the good-fit text. */
  function FitDescription(bds: seq<SizeBreakdown>): (string, string) {
    var issues := Issues(bds);
    if issues == [] then (GoodFit, GoodFitTr)
    else (Join(". ", Firsts(issues)) + ".", Join(". ", Seconds(issues)) + ".")
  }

  /** The preference argument is accepted and not used, as in the source. */
  method GenerateFitDescription(bds: seq<SizeBreakdown>, preference: PreferredFit) returns (en: string, tr: string)
    ensures (en, tr) == FitDescription(bds)
  {
    var issuesEn, issuesTr := CollectIssues(bds);
    if issuesEn == [] {
      return GoodFit, GoodFitTr;
    }
    en := Join(". ", issuesEn) + ".";
    tr := Join(". ", issuesTr) + ".";
  }

  /** The loop of `_generate_fit_description`: the English and Turkish phrases of the flagged breakdowns. */
  method CollectIssues(bds: seq<SizeBreakdown>) returns (issuesEn: seq<string>, issuesTr: seq<string>)
    ensures issuesEn == Firsts(Issues(bds)) && issuesTr == Seconds(Issues(bds))
  {
    issuesEn := [];
    issuesTr := [];
    var i := 0;
    while i < |bds|
      invariant 0 <= i <= |bds|
      invariant issuesEn == Firsts(Issues(bds[..i])) && issuesTr == Seconds(Issues(bds[..i]))
    {
      IssuesStep(bds, i);
      var b := bds[i];
      if b.fitStatus == Tight || b.fitStatus == Loose || b.fitStatus == VeryLoose {
        var desc := Phrase(b);
        PairsSnoc(Issues(bds[..i]), desc);
        issuesEn := issuesEn + [desc.0];
        issuesTr := issuesTr + [desc.1];
      } else {
        assert Issues(bds[..i + 1]) == Issues(bds[..i]);
      }
      i := i + 1;
    }
    assert bds[..i] == bds;
  }

  /** One more breakdown adds its phrase when it is flagged. */
  lemma IssuesStep(bds: seq<SizeBreakdown>, i: nat)
    requires i < |bds|
    ensures Issues(bds[..i + 1]) == Issues(bds[..i]) + (if Flagged(bds[i].fitStatus) then [Phrase(bds[i])] else [])
  {
    assert bds[..i + 1][..i] == bds[..i];
  }

  /** Appending a pair appends its halves. */
  lemma PairsSnoc(ps: seq<(string, string)>, p: (string, string))
    ensures Firsts(ps + [p]) == Firsts(ps) + [p.0] && Seconds(ps + [p]) == Seconds(ps) + [p.1]
  {
    assert (ps + [p])[..|ps|] == ps;
  }

  /** Every flagged breakdown's phrase is among the issues. */
  lemma {:induction false} FlaggedPhrasesAreIssues(bds: seq<SizeBreakdown>)
    ensures forall i :: 0 <= i < |bds| && Flagged(bds[i].fitStatus) ==> Phrase(bds[i]) in Issues(bds)
  {
    if bds != [] {
      var p := bds[..|bds| - 1];
      FlaggedPhrasesAreIssues(p);
      forall i | 0 <= i < |bds| && Flagged(bds[i].fitStatus) ensures Phrase(bds[i]) in Issues(bds) {
        if i < |p| {
          assert bds[i] == p[i];
        }
      }
    }
  }

  /** Every issue is the phrase of a flagged breakdown, and there are none exactly when nothing is flagged. */
  lemma {:induction false} IssuesAreFlaggedPhrases(bds: seq<SizeBreakdown>)
    ensures Issues(bds) == [] <==> forall i :: 0 <= i < |bds| ==> !Flagged(bds[i].fitStatus)
    ensures forall k :: 0 <= k < |Issues(bds)| ==>
      exists i :: 0 <= i < |bds| && Flagged(bds[i].fitStatus) && Issues(bds)[k] == Phrase(bds[i])
  {
    if bds != [] {
      var p := bds[..|bds| - 1];
      IssuesAreFlaggedPhrases(p);
      var b := bds[|bds| - 1];
      var issues := Issues(bds);
      forall k | 0 <= k < |issues|
        ensures exists i :: 0 <= i < |bds| && Flagged(bds[i].fitStatus) && issues[k] == Phrase(bds[i])
      {
        if k < |Issues(p)| {
          var i :| 0 <= i < |p| && Flagged(p[i].fitStatus) && Issues(p)[k] == Phrase(p[i]);
          assert bds[i] == p[i];
        } else {
          assert issues[k] == Phrase(bds[|bds| - 1]);
        }
      }
      if forall i :: 0 <= i < |p| ==> !Flagged(p[i].fitStatus) {
        if !Flagged(b.fitStatus) {
          forall i | 0 <= i < |bds| ensures !Flagged(bds[i].fitStatus) {
            if i < |p| { assert bds[i] == p[i]; }
          }
        }
      } else {
        var i :| 0 <= i < |p| && Flagged(p[i].fitStatus);
        assert bds[i] == p[i];
      }
    }
  }

  /** A text that ends in ".". */
  lemma EndsWithDot(x: string)
    ensures var s := x + "."; |s| > 0 && s[|s| - 1] == '.'
  {
  }

  /**
   * The size fits well by its description exactly when no breakdown is tight, loose or
   * very loose, in English and in Turkish alike.
   */
  lemma GoodFitIffNothingFlagged(bds: seq<SizeBreakdown>)
    ensures FitDescription(bds).0 == GoodFit <==> forall i :: 0 <= i < |bds| ==> !Flagged(bds[i].fitStatus)
    ensures FitDescription(bds).1 == GoodFitTr <==> forall i :: 0 <= i < |bds| ==> !Flagged(bds[i].fitStatus)
  {
    IssuesAreFlaggedPhrases(bds);
    var issues := Issues(bds);
    if issues != [] {
      EndsWithDot(Join(". ", Firsts(issues)));
      EndsWithDot(Join(". ", Seconds(issues)));
      assert GoodFit[|GoodFit| - 1] == 't';
      assert GoodFitTr[|GoodFitTr| - 1] == 'm';
    }
  }

  /** Fitted and comfortable measurements do not change the description. */
  lemma UnflaggedIsSilent(bds: seq<SizeBreakdown>, b: SizeBreakdown)
    requires !Flagged(b.fitStatus)
    ensures FitDescription(bds + [b]) == FitDescription(bds)
  {
    var s := bds + [b];
    assert s[..|s| - 1] == bds && s[|s| - 1] == b;
    assert Issues(s) == Issues(bds);
  }

  /** The Turkish description lists as many issues as the English one, each from the same breakdown. */
  lemma TurkishMirrorsEnglish(bds: seq<SizeBreakdown>)
    ensures |Firsts(Issues(bds))| == |Seconds(Issues(bds))|
    ensures forall k :: 0 <= k < |Issues(bds)| ==>
      exists i :: 0 <= i < |bds| && Flagged(bds[i].fitStatus)
        && Firsts(Issues(bds))[k] == Phrase(bds[i]).0 && Seconds(Issues(bds))[k] == Phrase(bds[i]).1
  {
    IssuesAreFlaggedPhrases(bds);
  }

  /** Each breakdown a tally holds names the body key of one of the entries. */
  lemma {:induction false} TallyMeasurements(compare: (string, string) -> Option<Component>, pairs: seq<(string, string)>)
    requires forall i :: 0 <= i < |pairs| ==>
      compare(pairs[i].0, pairs[i].1).Some? ==> compare(pairs[i].0, pairs[i].1).value.breakdown.measurement == pairs[i].1
    ensures forall k :: 0 <= k < |TallyOf(compare, pairs).breakdowns| ==>
      TallyOf(compare, pairs).breakdowns[k].measurement in Seconds(pairs)
  {
    if pairs != [] {
      var p := pairs[..|pairs| - 1];
      TallyMeasurements(compare, p);
      var keys := Seconds(pairs);
      assert keys == Seconds(p) + [pairs[|pairs| - 1].1];
      var before := TallyOf(compare, p).breakdowns;
      var bs := TallyOf(compare, pairs).breakdowns;
      forall k | 0 <= k < |bs| ensures bs[k].measurement in keys {
        if k < |before| {
          assert bs[k] == before[k];
          assert before[k].measurement in Seconds(p);
          var j :| 0 <= j < |Seconds(p)| && Seconds(p)[j] == before[k].measurement;
          assert keys[j] == Seconds(p)[j];
        } else {
          var last := pairs[|pairs| - 1];
          var c := compare(last.0, last.1);
          assert bs == AddComponent(TallyOf(compare, p), c).breakdowns;
          assert c.Some? && bs[k] == c.value.breakdown;
          assert bs[k].measurement == last.1;
          assert keys[|keys| - 1] == last.1;
        }
      }
    }
  }

  /**
   * Every breakdown of a scored size names a measurement of the phrase table, so the
   * description's generic fallback phrase is never used.
   */
  lemma ScoredBreakdownsHavePhrases(body: Dicts.Dict<string, real>, garment: GarmentMeasurements, fitType: FitType,
                                    fabricComposition: Dicts.Dict<string, real>, preference: PreferredFit)
    ensures var bs := SizeScore(body, garment, fitType, fabricComposition, preference).1;
      forall k :: 0 <= k < |bs| ==> KnownMeasurement(bs[k].measurement) && PhraseTable(bs[k].fitStatus, bs[k].measurement).Some?
  {
    var compare := Comparison(body, garment, fitType, fabricComposition, preference);
    ComparisonSound(body, garment, fitType, fabricComposition, preference, MeasurementMapping);
    assert Seconds(MeasurementMapping) == ["chest", "chest", "waist", "hip", "shoulder"];
    LabelledBreakdownsHavePhrases(compare, MeasurementMapping);
  }

  /** A tally over pairs of known body keys, each component labelled with its key, has a phrase for every breakdown. */
  lemma LabelledBreakdownsHavePhrases(compare: (string, string) -> Option<Component>, pairs: seq<(string, string)>)
    requires forall i :: 0 <= i < |pairs| ==>
      compare(pairs[i].0, pairs[i].1).Some? ==> compare(pairs[i].0, pairs[i].1).value.breakdown.measurement == pairs[i].1
    requires forall m :: m in Seconds(pairs) ==> KnownMeasurement(m)
    ensures forall k :: 0 <= k < |TallyOf(compare, pairs).breakdowns| ==>
      KnownMeasurement(TallyOf(compare, pairs).breakdowns[k].measurement)
      && PhraseTable(TallyOf(compare, pairs).breakdowns[k].fitStatus, TallyOf(compare, pairs).breakdowns[k].measurement).Some?
  {
    TallyMeasurements(compare, pairs);
    var bs := TallyOf(compare, pairs).breakdowns;
    forall k | 0 <= k < |bs|
      ensures KnownMeasurement(bs[k].measurement) && PhraseTable(bs[k].fitStatus, bs[k].measurement).Some?
    {
      PhraseTableCoverage(bs[k].fitStatus, bs[k].measurement);
    }
  }

  // === Recommendation ===

  /**
   * The ways `recommend` raises: a zero height divides by zero in the BMI, and an
   * empty size table leaves `sorted_sizes[0]` out of range.
   */
  datatype RecommendError = ZeroHeight | NoSizes

  /** A size's score and breakdown, as `_score_size` returns them. */
  type ScoredSize = (real, seq<SizeBreakdown>)

  /** The sort key `lambda x: x[1][0]`. */
  function ScoreOfEntry(v: ScoredSize): real {
    v.0
  }

  function Scorer(body: Dicts.Dict<string, real>, fitType: FitType, fabricComposition: Dicts.Dict<string, real>,
                  preference: PreferredFit): GarmentMeasurements -> ScoredSize
  {
    garment => SizeScore(body, garment, fitType, fabricComposition, preference)
  }

  /** `size_scores`: every size of the table with its score, in the table's order. */
  function ScoresOf(scorer: GarmentMeasurements -> ScoredSize, products: Dicts.Dict<string, GarmentMeasurements>): Dicts.Dict<string, ScoredSize> {
    if products == [] then []
    else
      var last := products[|products| - 1];
      Dicts.Set(ScoresOf(scorer, products[..|products| - 1]), last.0, scorer(last.1))
  }

  /** `sorted_sizes`: the scored sizes from best to worst, ties in table order. */
  function Ranking(scorer: GarmentMeasurements -> ScoredSize, products: Dicts.Dict<string, GarmentMeasurements>): Dicts.Dict<string, ScoredSize> {
    StableSort.SortDescending(ScoresOf(scorer, products), ScoreOfEntry)
  }

  /** How far below the best score the runner-up may be to be offered as an alternative. */
  const AlternativeMargin: real := 15.0

  const SizeUpNote: string := "Consider sizing up if you prefer a more relaxed fit."
  const SizeDownNote: string := "Consider sizing down for a more fitted look."

  /** Step 6 of `recommend`: a tight measurement suggests sizing up, else a very loose one sizing down. */
  function Notes(bds: seq<SizeBreakdown>): Option<string> {
    if exists i :: 0 <= i < |bds| && bds[i].fitStatus == Tight then Some(SizeUpNote)
    else if exists i :: 0 <= i < |bds| && bds[i].fitStatus == VeryLoose then Some(SizeDownNote)
    else None
  }

  /** Steps 3 to 6 of `recommend`, from the ranking. */
  function Respond(ranking: Dicts.Dict<string, ScoredSize>): Result<RecommendResponse, RecommendError> {
    if ranking == [] then Failure(NoSizes)
    else
      var best := ranking[0];
      var alternative := if |ranking| > 1 && ranking[1].1.0 >= best.1.0 - AlternativeMargin then Some(ranking[1].0) else None;
      var description := FitDescription(best.1.1);
      Success(RecommendResponse(best.0, Trunc(best.1.0), description.0, Some(description.1), best.1.1, alternative, Notes(best.1.1)))
  }

  /** `recommend`. */
  function RecommendResult(height: real, weight: real, products: Dicts.Dict<string, GarmentMeasurements>, fitType: FitType,
                           fabricComposition: Dicts.Dict<string, real>, shape: Option<BodyShape>, age: Option<int>,
                           preference: PreferredFit): Result<RecommendResponse, RecommendError>
  {
    if height == 0.0 then Failure(ZeroHeight)
    else
      var body := BodyEstimator.EstimatedMeasurements(height, weight, shape, age);
      Respond(Ranking(Scorer(body, fitType, fabricComposition, preference), products))
  }

  /** Step 2 of `recommend`: the score of every size in the table. */
  method ScoreSizes(body: Dicts.Dict<string, real>, products: Dicts.Dict<string, GarmentMeasurements>, fitType: FitType,
                    fabricComposition: Dicts.Dict<string, real>, preference: PreferredFit)
    returns (sizeScores: Dicts.Dict<string, ScoredSize>)
    ensures sizeScores == ScoresOf(Scorer(body, fitType, fabricComposition, preference), products)
  {
    ghost var scorer := Scorer(body, fitType, fabricComposition, preference);
    sizeScores := [];
    var i := 0;
    while i < |products|
      invariant 0 <= i <= |products|
      invariant sizeScores == ScoresOf(scorer, products[..i])
    {
      var (sizeCode, measurements) := products[i];
      var score, breakdowns := ScoreSize(body, measurements, fitType, fabricComposition, preference);
      assert (score, breakdowns) == scorer(measurements);
      assert products[..i + 1][..i] == products[..i];
      sizeScores := Dicts.Set(sizeScores, sizeCode, (score, breakdowns));
      i := i + 1;
    }
    assert products[..i] == products;
  }

  method Recommend(height: real, weight: real, products: Dicts.Dict<string, GarmentMeasurements>, fitType: FitType,
                   fabricComposition: Dicts.Dict<string, real>, shape: Option<BodyShape>, age: Option<int>,
                   preference: PreferredFit) returns (r: Result<RecommendResponse, RecommendError>)
    ensures r == RecommendResult(height, weight, products, fitType, fabricComposition, shape, age, preference)
  {
    if height == 0.0 {
      return Failure(ZeroHeight);
    }
    var body := BodyEstimator.EstimateMeasurements(height, weight, shape, age);
    var sizeScores := ScoreSizes(body, products, fitType, fabricComposition, preference);
    var sortedSizes := StableSort.SortDescending(sizeScores, ScoreOfEntry);
    r := RespondTo(sortedSizes, preference);
  }

  /** Steps 4 to 7 of `recommend`: the response built from the ranking. */
  method RespondTo(sortedSizes: Dicts.Dict<string, ScoredSize>, preference: PreferredFit) returns (r: Result<RecommendResponse, RecommendError>)
    ensures r == Respond(sortedSizes)
  {
    if sortedSizes == [] {
      return Failure(NoSizes);
    }
    var (bestSize, (bestScore, bestBreakdowns)) := sortedSizes[0];
    var alternativeSize: Option<string> := None;
    if |sortedSizes| > 1 {
      var secondBest := sortedSizes[1];
      if secondBest.1.0 >= bestScore - AlternativeMargin {
        alternativeSize := Some(secondBest.0);
      }
    }
    var fitDescEn, fitDescTr := GenerateFitDescription(bestBreakdowns, preference);
    r := Success(RecommendResponse(bestSize, Trunc(bestScore), fitDescEn, Some(fitDescTr), bestBreakdowns,
                                   alternativeSize, Notes(bestBreakdowns)));
  }

  /** In a table with distinct sizes, `size_scores` holds each size's score at its own position. */
  lemma {:induction false} ScoresOfPositions(scorer: GarmentMeasurements -> ScoredSize, products: Dicts.Dict<string, GarmentMeasurements>)
    requires Dicts.DistinctKeys(products)
    ensures |ScoresOf(scorer, products)| == |products|
    ensures forall i :: 0 <= i < |products| ==> ScoresOf(scorer, products)[i] == (products[i].0, scorer(products[i].1))
  {
    if products != [] {
      var p := products[..|products| - 1];
      var last := products[|products| - 1];
      assert forall i :: 0 <= i < |p| ==> p[i] == products[i];
      ScoresOfPositions(scorer, p);
      var before := ScoresOf(scorer, p);
      assert !Dicts.HasKey(before, last.0) by {
        forall i | 0 <= i < |before| ensures Dicts.Keys(before)[i] != last.0 {
          assert before[i].0 == p[i].0 == products[i].0;
        }
      }
      var r := ScoresOf(scorer, products);
      assert r == before + [(last.0, scorer(last.1))];
      forall i | 0 <= i < |products| ensures r[i] == (products[i].0, scorer(products[i].1)) {
        if i < |p| {
          assert r[i] == before[i];
        }
      }
    }
  }

  /** `size_scores` is empty exactly when the size table is. */
  lemma ScoresOfEmpty(scorer: GarmentMeasurements -> ScoredSize, products: Dicts.Dict<string, GarmentMeasurements>)
    ensures ScoresOf(scorer, products) == [] <==> products == []
  {
    if products != [] {
      var before := ScoresOf(scorer, products[..|products| - 1]);
      var last := products[|products| - 1];
      if Dicts.HasKey(before, last.0) {
        assert |before| > 0;
      }
    }
  }

  /** Size `m` has the highest score of the table, and no earlier size ties it. */
  ghost predicate BestAt(scorer: GarmentMeasurements -> ScoredSize, products: Dicts.Dict<string, GarmentMeasurements>, m: nat) {
    && m < |products|
    && (forall j :: 0 <= j < |products| ==> scorer(products[j].1).0 <= scorer(products[m].1).0)
    && (forall j :: 0 <= j < m ==> scorer(products[j].1).0 < scorer(products[m].1).0)
  }

  /**
   * Size `j` is the runner-up to the best size `m`: no other size but `m` scores more,
   * and every other size before it scores less, so that it is the earliest of any tie.
   */
  ghost predicate RunnerUpAt(scorer: GarmentMeasurements -> ScoredSize, products: Dicts.Dict<string, GarmentMeasurements>, m: nat, j: nat) {
    && j < |products| && j != m
    && (forall k :: 0 <= k < |products| && k != m ==> scorer(products[k].1).0 <= scorer(products[j].1).0)
    && (forall k :: 0 <= k < j && k != m ==> scorer(products[k].1).0 < scorer(products[j].1).0)
  }

  /** Every non-empty table has a first best size. */
  lemma BestExists(scorer: GarmentMeasurements -> ScoredSize, products: Dicts.Dict<string, GarmentMeasurements>)
    requires Dicts.DistinctKeys(products) && products != []
    ensures exists m :: BestAt(scorer, products, m)
  {
    ScoresOfPositions(scorer, products);
    var m := StableSort.FirstMax(ScoresOf(scorer, products), ScoreOfEntry);
    assert BestAt(scorer, products, m);
  }

  /** The first best size is where the sort's first maximum sits. */
  lemma FirstMaxIsBest(scorer: GarmentMeasurements -> ScoredSize, products: Dicts.Dict<string, GarmentMeasurements>, m: nat)
    requires Dicts.DistinctKeys(products) && BestAt(scorer, products, m)
    ensures |ScoresOf(scorer, products)| == |products|
    ensures StableSort.FirstMax(ScoresOf(scorer, products), ScoreOfEntry) == m
  {
    ScoresOfPositions(scorer, products);
    var f := StableSort.FirstMax(ScoresOf(scorer, products), ScoreOfEntry);
    assert f == m;
  }

  /** The head of the ranking is the table's first best size. */
  lemma RankingHead(scorer: GarmentMeasurements -> ScoredSize, products: Dicts.Dict<string, GarmentMeasurements>, m: nat)
    requires Dicts.DistinctKeys(products) && BestAt(scorer, products, m)
    ensures |Ranking(scorer, products)| == |products|
    ensures Ranking(scorer, products)[0] == (products[m].0, scorer(products[m].1))
  {
    ScoresOfPositions(scorer, products);
    FirstMaxIsBest(scorer, products, m);
    StableSort.SortHeadIsFirstMax(ScoresOf(scorer, products), ScoreOfEntry);
  }

  /** The runner-up of the table is the sort's runner-up of the size scores. */
  lemma RunnerUpAtScores(scorer: GarmentMeasurements -> ScoredSize, products: Dicts.Dict<string, GarmentMeasurements>, m: nat, j: nat)
    requires Dicts.DistinctKeys(products)
    ensures RunnerUpAt(scorer, products, m, j) <==> StableSort.IsRunnerUp(ScoresOf(scorer, products), ScoreOfEntry, m, j)
  {
    ScoresOfPositions(scorer, products);
  }

  /**
   * The second of the ranking is the runner-up: of the sizes other than the winner, the
   * earliest in the table with the highest score.
   */
  lemma RankingSecond(scorer: GarmentMeasurements -> ScoredSize, products: Dicts.Dict<string, GarmentMeasurements>, m: nat)
    requires Dicts.DistinctKeys(products) && BestAt(scorer, products, m) && |products| > 1
    ensures |Ranking(scorer, products)| == |products|
    ensures exists j: nat :: RunnerUpAt(scorer, products, m, j)
    ensures forall j: nat :: RunnerUpAt(scorer, products, m, j) ==> Ranking(scorer, products)[1] == (products[j].0, scorer(products[j].1))
  {
    var s := ScoresOf(scorer, products);
    ScoresOfPositions(scorer, products);
    FirstMaxIsBest(scorer, products, m);
    var r := StableSort.RunnerUp(s, ScoreOfEntry);
    RunnerUpAtScores(scorer, products, m, r);
    forall j: nat | RunnerUpAt(scorer, products, m, j) ensures Ranking(scorer, products)[1] == (products[j].0, scorer(products[j].1)) {
      RunnerUpAtScores(scorer, products, m, j);
      StableSort.SortSecondIsAnyRunnerUp(s, ScoreOfEntry, j);
    }
  }

  /**
   * The response names the first best size, reports its breakdown, its truncated score
   * and a description and notes drawn from that breakdown.
   */
  lemma RespondWinner(scorer: GarmentMeasurements -> ScoredSize, products: Dicts.Dict<string, GarmentMeasurements>, m: nat)
    requires Dicts.DistinctKeys(products) && BestAt(scorer, products, m)
    ensures var r := Respond(Ranking(scorer, products));
      && r.Success?
      && r.value.recommendedSize == products[m].0
      && r.value.sizeBreakdown == scorer(products[m].1).1
      && r.value.confidenceScore == Trunc(scorer(products[m].1).0)
      && r.value.fitDescription == FitDescription(r.value.sizeBreakdown).0
      && r.value.fitDescriptionTr == Some(FitDescription(r.value.sizeBreakdown).1)
      && r.value.notes == Notes(r.value.sizeBreakdown)
  {
    RankingHead(scorer, products, m);
  }

  /**
   * An alternative is offered exactly when another size scores within 15 points of the
   * best. It is then the runner-up: of the other sizes, the earliest in the table with
   * the highest score.
   */
  lemma RespondAlternative(scorer: GarmentMeasurements -> ScoredSize, products: Dicts.Dict<string, GarmentMeasurements>, m: nat)
    requires Dicts.DistinctKeys(products) && BestAt(scorer, products, m)
    ensures var r := Respond(Ranking(scorer, products));
      && r.Success?
      && (r.value.alternativeSize.Some? <==>
            exists j :: 0 <= j < |products| && j != m && scorer(products[j].1).0 >= scorer(products[m].1).0 - AlternativeMargin)
      && (|products| > 1 ==> exists j: nat :: RunnerUpAt(scorer, products, m, j))
      && (forall j: nat :: RunnerUpAt(scorer, products, m, j) ==>
            r.value.alternativeSize ==
              if scorer(products[j].1).0 >= scorer(products[m].1).0 - AlternativeMargin then Some(products[j].0) else None)
      && (r.value.alternativeSize.Some? ==> r.value.alternativeSize.value != r.value.recommendedSize)
  {
    var ranking := Ranking(scorer, products);
    RankingHead(scorer, products, m);
    if |products| > 1 {
      RankingSecond(scorer, products, m);
      var j: nat :| RunnerUpAt(scorer, products, m, j);
      assert ranking[1] == (products[j].0, scorer(products[j].1));
      assert products[j].0 != products[m].0;
    } else {
      assert |products| == 1 && m == 0;
    }
  }

  /** A note is given only when the description names a problem. */
  lemma NotesOnlyWithIssues(bds: seq<SizeBreakdown>)
    ensures Notes(bds).Some? ==> FitDescription(bds).0 != GoodFit
    ensures Notes(bds) == Some(SizeUpNote) <==> exists i :: 0 <= i < |bds| && bds[i].fitStatus == Tight
  {
    GoodFitIffNothingFlagged(bds);
  }

  /** `recommend` raises exactly for a zero height or an empty size table, the height checked first. */
  lemma RecommendFailsExactly(height: real, weight: real, products: Dicts.Dict<string, GarmentMeasurements>, fitType: FitType,
                              fabricComposition: Dicts.Dict<string, real>, shape: Option<BodyShape>, age: Option<int>,
                              preference: PreferredFit)
    ensures var r := RecommendResult(height, weight, products, fitType, fabricComposition, shape, age, preference);
      && (r.Failure? <==> height == 0.0 || products == [])
      && (r.Failure? ==> (r.error == ZeroHeight <==> height == 0.0))
  {
    if height != 0.0 {
      var body := BodyEstimator.EstimatedMeasurements(height, weight, shape, age);
      ScoresOfEmpty(Scorer(body, fitType, fabricComposition, preference), products);
    }
  }

  /** Every score in the ranking of a scorer with scores in 0..100 lies in 0..100. */
  lemma {:induction false} ScoresOfInRange(scorer: GarmentMeasurements -> ScoredSize, products: Dicts.Dict<string, GarmentMeasurements>)
    requires forall g :: 0.0 <= scorer(g).0 <= 100.0
    ensures forall i :: 0 <= i < |ScoresOf(scorer, products)| ==> 0.0 <= ScoresOf(scorer, products)[i].1.0 <= 100.0
  {
    if products != [] {
      var before := ScoresOf(scorer, products[..|products| - 1]);
      var last := products[|products| - 1];
      ScoresOfInRange(scorer, products[..|products| - 1]);
      SetInRange(before, last.0, scorer(last.1));
    }
  }

  /** Assigning an in-range score keeps every score of the table in range. */
  lemma {:induction false} SetInRange(d: Dicts.Dict<string, ScoredSize>, k: string, v: ScoredSize)
    requires forall i :: 0 <= i < |d| ==> 0.0 <= d[i].1.0 <= 100.0
    requires 0.0 <= v.0 <= 100.0
    ensures forall i :: 0 <= i < |Dicts.Set(d, k, v)| ==> 0.0 <= Dicts.Set(d, k, v)[i].1.0 <= 100.0
  {
    if d != [] && d[0].0 != k {
      SetInRange(d[1..], k, v);
      var r := Dicts.Set(d, k, v);
      forall i | 0 <= i < |r| ensures 0.0 <= r[i].1.0 <= 100.0 {
        if i > 0 {
          assert r[i] == Dicts.Set(d[1..], k, v)[i - 1];
        }
      }
    }
  }

  /** Sorting keeps every score in 0..100. */
  lemma SortedInRange(scores: Dicts.Dict<string, ScoredSize>)
    requires forall i :: 0 <= i < |scores| ==> 0.0 <= scores[i].1.0 <= 100.0
    ensures forall i :: 0 <= i < |StableSort.SortDescending(scores, ScoreOfEntry)| ==>
      0.0 <= StableSort.SortDescending(scores, ScoreOfEntry)[i].1.0 <= 100.0
  {
    var ranking := StableSort.SortDescending(scores, ScoreOfEntry);
    StableSort.SortPermutes(scores, ScoreOfEntry);
    forall i | 0 <= i < |ranking| ensures 0.0 <= ranking[i].1.0 <= 100.0 {
      assert ranking[i] in multiset(scores);
      var q := StableSort.IndexOf(scores, ranking[i]);
    }
  }

  /** A response built from an in-range ranking has a percentage confidence. */
  lemma RespondConfidence(ranking: Dicts.Dict<string, ScoredSize>)
    requires forall i :: 0 <= i < |ranking| ==> 0.0 <= ranking[i].1.0 <= 100.0
    ensures Respond(ranking).Success? ==> ValidRecommendResponse(Respond(ranking).value)
  {
  }

  /** The confidence is a percentage, as the response schema demands. */
  lemma RecommendConfidenceInRange(height: real, weight: real, products: Dicts.Dict<string, GarmentMeasurements>, fitType: FitType,
                                   fabricComposition: Dicts.Dict<string, real>, shape: Option<BodyShape>, age: Option<int>,
                                   preference: PreferredFit)
    ensures var r := RecommendResult(height, weight, products, fitType, fabricComposition, shape, age, preference);
      r.Success? ==> ValidRecommendResponse(r.value)
  {
    if height != 0.0 {
      var body := BodyEstimator.EstimatedMeasurements(height, weight, shape, age);
      var scorer := Scorer(body, fitType, fabricComposition, preference);
      ScoresOfInRange(scorer, products);
      SortedInRange(ScoresOf(scorer, products));
      RespondConfidence(Ranking(scorer, products));
    }
  }

  /**
   * `recommend` picks the first size of the table with the highest score, and offers as
   * alternative the runner-up (the earliest of the other sizes with the highest score)
   * exactly when some other size is within 15 points of it.
   */
  lemma RecommendPicksFirstBestSize(height: real, weight: real, products: Dicts.Dict<string, GarmentMeasurements>, fitType: FitType,
                                    fabricComposition: Dicts.Dict<string, real>, shape: Option<BodyShape>, age: Option<int>,
                                    preference: PreferredFit, m: nat)
    requires height != 0.0 && Dicts.DistinctKeys(products)
    requires BestAt(Scorer(BodyEstimator.EstimatedMeasurements(height, weight, shape, age), fitType, fabricComposition, preference), products, m)
    ensures var r := RecommendResult(height, weight, products, fitType, fabricComposition, shape, age, preference);
      var score := Scorer(BodyEstimator.EstimatedMeasurements(height, weight, shape, age), fitType, fabricComposition, preference);
      && r.Success?
      && r.value.recommendedSize == products[m].0
      && r.value.sizeBreakdown == score(products[m].1).1
      && r.value.confidenceScore == Trunc(score(products[m].1).0)
      && (r.value.alternativeSize.Some? <==>
            exists j :: 0 <= j < |products| && j != m && score(products[j].1).0 >= score(products[m].1).0 - AlternativeMargin)
      && (forall j: nat :: RunnerUpAt(score, products, m, j) ==>
            r.value.alternativeSize ==
              if score(products[j].1).0 >= score(products[m].1).0 - AlternativeMargin then Some(products[j].0) else None)
      && (r.value.alternativeSize.Some? ==> r.value.alternativeSize.value != r.value.recommendedSize)
  {
    var scorer := Scorer(BodyEstimator.EstimatedMeasurements(height, weight, shape, age), fitType, fabricComposition, preference);
    RespondWinner(scorer, products, m);
    RespondAlternative(scorer, products, m);
  }
}
