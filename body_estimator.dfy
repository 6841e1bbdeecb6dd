/**
 * The body estimator: chest, waist, hip and shoulder values from height and weight
 * through fixed ratio tables, a body-shape multiplier, a correction for the distance
 * from the reference BMI and a capped age factor; foot length from height alone.
 */
module BodyEstimator {
  import opened Wrappers
  import Dicts
  import opened Numbers
  import opened Schemas

  /** The four proportional measurements, in the order of the ratio table. */
  datatype Part = Chest | Waist | Hip | Shoulder

  const Parts: seq<Part> := [Chest, Waist, Hip, Shoulder]

  function PartName(p: Part): string {
    match p
    case Chest => "chest"
    case Waist => "waist"
    case Hip => "hip"
    case Shoulder => "shoulder"
  }

  /** BASE_RATIOS: each measurement as a fraction of height. */
  function BaseRatio(p: Part): real {
    match p
    case Chest => 0.52
    case Waist => 0.44
    case Hip => 0.53
    case Shoulder => 0.24
  }

  /** BODY_SHAPE_MODIFIERS. */
  function ShapeModifier(shape: BodyShape, p: Part): real {
    match shape
    case Athletic => (match p case Chest => 1.05 case Waist => 0.92 case Hip => 0.98 case Shoulder => 1.08)
    case Average => 1.0
    case Slim => (match p case Chest => 0.92 case Waist => 0.88 case Hip => 0.94 case Shoulder => 0.95)
    case Stocky => (match p case Chest => 1.08 case Waist => 1.12 case Hip => 1.06 case Shoulder => 1.05)
    case PlusSize => (match p case Chest => 1.15 case Waist => 1.22 case Hip => 1.18 case Shoulder => 1.02)
  }

  /** BMI_IMPACT: how strongly each measurement follows the BMI deviation. */
  function BmiImpact(p: Part): real {
    match p
    case Chest => 0.8
    case Waist => 1.2
    case Hip => 0.9
    case Shoulder => 0.3
  }

  const ReferenceBmi: real := 22.5

  /**
   * `calculate_bmi`: weight over the square of the height in metres, written as two
   * divisions by the height in metres (the same real number).
   */
  function CalculateBmi(heightCm: real, weightKg: real): real
    requires heightCm != 0.0
  {
    var heightM := heightCm / 100.0;
    weightKg / heightM / heightM
  }

  /** The BMI times the squared height in metres gives back the weight. */
  lemma BmiTimesSquaredHeight(heightCm: real, weightKg: real)
    requires heightCm != 0.0
    ensures CalculateBmi(heightCm, weightKg) * (heightCm / 100.0) * (heightCm / 100.0) == weightKg
  {
    var heightM := heightCm / 100.0;
    DivMul(weightKg / heightM, heightM);
    DivMul(weightKg, heightM);
  }

  /** For a fixed positive height the BMI grows with the weight. */
  lemma BmiMonotonic(heightCm: real, w1: real, w2: real)
    requires heightCm > 0.0 && w1 <= w2
    ensures CalculateBmi(heightCm, w1) <= CalculateBmi(heightCm, w2)
  {
    var heightM := heightCm / 100.0;
    DivMonotonic(w1, w2, heightM);
    DivMonotonic(w1 / heightM, w2 / heightM, heightM);
  }

  lemma DivMul(a: real, c: real)
    requires c != 0.0
    ensures a / c * c == a
  {
  }

  lemma MulMonotonic(a: real, b: real, c: real)
    requires a <= b && c >= 0.0
    ensures a * c <= b * c
  {
  }

  lemma DivMonotonic(a: real, b: real, c: real)
    requires a <= b && c > 0.0
    ensures a / c <= b / c
  {
  }

  lemma DivAntitone(a: real, c: real, d: real)
    requires a >= 0.0 && 0.0 < c <= d
    ensures a / d <= a / c
  {
  }

  function BmiDeviation(heightCm: real, weightKg: real): real
    requires heightCm != 0.0
  {
    (CalculateBmi(heightCm, weightKg) - ReferenceBmi) / ReferenceBmi
  }

  /** The age adjustment: only waist and hip, only past 40, at most 5%. */
  function AgeFactor(age: Option<int>, p: Part): (f: real)
    ensures 1.0 <= f <= 1.05
    ensures p == Chest || p == Shoulder ==> f == 1.0
    ensures age.None? || age.value <= 40 ==> f == 1.0
    ensures age.Some? && age.value > 40 && (p == Waist || p == Hip) ==>
              f == Min(1.0 + (age.value - 40) as real * 0.002, 1.05)
  {
    if age.Some? && age.value > 40 then
      var ageFactor := 1.0 + (age.value - 40) as real * 0.002;
      if p == Waist || p == Hip then Min(ageFactor, 1.05) else 1.0
    else 1.0
  }

  /** A missing body shape is the average one. */
  function EffectiveShape(shape: Option<BodyShape>): (s: BodyShape)
    ensures shape.None? ==> s == Average
    ensures shape.Some? ==> s == shape.value
  {
    shape.GetOr(Average)
  }

  /** Height times base ratio times shape modifier. */
  function ShapedBase(heightCm: real, shape: BodyShape, p: Part): real {
    heightCm * BaseRatio(p) * ShapeModifier(shape, p)
  }

  /** One plus the BMI deviation weighted by the part's impact. */
  function BmiFactor(heightCm: real, weightKg: real, p: Part): real
    requires heightCm != 0.0
  {
    1.0 + BmiDeviation(heightCm, weightKg) * BmiImpact(p)
  }

  /** One measurement before rounding. */
  function Unrounded(heightCm: real, weightKg: real, shape: BodyShape, age: Option<int>, p: Part): real
    requires heightCm != 0.0
  {
    ShapedBase(heightCm, shape, p) * BmiFactor(heightCm, weightKg, p) * AgeFactor(age, p)
  }

  function Estimate(heightCm: real, weightKg: real, shape: Option<BodyShape>, age: Option<int>, p: Part): real
    requires heightCm != 0.0
  {
    Round1(Unrounded(heightCm, weightKg, EffectiveShape(shape), age, p))
  }

  /** One entry per part, named and valued, in the order of `ps`. */
  function PartEntries(value: Part -> real, ps: seq<Part>): (m: Dicts.Dict<string, real>)
    ensures |m| == |ps|
    ensures forall j :: 0 <= j < |ps| ==> m[j] == (PartName(ps[j]), value(ps[j]))
  {
    if ps == [] then [] else PartEntries(value, ps[..|ps| - 1]) + [(PartName(ps[|ps| - 1]), value(ps[|ps| - 1]))]
  }

  /** The four parts followed by foot length: the layout of the estimator's dictionary. */
  function Layout(value: Part -> real, footLength: real): (m: Dicts.Dict<string, real>)
    ensures Dicts.Keys(m) == ["chest", "waist", "hip", "shoulder", "foot_length"]
  {
    PartEntries(value, Parts) + [("foot_length", footLength)]
  }

  /** Looking up a name in the layout gives the value stored for it. */
  lemma LayoutLookup(value: Part -> real, footLength: real, p: Part)
    ensures Dicts.Get(Layout(value, footLength), PartName(p)) == Some(value(p))
    ensures Dicts.Get(Layout(value, footLength), "foot_length") == Some(footLength)
  {
    var m := Layout(value, footLength);
    var i := match p case Chest => 0 case Waist => 1 case Hip => 2 case Shoulder => 3;
    assert Dicts.DistinctKeys(m) by {
      assert Dicts.Keys(m) == ["chest", "waist", "hip", "shoulder", "foot_length"];
      forall a, b | 0 <= a < b < |m| ensures m[a].0 != m[b].0 {
        assert m[a].0 == Dicts.Keys(m)[a] && m[b].0 == Dicts.Keys(m)[b];
      }
    }
    assert m[i] == (PartName(p), value(p));
    Dicts.GetAt(m, i);
    Dicts.GetAt(m, 4);
  }

  /** The measurement dictionary, in the order the estimator fills it. */
  function EstimatedMeasurements(heightCm: real, weightKg: real, shape: Option<BodyShape>, age: Option<int>): (m: Dicts.Dict<string, real>)
    requires heightCm != 0.0
    ensures Dicts.Keys(m) == ["chest", "waist", "hip", "shoulder", "foot_length"]
  {
    Layout(EstimateOf(heightCm, weightKg, shape, age), Round1(heightCm * 0.153))
  }

  /** The estimate of every part, as one function value. */
  function EstimateOf(heightCm: real, weightKg: real, shape: Option<BodyShape>, age: Option<int>): Part -> real
    requires heightCm != 0.0
  {
    p => Estimate(heightCm, weightKg, shape, age, p)
  }

  /** `estimate_measurements`: fills the dictionary from the ratio table, then adds foot length. */
  method EstimateMeasurements(heightCm: real, weightKg: real, shape: Option<BodyShape>, age: Option<int>)
    returns (measurements: Dicts.Dict<string, real>)
    requires heightCm != 0.0
    ensures measurements == EstimatedMeasurements(heightCm, weightKg, shape, age)
  {
    var bodyShape := if shape.None? then Average else shape.value;
    ghost var value := EstimateOf(heightCm, weightKg, shape, age);
    measurements := [];
    var i := 0;
    while i < |Parts|
      invariant 0 <= i <= |Parts|
      invariant measurements == PartEntries(value, Parts[..i])
    {
      var p := Parts[i];
      var adjustedValue := Unrounded(heightCm, weightKg, bodyShape, age, p);
      assert Round1(adjustedValue) == value(p);
      NewPartName(Parts[..i], value, i);
      measurements := Dicts.Set(measurements, PartName(p), Round1(adjustedValue));
      assert Parts[..i + 1][..i] == Parts[..i];
      i := i + 1;
    }
    assert Parts[..i] == Parts;
    assert !Dicts.HasKey(measurements, "foot_length");
    measurements := Dicts.Set(measurements, "foot_length", Round1(heightCm * 0.153));
  }

  /** The name of the next part is not yet a key of the entries for the earlier ones. */
  lemma NewPartName(done: seq<Part>, value: Part -> real, i: nat)
    requires i < |Parts| && done == Parts[..i]
    ensures !Dicts.HasKey(PartEntries(value, done), PartName(Parts[i]))
  {
    var m := PartEntries(value, done);
    forall j | 0 <= j < i ensures m[j].0 != PartName(Parts[i]) {
      assert Parts[j] != Parts[i];
    }
  }

  /** Value of one named body measurement in the estimator's output. */
  lemma EstimatedLookup(heightCm: real, weightKg: real, shape: Option<BodyShape>, age: Option<int>, p: Part)
    requires heightCm != 0.0
    ensures Dicts.Get(EstimatedMeasurements(heightCm, weightKg, shape, age), PartName(p))
            == Some(Estimate(heightCm, weightKg, shape, age, p))
    ensures Dicts.Get(EstimatedMeasurements(heightCm, weightKg, shape, age), "foot_length")
            == Some(Round1(heightCm * 0.153))
  {
    LayoutLookup(EstimateOf(heightCm, weightKg, shape, age), Round1(heightCm * 0.153), p);
  }

  /**
   * With the average shape, BMI exactly at the reference and no age adjustment, each
   * measurement is the rounded product of height and its base ratio.
   */
  lemma ReferenceBodyFollowsBaseRatios(heightCm: real, weightKg: real, shape: Option<BodyShape>, age: Option<int>, p: Part)
    requires heightCm != 0.0
    requires EffectiveShape(shape) == Average
    requires CalculateBmi(heightCm, weightKg) == ReferenceBmi
    requires age.None? || age.value <= 40
    ensures Dicts.Get(EstimatedMeasurements(heightCm, weightKg, shape, age), PartName(p))
            == Some(Round1(heightCm * BaseRatio(p)))
  {
    EstimatedLookup(heightCm, weightKg, shape, age, p);
    assert BmiFactor(heightCm, weightKg, p) == 1.0;
    assert ShapedBase(heightCm, Average, p) == heightCm * BaseRatio(p);
  }

  /** Foot length depends on height only. */
  lemma FootLengthDependsOnHeightOnly(heightCm: real, w1: real, w2: real, s1: Option<BodyShape>, s2: Option<BodyShape>, a1: Option<int>, a2: Option<int>)
    requires heightCm != 0.0
    ensures Dicts.Get(EstimatedMeasurements(heightCm, w1, s1, a1), "foot_length")
            == Dicts.Get(EstimatedMeasurements(heightCm, w2, s2, a2), "foot_length")
            == Some(Round1(heightCm * 0.153))
  {
    LayoutLookup(EstimateOf(heightCm, w1, s1, a1), Round1(heightCm * 0.153), Chest);
    LayoutLookup(EstimateOf(heightCm, w2, s2, a2), Round1(heightCm * 0.153), Chest);
  }

  /**
   * Age changes only waist and hip, only past 40, by the capped factor; chest and
   * shoulder ignore it.
   */
  lemma AgeAdjustsOnlyWaistAndHip(heightCm: real, weightKg: real, shape: BodyShape, age: Option<int>, p: Part)
    requires heightCm != 0.0
    ensures p == Chest || p == Shoulder || age.None? || age.value <= 40 ==>
              Unrounded(heightCm, weightKg, shape, age, p) == Unrounded(heightCm, weightKg, shape, None, p)
    ensures (p == Waist || p == Hip) && age.Some? && age.value > 40 ==>
              Unrounded(heightCm, weightKg, shape, age, p)
              == Unrounded(heightCm, weightKg, shape, None, p) * Min(1.0 + (age.value - 40) as real * 0.002, 1.05)
  {
  }


  /** Raising the weight (height, shape and age fixed) never shrinks a measurement. */
  lemma {:induction false} MoreWeightNeverShrinks(heightCm: real, w1: real, w2: real, shape: BodyShape, age: Option<int>, p: Part)
    requires heightCm > 0.0 && w1 <= w2
    ensures Unrounded(heightCm, w1, shape, age, p) <= Unrounded(heightCm, w2, shape, age, p)
    ensures Round1(Unrounded(heightCm, w1, shape, age, p)) <= Round1(Unrounded(heightCm, w2, shape, age, p))
  {
    BmiFactorMonotonic(heightCm, w1, w2, p);
    assert ShapedBase(heightCm, shape, p) > 0.0 by {
      assert heightCm * BaseRatio(p) > 0.0;
    }
    ProductMonotonic(ShapedBase(heightCm, shape, p), BmiFactor(heightCm, w1, p), BmiFactor(heightCm, w2, p), AgeFactor(age, p));
    Round1Monotonic(Unrounded(heightCm, w1, shape, age, p), Unrounded(heightCm, w2, shape, age, p));
  }

  lemma BmiFactorMonotonic(heightCm: real, w1: real, w2: real, p: Part)
    requires heightCm > 0.0 && w1 <= w2
    ensures BmiFactor(heightCm, w1, p) <= BmiFactor(heightCm, w2, p)
  {
    BmiMonotonic(heightCm, w1, w2);
    DivMonotonic(CalculateBmi(heightCm, w1) - ReferenceBmi, CalculateBmi(heightCm, w2) - ReferenceBmi, ReferenceBmi);
    MulMonotonic(BmiDeviation(heightCm, w1), BmiDeviation(heightCm, w2), BmiImpact(p));
  }

  lemma ProductMonotonic(k: real, f1: real, f2: real, a: real)
    requires k > 0.0 && f1 <= f2 && a >= 1.0
    ensures k * f1 * a <= k * f2 * a
  {
    MulMonotonic(f1, f2, k);
    assert k * f1 <= k * f2;
    MulMonotonic(k * f1, k * f2, a);
  }

  /** The smallest product of base ratio and shape modifier over the tables. */
  lemma ProportionLowerBound(shape: BodyShape, p: Part)
    ensures BaseRatio(p) * ShapeModifier(shape, p) >= 0.228
  {
  }

  lemma BmiLowerBound(heightCm: real, weightKg: real)
    requires 100.0 <= heightCm <= 250.0 && 30.0 <= weightKg <= 300.0
    ensures CalculateBmi(heightCm, weightKg) >= 4.8
  {
    var heightM := heightCm / 100.0;
    DivMonotonic(30.0, weightKg, heightM);
    DivAntitone(30.0, heightM, 2.5);
    DivMonotonic(12.0, weightKg / heightM, heightM);
    DivAntitone(12.0, heightM, 2.5);
  }

  /**
   * For every height and weight the request schema admits, each estimated
   * measurement, before and after rounding, is positive.
   */
  lemma EstimatesPositiveOnValidRange(heightCm: real, weightKg: real, shape: Option<BodyShape>, age: Option<int>, p: Part)
    requires 100.0 <= heightCm <= 250.0 && 30.0 <= weightKg <= 300.0
    ensures Unrounded(heightCm, weightKg, EffectiveShape(shape), age, p) > 1.0
    ensures Estimate(heightCm, weightKg, shape, age, p) > 0.0
    ensures Round1(heightCm * 0.153) > 0.0
  {
    UnroundedAboveOne(heightCm, weightKg, EffectiveShape(shape), age, p);
    RoundedPositive(Unrounded(heightCm, weightKg, EffectiveShape(shape), age, p));
    RoundedPositive(heightCm * 0.153);
  }

  lemma UnroundedAboveOne(heightCm: real, weightKg: real, s: BodyShape, age: Option<int>, p: Part)
    requires 100.0 <= heightCm <= 250.0 && 30.0 <= weightKg <= 300.0
    ensures Unrounded(heightCm, weightKg, s, age, p) > 1.0
  {
    BmiFactorLowerBound(heightCm, weightKg, p);
    ShapedBaseLowerBound(heightCm, s, p);
    ProductLowerBound(ShapedBase(heightCm, s, p), BmiFactor(heightCm, weightKg, p), AgeFactor(age, p));
  }

  lemma RoundedPositive(x: real)
    requires x > 1.0
    ensures Round1(x) > 0.0
  {
  }

  /** Even for the lowest admissible BMI, every BMI factor stays above 0.05. */
  lemma BmiFactorLowerBound(heightCm: real, weightKg: real, p: Part)
    requires 100.0 <= heightCm <= 250.0 && 30.0 <= weightKg <= 300.0
    ensures BmiFactor(heightCm, weightKg, p) >= 0.05
  {
    BmiLowerBound(heightCm, weightKg);
    var d := BmiDeviation(heightCm, weightKg);
    assert d >= -0.79;
    MulMonotonic(-0.79, d, BmiImpact(p));
  }

  lemma ShapedBaseLowerBound(heightCm: real, shape: BodyShape, p: Part)
    requires heightCm >= 100.0
    ensures ShapedBase(heightCm, shape, p) >= 22.8
  {
    ProportionLowerBound(shape, p);
    assert ShapedBase(heightCm, shape, p) == heightCm * (BaseRatio(p) * ShapeModifier(shape, p));
    MulMonotonic(100.0, heightCm, BaseRatio(p) * ShapeModifier(shape, p));
  }

  lemma ProductLowerBound(k: real, f: real, a: real)
    requires k >= 22.8 && f >= 0.05 && a >= 1.0
    ensures k * f * a > 1.0
  {
    MulMonotonic(22.8, k, f);
    MulMonotonic(0.05, f, 22.8);
    MulMonotonic(1.0, a, k * f);
  }

  /** A request that passed schema validation yields positive body measurements. */
  lemma ValidRequestGivesPositiveBody(r: RecommendRequest, p: Part)
    requires ValidRecommendRequest(r)
    ensures Dicts.Get(EstimatedMeasurements(r.userHeight, r.userWeight, r.bodyShape, r.age), PartName(p)).Some?
    ensures Dicts.Get(EstimatedMeasurements(r.userHeight, r.userWeight, r.bodyShape, r.age), PartName(p)).value > 0.0
  {
    EstimatedLookup(r.userHeight, r.userWeight, r.bodyShape, r.age, p);
    EstimatesPositiveOnValidRange(r.userHeight, r.userWeight, r.bodyShape, r.age, p);
  }

  // === Body analysis ===

  datatype BmiCategory = Underweight | Normal | Overweight | Obese

  function CategoryRank(c: BmiCategory): nat {
    match c
    case Underweight => 0
    case Normal => 1
    case Overweight => 2
    case Obese => 3
  }

  /** The BMI category: below 18.5, below 25, below 30, then obese. */
  function BmiCategoryOf(bmi: real): (c: BmiCategory)
    ensures c == Underweight <==> bmi < 18.5
    ensures c == Normal <==> 18.5 <= bmi < 25.0
    ensures c == Overweight <==> 25.0 <= bmi < 30.0
    ensures c == Obese <==> bmi >= 30.0
  {
    if bmi < 18.5 then Underweight
    else if bmi < 25.0 then Normal
    else if bmi < 30.0 then Overweight
    else Obese
  }

  /** A larger BMI never falls into a lower category. */
  lemma BmiCategoryMonotonic(b1: real, b2: real)
    requires b1 <= b2
    ensures CategoryRank(BmiCategoryOf(b1)) <= CategoryRank(BmiCategoryOf(b2))
  {
  }

  datatype BodyAnalysis = BodyAnalysis(
    bmi: real,
    bmiCategory: BmiCategory,
    measurements: Dicts.Dict<string, real>,
    waistToHipRatio: real,
    chestToWaistRatio: real)

  datatype AnalysisError = ZeroDivision

  /**
   * `get_body_analysis`: BMI (rounded), its category (from the unrounded BMI), the
   * measurements estimated without an age, and two rounded proportions. A hip or
   * waist that rounds to zero makes Python raise ZeroDivisionError.
   */
  method GetBodyAnalysis(heightCm: real, weightKg: real, shape: Option<BodyShape>)
    returns (r: Result<BodyAnalysis, AnalysisError>)
    requires heightCm != 0.0
    ensures
      var m := EstimatedMeasurements(heightCm, weightKg, shape, None);
      var waist := Estimate(heightCm, weightKg, shape, None, Waist);
      var hip := Estimate(heightCm, weightKg, shape, None, Hip);
      var chest := Estimate(heightCm, weightKg, shape, None, Chest);
      && (r.Failure? <==> hip == 0.0 || waist == 0.0)
      && (r.Success? ==>
            && r.value.measurements == m
            && r.value.bmi == Round1(CalculateBmi(heightCm, weightKg))
            && r.value.bmiCategory == BmiCategoryOf(CalculateBmi(heightCm, weightKg))
            && r.value.waistToHipRatio == Round2(waist / hip)
            && r.value.chestToWaistRatio == Round2(chest / waist))
  {
    var bmi := CalculateBmi(heightCm, weightKg);
    var measurements := EstimateMeasurements(heightCm, weightKg, shape, None);
    var category := BmiCategoryOf(bmi);
    EstimatedLookup(heightCm, weightKg, shape, None, Waist);
    EstimatedLookup(heightCm, weightKg, shape, None, Hip);
    EstimatedLookup(heightCm, weightKg, shape, None, Chest);
    var waist := Dicts.Get(measurements, "waist").value;
    var hip := Dicts.Get(measurements, "hip").value;
    var chest := Dicts.Get(measurements, "chest").value;
    if hip == 0.0 {
      return Failure(ZeroDivision);
    }
    var waistToHip := waist / hip;
    if waist == 0.0 {
      return Failure(ZeroDivision);
    }
    var chestToWaist := chest / waist;
    r := Success(BodyAnalysis(Round1(bmi), category, measurements, Round2(waistToHip), Round2(chestToWaist)));
  }

  /** On every height and weight the request schema admits, the analysis succeeds. */
  lemma AnalysisDefinedOnValidRange(heightCm: real, weightKg: real, shape: Option<BodyShape>)
    requires 100.0 <= heightCm <= 250.0 && 30.0 <= weightKg <= 300.0
    ensures Estimate(heightCm, weightKg, shape, None, Hip) != 0.0
    ensures Estimate(heightCm, weightKg, shape, None, Waist) != 0.0
  {
    EstimatesPositiveOnValidRange(heightCm, weightKg, shape, None, Hip);
    EstimatesPositiveOnValidRange(heightCm, weightKg, shape, None, Waist);
  }
}
