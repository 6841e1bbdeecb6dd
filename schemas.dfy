/**
 * The request/response schemas of the API: the enumerations, the numeric field bounds
 * that pydantic enforces before a handler runs, and the two custom validators of a
 * product ingestion request. Field bounds are predicates; a raised validation error
 * is a `Failure`.
 */
module Schemas {
  import opened Wrappers
  import Dicts
  import Numbers

  /** Product and tenant identifiers are UUIDs: 128-bit numbers. */
  type Uuid = x: int | 0 <= x < 0x1_0000_0000_0000_0000_0000_0000_0000_0000

  // === Enums ===

  datatype FitType = SlimFit | RegularFit | LooseFit | Oversized

  function FitTypeValue(f: FitType): string {
    match f
    case SlimFit => "slim_fit"
    case RegularFit => "regular_fit"
    case LooseFit => "loose_fit"
    case Oversized => "oversized"
  }

  /** `FitType(s)`: the member whose value is `s`; `None` where Python raises ValueError. */
  function ParseFitType(s: string): (r: Option<FitType>)
    ensures r.Some? ==> FitTypeValue(r.value) == s
  {
    if s == "slim_fit" then Some(SlimFit)
    else if s == "regular_fit" then Some(RegularFit)
    else if s == "loose_fit" then Some(LooseFit)
    else if s == "oversized" then Some(Oversized)
    else None
  }

  const AllFitTypes: seq<FitType> := [SlimFit, RegularFit, LooseFit, Oversized]

  /** FitType has exactly four members, and each one's value parses back to it. */
  lemma FitTypeEnumeration()
    ensures |AllFitTypes| == 4
    ensures forall i, j :: 0 <= i < j < |AllFitTypes| ==> AllFitTypes[i] != AllFitTypes[j]
    ensures forall f: FitType :: f in AllFitTypes && ParseFitType(FitTypeValue(f)) == Some(f)
  {
    forall f: FitType ensures f in AllFitTypes && ParseFitType(FitTypeValue(f)) == Some(f) {
      match f
      case SlimFit => assert AllFitTypes[0] == f;
      case RegularFit => assert AllFitTypes[1] == f;
      case LooseFit => assert AllFitTypes[2] == f;
      case Oversized => assert AllFitTypes[3] == f;
    }
  }

  datatype BodyShape = Athletic | Average | Slim | Stocky | PlusSize

  function BodyShapeValue(b: BodyShape): string {
    match b
    case Athletic => "athletic"
    case Average => "average"
    case Slim => "slim"
    case Stocky => "stocky"
    case PlusSize => "plus_size"
  }

  /** `BodyShape(s)`. */
  function ParseBodyShape(s: string): (r: Option<BodyShape>)
    ensures r.Some? ==> BodyShapeValue(r.value) == s
  {
    if s == "athletic" then Some(Athletic)
    else if s == "average" then Some(Average)
    else if s == "slim" then Some(Slim)
    else if s == "stocky" then Some(Stocky)
    else if s == "plus_size" then Some(PlusSize)
    else None
  }

  const AllBodyShapes: seq<BodyShape> := [Athletic, Average, Slim, Stocky, PlusSize]

  /** BodyShape has exactly five members, and each one's value parses back to it. */
  lemma BodyShapeEnumeration()
    ensures |AllBodyShapes| == 5
    ensures forall i, j :: 0 <= i < j < |AllBodyShapes| ==> AllBodyShapes[i] != AllBodyShapes[j]
    ensures forall b: BodyShape :: b in AllBodyShapes && ParseBodyShape(BodyShapeValue(b)) == Some(b)
  {
    forall b: BodyShape ensures b in AllBodyShapes && ParseBodyShape(BodyShapeValue(b)) == Some(b) {
      match b
      case Athletic => assert AllBodyShapes[0] == b;
      case Average => assert AllBodyShapes[1] == b;
      case Slim => assert AllBodyShapes[2] == b;
      case Stocky => assert AllBodyShapes[3] == b;
      case PlusSize => assert AllBodyShapes[4] == b;
    }
  }

  datatype SizeCode = XS | S | M | L | XL | XXL | XXXL

  function SizeCodeValue(c: SizeCode): string {
    match c
    case XS => "XS"
    case S => "S"
    case M => "M"
    case L => "L"
    case XL => "XL"
    case XXL => "XXL"
    case XXXL => "XXXL"
  }

  /** The fit preference a shopper may state; the request's literal type. */
  datatype PreferredFit = Tighter | TrueToSize | Looser

  /** The five fit-status tags of a size breakdown entry. */
  datatype FitStatus = Tight | Fitted | Comfortable | Loose | VeryLoose

  function FitStatusValue(s: FitStatus): string {
    match s
    case Tight => "tight"
    case Fitted => "fitted"
    case Comfortable => "comfortable"
    case Loose => "loose"
    case VeryLoose => "very_loose"
  }

  // === Product ingestion ===

  /** Measurements of one size of a garment, in cm. */
  datatype ProductMeasurements = ProductMeasurements(
    chestWidth: real,
    length: real,
    waist: Option<real>,
    hip: Option<real>,
    sleeveLength: Option<real>,
    shoulderWidth: Option<real>)

  predicate OptionalInRange(v: Option<real>, lo: real, hi: real) {
    v.None? || lo <= v.value <= hi
  }

  /** The `ge`/`le` bounds of every field; chest width and length are required. */
  predicate ValidProductMeasurements(m: ProductMeasurements) {
    && 30.0 <= m.chestWidth <= 200.0
    && 30.0 <= m.length <= 150.0
    && OptionalInRange(m.waist, 30.0, 180.0)
    && OptionalInRange(m.hip, 30.0, 200.0)
    && OptionalInRange(m.sleeveLength, 20.0, 100.0)
    && OptionalInRange(m.shoulderWidth, 20.0, 80.0)
  }

  /** A garment measurement set keyed by field name; a missing optional field is `None`. */
  type GarmentMeasurements = Dicts.Dict<string, Option<real>>

  /** `model_dump()`: every field, in declaration order, absent optional fields as `None`. */
  function ModelDump(m: ProductMeasurements): (d: GarmentMeasurements)
    ensures Dicts.Keys(d) == ["chest_width", "length", "waist", "hip", "sleeve_length", "shoulder_width"]
  {
    [("chest_width", Some(m.chestWidth)), ("length", Some(m.length)), ("waist", m.waist),
     ("hip", m.hip), ("sleeve_length", m.sleeveLength), ("shoulder_width", m.shoulderWidth)]
  }

  /** Every value present in a validated measurement set is a positive length (at least 20 cm). */
  lemma ValidMeasurementsPositive(m: ProductMeasurements, k: string, v: real)
    requires ValidProductMeasurements(m)
    requires Dicts.Get(ModelDump(m), k) == Some(Some(v))
    ensures v >= 20.0
  {
    var d := ModelDump(m);
    assert Dicts.Get(d, k) == if k == "chest_width" then Some(Some(m.chestWidth))
      else Dicts.Get(d[1..], k);
    assert Dicts.Get(d[1..], k) == if k == "length" then Some(Some(m.length))
      else Dicts.Get(d[2..], k);
    assert Dicts.Get(d[2..], k) == if k == "waist" then Some(m.waist)
      else Dicts.Get(d[3..], k);
    assert Dicts.Get(d[3..], k) == if k == "hip" then Some(m.hip)
      else Dicts.Get(d[4..], k);
    assert Dicts.Get(d[4..], k) == if k == "sleeve_length" then Some(m.sleeveLength)
      else Dicts.Get(d[5..], k);
    assert Dicts.Get(d[5..], k) == if k == "shoulder_width" then Some(m.shoulderWidth)
      else Dicts.Get(d[6..], k);
    assert d[6..] == [];
  }

  datatype ProductIngestRequest = ProductIngestRequest(
    sku: string,
    name: string,
    fitType: FitType,
    fabricComposition: Dicts.Dict<string, real>,
    measurements: Dicts.Dict<string, ProductMeasurements>)

  /**
   * The field constraints of an ingestion request. Both tables arrive as JSON objects
   * parsed into dictionaries, so their keys are unique.
   */
  ghost predicate ValidIngestFields(r: ProductIngestRequest) {
    && Dicts.DistinctKeys(r.fabricComposition) && Dicts.DistinctKeys(r.measurements)
    && 1 <= |r.sku| <= 100
    && 1 <= |r.name| <= 255
    && forall i :: 0 <= i < |r.measurements| ==> ValidProductMeasurements(r.measurements[i].1)
  }

  datatype ValidationError = ValidationError(message: string)

  /** `sum(v.values())`. */
  function SumValues(v: Dicts.Dict<string, real>): real
    decreases |v|
  {
    if v == [] then 0.0 else SumValues(v[..|v| - 1]) + v[|v| - 1].1
  }

  /** Accepts a fabric composition whose percentages add up to between 99 and 101, unchanged. */
  function ValidateFabricComposition(v: Dicts.Dict<string, real>): (r: Result<Dicts.Dict<string, real>, ValidationError>)
    ensures r.Success? <==> 99.0 <= SumValues(v) <= 101.0
    ensures r.Success? ==> r.value == v
  {
    var total := SumValues(v);
    if !(99.0 <= total <= 101.0) then Failure(ValidationError("Fabric composition must sum to 100%"))
    else Success(v)
  }

  /** Accepts a per-size measurement table only when it has at least one size. */
  function ValidateMeasurements(v: Dicts.Dict<string, ProductMeasurements>): (r: Result<Dicts.Dict<string, ProductMeasurements>, ValidationError>)
    ensures r.Success? <==> |v| > 0
    ensures r.Success? ==> r.value == v
  {
    if |v| == 0 then Failure(ValidationError("At least one size measurement is required"))
    else Success(v)
  }

  /** A request passes validation when its fields and both validators accept it. */
  ghost predicate ValidIngestRequest(r: ProductIngestRequest) {
    && ValidIngestFields(r)
    && ValidateFabricComposition(r.fabricComposition).Success?
    && ValidateMeasurements(r.measurements).Success?
  }

  datatype ProductIngestResponse = ProductIngestResponse(
    productId: Uuid,
    sku: string,
    message: string,
    sizesCount: nat)

  // === Size recommendation ===

  datatype RecommendRequest = RecommendRequest(
    productId: Uuid,
    userHeight: real,
    userWeight: real,
    age: Option<int>,
    bodyShape: Option<BodyShape>,
    preferredFit: Option<PreferredFit>)

  /** The bounds pydantic enforces on a recommendation request. */
  predicate ValidRecommendRequest(r: RecommendRequest) {
    && 100.0 <= r.userHeight <= 250.0
    && 30.0 <= r.userWeight <= 300.0
    && (r.age.Some? ==> 10 <= r.age.value <= 120)
  }

  /** The preference the engine receives: `request.preferred_fit or "true_to_size"`. */
  function EffectivePreference(r: RecommendRequest): (p: PreferredFit)
    ensures r.preferredFit.None? ==> p == TrueToSize
    ensures r.preferredFit.Some? ==> p == r.preferredFit.value
  {
    r.preferredFit.GetOr(TrueToSize)
  }

  /** The request as built when the client omits `preferred_fit`: the field default applies. */
  function RequestWithDefaults(productId: Uuid, height: real, weight: real, age: Option<int>, shape: Option<BodyShape>): (r: RecommendRequest)
    ensures EffectivePreference(r) == TrueToSize
  {
    RecommendRequest(productId, height, weight, age, shape, Some(TrueToSize))
  }

  /** One measurement's comparison in a recommendation. */
  datatype SizeBreakdown = SizeBreakdown(
    measurement: string,
    userEstimated: real,
    garmentActual: real,
    easeApplied: real,
    fitStatus: FitStatus)

  datatype RecommendResponse = RecommendResponse(
    recommendedSize: string,
    confidenceScore: int,
    fitDescription: string,
    fitDescriptionTr: Option<string>,
    sizeBreakdown: seq<SizeBreakdown>,
    alternativeSize: Option<string>,
    notes: Option<string>)

  /** The response's field bound: a confidence percentage. */
  predicate ValidRecommendResponse(r: RecommendResponse) {
    0 <= r.confidenceScore <= 100
  }
}
